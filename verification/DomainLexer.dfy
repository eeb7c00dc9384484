/**
 The domain tokenizer. The functions say which token starts at a position of the source and
 where it ends; class `Lexer` is the machine with a cursor and a growing token list.
 A `char` stands for one byte. Token positions only serve error texts and are not modelled.
 */
module DomainLexer {
  import opened Options
  import opened Numbers

  datatype Kind =
    | LBracket | RBracket | LParen | RParen | Comma
    | StringKind | IntKind | FloatKind
    | TrueKind | FalseKind | NoneKind
    | AndKind | OrKind | NotKind
    | RefKind
    | EndOfInput

  datatype Token = Token(kind: Kind, text: string)

  const END := Token(EndOfInput, "")

  // ----- Character classes -----

  predicate IsSpace(c: char) {
    c in {'\t', '\n', '\U{0B}', '\U{0C}', '\r', ' ', '\U{85}', '\U{A0}'}
  }

  predicate IsIdentStart(c: char) { 'a' <= c <= 'z' || 'A' <= c <= 'Z' || c == '_' }

  predicate IsIdentPart(c: char) { IsIdentStart(c) || IsDigit(c) }

  // ----- Which token starts where -----

  function SpaceEnd(src: string, pos: nat): (e: nat)
    requires pos <= |src|
    ensures pos <= e <= |src|
    ensures e < |src| ==> !IsSpace(src[e])
    decreases |src| - pos
  {
    if pos == |src| || !IsSpace(src[pos]) then pos else SpaceEnd(src, pos + 1)
  }

  function Unescaped(c: char): string {
    if c == 'n' then "\n"
    else if c == 't' then "\t"
    else if c in {'\\', '\'', '"'} then [c]
    else ['\\', c]
  }

  /** Text read so far plus the rest of the quoted string, and the position after its closing quote. */
  function Quoted(src: string, pos: nat, quote: char, text: string): (r: Reading<string>)
    requires pos <= |src|
    ensures r.Read? ==> pos < r.next <= |src|
    decreases |src| - pos
  {
    if pos == |src| then Fail
    else if src[pos] == '\\' && pos + 1 < |src| then Quoted(src, pos + 2, quote, text + Unescaped(src[pos + 1]))
    else if src[pos] == quote then Read(text, pos + 1)
    else Quoted(src, pos + 1, quote, text + [src[pos]])
  }

  function QuotedToken(text: string): Token {
    Token(if text == "&" then AndKind
          else if text == "|" then OrKind
          else if text == "!" then NotKind
          else StringKind, text)
  }

  /** End of the run of digits with at most one point (none once a point was seen). */
  function NumberEnd(src: string, pos: nat, hasDot: bool): (e: nat)
    requires pos <= |src|
    ensures pos <= e <= |src|
    decreases |src| - pos
  {
    if pos == |src| then pos
    else if src[pos] == '.' then (if hasDot then pos else NumberEnd(src, pos + 1, true))
    else if IsDigit(src[pos]) then NumberEnd(src, pos + 1, hasDot)
    else pos
  }

  /** A sign, a point or both, with no digit. */
  predicate NoNumber(text: string) {
    text == "." || text == "-" || text == "+" || text == "-." || text == "+."
  }

  function NumberToken(text: string, hasDot: bool): Token {
    Token(if hasDot then FloatKind else IntKind, text)
  }

  function Number(src: string, pos: nat): (r: Reading<Token>)
    requires pos < |src|
    requires IsSign(src[pos]) || IsDigit(src[pos]) || src[pos] == '.'
    ensures r.Read? ==> pos < r.next <= |src|
  {
    var e := NumberEnd(src, if IsSign(src[pos]) then pos + 1 else pos, false);
    var text := src[pos..e];
    if NoNumber(text) then Fail
    else Read(NumberToken(text, '.' in text), e)
  }

  function IdentEnd(src: string, pos: nat): (e: nat)
    requires pos <= |src|
    ensures pos <= e <= |src|
    decreases |src| - pos
  {
    if pos == |src| || !(IsIdentPart(src[pos]) || src[pos] == '.') then pos else IdentEnd(src, pos + 1)
  }

  function WordToken(text: string): Token {
    Token(if text == "True" then TrueKind
          else if text == "False" then FalseKind
          else if text == "None" then NoneKind
          else RefKind, text)
  }

  function PunctKind(c: char): Option<Kind> {
    match c
    case '[' => Some(LBracket)
    case ']' => Some(RBracket)
    case '(' => Some(LParen)
    case ')' => Some(RParen)
    case ',' => Some(Comma)
    case _ => None
  }

  /** The token at a position that holds no white space, and where it ends. */
  function TokenAt(src: string, pos: nat): (r: Reading<Token>)
    requires pos < |src|
    ensures r.Read? ==> pos < r.next <= |src|
  {
    var c := src[pos];
    if PunctKind(c).Some? then Read(Token(PunctKind(c).value, [c]), pos + 1)
    else if c == '\'' || c == '"' then
      match Quoted(src, pos + 1, c, "")
      case Fail => Fail
      case Read(text, e) => Read(QuotedToken(text), e)
    else if IsSign(c) then
      if pos + 1 < |src| && (IsDigit(src[pos + 1]) || src[pos + 1] == '.') then Number(src, pos) else Fail
    else if IsDigit(c) || c == '.' then Number(src, pos)
    else if IsIdentStart(c) then
      var e := IdentEnd(src, pos);
      Read(WordToken(src[pos..e]), e)
    else Fail
  }

  /** All tokens from a position on, closed by the end marker; None stands for a lexer error. */
  function TokensFrom(src: string, pos: nat, read: seq<Token>): Option<seq<Token>>
    requires pos <= |src|
    decreases |src| - pos
  {
    var at := SpaceEnd(src, pos);
    if at == |src| then Some(read + [END])
    else
      match TokenAt(src, at)
      case Fail => None
      case Read(tok, e) => TokensFrom(src, e, read + [tok])
  }

  function Tokens(src: string): Option<seq<Token>> { TokensFrom(src, 0, []) }

  // ----- The machine -----

  class Lexer {
    const src: string
    var pos: nat
    var tokens: seq<Token>

    ghost predicate Valid()
      reads this
    {
      pos <= |src|
    }

    constructor (src: string)
      ensures Valid() && this.src == src && pos == 0 && tokens == []
    {
      this.src := src;
      pos := 0;
      tokens := [];
    }

    method SkipWhitespace()
      requires Valid()
      modifies this`pos
      ensures Valid() && pos == SpaceEnd(src, old(pos))
    {
      while pos < |src| && IsSpace(src[pos])
        invariant Valid()
        invariant SpaceEnd(src, old(pos)) == SpaceEnd(src, pos)
        decreases |src| - pos
      {
        pos := pos + 1;
      }
    }

    /** Reads the string whose opening quote is at the cursor; a quoted & | ! is an operator token. */
    method LexString(quote: char) returns (ok: bool)
      requires Valid() && pos < |src|
      modifies this
      ensures Valid()
      ensures match Quoted(src, old(pos) + 1, quote, "")
              case Fail => !ok && tokens == old(tokens)
              case Read(text, e) => ok && pos == e && tokens == old(tokens) + [QuotedToken(text)]
    {
      pos := pos + 1;
      var text := "";
      while pos < |src|
        invariant Valid() && tokens == old(tokens)
        invariant Quoted(src, old(pos) + 1, quote, "") == Quoted(src, pos, quote, text)
        decreases |src| - pos
      {
        if src[pos] == '\\' && pos + 1 < |src| {
          text := text + Unescaped(src[pos + 1]);
          pos := pos + 2;
        } else if src[pos] == quote {
          pos := pos + 1;
          tokens := tokens + [QuotedToken(text)];
          return true;
        } else {
          text := text + [src[pos]];
          pos := pos + 1;
        }
      }
      return false;
    }

    /** Reads a number with an optional sign and at most one point. */
    method LexNumber() returns (ok: bool)
      requires Valid() && pos < |src|
      requires IsSign(src[pos]) || IsDigit(src[pos]) || src[pos] == '.'
      modifies this
      ensures Valid()
      ensures match Number(src, old(pos))
              case Fail => !ok && tokens == old(tokens)
              case Read(tok, e) => ok && pos == e && tokens == old(tokens) + [tok]
    {
      var start := pos;
      if IsSign(src[pos]) {
        pos := pos + 1;
      }
      ghost var body := pos;
      var hasDot := false;
      while pos < |src| && (IsDigit(src[pos]) || (src[pos] == '.' && !hasDot))
        invariant Valid() && body <= pos && tokens == old(tokens)
        invariant NumberEnd(src, body, false) == NumberEnd(src, pos, hasDot)
        invariant hasDot <==> '.' in src[start..pos]
        decreases |src| - pos
      {
        assert src[start..pos + 1] == src[start..pos] + [src[pos]];
        if src[pos] == '.' {
          hasDot := true;
        }
        pos := pos + 1;
      }
      var text := src[start..pos];
      if NoNumber(text) {
        return false;
      }
      tokens := tokens + [NumberToken(text, hasDot)];
      return true;
    }

    /** Reads a dotted identifier or one of the three keywords. */
    method LexWord()
      requires Valid() && pos < |src|
      modifies this
      ensures Valid() && pos == IdentEnd(src, old(pos))
      ensures tokens == old(tokens) + [WordToken(src[old(pos)..pos])]
    {
      var start := pos;
      while pos < |src| && (IsIdentPart(src[pos]) || src[pos] == '.')
        invariant Valid() && start <= pos && tokens == old(tokens)
        invariant IdentEnd(src, start) == IdentEnd(src, pos)
        decreases |src| - pos
      {
        pos := pos + 1;
      }
      tokens := tokens + [WordToken(src[start..pos])];
    }

    method LexNextToken() returns (ok: bool)
      requires Valid() && pos < |src|
      modifies this
      ensures Valid()
      ensures match TokenAt(src, old(pos))
              case Fail => !ok && tokens == old(tokens)
              case Read(tok, e) => ok && pos == e && tokens == old(tokens) + [tok]
    {
      var c := src[pos];
      if PunctKind(c).Some? {
        tokens := tokens + [Token(PunctKind(c).value, [c])];
        pos := pos + 1;
        ok := true;
      } else if c == '\'' || c == '"' {
        ok := LexString(c);
      } else if IsSign(c) {
        if pos + 1 < |src| && (IsDigit(src[pos + 1]) || src[pos + 1] == '.') {
          ok := LexNumber();
        } else {
          ok := false;
        }
      } else if IsDigit(c) || c == '.' {
        ok := LexNumber();
      } else if IsIdentStart(c) {
        LexWord();
        ok := true;
      } else {
        ok := false;
      }
    }

    method Run() returns (ok: bool)
      requires Valid() && pos == 0 && tokens == []
      modifies this
      ensures match Tokens(src)
              case None => !ok
              case Some(ts) => ok && tokens == ts
    {
      while true
        invariant Valid()
        invariant Tokens(src) == TokensFrom(src, pos, tokens)
        decreases |src| - pos
      {
        SkipWhitespace();
        if pos >= |src| {
          tokens := tokens + [END];
          return true;
        }
        ok := LexNextToken();
        if !ok {
          return;
        }
      }
    }
  }

  method Lex(src: string) returns (r: Option<seq<Token>>)
    ensures r == Tokens(src)
  {
    var l := new Lexer(src);
    var ok := l.Run();
    r := if ok then Some(l.tokens) else None;
  }
}

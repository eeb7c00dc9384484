/**
 What the lexer accepts, stated without it: a text is read as a token list exactly when it writes
 one lexeme per token, in order, with any white space around them and each as long as it can be.
 */
module DomainLayout {
  import opened Options
  import opened Segments
  import opened Numbers
  import opened DomainLexer

  // ----- Lexemes -----

  predicate IsQuotedKind(k: Kind) { k == StringKind || k == AndKind || k == OrKind || k == NotKind }

  predicate IsWordKind(k: Kind) { k == RefKind || k == TrueKind || k == FalseKind || k == NoneKind }

  predicate IsPunctKind(k: Kind) { k in {LBracket, RBracket, LParen, RParen, Comma} }

  function Punct(k: Kind): Token
    requires IsPunctKind(k)
  {
    Token(k, match k case LBracket => "[" case RBracket => "]" case LParen => "(" case RParen => ")" case _ => ",")
  }

  predicate IsWordByte(c: char) { IsIdentPart(c) || c == '.' }

  predicate IsIdent(t: string) {
    t != "" && IsIdentStart(t[0]) && forall k :: 0 <= k < |t| ==> IsWordByte(t[k])
  }

  predicate IsIntLexeme(t: string) {
    SignLen(t) < |t| && forall i :: SignLen(t) <= i < |t| ==> IsDigit(t[i])
  }

  /** Digits around a point at an index, at least one of them. */
  predicate PointsAt(t: string, k: nat) {
    && SignLen(t) <= k < |t| && |t| > SignLen(t) + 1 && t[k] == '.'
    && forall i :: SignLen(t) <= i < |t| && i != k ==> IsDigit(t[i])
  }

  ghost predicate IsFloatLexeme(t: string) { exists k :: PointsAt(t, k) }

  predicate IsQuote(c: char) { c == '\'' || c == '"' }

  /** The bytes a backslash changes; before any other byte it stands for itself. */
  const ESCAPES: map<char, char> := map['n' := '\n', 't' := '\t', '\\' := '\\', '\'' := '\'', '"' := '"']

  function EscapeMeaning(c: char): string { if c in ESCAPES then [ESCAPES[c]] else ['\\', c] }

  lemma {:induction false} EscapeExact(c: char)
    ensures Unescaped(c) == EscapeMeaning(c)
  {
  }

  /** What stands between two quotes, with its escapes resolved; None if it holds a bare quote or half an escape. */
  function Decoded(src: string, pos: nat, e: nat, quote: char): Option<string>
    requires pos <= e <= |src|
    decreases e - pos
  {
    if pos == e then Some("")
    else if src[pos] == '\\' then if pos + 1 < e then Behind(EscapeMeaning(src[pos + 1]), Decoded(src, pos + 2, e, quote)) else None
    else if src[pos] == quote then None
    else Behind([src[pos]], Decoded(src, pos + 1, e, quote))
  }

  function Behind(head: string, tail: Option<string>): Option<string> {
    if tail.None? then None else Some(head + tail.value)
  }

  /** A quotation of a text, in single or double quotes, fills a stretch of the source. */
  ghost predicate Quotes(src: string, at: nat, e: nat, text: string) {
    && at + 2 <= e <= |src| && IsQuote(src[at]) && src[e - 1] == src[at]
    && Decoded(src, at + 1, e - 1, src[at]) == Some(text)
  }

  /** A lexeme of the token fills the stretch. */
  ghost predicate Spelling(src: string, at: nat, e: nat, tok: Token)
    requires at < e <= |src|
  {
    var w := src[at..e];
    if IsPunctKind(tok.kind) then tok == Punct(tok.kind) && w == tok.text
    else if IsQuotedKind(tok.kind) then tok == QuotedToken(tok.text) && Quotes(src, at, e, tok.text)
    else if IsWordKind(tok.kind) then tok == WordToken(w) && IsIdent(w)
    else if tok.kind == IntKind then tok.text == w && IsIntLexeme(w)
    else tok.kind == FloatKind && tok.text == w && IsFloatLexeme(w)
  }

  /** The byte behind a word or number does not extend it. */
  predicate Stops(src: string, e: nat, k: Kind) {
    e >= |src| ||
    if IsWordKind(k) then !IsWordByte(src[e])
    else if k == IntKind then !IsDigit(src[e]) && src[e] != '.'
    else if k == FloatKind then !IsDigit(src[e])
    else true
  }

  ghost predicate LexemeAt(src: string, at: nat, e: nat, tok: Token) {
    at < e <= |src| && Spelling(src, at, e, tok) && Stops(src, e, tok.kind)
  }

  // ----- Bytes -----

  /** White space by byte value: tab to carriage return, blank, next line and no-break space. */
  predicate IsBlank(c: char) { 9 <= c as int <= 13 || c as int in {32, 0x85, 0xA0} }

  /** The lexer skips exactly the white space up to the first other byte. */
  lemma {:induction false} SpaceEndExact(src: string, pos: nat, at: nat)
    requires pos <= |src|
    ensures SpaceEnd(src, pos) == at <==>
            pos <= at <= |src| && (forall i :: pos <= i < at ==> IsBlank(src[i])) && (at < |src| ==> !IsBlank(src[at]))
    decreases |src| - pos
  {
    if pos < |src| && IsSpace(src[pos]) { SpaceEndExact(src, pos + 1, at); }
  }

  /** Letters and the underscore by byte value. */
  predicate IsLetter(c: char) { 65 <= c as int <= 90 || c as int == 95 || 97 <= c as int <= 122 }

  /** Words start with a letter or an underscore and go on with those and digits. */
  lemma {:induction false} WordBytes(c: char)
    ensures IsIdentStart(c) <==> IsLetter(c)
    ensures IsIdentPart(c) <==> IsLetter(c) || 48 <= c as int <= 57
  {
  }

  // ----- Strings -----

  lemma {:induction false} Prepend(text: string, head: string, tail: string)
    ensures (text + head) + tail == text + (head + tail)
  {
  }

  /** The string loop ends at a closing quote exactly when what it passed decodes. */
  lemma {:induction false} QuotedExact(src: string, pos: nat, quote: char, text: string, t: string, e: nat)
    requires pos <= |src| && IsQuote(quote)
    ensures Quoted(src, pos, quote, text) == Read(t, e) <==>
            && pos < e <= |src| && src[e - 1] == quote
            && Decoded(src, pos, e - 1, quote).Some? && t == text + Decoded(src, pos, e - 1, quote).value
    decreases |src| - pos
  {
    if pos == |src| {
    } else if src[pos] == '\\' && pos + 1 < |src| {
      EscapeExact(src[pos + 1]);
      QuotedExact(src, pos + 2, quote, text + Unescaped(src[pos + 1]), t, e);
      if pos + 2 < e <= |src| && Decoded(src, pos + 2, e - 1, quote).Some? {
        Prepend(text, Unescaped(src[pos + 1]), Decoded(src, pos + 2, e - 1, quote).value);
      }
    } else if src[pos] == quote {
      assert text + "" == text;
    } else {
      QuotedExact(src, pos + 1, quote, text + [src[pos]], t, e);
      if pos + 1 < e <= |src| && Decoded(src, pos + 1, e - 1, quote).Some? {
        Prepend(text, [src[pos]], Decoded(src, pos + 1, e - 1, quote).value);
      }
    }
  }

  lemma {:induction false} QuotedTokenExact(src: string, at: nat, tok: Token, e: nat)
    requires at < |src| && IsQuote(src[at])
    ensures TokenAt(src, at) == Read(tok, e) <==> IsQuotedKind(tok.kind) && tok == QuotedToken(tok.text) && Quotes(src, at, e, tok.text)
  {
    hide Decoded;
    var t := tok.text;
    QuotedExact(src, at + 1, src[at], "", t, e);
    assert forall s: string :: "" + s == s;
    if Quoted(src, at + 1, src[at], "").Read? {
      var Read(t', e') := Quoted(src, at + 1, src[at], "");
      QuotedExact(src, at + 1, src[at], "", t', e');
    }
  }

  // ----- Words -----

  lemma {:induction false} WordRun(src: string, pos: nat)
    requires pos <= |src|
    ensures var e := IdentEnd(src, pos);
            (forall i :: pos <= i < e ==> IsWordByte(src[i])) && (e < |src| ==> !IsWordByte(src[e]))
    decreases |src| - pos
  {
    if pos < |src| && IsWordByte(src[pos]) { WordRun(src, pos + 1); }
  }

  lemma {:induction false} WordEndUnique(src: string, pos: nat, e: nat)
    requires pos <= e <= |src| && (forall i :: pos <= i < e ==> IsWordByte(src[i])) && (e < |src| ==> !IsWordByte(src[e]))
    ensures IdentEnd(src, pos) == e
  {
    WordRun(src, pos);
  }

  lemma {:induction false} WordTokenKinds(t: string)
    ensures IsWordKind(WordToken(t).kind) && WordToken(t).text == t
  {
  }

  lemma {:induction false} WordAt(src: string, at: nat)
    requires at < |src| && IsIdentStart(src[at])
    ensures TokenAt(src, at) == Read(WordToken(src[at..IdentEnd(src, at)]), IdentEnd(src, at))
  {
    hide WordToken, IdentEnd, Quoted, Number;
  }

  lemma {:induction false} WordExact(src: string, at: nat, tok: Token, e: nat)
    requires at < |src| && IsIdentStart(src[at])
    ensures TokenAt(src, at) == Read(tok, e) <==>
            at < e <= |src| && IsWordKind(tok.kind) && tok == WordToken(src[at..e]) && IsIdent(src[at..e]) && Stops(src, e, tok.kind)
  {
    hide TokenAt, WordToken, IdentEnd;
    WordAt(src, at);
    WordRun(src, at);
    var end := IdentEnd(src, at);
    WordTokenKinds(src[at..end]);
    if at < e <= |src| && IsIdent(src[at..e]) && (e < |src| ==> !IsWordByte(src[e])) {
      forall i | at <= i < e ensures IsWordByte(src[i]) { assert src[at..e][i - at] == src[i]; }
      WordEndUnique(src, at, e);
    }
    assert at < end;
    assert forall i :: 0 <= i < end - at ==> src[at..end][i] == src[at + i];
  }

  // ----- Numbers -----

  ghost predicate DigitsIn(src: string, p: nat, e: nat) { e <= |src| && forall i :: p <= i < e ==> IsDigit(src[i]) }

  ghost predicate PointIn(src: string, p: nat, e: nat, k: nat) {
    p <= k < e <= |src| && src[k] == '.' && forall i :: p <= i < e && i != k ==> IsDigit(src[i])
  }

  /** The number loop stops behind digits, or behind digits with one point. */
  lemma {:induction false} NumberShape(src: string, p: nat, hasDot: bool) returns (k: nat)
    requires p <= |src|
    ensures var e := NumberEnd(src, p, hasDot);
            || (DigitsIn(src, p, e) && (e < |src| ==> !IsDigit(src[e]) && (src[e] == '.' ==> hasDot)))
            || (!hasDot && PointIn(src, p, e, k) && (e < |src| ==> !IsDigit(src[e])))
    decreases |src| - p
  {
    k := p;
    if p < |src| && src[p] == '.' && !hasDot {
      var _ := NumberShape(src, p + 1, true);
    } else if p < |src| && src[p] != '.' && IsDigit(src[p]) {
      k := NumberShape(src, p + 1, hasDot);
    }
  }

  lemma {:induction false} DigitsRun(src: string, pos: nat, e: nat, hasDot: bool)
    requires pos <= e <= |src| && DigitsIn(src, pos, e)
    ensures NumberEnd(src, pos, hasDot) == NumberEnd(src, e, hasDot)
    decreases e - pos
  {
    if pos < e { DigitsRun(src, pos + 1, e, hasDot); }
  }

  lemma {:induction false} NumberEndsThere(src: string, p: nat, e: nat, k: nat)
    requires p <= e <= |src|
    requires || (DigitsIn(src, p, e) && (e < |src| ==> !IsDigit(src[e]) && src[e] != '.'))
             || (PointIn(src, p, e, k) && (e < |src| ==> !IsDigit(src[e])))
    ensures NumberEnd(src, p, false) == e
  {
    if DigitsIn(src, p, e) {
      DigitsRun(src, p, e, false);
    } else {
      DigitsRun(src, p, k, false);
      DigitsRun(src, k + 1, e, true);
    }
  }

  function Unsigned(src: string, at: nat): nat
    requires at < |src|
  {
    if IsSign(src[at]) then at + 1 else at
  }

  predicate StartsNumber(c: char) { IsSign(c) || IsDigit(c) || c == '.' }

  lemma {:induction false} NumberAt(src: string, at: nat)
    requires at < |src| && StartsNumber(src[at])
    ensures TokenAt(src, at) == Number(src, at)
  {
    hide Quoted;
    if IsSign(src[at]) && !(at + 1 < |src| && (IsDigit(src[at + 1]) || src[at + 1] == '.')) {
      assert NumberEnd(src, at + 1, false) == at + 1;
      assert src[at..at + 1] == [src[at]];
    }
  }

  /** Digits behind an optional sign are exactly the integer lexemes. */
  lemma {:induction false} IntLexemeIn(src: string, at: nat, e: nat)
    requires at < e <= |src| && StartsNumber(src[at])
    ensures IsIntLexeme(src[at..e]) <==> Unsigned(src, at) < e && DigitsIn(src, Unsigned(src, at), e)
    ensures IsIntLexeme(src[at..e]) ==> '.' !in src[at..e] && !NoNumber(src[at..e])
  {
    var w, p := src[at..e], Unsigned(src, at);
    assert forall i :: 0 <= i < |w| ==> w[i] == src[at + i];
    assert forall i :: p <= i < e ==> src[i] == w[i - at];
    if IsIntLexeme(w) { assert IsDigit(w[|w| - 1]); }
  }

  /** Digits with one point behind an optional sign, at least one digit, are exactly the float lexemes. */
  lemma {:induction false} FloatLexemeIn(src: string, at: nat, e: nat, k: nat)
    requires at < e <= |src| && StartsNumber(src[at]) && at <= k
    ensures PointsAt(src[at..e], k - at) <==> Unsigned(src, at) + 1 < e && PointIn(src, Unsigned(src, at), e, k)
    ensures PointsAt(src[at..e], k - at) ==> '.' in src[at..e] && !NoNumber(src[at..e])
  {
    var w, p := src[at..e], Unsigned(src, at);
    assert forall i :: 0 <= i < |w| ==> w[i] == src[at + i];
    assert forall i :: p <= i < e ==> src[i] == w[i - at];
    if PointsAt(w, k - at) { assert IsDigit(if k == e - 1 then w[k - at - 1] else w[|w| - 1]); }
  }

  /** A sign or a point alone is no number. */
  lemma {:induction false} BareText(src: string, at: nat, e: nat, k: nat)
    requires at < e <= |src| && StartsNumber(src[at])
    requires (Unsigned(src, at) == e) || (Unsigned(src, at) + 1 == e && PointIn(src, Unsigned(src, at), e, k))
    ensures NoNumber(src[at..e])
  {
    var w, p := src[at..e], Unsigned(src, at);
    assert forall i :: 0 <= i < |w| ==> w[i] == src[at + i];
    if p == e {
      assert w == [src[at]];
    } else if p == at {
      assert w == ".";
    } else {
      assert w == [src[at], '.'];
    }
  }

  ghost predicate IsNumberAt(src: string, at: nat, e: nat, tok: Token) {
    && at < e <= |src| && (tok.kind == IntKind || tok.kind == FloatKind) && tok.text == src[at..e]
    && (if tok.kind == IntKind then IsIntLexeme(src[at..e]) else IsFloatLexeme(src[at..e]))
    && Stops(src, e, tok.kind)
  }

  lemma {:induction false} NumberSound(src: string, at: nat)
    requires at < |src| && StartsNumber(src[at]) && Number(src, at).Read?
    ensures IsNumberAt(src, at, Number(src, at).next, Number(src, at).value)
  {
    hide NumberEnd, IsIntLexeme, PointsAt, NoNumber;
    var p := Unsigned(src, at);
    var e := NumberEnd(src, p, false);
    NumberMoves(src, at);
    var k := NumberShape(src, p, false);
    IntLexemeIn(src, at, e);
    if DigitsIn(src, p, e) {
      if p == e { BareText(src, at, e, k); }
    } else {
      FloatLexemeIn(src, at, e, k);
      if p + 1 == e { BareText(src, at, e, k); }
      assert PointsAt(src[at..e], k - at);
    }
  }

  lemma {:induction false} NumberMoves(src: string, at: nat)
    requires at < |src| && StartsNumber(src[at])
    ensures at < NumberEnd(src, Unsigned(src, at), false)
  {
  }

  lemma {:induction false} NumberComplete(src: string, at: nat, e: nat, tok: Token)
    requires at < |src| && StartsNumber(src[at]) && IsNumberAt(src, at, e, tok)
    ensures Number(src, at) == Read(tok, e)
  {
    hide NumberEnd, IsIntLexeme, PointsAt, NoNumber;
    var p := Unsigned(src, at);
    if tok.kind == IntKind {
      IntLexemeIn(src, at, e);
      NumberEndsThere(src, p, e, p);
    } else {
      var k :| PointsAt(src[at..e], k);
      FloatLexemeIn(src, at, e, at + k);
      NumberEndsThere(src, p, e, at + k);
    }
  }

  lemma {:induction false} NumberExact(src: string, at: nat, tok: Token, e: nat)
    requires at < |src| && StartsNumber(src[at])
    ensures TokenAt(src, at) == Read(tok, e) <==> IsNumberAt(src, at, e, tok)
  {
    hide TokenAt, Number, IsNumberAt;
    NumberAt(src, at);
    if Number(src, at).Read? { NumberSound(src, at); }
    if IsNumberAt(src, at, e, tok) { NumberComplete(src, at, e, tok); }
  }

  // ----- Any token -----

  /** The first byte of a lexeme. */
  lemma {:induction false} LexemeStarts(src: string, at: nat, e: nat, tok: Token)
    requires LexemeAt(src, at, e, tok)
    ensures IsPunctKind(tok.kind) ==> PunctKind(src[at]).Some?
    ensures IsQuotedKind(tok.kind) ==> IsQuote(src[at])
    ensures IsWordKind(tok.kind) ==> IsIdentStart(src[at])
    ensures tok.kind == IntKind || tok.kind == FloatKind ==> StartsNumber(src[at])
    ensures tok.kind != EndOfInput
  {
    var w := src[at..e];
    assert w[0] == src[at];
    if tok.kind == FloatKind {
      var k :| PointsAt(w, k);
      assert SignLen(w) == 0 ==> IsDigit(w[0]) || w[0] == '.';
    }
  }

  lemma {:induction false} PunctExact(src: string, at: nat, tok: Token, e: nat)
    requires at < |src| && PunctKind(src[at]).Some?
    ensures TokenAt(src, at) == Read(tok, e) <==> IsPunctKind(tok.kind) && LexemeAt(src, at, e, tok)
  {
    if at < e <= |src| { assert src[at..e][0] == src[at]; }
    assert src[at..at + 1] == [src[at]];
  }

  /** The token the lexer finds at a byte that is not white space is the one whose lexeme stands there. */
  lemma {:induction false} TokenAtExact(src: string, at: nat, tok: Token, e: nat)
    requires at < |src|
    ensures TokenAt(src, at) == Read(tok, e) <==> LexemeAt(src, at, e, tok)
  {
    hide QuotedToken, WordToken, IsIntLexeme, IsFloatLexeme, IsIdent, Quotes, Quoted, Number;
    var c := src[at];
    if LexemeAt(src, at, e, tok) { LexemeStarts(src, at, e, tok); }
    if PunctKind(c).Some? {
      PunctExact(src, at, tok, e);
    } else if IsQuote(c) {
      QuotedTokenExact(src, at, tok, e);
    } else if StartsNumber(c) {
      NumberExact(src, at, tok, e);
    } else if IsIdentStart(c) {
      WordExact(src, at, tok, e);
    }
  }

  // ----- Whole texts -----

  /** The tokens from index `k` on are laid out from `pos` and the last of them ends at `stop`. */
  ghost predicate LayoutTo(src: string, pos: nat, toks: seq<Token>, k: nat, stop: nat)
    requires k <= |toks|
    decreases |toks| - k
  {
    && pos <= |src|
    && if k == |toks| then stop == pos
       else exists e :: LexemeAt(src, SpaceEnd(src, pos), e, toks[k]) && LayoutTo(src, e, toks, k + 1, stop)
  }

  /** A text is a layout of a token list: lexemes in order, white space anywhere around them. */
  ghost predicate Layout(src: string, toks: seq<Token>) {
    exists stop: nat :: LayoutTo(src, 0, toks, 0, stop) && stop <= |src| && SpaceEnd(src, stop) == |src|
  }

  lemma {:induction false} LexTurn(src: string, pos: nat, tok: Token, e: nat, read: seq<Token>)
    requires pos <= |src| && LexemeAt(src, SpaceEnd(src, pos), e, tok)
    ensures TokensFrom(src, pos, read) == TokensFrom(src, e, read + [tok])
  {
    hide TokenAt, Spelling, Stops;
    TokenAtExact(src, SpaceEnd(src, pos), tok, e);
  }

  /** The lexer reads laid out tokens one by one. */
  lemma {:induction false} LexTo(src: string, pos: nat, toks: seq<Token>, k: nat, stop: nat)
    requires k <= |toks| && LayoutTo(src, pos, toks, k, stop)
    ensures stop <= |src| && TokensFrom(src, pos, toks[..k]) == TokensFrom(src, stop, toks)
    decreases |toks| - k
  {
    hide TokensFrom, LexemeAt;
    if k == |toks| {
      TakeAll(toks);
    } else {
      var e :| LexemeAt(src, SpaceEnd(src, pos), e, toks[k]) && LayoutTo(src, e, toks, k + 1, stop);
      LexTurn(src, pos, toks[k], e, toks[..k]);
      TakeNext(toks, k);
      LexTo(src, e, toks, k + 1, stop);
    }
  }

  /** What was read before stays in front, and the end marker stands only behind lexemes. */
  lemma {:induction false} TokensPrefix(src: string, pos: nat, read: seq<Token>)
    requires pos <= |src|
    ensures var r := TokensFrom(src, pos, read); r.Some? ==> |r.value| > |read| && r.value[..|read|] == read
    ensures TokensFrom(src, pos, read).Some? <==> TokensFrom(src, pos, []).Some?
    decreases |src| - pos
  {
    var at := SpaceEnd(src, pos);
    if at < |src| && TokenAt(src, at).Read? {
      var Read(tok, e) := TokenAt(src, at);
      hide TokenAt;
      TokensPrefix(src, e, read + [tok]);
      TokensPrefix(src, e, [tok]);
      assert [] + [tok] == [tok];
      var r := TokensFrom(src, e, read + [tok]);
      if r.Some? { assert r.value[..|read|] == r.value[..|read| + 1][..|read|]; }
    }
  }

  /** The first of the tokens read from a position on stands there. */
  lemma {:induction false} LexSoundStep(src: string, pos: nat, toks: seq<Token>, k: nat) returns (e: nat)
    requires pos <= |src| && SpaceEnd(src, pos) < |src| && k <= |toks| && TokensFrom(src, pos, toks[..k]) == Some(toks + [END])
    ensures k < |toks| && LexemeAt(src, SpaceEnd(src, pos), e, toks[k])
    ensures pos < e <= |src| && TokensFrom(src, e, toks[..k + 1]) == Some(toks + [END])
  {
    hide TokenAt, LexemeAt;
    var at := SpaceEnd(src, pos);
    var tok := TokenAt(src, at).value;
    e := TokenAt(src, at).next;
    TokensPrefix(src, e, toks[..k] + [tok]);
    TokenAtExact(src, at, tok, e);
    LexemeStarts(src, at, e, tok);
    var all := toks + [END];
    assert all[..k + 1] == toks[..k] + [tok];
    assert all[k] == all[..k + 1][k] == tok;
    TakeNext(toks, k);
  }

  /** Tokens read from a position on are laid out there. */
  lemma {:induction false} LexSound(src: string, pos: nat, toks: seq<Token>, k: nat) returns (stop: nat)
    requires pos <= |src| && k <= |toks| && TokensFrom(src, pos, toks[..k]) == Some(toks + [END])
    ensures LayoutTo(src, pos, toks, k, stop) && stop <= |src| && SpaceEnd(src, stop) == |src|
    decreases |src| - pos
  {
    hide TokenAt, LexemeAt;
    if SpaceEnd(src, pos) == |src| {
      assert |toks[..k] + [END]| == k + 1;
      stop := pos;
    } else {
      var e := LexSoundStep(src, pos, toks, k);
      stop := LexSound(src, e, toks, k + 1);
    }
  }

  /** The lexer produces a token list exactly for the texts that lay it out. */
  lemma {:induction false} LexExact(src: string, toks: seq<Token>)
    ensures Tokens(src) == Some(toks + [END]) <==> Layout(src, toks)
  {
    hide TokenAt, LexemeAt;
    assert toks[..0] == [];
    if Layout(src, toks) {
      var stop: nat :| LayoutTo(src, 0, toks, 0, stop) && stop <= |src| && SpaceEnd(src, stop) == |src|;
      LexTo(src, 0, toks, 0, stop);
    }
    if Tokens(src) == Some(toks + [END]) {
      var stop := LexSound(src, 0, toks, 0);
    }
  }

  /** Every accepted text is a layout of some token list. */
  lemma {:induction false} LexedIsLayout(src: string)
    ensures Tokens(src).Some? <==> exists toks :: Layout(src, toks)
  {
    hide TokensFrom, Layout;
    if Tokens(src).Some? {
      TokensEnd(src, 0, []);
      var r := Tokens(src).value;
      assert r == r[..|r| - 1] + [END];
      LexExact(src, r[..|r| - 1]);
    }
    forall toks | Layout(src, toks) ensures Tokens(src).Some? { LexExact(src, toks); }
  }

  lemma {:induction false} TokensEnd(src: string, pos: nat, read: seq<Token>)
    requires pos <= |src|
    ensures var r := TokensFrom(src, pos, read); r.Some? ==> r.value != [] && r.value[|r.value| - 1] == END
    decreases |src| - pos
  {
    var at := SpaceEnd(src, pos);
    if at < |src| && TokenAt(src, at).Read? {
      TokensEnd(src, TokenAt(src, at).next, read + [TokenAt(src, at).value]);
    }
  }
}

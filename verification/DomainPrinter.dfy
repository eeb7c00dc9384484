/**
 Printing domains and reading them back. `DomainTokens` writes a domain list in Python syntax,
 `Spells` relates a token list to every text that lays it out with any white space, and the
 main lemmas say what the lexer and the parser make of such a text.

 A domain is read back unchanged exactly when no quoted string in it is one of & | !, because
 the lexer turns such a string into an operator wherever it stands.
 */
module DomainPrinter {
  import opened Options
  import opened Segments
  import opened Separated
  import opened Numbers
  import opened DomainAst
  import opened DomainLexer
  import opened DomainLayout
  import opened DomainParser

  // ----- Lexemes -----

  predicate IsReference(t: string) { IsIdent(t) && WordToken(t).kind == RefKind }

  predicate IsLogicSymbol(t: string) { t == "&" || t == "|" || t == "!" }

  function EscapedByte(c: char): string {
    if c in {'\\', '\'', '"'} then ['\\', c] else [c]
  }

  function Escaped(t: string): string {
    if t == "" then "" else EscapedByte(t[0]) + Escaped(t[1..])
  }

  function Quote(t: string): string { "'" + (Escaped(t) + "'") }

  // ----- Tokens of a domain -----

  ghost predicate IsDecimal(r: real) {
    exists t :: IsFloatLexeme(t) && ParseFloat(t) == Some(r)
  }

  ghost function FloatText(r: real): (t: string)
    requires IsDecimal(r)
    ensures IsFloatLexeme(t) && ParseFloat(t) == Some(r)
  {
    var t :| IsFloatLexeme(t) && ParseFloat(t) == Some(r); t
  }

  /** What the types of the syntax tree and the lexer guarantee of every literal. */
  ghost predicate Expressible(lit: Literal) {
    match lit
    case IntLit(n) => MIN_INT64 <= n <= MAX_INT64
    case FloatLit(r) => IsDecimal(r)
    case RefLit(name) => IsReference(name)
    case ListLit(items) => forall i :: 0 <= i < |items| ==> Expressible(items[i])
    case TupleLit(items) => forall i :: 0 <= i < |items| ==> Expressible(items[i])
    case _ => true
  }

  ghost predicate AllExpressible(items: seq<Literal>) {
    forall i :: 0 <= i < |items| ==> Expressible(items[i])
  }

  /** No string in the literal is an operator symbol. */
  predicate Plain(lit: Literal) {
    match lit
    case StringLit(text) => !IsLogicSymbol(text)
    case ListLit(items) => forall i :: 0 <= i < |items| ==> Plain(items[i])
    case TupleLit(items) => forall i :: 0 <= i < |items| ==> Plain(items[i])
    case _ => true
  }

  /** Kinds that neither close a list nor separate its entries. */
  predicate Opens(k: Kind) { k != RBracket && k != RParen && k != Comma && k != EndOfInput }

  predicate IsAtom(lit: Literal) { !lit.ListLit? && !lit.TupleLit? }

  ghost function AtomToken(lit: Literal): (tok: Token)
    requires Expressible(lit) && IsAtom(lit)
    ensures Opens(tok.kind) && tok.kind != LBracket && tok.kind != LParen
  {
    match lit
    case StringLit(text) => QuotedToken(text)
    case IntLit(n) => NumberToken(IntText(n), false)
    case FloatLit(r) => NumberToken(FloatText(r), true)
    case BoolLit(b) => WordToken(if b then "True" else "False")
    case NoneLit => WordToken("None")
    case RefLit(name) => WordToken(name)
  }

  ghost function LitTokens(lit: Literal): (ts: seq<Token>)
    requires Expressible(lit)
    ensures ts != [] && Opens(ts[0].kind)
    decreases lit, 1
  {
    match lit
    case ListLit(items) => [Punct(LBracket)] + Joined(ItemParts(items), 0, COMMA, Punct(RBracket))
    case TupleLit(items) => [Punct(LParen)] + Joined(ItemParts(items), 0, COMMA, Punct(RParen))
    case _ => [AtomToken(lit)]
  }

  ghost function ItemParts(items: seq<Literal>): seq<seq<Token>>
    requires AllExpressible(items)
    decreases items, 0
  {
    seq(|items|, i requires 0 <= i < |items| => LitTokens(items[i]))
  }

  const COMMA := Token(Comma, ",")

  /** How each operator is written. */
  function OperatorText(op: Operator): string {
    match op
    case Equal => "="
    case NotEqual => "!="
    case Less => "<"
    case LessEq => "<="
    case Greater => ">"
    case GreaterEq => ">="
    case In => "in"
    case NotIn => "not in"
    case Like => "like"
    case NotLike => "not like"
    case ILike => "ilike"
    case NotILike => "not ilike"
    case EqLike => "=like"
    case EqILike => "=ilike"
    case ChildOf => "child_of"
    case ParentOf => "parent_of"
  }

  /** The operator table finds exactly the operator that is written so. */
  lemma {:induction false} OperatorRoundTrip(s: string, op: Operator)
    ensures OperatorNamed(s) == Some(op) <==> s == OperatorText(op)
  {
  }

  ghost predicate ExpressibleElement(el: Element) {
    el.NodeElem? ==> el.node.Leaf? && Expressible(el.node.cond.value)
  }

  predicate PlainElement(el: Element) {
    el.NodeElem? && el.node.Leaf? ==> !IsLogicSymbol(el.node.cond.field) && Plain(el.node.cond.value)
  }

  ghost predicate ExpressibleDomain(elems: seq<Element>) {
    forall i :: 0 <= i < |elems| ==> ExpressibleElement(elems[i])
  }

  predicate PlainDomain(elems: seq<Element>) {
    forall i :: 0 <= i < |elems| ==> PlainElement(elems[i])
  }

  ghost function CondTokens(c: Condition): seq<Token>
    requires Expressible(c.value)
  {
    [Punct(LParen), QuotedToken(c.field), COMMA, QuotedToken(OperatorText(c.op)), COMMA]
    + (LitTokens(c.value) + [Punct(RParen)])
  }

  ghost function ElementTokens(el: Element): (ts: seq<Token>)
    requires ExpressibleElement(el)
    ensures ts != [] && Opens(ts[0].kind)
  {
    match el
    case OpElem(And) => [QuotedToken("&")]
    case OpElem(Or) => [QuotedToken("|")]
    case OpElem(Not) => [QuotedToken("!")]
    case NodeElem(n) => CondTokens(n.cond)
  }

  ghost function ElementParts(elems: seq<Element>): seq<seq<Token>>
    requires ExpressibleDomain(elems)
  {
    seq(|elems|, i requires 0 <= i < |elems| => ElementTokens(elems[i]))
  }

  ghost function DomainTokens(elems: seq<Element>): seq<Token>
    requires ExpressibleDomain(elems)
  {
    [Punct(LBracket)] + Joined(ElementParts(elems), 0, COMMA, Punct(RBracket))
  }

  // ----- Parsing what was printed -----

  lemma {:induction false} FloatReads(r: real)
    requires Expressible(FloatLit(r))
    ensures ParseFloat(FloatText(r)) == Some(r)
  {
  }

  lemma {:induction false} AtomReads(lit: Literal)
    requires Expressible(lit) && IsAtom(lit)
    ensures AtomOf(AtomToken(lit)) == if Plain(lit) then Some(lit) else None
  {
    hide ParseInt, IntText, ParseFloat, FloatText;
    match lit
    case IntLit(n) => ParseIntText(n);
    case FloatLit(r) => FloatReads(r);
    case _ =>
  }

  predicate Closes(k: Kind) { k == RBracket || k == RParen }

  predicate AllFrom(plain: seq<bool>, k: nat) { forall i :: k <= i < |plain| ==> plain[i] }

  lemma {:induction false} AllFromNext(plain: seq<bool>, k: nat)
    ensures AllFrom(plain, |plain|)
    ensures k < |plain| ==> AllFrom(plain, k) == (plain[k] && AllFrom(plain, k + 1))
  {
  }

  /** One turn of the list loop at a separator and an entry. */
  lemma {:induction false} EntriesTurn<T>(toks: seq<Token>, pos: nat, closer: Kind, entry: nat -> Reading<T>, read: seq<T>, sep: Token)
    requires Closes(closer)
    requires pos + |Sep(|read|, sep)| < |toks|
    requires read != [] ==> toks[pos].kind == Comma
    requires Opens(toks[pos + |Sep(|read|, sep)|].kind)
    ensures Entries(toks, pos, closer, entry, read) ==
            match entry(pos + |Sep(|read|, sep)|)
            case Fail => Fail
            case Read(v, e) => if e <= pos then Fail else Entries(toks, e, closer, entry, read + [v])
  {
  }

  /** What the parser finds where a part of a laid out list starts. */
  ghost predicate ReadsPart<T>(toks: seq<Token>, from: nat, entry: nat -> Reading<T>, val: T, plain: bool, part: seq<Token>) {
    && part != [] && Opens(part[0].kind)
    && forall at :: from <= at && At(toks, at, part) ==> entry(at) == if plain then Read(val, at + |part|) else Fail
  }

  /** One laid out entry: the loop stops at an unreadable one and otherwise goes on behind it. */
  lemma {:induction false} EntriesPart<T>(toks: seq<Token>, pos: nat, closer: Kind, entry: nat -> Reading<T>,
                       read: seq<T>, val: T, plain: bool, part: seq<Token>, from: nat, sep: Token)
    requires Closes(closer) && from <= pos && ReadsPart(toks, from, entry, val, plain, part)
    requires var at := pos + |Sep(|read|, sep)|; at < |toks| && At(toks, at, part)
    requires read != [] ==> toks[pos].kind == Comma
    ensures Entries(toks, pos, closer, entry, read) ==
            if plain then Entries(toks, pos + |Sep(|read|, sep)| + |part|, closer, entry, read + [val]) else Fail
  {
    hide Entries;
    var at := pos + |Sep(|read|, sep)|;
    assert toks[at] == part[0] by { assert toks[at] == toks[at..at + |part|][0]; }
    assert entry(at) == if plain then Read(val, at + |part|) else Fail;
    EntriesTurn(toks, pos, closer, entry, read, sep);
  }

  lemma {:induction false} EntriesEnd<T>(toks: seq<Token>, pos: nat, closer: Kind, entry: nat -> Reading<T>, read: seq<T>)
    requires pos < |toks| && toks[pos].kind == closer && Closes(closer)
    ensures Entries(toks, pos, closer, entry, read) == Read(read, pos + 1)
  {
  }

  /** A list laid out from parts is read entry by entry, up to the first unreadable one. */
  lemma {:induction false} EntriesOfParts<T>(toks: seq<Token>, pos: nat, closer: Kind, entry: nat -> Reading<T>, vals: seq<T>,
                                             plain: seq<bool>, parts: seq<seq<Token>>, k: nat, from: nat, stop: nat,
                                             sep: Token, closeTok: Token)
    requires |parts| == |vals| == |plain| && k <= |vals| && Closes(closer) && from <= pos && sep.kind == Comma && closeTok.kind == closer
    requires forall i :: 0 <= i < |parts| ==> ReadsPart(toks, from, entry, vals[i], plain[i], parts[i])
    requires LaidOut(toks, pos, parts, k, sep, closeTok, stop)
    ensures Entries(toks, pos, closer, entry, vals[..k]) == if AllFrom(plain, k) then Read(vals, stop) else Fail
    decreases |vals| - k
  {
    hide Entries, ReadsPart, At, Closes;
    AllFromNext(plain, k);
    if k == |vals| {
      TakeAll(vals);
      EntriesEnd(toks, pos, closer, entry, vals);
    } else {
      EntriesPart(toks, pos, closer, entry, vals[..k], vals[k], plain[k], parts[k], from, sep);
      TakeNext(vals, k);
      if plain[k] {
        EntriesOfParts(toks, pos + |Sep(k, sep)| + |parts[k]|, closer, entry, vals, plain, parts, k + 1, from, stop, sep, closeTok);
      }
    }
  }

  lemma {:induction false} ValueOfTokens(toks: seq<Token>, pos: nat, lit: Literal)
    requires Expressible(lit) && At(toks, pos, LitTokens(lit))
    ensures Value(toks, pos) == if Plain(lit) then Read(lit, pos + |LitTokens(lit)|) else Fail
    decreases lit, 1
  {
    if IsAtom(lit) {
      AtomOfTokens(toks, pos, lit);
    } else {
      hide Entries, Joined, ItemParts, ItemReader, At, Plain;
      BracketOfTokens(toks, pos, lit);
      ItemsOfTokens(toks, pos, CloserOf(lit), lit.items);
    }
  }

  function CloserOf(lit: Literal): Kind { if lit.ListLit? then RBracket else RParen }

  lemma {:induction false} AtomOfTokens(toks: seq<Token>, pos: nat, lit: Literal)
    requires Expressible(lit) && IsAtom(lit) && At(toks, pos, LitTokens(lit))
    ensures Value(toks, pos) == if Plain(lit) then Read(lit, pos + |LitTokens(lit)|) else Fail
  {
    hide AtomOf, Plain, Expressible, Entries, ItemReader, Joined, ItemParts, AtomToken;
    AtomReads(lit);
    AtHead(toks, pos, AtomToken(lit), []);
  }

  /** A printed list or tuple opens with its bracket, and its items stand behind. */
  lemma {:induction false} BracketOfTokens(toks: seq<Token>, pos: nat, lit: Literal)
    requires Expressible(lit) && !IsAtom(lit) && At(toks, pos, LitTokens(lit))
    ensures AllExpressible(lit.items) && pos < |toks|
    ensures At(toks, pos + 1, Joined(ItemParts(lit.items), 0, COMMA, Punct(CloserOf(lit))))
    ensures |LitTokens(lit)| == 1 + |Joined(ItemParts(lit.items), 0, COMMA, Punct(CloserOf(lit)))|
    ensures Plain(lit) <==> forall i :: 0 <= i < |lit.items| ==> Plain(lit.items[i])
    ensures Value(toks, pos) ==
            match Entries(toks, pos + 1, CloserOf(lit), ItemReader(toks, pos), [])
            case Fail => Fail
            case Read(items, e) => Read(if lit.ListLit? then ListLit(items) else TupleLit(items), e)
  {
    hide Entries, Joined, ItemParts, ItemReader;
    var opener := if lit.ListLit? then LBracket else LParen;
    AtHead(toks, pos, Punct(opener), Joined(ItemParts(lit.items), 0, COMMA, Punct(CloserOf(lit))));
  }

  lemma {:induction false} ItemsOfTokens(toks: seq<Token>, open: nat, closer: Kind, items: seq<Literal>)
    requires AllExpressible(items) && Closes(closer) && open < |toks|
    requires At(toks, open + 1, Joined(ItemParts(items), 0, COMMA, Punct(closer)))
    ensures Entries(toks, open + 1, closer, ItemReader(toks, open), []) ==
            if forall i :: 0 <= i < |items| ==> Plain(items[i]) then
              Read(items, open + 1 + |Joined(ItemParts(items), 0, COMMA, Punct(closer))|)
            else Fail
    decreases items, 0
  {
    hide Entries, Value, Joined, LaidOut, At, ReadsPart, ItemReader;
    var parts, entry := ItemParts(items), ItemReader(toks, open);
    var plain := seq(|items|, i requires 0 <= i < |items| => Plain(items[i]));
    forall i | 0 <= i < |items|
      ensures ReadsPart(toks, open + 1, entry, items[i], plain[i], parts[i])
    {
      ItemReads(toks, open, items[i]);
    }
    var stop := open + 1 + |Joined(parts, 0, COMMA, Punct(closer))|;
    JoinedLaidOut(toks, open + 1, parts, 0, COMMA, Punct(closer), stop);
    EntriesOfParts(toks, open + 1, closer, entry, items, plain, parts, 0, open + 1, stop, COMMA, Punct(closer));
    TakeAll(items);
  }

  lemma {:induction false} ItemReads(toks: seq<Token>, open: nat, lit: Literal)
    requires Expressible(lit) && open < |toks|
    ensures ReadsPart(toks, open + 1, ItemReader(toks, open), lit, Plain(lit), LitTokens(lit))
    decreases lit, 2
  {
    hide Value, At, Plain, Expressible, Joined, ItemParts, Entries, IsAtom;
    forall at: nat | open + 1 <= at && At(toks, at, LitTokens(lit))
      ensures ItemReader(toks, open)(at) == if Plain(lit) then Read(lit, at + |LitTokens(lit)|) else Fail
    {
      ValueOfTokens(toks, at, lit);
    }
  }

  /** Where the parts of a printed condition stand. */
  lemma {:induction false} CondLayout(toks: seq<Token>, pos: nat, c: Condition)
    requires Expressible(c.value) && At(toks, pos, CondTokens(c))
    ensures var n := |LitTokens(c.value)|;
            && pos + 5 + n < |toks| && |CondTokens(c)| == n + 6
            && toks[pos].kind == LParen && toks[pos + 1] == QuotedToken(c.field)
            && toks[pos + 2].kind == Comma && toks[pos + 3] == QuotedToken(OperatorText(c.op))
            && toks[pos + 4].kind == Comma
            && At(toks, pos + 5, LitTokens(c.value)) && toks[pos + 5 + n].kind == RParen
  {
    var ts := LitTokens(c.value);
    var head := [Punct(LParen), QuotedToken(c.field), COMMA, QuotedToken(OperatorText(c.op)), COMMA];
    AtSplit(toks, pos, head, ts + [Punct(RParen)]);
    AtSplit(toks, pos + 5, ts, [Punct(RParen)]);
    forall i | 0 <= i < 5
      ensures toks[pos + i] == head[i]
    {
      assert toks[pos + i] == toks[pos..pos + 5][i];
    }
    assert toks[pos + 1] == head[1] && toks[pos + 2] == head[2] && toks[pos + 3] == head[3] && toks[pos + 4] == head[4];
    assert toks[pos + 5 + |ts|] == toks[pos + 5 + |ts|..pos + 5 + |ts| + 1][0];
  }

  lemma {:induction false} OperatorTextIsPlain(op: Operator)
    ensures QuotedToken(OperatorText(op)) == Token(StringKind, OperatorText(op))
  {
  }

  /** The condition parser up to the value, on a well laid out prefix. */
  lemma {:induction false} CondTurn(toks: seq<Token>, pos: nat, op: Operator)
    requires pos + 5 <= |toks|
    requires toks[pos].kind == LParen && toks[pos + 1].kind == StringKind && toks[pos + 2].kind == Comma
    requires toks[pos + 3].kind == StringKind && toks[pos + 4].kind == Comma
    requires OperatorNamed(toks[pos + 3].text) == Some(op)
    ensures Cond(toks, pos) ==
            match Value(toks, pos + 5)
            case Fail => Fail
            case Read(v, e) => if Peek(toks, e) != RParen then Fail else Read(Condition(toks[pos + 1].text, op, v), e + 1)
  {
  }

  /** The whole condition, from what the value parser makes of its value. */
  lemma {:induction false} CondReads(toks: seq<Token>, pos: nat, c: Condition, plain: bool, e: nat)
    requires pos + 5 <= e < |toks| && toks[e].kind == RParen
    requires toks[pos].kind == LParen && toks[pos + 1] == QuotedToken(c.field) && toks[pos + 2].kind == Comma
    requires toks[pos + 3] == QuotedToken(OperatorText(c.op)) && toks[pos + 4].kind == Comma
    requires Value(toks, pos + 5) == if plain then Read(c.value, e) else Fail
    ensures Cond(toks, pos) == if !IsLogicSymbol(c.field) && plain then Read(c, e + 1) else Fail
  {
    if !IsLogicSymbol(c.field) {
      OperatorTextIsPlain(c.op);
      OperatorRoundTrip(OperatorText(c.op), c.op);
      CondTurn(toks, pos, c.op);
    }
  }

  lemma {:induction false} CondOfTokens(toks: seq<Token>, pos: nat, c: Condition)
    requires Expressible(c.value) && At(toks, pos, CondTokens(c))
    ensures Cond(toks, pos) ==
            if !IsLogicSymbol(c.field) && Plain(c.value) then Read(c, pos + |CondTokens(c)|) else Fail
  {
    CondLayout(toks, pos, c);
    ValueOfTokens(toks, pos + 5, c.value);
    CondReads(toks, pos, c, Plain(c.value), pos + 5 + |LitTokens(c.value)|);
  }

  lemma {:induction false} ElementOfTokens(toks: seq<Token>, pos: nat, el: Element)
    requires ExpressibleElement(el) && At(toks, pos, ElementTokens(el))
    ensures ElementAt(toks, pos) == if PlainElement(el) then Read(el, pos + |ElementTokens(el)|) else Fail
  {
    assert toks[pos] == toks[pos..pos + |ElementTokens(el)|][0];
    if el.NodeElem? {
      CondOfTokens(toks, pos, el.node.cond);
    }
  }

  /** The parser gives a printed element list back; whatever follows the closing bracket is ignored. */
  lemma {:induction false} ElementsRoundTrip(elems: seq<Element>, after: seq<Token>)
    requires ExpressibleDomain(elems)
    ensures DomainElements(DomainTokens(elems) + after) == if PlainDomain(elems) then Some(elems) else None
  {
    var toks := DomainTokens(elems) + after;
    AtWhole(toks);
    AtSplit(toks, 0, DomainTokens(elems), after);
    var parts := ElementParts(elems);
    AtHead(toks, 0, Punct(LBracket), Joined(parts, 0, COMMA, Punct(RBracket)));
    var entry := ElementReader(toks);
    var plain := seq(|elems|, i requires 0 <= i < |elems| => PlainElement(elems[i]));
    forall i | 0 <= i < |elems|
      ensures ReadsPart(toks, 1, entry, elems[i], plain[i], parts[i])
    {
      forall at | 1 <= at && At(toks, at, parts[i])
        ensures entry(at) == if plain[i] then Read(elems[i], at + |parts[i]|) else Fail
      {
        ElementOfTokens(toks, at, elems[i]);
      }
    }
    JoinedLaidOut(toks, 1, parts, 0, COMMA, Punct(RBracket), |DomainTokens(elems)|);
    EntriesOfParts(toks, 1, RBracket, entry, elems, plain, parts, 0, 1, |DomainTokens(elems)|, COMMA, Punct(RBracket));
    TakeAll(elems);
  }
}

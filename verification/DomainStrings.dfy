/**
 Domains as plain strings, written byte by byte without blanks: `[('age','<',18)]`. The writer names
 every bracket, quote and symbol itself; the parser reads its strings back.
 */
module DomainStrings {
  import opened Options
  import opened Segments
  import opened Separated
  import opened Numbers
  import opened DomainAst
  import opened DomainLexer
  import opened DomainLayout
  import opened DomainParser
  import opened DomainPrinter
  import opened DomainText

  // ----- The writer -----

  ghost function LitString(lit: Literal): string
    requires Expressible(lit)
    decreases lit, 1
  {
    match lit
    case StringLit(text) => Quote(text)
    case IntLit(n) => IntText(n)
    case FloatLit(r) => FloatText(r)
    case BoolLit(b) => if b then "True" else "False"
    case NoneLit => "None"
    case RefLit(name) => name
    case ListLit(items) => "[" + Joined(ItemStrings(items), 0, ',', ']')
    case TupleLit(items) => "(" + Joined(ItemStrings(items), 0, ',', ')')
  }

  ghost function ItemStrings(items: seq<Literal>): seq<string>
    requires AllExpressible(items)
    decreases items, 0
  {
    seq(|items|, i requires 0 <= i < |items| => LitString(items[i]))
  }

  ghost function CondString(c: Condition): string
    requires Expressible(c.value)
  {
    "(" + (Quote(c.field) + ("," + (Quote(OperatorText(c.op)) + ("," + (LitString(c.value) + ")")))))
  }

  ghost function ElementString(el: Element): string
    requires ExpressibleElement(el)
  {
    match el
    case OpElem(And) => "'&'"
    case OpElem(Or) => "'|'"
    case OpElem(Not) => "'!'"
    case NodeElem(n) => CondString(n.cond)
  }

  ghost function ElementStrings(elems: seq<Element>): seq<string>
    requires ExpressibleDomain(elems)
  {
    seq(|elems|, i requires 0 <= i < |elems| => ElementString(elems[i]))
  }

  ghost function ListString(elems: seq<Element>): string
    requires ExpressibleDomain(elems)
  {
    "[" + Joined(ElementStrings(elems), 0, ',', ']')
  }

  // ----- The strings spell the printed tokens -----

  /** The canonical texts of tokens, one after the other. */
  function Compact(toks: seq<Token>): string {
    if toks == [] then "" else Spelled(toks[0]) + Compact(toks[1..])
  }

  lemma {:induction false} CompactOne(tok: Token)
    ensures Compact([tok]) == Spelled(tok)
  {
    assert [tok][1..] == [];
  }

  lemma {:induction false} CompactAppend(a: seq<Token>, b: seq<Token>)
    ensures Compact(a + b) == Compact(a) + Compact(b)
  {
    hide Spelled;
    if a == [] {
      assert a + b == b;
    } else {
      assert (a + b)[1..] == a[1..] + b;
      CompactAppend(a[1..], b);
    }
  }

  lemma {:induction false} CompactHead(tok: Token, b: seq<Token>)
    ensures Compact([tok] + b) == Spelled(tok) + Compact(b)
  {
    assert ([tok] + b)[1..] == b;
  }

  lemma {:induction false} CompactJoined(parts: seq<seq<Token>>, k: nat, closer: Token, strings: seq<string>, c: char)
    requires k <= |parts| == |strings| && Spelled(closer) == [c]
    requires forall i :: 0 <= i < |parts| ==> Compact(parts[i]) == strings[i]
    ensures Compact(Joined(parts, k, COMMA, closer)) == Joined(strings, k, ',', c)
    decreases |parts| - k
  {
    hide Compact;
    if k == |parts| {
      CompactOne(closer);
    } else {
      var tail := Joined(parts, k + 1, COMMA, closer);
      CompactJoined(parts, k + 1, closer, strings, c);
      CompactAppend(Sep(k, COMMA), parts[k] + tail);
      CompactAppend(parts[k], tail);
      CompactSep(k);
    }
  }

  lemma {:induction false} CompactSep(k: nat)
    ensures Compact(Sep(k, COMMA)) == Sep(k, ',')
  {
    if k > 0 { CompactOne(COMMA); }
  }

  lemma {:induction false} AtomString(lit: Literal)
    requires Expressible(lit) && IsAtom(lit)
    ensures Spelled(AtomToken(lit)) == LitString(lit)
  {
    hide Quote, IntText, FloatText;
  }

  lemma {:induction false} LitCompact(lit: Literal)
    requires Expressible(lit)
    ensures Compact(LitTokens(lit)) == LitString(lit)
    decreases lit, 1
  {
    hide Compact, Joined, AtomToken, Spelled, Punct;
    SpelledPunct();
    match lit
    case ListLit(items) => ItemsCompact(items, LBracket, RBracket, "[", ']');
    case TupleLit(items) => ItemsCompact(items, LParen, RParen, "(", ')');
    case _ =>
      CompactOne(AtomToken(lit));
      AtomString(lit);
  }

  lemma {:induction false} ItemsCompact(items: seq<Literal>, opener: Kind, closer: Kind, o: string, c: char)
    requires AllExpressible(items) && IsPunctKind(opener) && IsPunctKind(closer)
    requires Spelled(Punct(opener)) == o && Spelled(Punct(closer)) == [c]
    ensures Compact([Punct(opener)] + Joined(ItemParts(items), 0, COMMA, Punct(closer))) == o + Joined(ItemStrings(items), 0, ',', c)
    decreases items, 0
  {
    hide Compact, Joined, Spelled, Punct;
    var parts, strings := ItemParts(items), ItemStrings(items);
    forall i | 0 <= i < |parts| ensures Compact(parts[i]) == strings[i] { LitCompact(items[i]); }
    CompactHead(Punct(opener), Joined(parts, 0, COMMA, Punct(closer)));
    CompactJoined(parts, 0, Punct(closer), strings, c);
  }

  lemma {:induction false} SpelledPunct()
    ensures Spelled(Punct(LParen)) == "(" && Spelled(Punct(RParen)) == ")" && Spelled(COMMA) == ","
    ensures Spelled(Punct(LBracket)) == "[" && Spelled(Punct(RBracket)) == "]"
  {
  }

  lemma {:induction false} SpelledQuoted(t: string)
    ensures Spelled(QuotedToken(t)) == Quote(t)
  {
  }

  lemma {:induction false} CondCompact(c: Condition)
    requires Expressible(c.value)
    ensures Compact(CondTokens(c)) == CondString(c)
  {
    hide Compact, Spelled, Quote, QuotedToken, OperatorText, LitTokens, LitString, Punct;
    var f, o, v := QuotedToken(c.field), QuotedToken(OperatorText(c.op)), LitTokens(c.value) + [Punct(RParen)];
    assert CondTokens(c) == [Punct(LParen)] + ([f] + ([COMMA] + ([o] + ([COMMA] + v))));
    CompactHead(Punct(LParen), [f] + ([COMMA] + ([o] + ([COMMA] + v))));
    CompactHead(f, [COMMA] + ([o] + ([COMMA] + v)));
    CompactHead(COMMA, [o] + ([COMMA] + v));
    CompactHead(o, [COMMA] + v);
    CompactHead(COMMA, v);
    CompactAppend(LitTokens(c.value), [Punct(RParen)]);
    CompactOne(Punct(RParen));
    LitCompact(c.value);
    SpelledPunct();
    SpelledQuoted(c.field);
    SpelledQuoted(OperatorText(c.op));
  }

  lemma {:induction false} SymbolStrings()
    ensures Quote("&") == "'&'" && Quote("|") == "'|'" && Quote("!") == "'!'"
  {
    Unescaped1('&');
    Unescaped1('|');
    Unescaped1('!');
  }

  lemma {:induction false} Unescaped1(c: char)
    requires c !in {'\\', '\'', '"'}
    ensures Escaped([c]) == [c]
  {
    assert [c][1..] == "";
  }

  lemma {:induction false} ElementCompact(el: Element)
    requires ExpressibleElement(el)
    ensures Compact(ElementTokens(el)) == ElementString(el)
  {
    hide Quote, QuotedToken, Compact, CondTokens, CondString, Spelled;
    if el.NodeElem? {
      CondCompact(el.node.cond);
    } else {
      var t := match el.op case And => "&" case Or => "|" case Not => "!";
      CompactOne(QuotedToken(t));
      SpelledQuoted(t);
      SymbolStrings();
    }
  }

  lemma {:induction false} ListCompact(elems: seq<Element>)
    requires ExpressibleDomain(elems)
    ensures Compact(DomainTokens(elems)) == ListString(elems)
  {
    hide Compact, Joined, ElementTokens, ElementString, Spelled, Punct;
    var parts, strings := ElementParts(elems), ElementStrings(elems);
    forall i | 0 <= i < |parts| ensures Compact(parts[i]) == strings[i] { ElementCompact(elems[i]); }
    SpelledPunct();
    CompactHead(Punct(LBracket), Joined(parts, 0, COMMA, Punct(RBracket)));
    CompactJoined(parts, 0, Punct(RBracket), strings, ']');
  }

  // ----- No two texts run into each other -----

  predicate Runs(tok: Token) { !IsPunctKind(tok.kind) && !IsQuotedKind(tok.kind) }

  /** Behind a word or a number stands a bracket or a comma. */
  ghost predicate Tight(toks: seq<Token>) {
    forall i :: 0 <= i < |toks| - 1 && Runs(toks[i]) ==> IsPunctKind(toks[i + 1].kind)
  }

  lemma {:induction false} TightAppend(a: seq<Token>, b: seq<Token>)
    requires Tight(a) && Tight(b)
    requires a != [] && b != [] && Runs(a[|a| - 1]) ==> IsPunctKind(b[0].kind)
    ensures Tight(a + b)
  {
  }

  lemma {:induction false} TightJoined(parts: seq<seq<Token>>, k: nat, closer: Token)
    requires k <= |parts| && IsPunctKind(closer.kind) && forall i :: 0 <= i < |parts| ==> Tight(parts[i])
    ensures var j := Joined(parts, k, COMMA, closer); Tight(j) && j != [] && (k > 0 ==> IsPunctKind(j[0].kind))
    decreases |parts| - k
  {
    hide Tight;
    TightShort([closer]);
    if k < |parts| {
      var tail := Joined(parts, k + 1, COMMA, closer);
      TightJoined(parts, k + 1, closer);
      TightAppend(parts[k], tail);
      TightShort(Sep(k, COMMA));
      TightAppend(Sep(k, COMMA), parts[k] + tail);
    }
  }

  lemma {:induction false} TightShort(toks: seq<Token>)
    requires |toks| <= 1
    ensures Tight(toks)
  {
  }

  lemma {:induction false} TightBracket(opener: Kind, parts: seq<seq<Token>>, closer: Kind)
    requires IsPunctKind(opener) && IsPunctKind(closer) && forall i :: 0 <= i < |parts| ==> Tight(parts[i])
    ensures Tight([Punct(opener)] + Joined(parts, 0, COMMA, Punct(closer)))
  {
    hide Tight, Joined;
    TightJoined(parts, 0, Punct(closer));
    TightShort([Punct(opener)]);
    TightAppend([Punct(opener)], Joined(parts, 0, COMMA, Punct(closer)));
  }

  lemma {:induction false} LitTight(lit: Literal)
    requires Expressible(lit)
    ensures Tight(LitTokens(lit))
    decreases lit, 1
  {
    hide Tight, AtomToken, Joined;
    match lit
    case ListLit(items) => ItemsTight(items); TightBracket(LBracket, ItemParts(items), RBracket);
    case TupleLit(items) => ItemsTight(items); TightBracket(LParen, ItemParts(items), RParen);
    case _ => TightShort([AtomToken(lit)]);
  }

  lemma {:induction false} ItemsTight(items: seq<Literal>)
    requires AllExpressible(items)
    ensures forall i :: 0 <= i < |items| ==> Tight(ItemParts(items)[i])
    decreases items, 0
  {
    hide Tight, LitTokens;
    forall i | 0 <= i < |items| ensures Tight(ItemParts(items)[i]) { LitTight(items[i]); }
  }

  lemma {:induction false} ElementTight(el: Element)
    requires ExpressibleElement(el)
    ensures Tight(ElementTokens(el))
  {
    if el.NodeElem? {
      var c := el.node.cond;
      var head := [Punct(LParen), QuotedToken(c.field), COMMA, QuotedToken(OperatorText(c.op)), COMMA];
      assert Tight(head);
      hide Tight, LitTokens;
      LitTight(c.value);
      TightShort([Punct(RParen)]);
      TightAppend(LitTokens(c.value), [Punct(RParen)]);
      TightAppend(head, LitTokens(c.value) + [Punct(RParen)]);
    }
  }

  lemma {:induction false} DomainTight(elems: seq<Element>)
    requires ExpressibleDomain(elems)
    ensures Tight(DomainTokens(elems))
  {
    hide Tight, ElementTokens;
    var parts := ElementParts(elems);
    forall i | 0 <= i < |parts| ensures Tight(parts[i]) { ElementTight(elems[i]); }
    TightBracket(LBracket, parts, RBracket);
  }

  lemma {:induction false} CompactNext(src: string, pos: nat, toks: seq<Token>, k: nat)
    requires k < |toks| && AllLexemes(toks) && Tight(toks)
    requires At(src, pos, Compact(toks[k..])) && pos + |Compact(toks[k..])| == |src|
    ensures var w := Spelled(toks[k]);
            && At(src, pos, w) && SpaceEnd(src, pos) == pos && Delimited(src, pos + |w|, toks[k])
            && At(src, pos + |w|, Compact(toks[k + 1..])) && pos + |w| + |Compact(toks[k + 1..])| == |src|
  {
    hide Spelled, IsLexeme, SpaceEnd;
    var w, rest := Spelled(toks[k]), toks[k + 1..];
    assert toks[k..][1..] == rest && Compact(toks[k..]) == w + Compact(rest);
    AtSplit(src, pos, w, Compact(rest));
    NoBlankBefore(src, pos, toks[k]);
    if k + 1 < |toks| && IsPunctKind(toks[k + 1].kind) {
      PunctStops(toks[k + 1]);
      AtSplit(src, pos + |w|, Spelled(toks[k + 1]), Compact(rest[1..]));
      assert src[pos + |w|..pos + |w| + 1][0] == src[pos + |w|];
    }
  }

  lemma {:induction false} PunctStops(tok: Token)
    requires IsLexeme(tok) && IsPunctKind(tok.kind)
    ensures |Spelled(tok)| == 1 && !IsWordByte(Spelled(tok)[0])
  {
  }

  lemma {:induction false} CompactSpells(src: string, pos: nat, toks: seq<Token>, k: nat)
    requires k <= |toks| && AllLexemes(toks) && Tight(toks)
    requires At(src, pos, Compact(toks[k..])) && pos + |Compact(toks[k..])| == |src|
    ensures Spells(src, pos, toks, k)
    decreases |toks| - k
  {
    hide Spelled, IsLexeme, Compact, Tight, AllLexemes, Delimited, At;
    if k < |toks| {
      CompactNext(src, pos, toks, k);
      CompactSpells(src, pos + |Spelled(toks[k])|, toks, k + 1);
    } else {
      NothingLeft(toks);
    }
  }

  lemma {:induction false} NothingLeft(toks: seq<Token>)
    ensures Compact(toks[|toks|..]) == ""
  {
  }

  lemma {:induction false} ListStringWrites(elems: seq<Element>)
    requires ExpressibleDomain(elems)
    ensures Writes(ListString(elems), elems)
  {
    hide Compact, Tight, AllLexemes, Spells, ListString, DomainTokens, ExpressibleDomain;
    var toks, src := DomainTokens(elems), ListString(elems);
    ListCompact(elems);
    DomainTight(elems);
    DomainLexemes(elems);
    AtWhole(src);
    assert toks[0..] == toks;
    CompactSpells(src, 0, toks, 0);
  }

  // ----- Reading the strings -----

  /** The parser reads every written list as its tree, or rejects it for a logic symbol used as a string. */
  lemma {:induction false} ListStringRead(elems: seq<Element>)
    requires ExpressibleDomain(elems)
    ensures Parse(ListString(elems)) == if PlainDomain(elems) then Tree(elems) else None
  {
    hide Parse, Writes, ListString, ExpressibleDomain, PlainDomain, Tree;
    ListStringWrites(elems);
    ListRoundTrip(ListString(elems), elems);
  }

  /** Strings that stand between quotes as they are, and are no logic symbol. */
  predicate IsName(f: string) {
    && !IsLogicSymbol(f)
    && forall i :: 0 <= i < |f| ==> f[i] != '\\' && f[i] != '\'' && f[i] != '"'
  }

  lemma {:induction false} NameEscaped(f: string)
    requires forall i :: 0 <= i < |f| ==> f[i] != '\\' && f[i] != '\'' && f[i] != '"'
    ensures Escaped(f) == f
  {
    if f != "" {
      NameEscaped(f[1..]);
      assert [f[0]] + f[1..] == f;
    }
  }

  /** A domain of one condition: [('field','operator',value)]. */
  function OneCondition(field: string, operator: string, value: string): string {
    "[('" + field + "','" + operator + "'," + value + ")]"
  }

  lemma {:induction false} OperatorIsName(op: Operator)
    ensures IsName(OperatorText(op))
  {
  }

  lemma {:induction false} JoinedOne(part: string)
    ensures Joined([part], 0, ',', ']') == part + "]"
  {
    assert Joined([part], 1, ',', ']') == "]";
  }

  lemma {:induction false} OneConditionIsListString(c: Condition)
    requires Expressible(c.value) && IsName(c.field)
    ensures ListString([NodeElem(Leaf(c))]) == OneCondition(c.field, OperatorText(c.op), LitString(c.value))
  {
    hide OperatorText, LitString, Joined, Escaped;
    var el := NodeElem(Leaf(c));
    OperatorIsName(c.op);
    NameEscaped(c.field);
    NameEscaped(OperatorText(c.op));
    assert ElementStrings([el]) == [ElementString(el)];
    JoinedOne(ElementString(el));
  }

  /** The text of one condition parses to that condition. */
  lemma {:induction false} OneConditionRead(c: Condition)
    requires Expressible(c.value) && Plain(c.value) && IsName(c.field)
    ensures Parse(OneCondition(c.field, OperatorText(c.op), LitString(c.value))) == Some(Leaf(c))
  {
    hide Parse, OneCondition, ListString, OperatorText, LitString, Expressible, Plain;
    var elems := [NodeElem(Leaf(c))];
    OneConditionIsListString(c);
    ListStringRead(elems);
    OneElementTree(Leaf(c));
  }

  lemma {:induction false} OneElementTree(n: Node)
    ensures Tree([NodeElem(n)]) == Some(n)
  {
  }
}

/**
 The accepted domain texts and what they mean, for every text. A text writes an element list when it
 is a layout of tokens that start with a list of the grammar; it parses to the conjunction of the
 expressions the list consists of, and no other text parses.
 */
module DomainAcceptance {
  import opened Options
  import opened Numbers
  import opened DomainAst
  import opened DomainLexer
  import opened DomainLayout
  import opened DomainParser
  import opened DomainTree
  import opened DomainPrinter
  import opened DomainGrammar
  import opened DomainText

  /** Some layout of tokens, the first of which write the list. */
  ghost predicate WritesList(src: string, elems: seq<Element>) {
    exists toks, e: nat :: Layout(src, toks) && DomainSpan(toks + [END], e, elems)
  }

  /** An empty list means match-all, a forest of complete expressions their left-nested conjunction. */
  ghost predicate Means(elems: seq<Element>, n: Node) {
    (elems == [] && n == MatchAll) || exists forest :: IsForest(elems, forest) && n == LeftConj(forest)
  }

  lemma {:induction false} TreeMeans(elems: seq<Element>, n: Node)
    requires AllLeaves(elems)
    ensures Tree(elems) == Some(n) <==> Means(elems, n)
  {
    hide Flats, LeftConj, BuildTree, WellFormed;
    forall forest | IsForest(elems, forest) ensures elems != [] { FlatsBalance(forest); }
    if elems != [] { BuildTreeExact(elems); }
  }

  lemma {:induction false} ElementsAreLeaves(toks: seq<Token>)
    ensures DomainElements(toks).Some? ==> AllLeaves(DomainElements(toks).value)
  {
    hide Entries;
    ParsedElementsAreLeaves(toks, 1, []);
  }

  /** A text that writes a list parses to the tree of that list. */
  lemma {:induction false} WrittenIsRead(src: string, elems: seq<Element>)
    requires WritesList(src, elems)
    ensures Parse(src) == Tree(elems) && AllLeaves(elems)
  {
    hide Tokens, DomainElements, Layout, DomainSpan, Tree, AllLeaves;
    var toks, e: nat :| Layout(src, toks) && DomainSpan(toks + [END], e, elems);
    LexExact(src, toks);
    ElementsExact(toks + [END], elems);
    ElementsAreLeaves(toks + [END]);
  }

  /** A text that parses writes a list. */
  lemma {:induction false} ReadIsWritten(src: string) returns (elems: seq<Element>)
    requires Parse(src).Some?
    ensures WritesList(src, elems) && Parse(src) == Tree(elems)
  {
    hide Tokens, DomainElements, Layout, DomainSpan, Tree;
    LexedIsLayout(src);
    var toks :| Layout(src, toks);
    LexExact(src, toks);
    elems := DomainElements(toks + [END]).value;
    ElementsExact(toks + [END], elems);
    var e: nat :| DomainSpan(toks + [END], e, elems);
  }

  /** The accepted texts and their trees, both directions. */
  lemma {:induction false} ParseExact(src: string, n: Node)
    ensures Parse(src) == Some(n) <==> exists elems :: WritesList(src, elems) && Means(elems, n)
  {
    hide Parse, WritesList, Means, Tree, AllLeaves;
    if Parse(src) == Some(n) {
      var elems := ReadIsWritten(src);
      WrittenIsRead(src, elems);
      TreeMeans(elems, n);
    }
    forall elems | WritesList(src, elems) && Means(elems, n) ensures Parse(src) == Some(n) {
      WrittenIsRead(src, elems);
      TreeMeans(elems, n);
    }
  }

  // ----- Text behind the list -----

  /**
   What follows the closing bracket has to be made of lexemes, or the whole text is rejected;
   otherwise it changes nothing.
   */
  lemma {:induction false} TrailingText(src: string, toks: seq<Token>, stop: nat, elems: seq<Element>)
    requires LayoutTo(src, 0, toks, 0, stop) && stop <= |src| && DomainSpan(toks, |toks|, elems)
    ensures Parse(src) == if TokensFrom(src, stop, []).None? then None else Tree(elems)
  {
    hide TokensFrom, DomainElements, LayoutTo, DomainSpan, Tree;
    assert toks[..0] == [];
    LexTo(src, 0, toks, 0, stop);
    TokensPrefix(src, stop, toks);
    var r := TokensFrom(src, stop, toks);
    if r.Some? {
      assert forall i :: 0 <= i < |toks| ==> toks[i] == r.value[..|toks|][i];
      DomainSpanLocal(toks, r.value, |toks|, elems);
      ElementsExact(r.value, elems);
    }
  }

  // ----- Which lists have a text -----

  /** Tokens as the lexer produces them. */
  ghost predicate FromLexer(toks: seq<Token>) { forall i :: 0 <= i < |toks| ==> toks[i] == END || IsLexeme(toks[i]) }

  lemma {:induction false} LexemeIsLexeme(src: string, at: nat, e: nat, tok: Token)
    requires LexemeAt(src, at, e, tok)
    ensures IsLexeme(tok)
  {
    hide WordToken, QuotedToken, IsIntLexeme, IsFloatLexeme, Quotes;
    if IsWordKind(tok.kind) { WordTokenKinds(src[at..e]); }
  }

  lemma {:induction false} LayoutFromLexer(src: string, pos: nat, toks: seq<Token>, k: nat, stop: nat)
    requires k <= |toks| && LayoutTo(src, pos, toks, k, stop)
    ensures forall i :: k <= i < |toks| ==> IsLexeme(toks[i])
    decreases |toks| - k
  {
    hide LexemeAt, IsLexeme;
    if k < |toks| {
      var e :| LexemeAt(src, SpaceEnd(src, pos), e, toks[k]) && LayoutTo(src, e, toks, k + 1, stop);
      LexemeIsLexeme(src, SpaceEnd(src, pos), e, toks[k]);
      LayoutFromLexer(src, e, toks, k + 1, stop);
    }
  }

  /** A string token is not a logic symbol; those have kinds of their own. */
  lemma {:induction false} StringTokens(tok: Token)
    requires IsLexeme(tok) && tok.kind == StringKind
    ensures !IsLogicSymbol(tok.text)
  {
  }

  lemma {:induction false} AtomIsPlain(tok: Token)
    requires (tok == END || IsLexeme(tok)) && AtomOf(tok).Some?
    ensures Expressible(AtomOf(tok).value) && Plain(AtomOf(tok).value)
  {
    hide WordToken, QuotedToken, ParseFloat;
    match tok.kind
    case StringKind => StringTokens(tok);
    case FloatKind => assert IsFloatLexeme(tok.text);
    case RefKind => assert IsReference(tok.text);
    case _ =>
  }

  lemma {:induction false} ValueIsPlain(toks: seq<Token>, pos: nat, e: nat, lit: Literal)
    requires FromLexer(toks) && ValueSpan(toks, pos, e, lit)
    ensures Expressible(lit) && Plain(lit)
    decreases lit, 1
  {
    match lit
    case ListLit(items) => ItemsArePlain(toks, pos + 1, e, RBracket, items, 0);
    case TupleLit(items) => ItemsArePlain(toks, pos + 1, e, RParen, items, 0);
    case _ => AtomIsPlain(toks[pos]);
  }

  lemma {:induction false} ItemsArePlain(toks: seq<Token>, pos: nat, e: nat, closer: Kind, items: seq<Literal>, k: nat)
    requires FromLexer(toks) && k <= |items| && ListSpan(toks, pos, e, closer, ItemSpan(toks, items), items, k)
    ensures forall i :: k <= i < |items| ==> Expressible(items[i]) && Plain(items[i])
    decreases items, 0, |items| - k
  {
    hide ValueSpan, Expressible, Plain;
    if k < |items| {
      var at: nat, m: nat :| EntryStart(toks, pos, k == 0, at) && ItemSpan(toks, items)(at, m, items[k])
                             && ListSpan(toks, m, e, closer, ItemSpan(toks, items), items, k + 1);
      ValueIsPlain(toks, at, m, items[k]);
      ItemsArePlain(toks, m, e, closer, items, k + 1);
    }
  }

  lemma {:induction false} ElementIsPlain(toks: seq<Token>, pos: nat, e: nat, el: Element)
    requires FromLexer(toks) && ElementSpan(toks, pos, e, el)
    ensures ExpressibleElement(el) && PlainElement(el)
  {
    hide ValueSpan, Expressible, Plain, IsLexeme, IsLogicSymbol;
    if el.NodeElem? {
      var c := el.node.cond;
      var opAt: nat, valueAt: nat, m: nat :|
        && EntryStart(toks, pos + 2, false, opAt) && Peek(toks, opAt) == StringKind && toks[opAt].text == OperatorText(c.op)
        && EntryStart(toks, opAt + 1, false, valueAt) && ValueSpan(toks, valueAt, m, c.value)
        && Peek(toks, m) == RParen && e == m + 1;
      StringTokens(toks[pos + 1]);
      ValueIsPlain(toks, valueAt, m, c.value);
    }
  }

  lemma {:induction false} ElementsArePlain(toks: seq<Token>, pos: nat, e: nat, elems: seq<Element>, k: nat)
    requires FromLexer(toks) && k <= |elems| && ListSpan(toks, pos, e, RBracket, ElementEntry(toks), elems, k)
    ensures forall i :: k <= i < |elems| ==> ExpressibleElement(elems[i]) && PlainElement(elems[i])
    decreases |elems| - k
  {
    hide ElementSpan, ExpressibleElement, PlainElement;
    if k < |elems| {
      var at: nat, m: nat :| EntryStart(toks, pos, k == 0, at) && ElementEntry(toks)(at, m, elems[k])
                             && ListSpan(toks, m, e, RBracket, ElementEntry(toks), elems, k + 1);
      ElementIsPlain(toks, at, m, elems[k]);
      ElementsArePlain(toks, m, e, elems, k + 1);
    }
  }

  /** A list has a text, of whatever layout, exactly when the syntax can express it and no string in it is a logic symbol. */
  lemma {:induction false} HasTextExactly(elems: seq<Element>)
    ensures (exists src :: WritesList(src, elems)) <==> ExpressibleDomain(elems) && PlainDomain(elems)
  {
    forall src | WritesList(src, elems) ensures ExpressibleDomain(elems) && PlainDomain(elems) {
      WrittenIsPlain(src, elems);
    }
    if ExpressibleDomain(elems) && PlainDomain(elems) {
      PlainIsWritten(elems);
    }
  }

  lemma {:induction false} WrittenIsPlain(src: string, elems: seq<Element>)
    requires WritesList(src, elems)
    ensures ExpressibleDomain(elems) && PlainDomain(elems)
  {
    hide LayoutTo, ListSpan, IsLexeme, ExpressibleElement, PlainElement;
    var toks, e: nat :| Layout(src, toks) && DomainSpan(toks + [END], e, elems);
    var stop: nat :| LayoutTo(src, 0, toks, 0, stop) && stop <= |src| && SpaceEnd(src, stop) == |src|;
    LayoutFromLexer(src, 0, toks, 0, stop);
    ElementsArePlain(toks + [END], 1, e, elems, 0);
  }

  lemma {:induction false} PlainIsWritten(elems: seq<Element>)
    requires ExpressibleDomain(elems) && PlainDomain(elems)
    ensures exists src :: WritesList(src, elems)
  {
    hide Spells, DomainElements, Tokens, IsLexeme, DomainTokens, Layout, DomainSpan, PlainDomain, ExpressibleDomain;
    EveryDomainHasText(elems);
    var src :| Writes(src, elems);
    var toks := DomainTokens(elems);
    DomainLexemes(elems);
    LexSpelled(src, toks);
    LexExact(src, toks);
    ElementsRoundTrip(elems, [END]);
    ElementsExact(toks + [END], elems);
    var e: nat :| DomainSpan(toks + [END], e, elems);
    assert WritesList(src, elems);
  }

  lemma {:induction false} AndsKeepPlain(k: nat, elems: seq<Element>)
    requires ExpressibleDomain(elems) && PlainDomain(elems)
    ensures ExpressibleDomain(Ands(k) + elems) && PlainDomain(Ands(k) + elems)
  {
    var all := Ands(k) + elems;
    forall i | 0 <= i < |all| ensures ExpressibleElement(all[i]) && PlainElement(all[i]) {
      assert all[i] == if i < k then OpElem(And) else elems[i - k];
    }
  }

  /** A tree is what some text means exactly when it can be expressed and no string in it is a logic symbol. */
  lemma {:induction false} TreeHasTextExactly(n: Node)
    requires WellFormed(n)
    ensures (exists src :: Parse(src) == Some(n)) <==> ExpressibleDomain(Flat(n)) && PlainDomain(Flat(n))
  {
    hide Parse, Writes, WritesList, ExpressibleDomain, PlainDomain, Flat, Flats, LeftConj;
    forall src | Parse(src) == Some(n) ensures ExpressibleDomain(Flat(n)) && PlainDomain(Flat(n)) {
      ParseExact(src, n);
      var elems :| WritesList(src, elems) && Means(elems, n);
      var forest :| IsForest(elems, forest) && n == LeftConj(forest);
      WrittenIsPlain(src, elems);
      LeftConjFlat(forest);
      AndsKeepPlain(|forest| - 1, elems);
    }
    if ExpressibleDomain(Flat(n)) && PlainDomain(Flat(n)) {
      EveryDomainHasText(Flat(n));
      var src :| Writes(src, Flat(n));
      TreeRoundTrip(src, n);
    }
  }

  /** No text at all means a comparison with a logic symbol, and its canonical texts are errors: [('f', '=', '&')]. */
  lemma {:induction false} LogicSymbolIsLost(src: string, field: string, op: Operator, symbol: string)
    requires symbol in {"&", "|", "!"}
    ensures var n := Leaf(Condition(field, op, StringLit(symbol)));
            Parse(src) != Some(n) && (Writes(src, [NodeElem(n)]) ==> Parse(src) == None)
  {
    var n := Leaf(Condition(field, op, StringLit(symbol)));
    var elems := [NodeElem(n)];
    assert !PlainElement(elems[0]) && Flat(n) == elems;
    hide Parse, Writes, ExpressibleDomain, PlainElement, Flat;
    TreeHasTextExactly(n);
    if Writes(src, elems) { ListRoundTrip(src, elems); }
  }

  const BRACKETS: seq<Token> := [Token(LBracket, "["), Token(RBracket, "]")]

  lemma {:induction false} BracketsLaidOut(src: string)
    requires |src| >= 2 && src[0] == '[' && src[1] == ']'
    ensures LayoutTo(src, 0, BRACKETS, 0, 2)
  {
    assert src[0..1] == "[" && src[1..2] == "]";
    assert LexemeAt(src, 0, 1, BRACKETS[0]) && LexemeAt(src, 1, 2, BRACKETS[1]);
    hide LexemeAt;
    assert SpaceEnd(src, 0) == 0 && SpaceEnd(src, 1) == 1;
    LayoutStep(src, 1, BRACKETS, 1, 2, 2);
    LayoutStep(src, 0, BRACKETS, 0, 1, 2);
  }

  /** A complete domain, and the same with a byte behind it that starts no token. */
  lemma {:induction false} TailMustLex()
    ensures Parse("[]") == Some(MatchAll) && Parse("[] @") == None
  {
    hide Parse, LayoutTo;
    BracketsLaidOut("[]");
    BracketsLaidOut("[] @");
    assert DomainSpan(BRACKETS, 2, []);
    assert SpaceEnd("[] @", 2) == 3 && TokenAt("[] @", 3) == Fail;
    TrailingText("[]", BRACKETS, 2, []);
    TrailingText("[] @", BRACKETS, 2, []);
  }
}

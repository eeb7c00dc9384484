/**
 Domain texts. `Spells` relates a token list to every text that writes its lexemes in order with
 any white space around them; the lexer reads every such text back. Together with the printed
 token lists this gives the round trip of whole domains.
 */
module DomainText {
  import opened Options
  import opened Segments
  import opened Separated
  import opened Numbers
  import opened DomainAst
  import opened DomainLexer
  import opened DomainLayout
  import opened DomainParser
  import opened DomainTree
  import opened DomainPrinter

  // ----- Spelling of tokens -----

  /** Tokens the lexer can produce, the end marker aside. */
  ghost predicate IsLexeme(tok: Token) {
    if IsPunctKind(tok.kind) then tok == Punct(tok.kind)
    else if IsQuotedKind(tok.kind) then tok == QuotedToken(tok.text)
    else if IsWordKind(tok.kind) then tok == WordToken(tok.text) && IsIdent(tok.text)
    else if tok.kind == IntKind then IsIntLexeme(tok.text)
    else tok.kind == FloatKind && IsFloatLexeme(tok.text)
  }

  function Spelled(tok: Token): string {
    if IsQuotedKind(tok.kind) then Quote(tok.text) else tok.text
  }

  /** A number or word must not run into a byte that would extend it. */
  predicate Delimited(src: string, e: nat, tok: Token) {
    (IsPunctKind(tok.kind) || IsQuotedKind(tok.kind)) || e >= |src| || !IsWordByte(src[e])
  }

  ghost predicate Spells(src: string, pos: nat, toks: seq<Token>, k: nat)
    requires pos <= |src| && k <= |toks|
    decreases |toks| - k
  {
    var at := SpaceEnd(src, pos);
    if k == |toks| then at == |src|
    else
      var e := at + |Spelled(toks[k])|;
      At(src, at, Spelled(toks[k])) && Delimited(src, e, toks[k]) && Spells(src, e, toks, k + 1)
  }

  // ----- Spelled texts are layouts -----

  lemma {:induction false} EscapedAt(src: string, pos: nat, rest: string)
    requires rest != "" && At(src, pos, Escaped(rest))
    ensures var n := |EscapedByte(rest[0])|;
            At(src, pos, EscapedByte(rest[0])) && At(src, pos + n, Escaped(rest[1..])) && |Escaped(rest)| == n + |Escaped(rest[1..])|
  {
    AtSplit(src, pos, EscapedByte(rest[0]), Escaped(rest[1..]));
  }

  lemma {:induction false} DecodedByte(src: string, pos: nat, e: nat, c: char)
    requires At(src, pos, EscapedByte(c)) && pos + |EscapedByte(c)| <= e <= |src|
    ensures Decoded(src, pos, e, '\'') == Behind([c], Decoded(src, pos + |EscapedByte(c)|, e, '\''))
  {
    assert src[pos] == src[pos..pos + |EscapedByte(c)|][0];
    if |EscapedByte(c)| == 2 {
      assert src[pos + 1] == src[pos..pos + 2][1];
    }
  }

  lemma {:induction false} NothingDecodes(src: string, pos: nat)
    requires At(src, pos, Escaped(""))
    ensures pos + |Escaped("")| <= |src| && Decoded(src, pos, pos + |Escaped("")|, '\'') == Some("")
  {
  }

  lemma {:induction false} BehindSome(head: string, tail: string)
    ensures Behind(head, Some(tail)) == Some(head + tail)
  {
  }

  /** Decoding inverts escaping. */
  lemma {:induction false} EscapedDecodes(src: string, pos: nat, rest: string)
    requires At(src, pos, Escaped(rest))
    ensures pos + |Escaped(rest)| <= |src| && Decoded(src, pos, pos + |Escaped(rest)|, '\'') == Some(rest)
    decreases |rest|
  {
    hide *;
    if rest == "" {
      NothingDecodes(src, pos);
    } else {
      var c := rest[0];
      EscapedAt(src, pos, rest);
      EscapedDecodes(src, pos + |EscapedByte(c)|, rest[1..]);
      DecodedByte(src, pos, pos + |Escaped(rest)|, c);
      BehindSome([c], rest[1..]);
      assert [c] + rest[1..] == rest;
    }
  }

  lemma {:induction false} QuoteQuotes(src: string, at: nat, text: string)
    requires At(src, at, Quote(text))
    ensures Quotes(src, at, at + |Quote(text)|, text)
  {
    hide Decoded, Escaped;
    AtHead(src, at, '\'', Escaped(text) + "'");
    AtSplit(src, at + 1, Escaped(text), "'");
    AtHead(src, at + 1 + |Escaped(text)|, '\'', "");
    EscapedDecodes(src, at + 1, text);
  }

  /** The canonical text of a token is one of its lexemes. */
  lemma {:induction false} SpelledIsLexeme(src: string, at: nat, tok: Token)
    requires IsLexeme(tok) && At(src, at, Spelled(tok)) && Delimited(src, at + |Spelled(tok)|, tok)
    ensures LexemeAt(src, at, at + |Spelled(tok)|, tok)
  {
    hide Quote, WordToken, QuotedToken;
    if IsQuotedKind(tok.kind) { QuoteQuotes(src, at, tok.text); }
    SpelledNonEmpty(tok);
  }

  lemma {:induction false} SpelledNonEmpty(tok: Token)
    requires IsLexeme(tok)
    ensures Spelled(tok) != "" && !IsSpace(Spelled(tok)[0])
  {
  }

  lemma {:induction false} SpellsHead(src: string, pos: nat, toks: seq<Token>, k: nat)
    requires pos <= |src| && k < |toks| && Spells(src, pos, toks, k)
    ensures var at := SpaceEnd(src, pos); var e := at + |Spelled(toks[k])|;
            At(src, at, Spelled(toks[k])) && Delimited(src, e, toks[k]) && e <= |src| && Spells(src, e, toks, k + 1)
  {
  }

  lemma {:induction false} SpellsEnd(src: string, pos: nat, toks: seq<Token>)
    requires pos <= |src| && Spells(src, pos, toks, |toks|)
    ensures LayoutTo(src, pos, toks, |toks|, pos) && SpaceEnd(src, pos) == |src|
  {
  }

  lemma {:induction false} LayoutStep(src: string, pos: nat, toks: seq<Token>, k: nat, e: nat, stop: nat)
    requires pos <= |src| && k < |toks| && LexemeAt(src, SpaceEnd(src, pos), e, toks[k]) && LayoutTo(src, e, toks, k + 1, stop)
    ensures LayoutTo(src, pos, toks, k, stop)
  {
    hide LexemeAt;
  }

  lemma {:induction false} SpellsIsLayout(src: string, pos: nat, toks: seq<Token>, k: nat) returns (stop: nat)
    requires pos <= |src| && k <= |toks| && Spells(src, pos, toks, k)
    requires forall i :: 0 <= i < |toks| ==> IsLexeme(toks[i])
    ensures LayoutTo(src, pos, toks, k, stop) && stop <= |src| && SpaceEnd(src, stop) == |src|
    decreases |toks| - k
  {
    hide *;
    if k == |toks| {
      SpellsEnd(src, pos, toks);
      stop := pos;
    } else {
      SpellsHead(src, pos, toks, k);
      var e := SpaceEnd(src, pos) + |Spelled(toks[k])|;
      SpelledIsLexeme(src, SpaceEnd(src, pos), toks[k]);
      stop := SpellsIsLayout(src, e, toks, k + 1);
      LayoutStep(src, pos, toks, k, e, stop);
    }
  }

  /** Lexing inverts spelling. */
  lemma {:induction false} LexSpelled(src: string, toks: seq<Token>)
    requires Spells(src, 0, toks, 0) && forall i :: 0 <= i < |toks| ==> IsLexeme(toks[i])
    ensures Tokens(src) == Some(toks + [END])
  {
    hide IsLexeme, Spells, Tokens;
    var stop := SpellsIsLayout(src, 0, toks, 0);
    LexExact(src, toks);
  }

  // ----- Printed domains consist of lexemes -----

  ghost predicate AllLexemes(toks: seq<Token>) { forall i :: 0 <= i < |toks| ==> IsLexeme(toks[i]) }

  lemma {:induction false} AllLexemesAppend(a: seq<Token>, b: seq<Token>)
    requires AllLexemes(a) && AllLexemes(b)
    ensures AllLexemes(a + b)
  {
  }

  lemma {:induction false} JoinedLexemes(parts: seq<seq<Token>>, k: nat, closer: Token)
    requires k <= |parts| && IsLexeme(closer)
    requires forall i :: 0 <= i < |parts| ==> AllLexemes(parts[i])
    ensures AllLexemes(Joined(parts, k, COMMA, closer))
    decreases |parts| - k
  {
    if k < |parts| {
      JoinedLexemes(parts, k + 1, closer);
      AllLexemesAppend(parts[k], Joined(parts, k + 1, COMMA, closer));
      AllLexemesAppend(Sep(k, COMMA), parts[k] + Joined(parts, k + 1, COMMA, closer));
    }
  }

  lemma {:induction false} QuotedIsLexeme(t: string)
    ensures IsLexeme(QuotedToken(t))
  {
  }

  lemma {:induction false} WordIsLexeme(t: string)
    requires IsIdent(t)
    ensures IsLexeme(WordToken(t))
  {
  }

  lemma {:induction false} KeywordsAreIdents()
    ensures IsIdent("True") && IsIdent("False") && IsIdent("None")
  {
  }

  lemma {:induction false} ReferenceIsIdent(t: string)
    requires IsReference(t)
    ensures IsIdent(t)
  {
  }

  lemma {:induction false} IntIsLexeme(n: int)
    ensures IsLexeme(NumberToken(IntText(n), false))
  {
  }

  lemma {:induction false} FloatIsLexeme(r: real)
    requires IsDecimal(r)
    ensures IsLexeme(NumberToken(FloatText(r), true))
  {
  }

  lemma {:induction false} AtomIsLexeme(lit: Literal)
    requires Expressible(lit) && IsAtom(lit)
    ensures IsLexeme(AtomToken(lit))
  {
    hide IsLexeme, QuotedToken, WordToken, NumberToken, IntText, FloatText, IsIdent;
    KeywordsAreIdents();
    match lit
    case StringLit(t) => QuotedIsLexeme(t);
    case IntLit(n) => IntIsLexeme(n);
    case FloatLit(r) => FloatIsLexeme(r);
    case BoolLit(b) => WordIsLexeme(if b then "True" else "False");
    case NoneLit => WordIsLexeme("None");
    case RefLit(name) =>
      ReferenceIsIdent(name);
      WordIsLexeme(name);
  }

  lemma {:induction false} LitLexemes(lit: Literal)
    requires Expressible(lit)
    ensures AllLexemes(LitTokens(lit))
    decreases lit, 1
  {
    if IsAtom(lit) {
      AtomIsLexeme(lit);
    } else if lit.ListLit? {
      ItemsLexemes(lit.items, LBracket, RBracket);
    } else {
      ItemsLexemes(lit.items, LParen, RParen);
    }
  }

  lemma {:induction false} ItemsLexemes(items: seq<Literal>, opener: Kind, closer: Kind)
    requires AllExpressible(items) && Closes(closer) && (opener == LBracket || opener == LParen)
    ensures AllLexemes([Punct(opener)] + Joined(ItemParts(items), 0, COMMA, Punct(closer)))
    decreases items, 0
  {
    var parts := ItemParts(items);
    forall i | 0 <= i < |parts| ensures AllLexemes(parts[i]) { LitLexemes(items[i]); }
    JoinedLexemes(parts, 0, Punct(closer));
    AllLexemesAppend([Punct(opener)], Joined(parts, 0, COMMA, Punct(closer)));
  }

  lemma {:induction false} ElementLexemes(el: Element)
    requires ExpressibleElement(el)
    ensures AllLexemes(ElementTokens(el))
  {
    if el.NodeElem? {
      var c := el.node.cond;
      LitLexemes(c.value);
      HeadLexemes(c.field, OperatorText(c.op));
      AllLexemesAppend(LitTokens(c.value), [Punct(RParen)]);
      var head := [Punct(LParen), QuotedToken(c.field), COMMA, QuotedToken(OperatorText(c.op)), COMMA];
      AllLexemesAppend(head, LitTokens(c.value) + [Punct(RParen)]);
    } else {
      QuotedIsLexeme("&"); QuotedIsLexeme("|"); QuotedIsLexeme("!");
    }
  }

  lemma {:induction false} HeadLexemes(field: string, op: string)
    ensures AllLexemes([Punct(LParen), QuotedToken(field), COMMA, QuotedToken(op), COMMA])
    ensures AllLexemes([Punct(RParen)])
  {
  }

  lemma {:induction false} DomainLexemes(elems: seq<Element>)
    requires ExpressibleDomain(elems)
    ensures AllLexemes(DomainTokens(elems))
  {
    var parts := ElementParts(elems);
    forall i | 0 <= i < |parts| ensures AllLexemes(parts[i]) { ElementLexemes(elems[i]); }
    JoinedLexemes(parts, 0, Punct(RBracket));
    AllLexemesAppend([Punct(LBracket)], Joined(parts, 0, COMMA, Punct(RBracket)));
  }

  // ----- A layout always exists -----

  /** Every lexeme followed by one blank. */
  function Rendered(toks: seq<Token>, k: nat): string
    requires k <= |toks|
    decreases |toks| - k
  {
    if k == |toks| then "" else Spelled(toks[k]) + (" " + Rendered(toks, k + 1))
  }

  lemma {:induction false} SpellsAfterBlank(src: string, pos: nat, toks: seq<Token>, k: nat)
    requires pos < |src| && src[pos] == ' ' && k <= |toks| && Spells(src, pos + 1, toks, k)
    ensures Spells(src, pos, toks, k)
  {
    hide Spelled, Delimited, At;
    assert SpaceEnd(src, pos) == SpaceEnd(src, pos + 1);
  }

  lemma {:induction false} NoBlankBefore(src: string, pos: nat, tok: Token)
    requires IsLexeme(tok) && At(src, pos, Spelled(tok))
    ensures SpaceEnd(src, pos) == pos
  {
  }

  lemma {:induction false} SpellsNow(src: string, pos: nat, toks: seq<Token>, k: nat)
    requires k < |toks| && pos <= |src| && SpaceEnd(src, pos) == pos && At(src, pos, Spelled(toks[k]))
    requires var e := pos + |Spelled(toks[k])|; e < |src| && src[e] == ' ' && Spells(src, e, toks, k + 1)
    ensures Spells(src, pos, toks, k)
  {
    hide Spelled;
  }

  lemma {:induction false} RenderedUnfold(src: string, pos: nat, toks: seq<Token>, k: nat)
    requires k <= |toks| && AllLexemes(toks)
    requires At(src, pos, Rendered(toks, k)) && pos + |Rendered(toks, k)| == |src|
    ensures k == |toks| ==> Spells(src, pos, toks, k)
    ensures k < |toks| ==>
              var w, tail := Spelled(toks[k]), Rendered(toks, k + 1);
              && IsLexeme(toks[k]) && At(src, pos, w) && pos + |w| < |src| && src[pos + |w|] == ' '
              && At(src, pos + |w| + 1, tail) && pos + |w| + 1 + |tail| == |src|
  {
    hide Spelled, IsLexeme;
    if k < |toks| {
      var w, tail := Spelled(toks[k]), Rendered(toks, k + 1);
      AtSplit(src, pos, w, " " + tail);
      AtHead(src, pos + |w|, ' ', tail);
    }
  }

  lemma {:induction false} RenderedSpells(src: string, pos: nat, toks: seq<Token>, k: nat)
    requires k <= |toks| && AllLexemes(toks)
    requires At(src, pos, Rendered(toks, k)) && pos + |Rendered(toks, k)| == |src|
    ensures Spells(src, pos, toks, k)
    decreases |toks| - k
  {
    hide *;
    RenderedUnfold(src, pos, toks, k);
    if k < |toks| {
      var w, tail := Spelled(toks[k]), Rendered(toks, k + 1);
      RenderedSpells(src, pos + |w| + 1, toks, k + 1);
      SpellsAfterBlank(src, pos + |w|, toks, k + 1);
      NoBlankBefore(src, pos, toks[k]);
      SpellsNow(src, pos, toks, k);
    }
  }

  // ----- Round trips -----

  /** A text that lays out a printed domain. */
  ghost predicate Writes(src: string, elems: seq<Element>) {
    ExpressibleDomain(elems) && Spells(src, 0, DomainTokens(elems), 0)
  }

  lemma {:induction false} EveryDomainHasText(elems: seq<Element>)
    requires ExpressibleDomain(elems)
    ensures exists src :: Writes(src, elems)
  {
    var toks := DomainTokens(elems);
    var src := Rendered(toks, 0);
    DomainLexemes(elems);
    AtWhole(src);
    RenderedSpells(src, 0, toks, 0);
    assert Writes(src, elems);
  }

  /** Whatever its layout, a written domain list is read back as that list, or rejected. */
  lemma {:induction false} ListRoundTrip(src: string, elems: seq<Element>)
    requires Writes(src, elems)
    ensures Parse(src) == if PlainDomain(elems) then Tree(elems) else None
  {
    var toks := DomainTokens(elems);
    DomainLexemes(elems);
    LexSpelled(src, toks);
    ElementsRoundTrip(elems, [END]);
  }

  /**
   Parsing inverts printing on a tree exactly when no string in it is one of & | !; otherwise the
   text is rejected.
   */
  lemma {:induction false} TreeRoundTrip(src: string, n: Node)
    requires WellFormed(n) && Writes(src, Flat(n))
    ensures Parse(src) == Some(n) <==> PlainDomain(Flat(n))
    ensures Parse(src) == None <==> !PlainDomain(Flat(n))
  {
    ListRoundTrip(src, Flat(n));
    assert Flats([n]) == Flat(n) by { assert [n][..0] == []; assert [] + Flat(n) == Flat(n); }
    BuildComplete([n]);
  }

  /** Conditions and expressions written side by side are read as their conjunction. */
  lemma {:induction false} ForestRoundTrip(src: string, forest: seq<Node>)
    requires forest != [] && AllWellFormed(forest) && Writes(src, Flats(forest)) && PlainDomain(Flats(forest))
    ensures Parse(src) == Some(LeftConj(forest))
  {
    ListRoundTrip(src, Flats(forest));
    FlatsBalance(forest);
    BuildComplete(forest);
  }
}

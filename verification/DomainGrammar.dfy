/**
 What the parser accepts, stated without it. A grammar over tokens says which stretch writes a value,
 a condition, a list; commas are optional between entries and one may stand before the closer. The
 parser returns a domain list exactly when the grammar does, whatever tokens follow the list.
 */
module DomainGrammar {
  import opened Options
  import opened Segments
  import opened DomainAst
  import opened Numbers
  import opened DomainLexer
  import opened DomainParser
  import opened DomainPrinter

  // ----- The grammar -----

  /** An entry starts at `pos`, or behind a comma there unless it is the first. */
  predicate EntryStart(toks: seq<Token>, pos: nat, first: bool, at: nat) {
    at == pos || (!first && Peek(toks, pos) == Comma && at == pos + 1)
  }

  predicate ListEnd(toks: seq<Token>, pos: nat, first: bool, closer: Kind, e: nat) {
    || (Peek(toks, pos) == closer && e == pos + 1)
    || (!first && Peek(toks, pos) == Comma && Peek(toks, pos + 1) == closer && e == pos + 2)
  }

  /** The entries from index `k` on and the closer fill a stretch of tokens. */
  ghost predicate ListSpan<T>(toks: seq<Token>, pos: nat, e: nat, closer: Kind, entry: (nat, nat, T) -> bool, vals: seq<T>, k: nat)
    requires k <= |vals|
    decreases |vals| - k
  {
    if k == |vals| then ListEnd(toks, pos, k == 0, closer, e)
    else exists at: nat, m: nat ::
           EntryStart(toks, pos, k == 0, at) && entry(at, m, vals[k]) && ListSpan(toks, m, e, closer, entry, vals, k + 1)
  }

  /** A value fills a stretch of tokens. */
  ghost predicate ValueSpan(toks: seq<Token>, pos: nat, e: nat, lit: Literal)
    decreases lit, 1
  {
    match lit
    case ListLit(items) => Peek(toks, pos) == LBracket && ListSpan(toks, pos + 1, e, RBracket, ItemSpan(toks, items), items, 0)
    case TupleLit(items) => Peek(toks, pos) == LParen && ListSpan(toks, pos + 1, e, RParen, ItemSpan(toks, items), items, 0)
    case _ => pos < |toks| && e == pos + 1 && AtomOf(toks[pos]) == Some(lit)
  }

  ghost function ItemSpan(toks: seq<Token>, items: seq<Literal>): (nat, nat, Literal) -> bool
    decreases items, 0
  {
    (at: nat, m: nat, v: Literal) => v in items && ValueSpan(toks, at, m, v)
  }

  /** A condition: field and operator as strings and a value in parentheses, the commas optional. */
  ghost predicate CondSpan(toks: seq<Token>, pos: nat, e: nat, c: Condition) {
    && Peek(toks, pos) == LParen && Peek(toks, pos + 1) == StringKind && toks[pos + 1].text == c.field
    && exists opAt: nat, valueAt: nat, m: nat ::
         && EntryStart(toks, pos + 2, false, opAt) && Peek(toks, opAt) == StringKind && toks[opAt].text == OperatorText(c.op)
         && EntryStart(toks, opAt + 1, false, valueAt) && ValueSpan(toks, valueAt, m, c.value)
         && Peek(toks, m) == RParen && e == m + 1
  }

  function OpKind(op: LogicOp): Kind {
    match op case And => AndKind case Or => OrKind case Not => NotKind
  }

  ghost predicate ElementSpan(toks: seq<Token>, pos: nat, e: nat, el: Element) {
    match el
    case OpElem(op) => Peek(toks, pos) == OpKind(op) && e == pos + 1
    case NodeElem(n) => n.Leaf? && CondSpan(toks, pos, e, n.cond)
  }

  ghost function ElementEntry(toks: seq<Token>): (nat, nat, Element) -> bool {
    (at: nat, m: nat, el: Element) => ElementSpan(toks, at, m, el)
  }

  /** A bracketed domain list fills the tokens up to `e`; what follows is free. */
  ghost predicate DomainSpan(toks: seq<Token>, e: nat, elems: seq<Element>) {
    Peek(toks, 0) == LBracket && ListSpan(toks, 1, e, RBracket, ElementEntry(toks), elems, 0)
  }

  // ----- Lists -----

  lemma {:induction false} EntriesPrefix<T>(toks: seq<Token>, pos: nat, closer: Kind, entry: nat -> Reading<T>, read: seq<T>)
    ensures var r := Entries(toks, pos, closer, entry, read); r.Read? ==> |read| <= |r.value| && r.value[..|read|] == read
    decreases if pos < |toks| then |toks| - pos else 0
  {
    var at := if read == [] then pos else PastComma(toks, pos);
    if pos < |toks| && entry(at).Read? && pos < entry(at).next {
      var read' := read + [entry(at).value];
      EntriesPrefix(toks, entry(at).next, closer, entry, read');
      var r := Entries(toks, entry(at).next, closer, entry, read');
      if r.Read? { assert r.value[..|read|] == r.value[..|read| + 1][..|read|]; }
    }
  }

  /** The reader of entries and the relation agree on the values of a list, from a position on. */
  ghost predicate Agrees<T>(toks: seq<Token>, from: nat, entry: nat -> Reading<T>, span: (nat, nat, T) -> bool, vals: seq<T>) {
    && (forall i, at: nat, m: nat :: 0 <= i < |vals| && from <= at ==> (entry(at) == Read(vals[i], m) <==> span(at, m, vals[i])))
    && (forall at: nat :: from <= at && entry(at).Read? ==> at < entry(at).next && Opens(Peek(toks, at)))
  }

  /** Where the next entry can start is decided by the tokens. */
  lemma {:induction false} StartIsFixed<T>(toks: seq<Token>, pos: nat, from: nat, entry: nat -> Reading<T>, span: (nat, nat, T) -> bool,
                                           vals: seq<T>, k: nat, at: nat, m: nat)
    requires Agrees(toks, from, entry, span, vals) && from <= pos && k < |vals|
    requires EntryStart(toks, pos, k == 0, at) && span(at, m, vals[k])
    ensures at == (if k == 0 then pos else PastComma(toks, pos)) && entry(at) == Read(vals[k], m) && at < m
    ensures Opens(Peek(toks, at)) && Peek(toks, pos) != EndOfInput && (Peek(toks, pos) == Comma ==> k > 0)
  {
    assert entry(at) == Read(vals[k], m);
  }

  /** The loop and the grammar at a position where the list ends or no entry can be read. */
  lemma {:induction false} EndExact<T>(toks: seq<Token>, pos: nat, closer: Kind, from: nat, entry: nat -> Reading<T>,
                                       span: (nat, nat, T) -> bool, vals: seq<T>, k: nat, e: nat)
    requires Agrees(toks, from, entry, span, vals) && from <= pos && k <= |vals| && Closes(closer)
    requires var at := if k == 0 then pos else PastComma(toks, pos);
             Peek(toks, pos) == EndOfInput || Peek(toks, pos) == closer || Peek(toks, at) == closer || entry(at).Fail?
    ensures Entries(toks, pos, closer, entry, vals[..k]) == Read(vals, e) <==> ListSpan(toks, pos, e, closer, span, vals, k)
  {
    assert k == |vals| ==> vals[..k] == vals;
    if k < |vals| {
      assert |vals[..k]| < |vals|;
      forall at: nat, m: nat | EntryStart(toks, pos, k == 0, at) && span(at, m, vals[k]) ensures false {
        StartIsFixed(toks, pos, from, entry, span, vals, k, at, m);
      }
    }
  }

  /** One more entry, for the loop and for the grammar. */
  lemma {:induction false} TurnExact<T>(toks: seq<Token>, pos: nat, closer: Kind, from: nat, entry: nat -> Reading<T>,
                                        span: (nat, nat, T) -> bool, vals: seq<T>, k: nat, e: nat, at: nat, m: nat)
    requires Agrees(toks, from, entry, span, vals) && from <= pos && k < |vals| && Closes(closer)
    requires at == (if k == 0 then pos else PastComma(toks, pos)) && entry(at) == Read(vals[k], m)
    requires Peek(toks, pos) != EndOfInput && Peek(toks, pos) != closer && Peek(toks, at) != closer
    ensures pos < m && Entries(toks, pos, closer, entry, vals[..k]) == Entries(toks, m, closer, entry, vals[..k + 1])
    ensures ListSpan(toks, pos, e, closer, span, vals, k) <==> ListSpan(toks, m, e, closer, span, vals, k + 1)
  {
    TakeNext(vals, k);
    assert span(at, m, vals[k]);
    if ListSpan(toks, pos, e, closer, span, vals, k) {
      var at': nat, m': nat :| EntryStart(toks, pos, k == 0, at') && span(at', m', vals[k]) && ListSpan(toks, m', e, closer, span, vals, k + 1);
      StartIsFixed(toks, pos, from, entry, span, vals, k, at', m');
    }
  }

  /** The list loop reads exactly the lists of the grammar. */
  lemma {:induction false} EntriesExact<T>(toks: seq<Token>, pos: nat, closer: Kind, from: nat, entry: nat -> Reading<T>,
                                           span: (nat, nat, T) -> bool, vals: seq<T>, k: nat, e: nat)
    requires Agrees(toks, from, entry, span, vals) && from <= pos && k <= |vals| && Closes(closer)
    ensures Entries(toks, pos, closer, entry, vals[..k]) == Read(vals, e) <==> ListSpan(toks, pos, e, closer, span, vals, k)
    decreases if pos < |toks| then |toks| - pos else 0
  {
    var at := if k == 0 then pos else PastComma(toks, pos);
    if Peek(toks, pos) == EndOfInput || Peek(toks, pos) == closer || Peek(toks, at) == closer || entry(at).Fail? {
      EndExact(toks, pos, closer, from, entry, span, vals, k, e);
    } else if k < |vals| && entry(at).value == vals[k] {
      var m := entry(at).next;
      TurnExact(toks, pos, closer, from, entry, span, vals, k, e, at, m);
      EntriesExact(toks, m, closer, from, entry, span, vals, k + 1, e);
    } else {
      OtherEntry(toks, pos, closer, from, entry, span, vals, k, e);
    }
  }

  /** An entry that is not the next value of the list. */
  lemma {:induction false} OtherEntry<T>(toks: seq<Token>, pos: nat, closer: Kind, from: nat, entry: nat -> Reading<T>,
                                         span: (nat, nat, T) -> bool, vals: seq<T>, k: nat, e: nat)
    requires Agrees(toks, from, entry, span, vals) && from <= pos && k <= |vals| && Closes(closer)
    requires var at := if k == 0 then pos else PastComma(toks, pos);
             && Peek(toks, pos) != EndOfInput && Peek(toks, pos) != closer && Peek(toks, at) != closer
             && entry(at).Read? && (k == |vals| || entry(at).value != vals[k])
    ensures Entries(toks, pos, closer, entry, vals[..k]) != Read(vals, e) && !ListSpan(toks, pos, e, closer, span, vals, k)
  {
    var at := if k == 0 then pos else PastComma(toks, pos);
    var Read(v, m) := entry(at);
    var read := vals[..k] + [v];
    EntriesPrefix(toks, m, closer, entry, read);
    assert read[k] == v;
    var r := Entries(toks, m, closer, entry, read);
    if r.Read? { assert r.value[..k + 1][k] == r.value[k]; }
    if k < |vals| {
      forall at': nat, m': nat | EntryStart(toks, pos, k == 0, at') && span(at', m', vals[k]) ensures false {
        StartIsFixed(toks, pos, from, entry, span, vals, k, at', m');
      }
    }
  }

  // ----- Values -----

  /** A reader that finds a value starts at a token that opens one. */
  lemma {:induction false} ValueOpens(toks: seq<Token>, pos: nat)
    ensures Value(toks, pos).Read? ==> pos < |toks| && pos < Value(toks, pos).next <= |toks| && Opens(Peek(toks, pos))
  {
    ValueForward(toks, pos);
  }

  lemma {:induction false} ItemsAgree(toks: seq<Token>, open: nat, items: seq<Literal>)
    requires open < |toks|
    ensures Agrees(toks, open + 1, ItemReader(toks, open), ItemSpan(toks, items), items)
    decreases items, 0
  {
    hide Value, ValueSpan;
    forall i, at: nat, m: nat | 0 <= i < |items| && open + 1 <= at
      ensures ItemReader(toks, open)(at) == Read(items[i], m) <==> ItemSpan(toks, items)(at, m, items[i])
    {
      assert ItemReader(toks, open)(at) == Value(toks, at);
      ValueExact(toks, at, items[i], m);
    }
    forall at: nat | open + 1 <= at && ItemReader(toks, open)(at).Read?
      ensures at < ItemReader(toks, open)(at).next && Opens(Peek(toks, at))
    {
      assert ItemReader(toks, open)(at) == Value(toks, at);
      ValueOpens(toks, at);
    }
  }

  lemma {:induction false} BracketExact(toks: seq<Token>, pos: nat, items: seq<Literal>, closer: Kind, e: nat)
    requires pos < |toks| && Closes(closer)
    ensures Entries(toks, pos + 1, closer, ItemReader(toks, pos), []) == Read(items, e) <==>
            ListSpan(toks, pos + 1, e, closer, ItemSpan(toks, items), items, 0)
    decreases items, 1
  {
    hide Entries, ListSpan, ItemReader, ItemSpan, Agrees;
    ItemsAgree(toks, pos, items);
    assert items[..0] == [];
    EntriesExact(toks, pos + 1, closer, pos + 1, ItemReader(toks, pos), ItemSpan(toks, items), items, 0, e);
  }

  lemma {:induction false} AtomsAreAtoms(tok: Token)
    ensures AtomOf(tok).Some? ==> IsAtom(AtomOf(tok).value) && tok.kind != LBracket && tok.kind != LParen
  {
    hide ParseInt, ParseFloat;
  }

  /** The value parser reads exactly what the grammar writes. */
  lemma {:induction false} ValueExact(toks: seq<Token>, pos: nat, lit: Literal, e: nat)
    ensures Value(toks, pos) == Read(lit, e) <==> ValueSpan(toks, pos, e, lit)
    decreases lit, 1
  {
    hide Entries, ListSpan, ItemReader, ItemSpan, AtomOf;
    if pos < |toks| {
      AtomsAreAtoms(toks[pos]);
      if lit.ListLit? {
        BracketExact(toks, pos, lit.items, RBracket, e);
      } else if lit.TupleLit? {
        BracketExact(toks, pos, lit.items, RParen, e);
      }
    }
  }

  // ----- Conditions and elements -----

  lemma {:induction false} CommaIsFixed(toks: seq<Token>, pos: nat, at: nat)
    requires EntryStart(toks, pos, false, at) && Peek(toks, at) != Comma
    ensures at == PastComma(toks, pos)
  {
  }

  lemma {:induction false} CondSound(toks: seq<Token>, pos: nat)
    requires Cond(toks, pos).Read?
    ensures CondSpan(toks, pos, Cond(toks, pos).next, Cond(toks, pos).value)
  {
    hide Value, ValueSpan, OperatorNamed;
    var opAt := PastComma(toks, pos + 2);
    var valueAt := PastComma(toks, opAt + 1);
    var op := OperatorNamed(toks[opAt].text).value;
    var Read(v, m) := Value(toks, valueAt);
    OperatorRoundTrip(toks[opAt].text, op);
    ValueExact(toks, valueAt, v, m);
    assert EntryStart(toks, pos + 2, false, opAt) && EntryStart(toks, opAt + 1, false, valueAt);
  }

  lemma {:induction false} CondComplete(toks: seq<Token>, pos: nat, e: nat, c: Condition)
    requires CondSpan(toks, pos, e, c)
    ensures Cond(toks, pos) == Read(c, e)
  {
    hide Value, ValueSpan, OperatorNamed;
    var opAt: nat, valueAt: nat, m: nat :|
      && EntryStart(toks, pos + 2, false, opAt) && Peek(toks, opAt) == StringKind && toks[opAt].text == OperatorText(c.op)
      && EntryStart(toks, opAt + 1, false, valueAt) && ValueSpan(toks, valueAt, m, c.value)
      && Peek(toks, m) == RParen && e == m + 1;
    OperatorRoundTrip(toks[opAt].text, c.op);
    ValueExact(toks, valueAt, c.value, m);
    ValueOpens(toks, valueAt);
    CommaIsFixed(toks, pos + 2, opAt);
    CommaIsFixed(toks, opAt + 1, valueAt);
  }

  /** The element parser reads exactly the operators and conditions of the grammar. */
  lemma {:induction false} ElementExact(toks: seq<Token>, pos: nat, el: Element, e: nat)
    ensures ElementAt(toks, pos) == Read(el, e) <==> ElementSpan(toks, pos, e, el)
  {
    hide Cond, CondSpan;
    if Cond(toks, pos).Read? { CondSound(toks, pos); }
    if el.NodeElem? && el.node.Leaf? && CondSpan(toks, pos, e, el.node.cond) {
      CondComplete(toks, pos, e, el.node.cond);
      CondOpens(toks, pos, e, el.node.cond);
    }
  }

  lemma {:induction false} CondOpens(toks: seq<Token>, pos: nat, e: nat, c: Condition)
    requires CondSpan(toks, pos, e, c)
    ensures Peek(toks, pos) == LParen
  {
  }

  lemma {:induction false} ElementsAgree(toks: seq<Token>, elems: seq<Element>)
    ensures Agrees(toks, 1, ElementReader(toks), ElementEntry(toks), elems)
  {
    hide ElementAt, ElementSpan;
    forall i, at: nat, m: nat | 0 <= i < |elems| && 1 <= at
      ensures ElementReader(toks)(at) == Read(elems[i], m) <==> ElementEntry(toks)(at, m, elems[i])
    {
      ElementExact(toks, at, elems[i], m);
    }
    forall at: nat | 1 <= at && ElementReader(toks)(at).Read?
      ensures at < ElementReader(toks)(at).next && Opens(Peek(toks, at))
    {
      ElementForward(toks, at);
      ElementOpens(toks, at);
    }
  }

  lemma {:induction false} ElementOpens(toks: seq<Token>, pos: nat)
    requires ElementAt(toks, pos).Read?
    ensures Opens(Peek(toks, pos))
  {
    hide Cond;
  }

  /** The parser returns an element list exactly when the grammar writes it at the start of the tokens. */
  lemma {:induction false} ElementsExact(toks: seq<Token>, elems: seq<Element>)
    ensures DomainElements(toks) == Some(elems) <==> exists e: nat :: DomainSpan(toks, e, elems)
  {
    hide Entries, ListSpan, ElementReader, ElementEntry, Agrees;
    ElementsAgree(toks, elems);
    assert elems[..0] == [];
    var r := Entries(toks, 1, RBracket, ElementReader(toks), []);
    if r.Read? && r.value == elems {
      EntriesExact(toks, 1, RBracket, 1, ElementReader(toks), ElementEntry(toks), elems, 0, r.next);
      assert Peek(toks, 0) == LBracket ==> DomainSpan(toks, r.next, elems);
    }
    forall e: nat | DomainSpan(toks, e, elems) ensures r == Read(elems, e) {
      EntriesExact(toks, 1, RBracket, 1, ElementReader(toks), ElementEntry(toks), elems, 0, e);
    }
  }

  // ----- What follows the list -----

  ghost predicate SameBelow(toks: seq<Token>, other: seq<Token>, e: nat) {
    e <= |toks| && e <= |other| && forall i :: 0 <= i < e ==> toks[i] == other[i]
  }

  /** A list that fills tokens fills any others that agree with them up to its end. */
  lemma {:induction false} ListSpanLocal<T>(toks: seq<Token>, other: seq<Token>, pos: nat, e: nat, closer: Kind,
                                            entry: (nat, nat, T) -> bool, entry': (nat, nat, T) -> bool, vals: seq<T>, k: nat)
    requires k <= |vals| && closer != EndOfInput && SameBelow(toks, other, e)
    requires ListSpan(toks, pos, e, closer, entry, vals, k)
    requires forall i, at: nat, m: nat :: 0 <= i < |vals| && entry(at, m, vals[i]) ==> at < m && (m <= e ==> entry'(at, m, vals[i]))
    ensures pos < e && ListSpan(other, pos, e, closer, entry', vals, k)
    decreases |vals| - k
  {
    if k < |vals| {
      var at: nat, m: nat :| EntryStart(toks, pos, k == 0, at) && entry(at, m, vals[k]) && ListSpan(toks, m, e, closer, entry, vals, k + 1);
      ListSpanLocal(toks, other, m, e, closer, entry, entry', vals, k + 1);
      assert EntryStart(other, pos, k == 0, at) && entry'(at, m, vals[k]);
    }
  }

  lemma {:induction false} ValueSpanLocal(toks: seq<Token>, other: seq<Token>, pos: nat, e: nat, lit: Literal)
    requires ValueSpan(toks, pos, e, lit)
    ensures pos < e && (SameBelow(toks, other, e) ==> ValueSpan(other, pos, e, lit))
    decreases lit, 1
  {
    ValueExact(toks, pos, lit, e);
    ValueOpens(toks, pos);
    if SameBelow(toks, other, e) {
      match lit
      case ListLit(items) => ItemsLocal(toks, other, pos + 1, e, RBracket, items);
      case TupleLit(items) => ItemsLocal(toks, other, pos + 1, e, RParen, items);
      case _ =>
    }
  }

  lemma {:induction false} ItemsLocal(toks: seq<Token>, other: seq<Token>, pos: nat, e: nat, closer: Kind, items: seq<Literal>)
    requires closer != EndOfInput && SameBelow(toks, other, e) && ListSpan(toks, pos, e, closer, ItemSpan(toks, items), items, 0)
    ensures ListSpan(other, pos, e, closer, ItemSpan(other, items), items, 0)
    decreases items, 0
  {
    hide ListSpan, ValueSpan;
    forall i, at: nat, m: nat | 0 <= i < |items| && ItemSpan(toks, items)(at, m, items[i])
      ensures at < m && (m <= e ==> ItemSpan(other, items)(at, m, items[i]))
    {
      ValueSpanLocal(toks, other, at, m, items[i]);
    }
    ListSpanLocal(toks, other, pos, e, closer, ItemSpan(toks, items), ItemSpan(other, items), items, 0);
  }

  lemma {:induction false} CondSpanLocal(toks: seq<Token>, other: seq<Token>, pos: nat, e: nat, c: Condition)
    requires CondSpan(toks, pos, e, c)
    ensures pos < e && (SameBelow(toks, other, e) ==> CondSpan(other, pos, e, c))
  {
    hide ValueSpan;
    var opAt: nat, valueAt: nat, m: nat :|
      && EntryStart(toks, pos + 2, false, opAt) && Peek(toks, opAt) == StringKind && toks[opAt].text == OperatorText(c.op)
      && EntryStart(toks, opAt + 1, false, valueAt) && ValueSpan(toks, valueAt, m, c.value)
      && Peek(toks, m) == RParen && e == m + 1;
    ValueSpanLocal(toks, other, valueAt, m, c.value);
    if SameBelow(toks, other, e) {
      assert EntryStart(other, pos + 2, false, opAt) && EntryStart(other, opAt + 1, false, valueAt);
    }
  }

  /** Tokens behind the closing bracket play no part. */
  lemma {:induction false} DomainSpanLocal(toks: seq<Token>, other: seq<Token>, e: nat, elems: seq<Element>)
    requires DomainSpan(toks, e, elems) && SameBelow(toks, other, e)
    ensures DomainSpan(other, e, elems)
  {
    hide ListSpan, CondSpan;
    forall i, at: nat, m: nat | 0 <= i < |elems| && ElementEntry(toks)(at, m, elems[i])
      ensures at < m && (m <= e ==> ElementEntry(other)(at, m, elems[i]))
    {
      if elems[i].NodeElem? { CondSpanLocal(toks, other, at, m, elems[i].node.cond); }
    }
    ListSpanLocal(toks, other, 1, e, RBracket, ElementEntry(toks), ElementEntry(other), elems, 0);
  }
}

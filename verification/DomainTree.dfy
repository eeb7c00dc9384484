/**
 What the prefix-notation list means. A list of conditions and operators is a forest of complete
 prefix expressions or it is not a domain at all; when it is, the tree built from it is the
 left-nested conjunction of the forest.
 */
module DomainTree {
  import opened Options
  import opened Segments
  import opened DomainAst
  import opened DomainParser
  import DomainLexer

  /** The prefix form of a tree. */
  function Flat(n: Node): (f: seq<Element>)
    requires WellFormed(n)
    ensures f != []
    ensures n.Leaf? ==> f == [NodeElem(n)]
    ensures n.BoolOp? ==> f[0] == OpElem(n.op)
  {
    match n
    case Leaf(_) => [NodeElem(n)]
    case BoolOp(op, children) =>
      if op == Not then [OpElem(op)] + Flat(children[0])
      else [OpElem(op)] + (Flat(children[0]) + Flat(children[1]))
  }

  ghost predicate AllWellFormed(forest: seq<Node>) {
    forall i :: 0 <= i < |forest| ==> WellFormed(forest[i])
  }

  /** The prefix forms of a forest, one after the other. */
  ghost function Flats(forest: seq<Node>): seq<Element>
    requires AllWellFormed(forest)
  {
    if forest == [] then []
    else Flats(forest[..|forest| - 1]) + Flat(forest[|forest| - 1])
  }

  function Conj(left: Node, right: Node): Node { BoolOp(And, [left, right]) }

  /** ((t0 & t1) & t2) & ... */
  function LeftConj(forest: seq<Node>): Node
    requires forest != []
  {
    if |forest| == 1 then forest[0]
    else Conj(LeftConj(forest[..|forest| - 1]), forest[|forest| - 1])
  }

  /** The operands of a parsed list are conditions. */
  ghost predicate AllLeaves(elems: seq<Element>) {
    forall i :: 0 <= i < |elems| && elems[i].NodeElem? ==> elems[i].node.Leaf?
  }

  // ----- Shape of the prefix form -----

  ghost function Balance(elems: seq<Element>): int { Operands(elems) - BinaryOps(elems) }

  lemma {:induction false} BalanceAppend(a: seq<Element>, b: seq<Element>)
    ensures Balance(a + b) == Balance(a) + Balance(b)
  {
    if b == [] {
      assert a + b == a;
    } else {
      assert (a + b)[..|a + b| - 1] == a + b[..|b| - 1];
      BalanceAppend(a, b[..|b| - 1]);
    }
  }

  lemma {:induction false} BalanceSingle(el: Element)
    ensures Balance([el]) == if el.NodeElem? then 1 else if el.op == Not then 0 else -1
  {
    var s := [el];
    assert s[..|s| - 1] == [];
    assert Operands(s) == Operands([]) + if el.NodeElem? then 1 else 0;
    assert BinaryOps(s) == BinaryOps([]) + if IsBinary(el) then 1 else 0;
  }

  /** A complete expression leaves exactly one operand and ends with a condition. */
  lemma {:induction false} FlatBalance(n: Node)
    requires WellFormed(n)
    ensures Balance(Flat(n)) == 1
    ensures Flat(n)[|Flat(n)| - 1].NodeElem?
  {
    hide Balance;
    if n.Leaf? {
      BalanceSingle(NodeElem(n));
    } else {
      var head, l := [OpElem(n.op)], n.children[0];
      BalanceSingle(head[0]);
      FlatBalance(l);
      if n.op == Not {
        BalanceAppend(head, Flat(l));
      } else {
        var r := n.children[1];
        FlatBalance(r);
        BalanceAppend(Flat(l), Flat(r));
        BalanceAppend(head, Flat(l) + Flat(r));
      }
    }
  }

  lemma {:induction false} FlatsBalance(forest: seq<Node>)
    requires AllWellFormed(forest)
    ensures Balance(Flats(forest)) == |forest| <= |Flats(forest)|
  {
    if forest != [] {
      var front, last := forest[..|forest| - 1], forest[|forest| - 1];
      FlatBalance(last);
      FlatsBalance(front);
      BalanceAppend(Flats(front), Flat(last));
    }
  }

  // ----- Consuming one expression -----

  /** Reading a complete expression gives the tree back and stops right after it. */
  lemma {:induction false} ConsumeFlat(elems: seq<Element>, idx: nat, n: Node)
    requires WellFormed(n) && At(elems, idx, Flat(n))
    ensures Consume(elems, idx) == Read(n, idx + |Flat(n)|)
    decreases n
  {
    if n.Leaf? {
      AtHead(elems, idx, NodeElem(n), []);
    } else if n.op == Not {
      var l := n.children[0];
      AtHead(elems, idx, OpElem(Not), Flat(l));
      ConsumeFlat(elems, idx + 1, l);
      assert n == BoolOp(Not, [l]);
    } else {
      ConsumeFlatBinary(elems, idx, n);
    }
  }

  lemma {:induction false} ConsumeTwo(elems: seq<Element>, idx: nat, op: LogicOp, l: Node, mid: nat, r: Node, e: nat)
    requires idx < |elems| && elems[idx] == OpElem(op) && op != Not && mid <= |elems|
    requires Consume(elems, idx + 1) == Read(l, mid) && Consume(elems, mid) == Read(r, e)
    ensures Consume(elems, idx) == Read(BoolOp(op, [l, r]), e)
  {
  }

  lemma {:induction false} ConsumeFlatBinary(elems: seq<Element>, idx: nat, n: Node)
    requires WellFormed(n) && n.BoolOp? && n.op != Not && At(elems, idx, Flat(n))
    ensures Consume(elems, idx) == Read(n, idx + |Flat(n)|)
    decreases n, 0
  {
    var l, r := n.children[0], n.children[1];
    var mid := idx + 1 + |Flat(l)|;
    AtHead(elems, idx, OpElem(n.op), Flat(l) + Flat(r));
    AtSplit(elems, idx + 1, Flat(l), Flat(r));
    ConsumeFlat(elems, idx + 1, l);
    ConsumeFlat(elems, mid, r);
    ConsumeTwo(elems, idx, n.op, l, mid, r, mid + |Flat(r)|);
    assert n.children == [l, r];
  }

  /** Whatever is consumed is well formed, and the elements read are its prefix form. */
  lemma {:induction false} ConsumeSound(elems: seq<Element>, idx: nat)
    requires AllLeaves(elems) && idx <= |elems| && Consume(elems, idx).Read?
    ensures var Read(n, e) := Consume(elems, idx); WellFormed(n) && elems[idx..e] == Flat(n)
    decreases |elems| - idx
  {
    var Read(n, e) := Consume(elems, idx);
    if elems[idx].OpElem? {
      ConsumeSound(elems, idx + 1);
      var Read(l, mid) := Consume(elems, idx + 1);
      if elems[idx].op == Not {
        SliceHead(elems, idx, e);
      } else {
        ConsumeSound(elems, mid);
        var r := Consume(elems, mid).value;
        SliceHead(elems, idx, e);
        SliceCut(elems, idx + 1, mid, e);
      }
    } else {
      SliceHead(elems, idx, e);
    }
  }

  // ----- The implicit conjunction -----

  lemma {:induction false} LeftConjFlat(forest: seq<Node>)
    requires forest != [] && AllWellFormed(forest)
    ensures WellFormed(LeftConj(forest))
    ensures Flat(LeftConj(forest)) == Ands(|forest| - 1) + Flats(forest)
    decreases |forest|
  {
    var k := |forest| - 1;
    var front, last := forest[..k], forest[k];
    if k == 0 {
      assert front == [];
      assert Flats(forest) == [] + Flat(last) == Flat(last);
      assert Ands(0) + Flats(forest) == Flats(forest);
    } else {
      LeftConjFlat(front);
      FlatConj(LeftConj(front), last);
      AndsShift(k, Flats(front), Flat(last));
    }
  }

  lemma {:induction false} FlatConj(l: Node, r: Node)
    requires WellFormed(l) && WellFormed(r)
    ensures WellFormed(Conj(l, r)) && Flat(Conj(l, r)) == [OpElem(And)] + (Flat(l) + Flat(r))
  {
  }

  lemma {:induction false} AndsShift(k: nat, a: seq<Element>, b: seq<Element>)
    requires k > 0
    ensures [OpElem(And)] + ((Ands(k - 1) + a) + b) == Ands(k) + (a + b)
  {
  }

  /** Every forest of complete expressions is accepted, and read as its left-nested conjunction. */
  lemma {:induction false} BuildComplete(forest: seq<Node>)
    requires forest != [] && AllWellFormed(forest)
    ensures BuildTree(Flats(forest)) == Some(LeftConj(forest))
  {
    var elems := Flats(forest);
    FlatsBalance(forest);
    LeftConjFlat(forest);
    assert |forest| == 1 ==> Ands(0) + elems == elems;
    var expanded := WithImplicitAnds(elems);
    AtWhole(expanded);
    ConsumeFlat(expanded, 0, LeftConj(forest));
  }

  /** Leading conjunctions of a prefix form can be peeled off, leaving the forest they joined. */
  lemma {:induction false} Peel(n: Node, k: nat) returns (forest: seq<Node>)
    requires WellFormed(n)
    requires k <= |Flat(n)| && forall i :: 0 <= i < k ==> Flat(n)[i] == OpElem(And)
    ensures |forest| == k + 1 && AllWellFormed(forest)
    ensures Flats(forest) == Flat(n)[k..]
    ensures LeftConj(forest) == n
    decreases k
  {
    if k == 0 {
      forest := [n];
      assert forest[..0] == [];
    } else {
      assert Flat(n)[0] == OpElem(And);
      var l, r := n.children[0], n.children[1];
      PeelLeft(n, l, r, k);
      var front := Peel(l, k - 1);
      forest := front + [r];
      TakeSnoc(front, r);
      assert n.children == [l, r];
    }
  }

  lemma {:induction false} TakeSnoc(front: seq<Node>, r: Node)
    ensures (front + [r])[..|front|] == front
  {
  }

  /** The run of conjunctions stays inside the left operand, which ends with a condition. */
  lemma {:induction false} PeelLeft(n: Node, l: Node, r: Node, k: nat)
    requires WellFormed(l) && WellFormed(r) && WellFormed(n) && n.BoolOp? && n.op != Not
    requires n.children[0] == l && n.children[1] == r
    requires 0 < k <= |Flat(n)| && forall i :: 0 <= i < k ==> Flat(n)[i] == OpElem(And)
    ensures k - 1 <= |Flat(l)| && forall i :: 0 <= i < k - 1 ==> Flat(l)[i] == OpElem(And)
    ensures Flat(n)[k..] == Flat(l)[k - 1..] + Flat(r)
  {
    FlatBalance(l);
    var f := Flat(l);
    assert Flat(n) == [OpElem(n.op)] + (f + Flat(r));
    assert Flat(n)[|f|] == f[|f| - 1];
    forall i | 0 <= i < k - 1
      ensures f[i] == OpElem(And)
    {
      assert Flat(n)[i + 1] == f[i];
    }
  }

  /** Only forests of complete expressions are accepted. */
  lemma {:induction false} BuildSound(elems: seq<Element>) returns (forest: seq<Node>)
    requires elems != [] && AllLeaves(elems) && BuildTree(elems).Some?
    ensures IsForest(elems, forest)
  {
    var expanded := WithImplicitAnds(elems);
    ConsumeSound(expanded, 0);
    var Read(n, e) := Consume(expanded, 0);
    assert expanded[0..e] == expanded;
    var k := |expanded| - |elems|;
    forest := Peel(n, k);
    assert expanded[k..] == elems;
  }

  ghost predicate IsForest(elems: seq<Element>, forest: seq<Node>) {
    forest != [] && AllWellFormed(forest) && elems == Flats(forest)
  }

  /**
   The element list of a domain is accepted exactly when it is a forest of complete prefix
   expressions, and then it means their left-nested conjunction.
   */
  lemma {:induction false} BuildTreeExact(elems: seq<Element>)
    requires elems != [] && AllLeaves(elems)
    ensures BuildTree(elems).Some? <==> exists forest :: IsForest(elems, forest)
    ensures forall forest :: IsForest(elems, forest) ==> BuildTree(elems) == Some(LeftConj(forest))
  {
    if BuildTree(elems).Some? {
      var forest := BuildSound(elems);
    }
    forall forest | IsForest(elems, forest)
      ensures BuildTree(elems) == Some(LeftConj(forest))
    {
      BuildComplete(forest);
    }
  }

  // ----- What the parser can return -----

  lemma {:induction false} ParsedElementsAreLeaves(toks: seq<DomainLexer.Token>, pos: nat, read: seq<Element>)
    requires AllLeaves(read)
    ensures var r := Entries(toks, pos, DomainLexer.RBracket, ElementReader(toks), read); r.Read? ==> AllLeaves(r.value)
    decreases if pos < |toks| then |toks| - pos else 0
  {
    var at := if read == [] then pos else PastComma(toks, pos);
    if pos < |toks| && ElementAt(toks, at).Read? && pos < ElementAt(toks, at).next {
      var Read(el, e) := ElementAt(toks, at);
      ParsedElementsAreLeaves(toks, e, read + [el]);
    }
  }

  /** Every accepted domain text is match-all or a tree whose operators have their arity. */
  lemma {:induction false} ParseWellFormed(src: string)
    ensures Parse(src).Some? ==> Parse(src) == Some(MatchAll) || WellFormed(Parse(src).value)
  {
    if Parse(src).Some? && Parse(src) != Some(MatchAll) {
      var toks := DomainLexer.Tokens(src).value;
      var elems := DomainElements(toks).value;
      ParsedElementsAreLeaves(toks, 1, []);
      var expanded := WithImplicitAnds(elems);
      ConsumeSound(expanded, 0);
    }
  }
}

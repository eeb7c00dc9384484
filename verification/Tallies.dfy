/** Counting the elements of a sequence that satisfy a predicate. */
module Tallies {

  function Tally<T>(s: seq<T>, p: T -> bool): nat {
    if s == [] then 0 else Tally(s[..|s| - 1], p) + if p(s[|s| - 1]) then 1 else 0
  }

  lemma {:induction false} TallySnoc<T>(s: seq<T>, x: T, p: T -> bool)
    ensures Tally(s + [x], p) == Tally(s, p) + if p(x) then 1 else 0
  {
  }

  lemma {:induction false} TallyConcat<T>(a: seq<T>, b: seq<T>, p: T -> bool)
    ensures Tally(a + b, p) == Tally(a, p) + Tally(b, p)
    decreases |b|
  {
    if b == [] {
      assert a + b == a;
    } else {
      var front, x := b[..|b| - 1], b[|b| - 1];
      assert a + b == (a + front) + [x] && b == front + [x];
      TallySnoc(a + front, x, p);
      TallySnoc(front, x, p);
      TallyConcat(a, front, p);
    }
  }

  lemma {:induction false} TallyAgrees<T>(s: seq<T>, p: T -> bool, q: T -> bool)
    requires forall i :: 0 <= i < |s| ==> p(s[i]) == q(s[i])
    ensures Tally(s, p) == Tally(s, q)
  {
    if s != [] { TallyAgrees(s[..|s| - 1], p, q); }
  }

  function Optional<T>(b: bool, x: T): seq<T> { if b then [x] else [] }

  lemma {:induction false} TallyOptional<T>(b: bool, x: T, p: T -> bool)
    ensures Tally(Optional(b, x), p) == if b && p(x) then 1 else 0
  {
    assert [x][..0] == [];
  }
}

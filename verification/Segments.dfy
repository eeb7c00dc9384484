/** A sequence standing at a position of a longer one. */
module Segments {

  ghost predicate At<T>(s: seq<T>, i: nat, part: seq<T>) {
    i + |part| <= |s| && s[i..i + |part|] == part
  }

  lemma {:induction false} AtSplit<T>(s: seq<T>, i: nat, a: seq<T>, b: seq<T>)
    requires At(s, i, a + b)
    ensures At(s, i, a) && At(s, i + |a|, b)
  {
    var both := s[i..i + |a + b|];
    assert s[i..i + |a|] == both[..|a|] == a;
    assert s[i + |a|..i + |a| + |b|] == both[|a|..] == b;
  }

  lemma {:induction false} AtHead<T>(s: seq<T>, i: nat, x: T, b: seq<T>)
    requires At(s, i, [x] + b)
    ensures i < |s| && s[i] == x && At(s, i + 1, b)
  {
    AtSplit(s, i, [x], b);
    assert s[i] == s[i..i + 1][0];
  }

  lemma {:induction false} AtWhole<T>(s: seq<T>)
    ensures At(s, 0, s)
  {
  }

  lemma {:induction false} TakeNext<T>(s: seq<T>, k: nat)
    requires k < |s|
    ensures s[..k] + [s[k]] == s[..k + 1]
  {
  }

  lemma {:induction false} TakeAll<T>(s: seq<T>)
    ensures s[..|s|] == s && s[..0] == []
  {
  }

  lemma {:induction false} SliceHead<T>(s: seq<T>, i: nat, j: nat)
    requires i < j <= |s|
    ensures s[i..j] == [s[i]] + s[i + 1..j]
  {
  }

  lemma {:induction false} SliceCut<T>(s: seq<T>, i: nat, m: nat, j: nat)
    requires i <= m <= j <= |s|
    ensures s[i..j] == s[i..m] + s[m..j]
  {
  }
}

/** Facts about finite sets. */
module Sets {

  lemma {:induction false} SomeElement<T>(s: set<T>) returns (x: T)
    requires s != {}
    ensures x in s
  {
    x :| x in s;
  }

  lemma {:induction false} SubsetSize<T>(a: set<T>, b: set<T>)
    requires a < b
    ensures |a| < |b|
  {
    assert b == a + (b - a);
    assert b - a != {};
    assert |b| == |a| + |b - a|;
  }

  lemma {:induction false} SubsetCard<T>(a: set<T>, b: set<T>)
    requires a <= b
    ensures |a| <= |b|
  {
    assert b == a + (b - a);
    assert |b| == |a| + |b - a|;
  }

  lemma {:induction false} Least(s: set<nat>) returns (m: nat)
    requires s != {}
    ensures m in s && forall x :: x in s ==> m <= x
    decreases |s|
  {
    var x := SomeElement(s);
    var rest := s - {x};
    if rest == {} {
      m := x;
    } else {
      var n := Least(rest);
      m := if n < x then n else x;
    }
    assert forall y :: y in s ==> y == x || y in rest;
  }

  lemma {:induction false} Greatest(s: set<nat>) returns (m: nat)
    requires s != {}
    ensures m in s && forall x :: x in s ==> x <= m
    decreases |s|
  {
    var x := SomeElement(s);
    var rest := s - {x};
    if rest == {} {
      m := x;
    } else {
      var n := Greatest(rest);
      m := if n > x then n else x;
    }
    assert forall y :: y in s ==> y == x || y in rest;
  }

  /** As many elements as indices, when the sequence does not repeat itself there. */
  lemma {:induction false} ImageSize<T>(s: set<nat>, a: seq<T>)
    requires forall i :: i in s ==> i < |a|
    requires forall i, j :: i in s && j in s && i != j ==> a[i] != a[j]
    ensures |set i | i in s :: a[i]| == |s|
    decreases |s|
  {
    var image := set i | i in s :: a[i];
    if s == {} {
      assert image == {};
    } else {
      var x := SomeElement(s);
      var rest := s - {x};
      var restImage := set i | i in rest :: a[i];
      ImageSize(rest, a);
      assert a[x] !in restImage;
      assert image == restImage + {a[x]};
    }
  }

  /** A set of integers is no larger than an interval around it. */
  lemma {:induction false} IntervalSize(s: set<int>, lo: int, hi: int)
    requires lo <= hi && forall x :: x in s ==> lo <= x < hi
    ensures |s| <= hi - lo
    decreases hi - lo
  {
    if lo == hi {
      if s != {} { var x := SomeElement(s); }
      assert s == {};
    } else {
      IntervalSize(s - {lo}, lo + 1, hi);
      assert s <= (s - {lo}) + {lo};
      SubsetCard(s, (s - {lo}) + {lo});
    }
  }

  /** The numbers from `lo` up to `hi`. */
  ghost function Interval(lo: nat, hi: nat): (s: set<nat>)
    requires lo <= hi
    ensures forall x :: x in s <==> lo <= x < hi
    ensures |s| == hi - lo
  {
    if lo == hi then {} else Interval(lo, hi - 1) + {hi - 1}
  }
}

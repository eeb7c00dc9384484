/**
 SQL LIKE without ESCAPE, as the domain evaluator matches it: `%` stands for any run,
 `_` for exactly one byte, every other pattern byte for itself.

 `Matches` is the declarative meaning (the subject splits into one piece per pattern byte),
 `Step` is the recurrence on last bytes, and `MatchLike` fills the dynamic-programming table.
 A `char` stands for one byte.
 */
module Like {

  // ----- Declarative meaning -----

  ghost predicate PieceMatches(c: char, piece: string) {
    if c == '%' then true
    else if c == '_' then |piece| == 1
    else piece == [c]
  }

  ghost function Joined(pieces: seq<string>): string {
    if pieces == [] then "" else Joined(pieces[..|pieces| - 1]) + pieces[|pieces| - 1]
  }

  ghost predicate Splits(s: string, p: string, pieces: seq<string>) {
    && |pieces| == |p|
    && Joined(pieces) == s
    && forall k :: 0 <= k < |p| ==> PieceMatches(p[k], pieces[k])
  }

  ghost predicate Matches(s: string, p: string) {
    exists pieces :: Splits(s, p, pieces)
  }

  // ----- Recurrence on the last byte of the pattern -----

  predicate Step(s: string, p: string)
    decreases |p|, |s|
  {
    if p == "" then s == ""
    else
      var c, p' := p[|p| - 1], p[..|p| - 1];
      if c == '%' then Step(s, p') || (s != "" && Step(s[..|s| - 1], p))
      else s != "" && (c == '_' || s[|s| - 1] == c) && Step(s[..|s| - 1], p')
  }

  /** A split is a split of the front of the pattern and a piece for its last byte. */
  lemma {:induction false} SplitsLast(s: string, p: string, init: seq<string>, last: string)
    requires p != ""
    ensures Splits(s, p, init + [last]) <==>
            Splits(Joined(init), p[..|p| - 1], init) && PieceMatches(p[|p| - 1], last) && s == Joined(init) + last
  {
  }

  lemma {:induction false} SplitsJoined(s: string, p: string, pieces: seq<string>)
    requires Splits(s, p, pieces)
    ensures Joined(pieces) == s && |pieces| == |p|
  {
  }

  lemma {:induction false} DropLast(a: string, b: string)
    requires b != ""
    ensures a + b != "" && (a + b)[..|a + b| - 1] == a + b[..|b| - 1] && (a + b)[|a + b| - 1] == b[|b| - 1]
  {
  }

  lemma {:induction false} StepSplits(s: string, p: string) returns (pieces: seq<string>)
    requires Step(s, p)
    ensures Splits(s, p, pieces)
    decreases |p|, |s|
  {
    hide Splits, Joined;
    if p == "" {
      pieces := [];
      EmptySplits();
    } else {
      var c, p' := p[|p| - 1], p[..|p| - 1];
      var init, last;
      if c == '%' && Step(s, p') {
        init := StepSplits(s, p');
        last := "";
        SplitsJoined(s, p', init);
      } else if c == '%' {
        var shorter := StepSplits(s[..|s| - 1], p);
        SplitsJoined(s[..|s| - 1], p, shorter);
        init, last := shorter[..|p| - 1], shorter[|p| - 1] + [s[|s| - 1]];
        assert shorter == init + [shorter[|p| - 1]];
        SplitsLast(s[..|s| - 1], p, init, shorter[|p| - 1]);
        assert s == s[..|s| - 1] + [s[|s| - 1]];
      } else {
        init := StepSplits(s[..|s| - 1], p');
        last := [s[|s| - 1]];
        SplitsJoined(s[..|s| - 1], p', init);
      }
      SplitsLast(s, p, init, last);
      pieces := init + [last];
    }
  }

  lemma {:induction false} EmptySplits()
    ensures Splits("", "", [])
  {
  }

  lemma {:induction false} SplitsStep(s: string, p: string, pieces: seq<string>)
    requires Splits(s, p, pieces)
    ensures Step(s, p)
    decreases |p|, |s|
  {
    hide Splits, Joined;
    SplitsJoined(s, p, pieces);
    if p == "" {
      NoPieces();
    } else {
      var n := |p| - 1;
      var init, last := pieces[..n], pieces[n];
      assert pieces == init + [last];
      SplitsLast(s, p, init, last);
      if last != "" { DropLast(Joined(init), last); }
      if p[n] == '%' && last != "" {
        SplitsLast(s[..|s| - 1], p, init, last[..|last| - 1]);
        SplitsStep(s[..|s| - 1], p, init + [last[..|last| - 1]]);
      } else if p[n] == '%' {
        assert s == Joined(init);
        SplitsStep(s, p[..n], init);
      } else {
        SplitsStep(s[..|s| - 1], p[..n], init);
      }
    }
  }

  lemma {:induction false} NoPieces()
    ensures Joined([]) == ""
  {
  }

  /** The recurrence is the declarative meaning. */
  lemma {:induction false} StepIsMatches(s: string, p: string)
    ensures Step(s, p) <==> Matches(s, p)
  {
    if Step(s, p) {
      var pieces := StepSplits(s, p);
    }
    if Matches(s, p) {
      var pieces :| Splits(s, p, pieces);
      SplitsStep(s, p, pieces);
    }
  }

  // ----- The table -----

  lemma {:induction false} EmptySubject(p: string)
    ensures Step("", p) <==> forall k :: 0 <= k < |p| ==> p[k] == '%'
  {
    if p != "" {
      EmptySubject(p[..|p| - 1]);
    }
  }

  lemma {:induction false} CellStep(s: string, p: string, i: int, j: int)
    requires 1 <= i <= |s| && 1 <= j <= |p|
    ensures Step(s[..i], p[..j]) ==
            if p[j - 1] == '%' then Step(s[..i - 1], p[..j]) || Step(s[..i], p[..j - 1])
            else if p[j - 1] == '_' then Step(s[..i - 1], p[..j - 1])
            else Step(s[..i - 1], p[..j - 1]) && s[i - 1] == p[j - 1]
  {
    assert s[..i][..i - 1] == s[..i - 1];
    assert p[..j][..j - 1] == p[..j - 1];
  }

  /** Row 0: the cells of the leading `%` run are true, all others keep their initial false. */
  method FillRowZero(dp: array2<bool>, p: string)
    requires dp.Length0 >= 1 && dp.Length1 == |p| + 1
    requires forall j :: 0 <= j <= |p| ==> !dp[0, j]
    modifies dp
    ensures forall j :: 0 <= j <= |p| ==> dp[0, j] == Step("", p[..j])
    ensures forall i, j :: 1 <= i < dp.Length0 && 0 <= j <= |p| ==> dp[i, j] == old(dp[i, j])
  {
    dp[0, 0] := true;
    var j := 1;
    while j <= |p| && p[j - 1] == '%'
      invariant 1 <= j <= |p| + 1
      invariant forall k :: 0 <= k < j - 1 ==> p[k] == '%'
      invariant forall k :: 0 <= k < j ==> dp[0, k]
      invariant forall k :: j <= k <= |p| ==> !dp[0, k]
      invariant forall i, k :: 1 <= i < dp.Length0 && 0 <= k <= |p| ==> dp[i, k] == old(dp[i, k])
    {
      dp[0, j] := dp[0, j - 1];
      j := j + 1;
    }
    forall k | 0 <= k <= |p|
      ensures dp[0, k] == Step("", p[..k])
    {
      EmptySubject(p[..k]);
      if j <= k {
        assert p[..k][j - 1] != '%';
      }
    }
  }

  /** The table method decides the declarative relation, for every subject and pattern. */
  method MatchLike(s: string, p: string) returns (matched: bool)
    ensures matched <==> Matches(s, p)
  {
    var dp := new bool[|s| + 1, |p| + 1]((i, j) => false);
    FillRowZero(dp, p);
    assert s[..0] == "";
    var i := 1;
    while i <= |s|
      invariant 1 <= i <= |s| + 1
      invariant forall a :: 1 <= a <= |s| ==> !dp[a, 0]
      invariant forall a, b :: 0 <= a < i && 0 <= b <= |p| ==> dp[a, b] == Step(s[..a], p[..b])
    {
      var j := 1;
      assert p[..0] == "" && s[..i] != "";
      while j <= |p|
        invariant 1 <= j <= |p| + 1
        invariant forall a :: 1 <= a <= |s| ==> !dp[a, 0]
        invariant forall a, b :: 0 <= a < i && 0 <= b <= |p| ==> dp[a, b] == Step(s[..a], p[..b])
        invariant forall b :: 0 <= b < j ==> dp[i, b] == Step(s[..i], p[..b])
      {
        CellStep(s, p, i, j);
        match p[j - 1] {
          case '%' => dp[i, j] := dp[i - 1, j] || dp[i, j - 1];
          case '_' => dp[i, j] := dp[i - 1, j - 1];
          case _ => dp[i, j] := dp[i - 1, j - 1] && s[i - 1] == p[j - 1];
        }
        j := j + 1;
      }
      i := i + 1;
    }
    assert s[..|s|] == s && p[..|p|] == p;
    StepIsMatches(s, p);
    matched := dp[|s|, |p|];
  }

  // ----- Laws of the relation -----

  /** A pattern matches in two parts exactly when the subject can be cut between them. */
  lemma {:induction false} ConcatSplits(s: string, p: string, q: string)
    ensures Step(s, p + q) <==> exists k :: 0 <= k <= |s| && Step(s[..k], p) && Step(s[k..], q)
  {
    if Step(s, p + q) {
      var k := ConcatCut(s, p, q);
    }
    forall k | 0 <= k <= |s| && Step(s[..k], p) && Step(s[k..], q)
      ensures Step(s, p + q)
    {
      ConcatGlue(s, p, q, k);
    }
  }

  lemma {:induction false} StepUnfold(s: string, p: string)
    requires p != ""
    ensures var c, p' := p[|p| - 1], p[..|p| - 1];
            Step(s, p) ==
              if c == '%' then Step(s, p') || (s != "" && Step(s[..|s| - 1], p))
              else s != "" && (c == '_' || s[|s| - 1] == c) && Step(s[..|s| - 1], p')
  {
  }

  /** Both ends of a cut of a non-empty pattern's subject, one byte shorter. */
  lemma {:induction false} CutShorter(s: string, p: string, q: string, k: nat)
    requires k <= |s| && q != ""
    ensures (p + q)[|p + q| - 1] == q[|q| - 1] && (p + q)[..|p + q| - 1] == p + q[..|q| - 1]
    ensures k < |s| ==>
              && s[k..] != "" && s[k..][|s[k..]| - 1] == s[|s| - 1]
              && s[..|s| - 1][..k] == s[..k] && s[k..][..|s[k..]| - 1] == s[..|s| - 1][k..]
  {
  }

  lemma {:induction false} ConcatCut(s: string, p: string, q: string) returns (k: nat)
    requires Step(s, p + q)
    ensures k <= |s| && Step(s[..k], p) && Step(s[k..], q)
    decreases |q|, |s|
  {
    var n := |s|;
    if q == "" {
      assert p + q == p && s[..n] == s;
      k := n;
    } else {
      hide Step;
      var c, q' := q[|q| - 1], q[..|q| - 1];
      CutShorter(s, p, q, 0);
      StepUnfold(s, p + q);
      if c == '%' && Step(s, p + q') {
        k := ConcatCut(s, p, q');
      } else {
        k := ConcatCut(s[..n - 1], p, if c == '%' then q else q');
        CutShorter(s, p, q, k);
      }
      StepUnfold(s[k..], q);
    }
  }

  lemma {:induction false} ConcatGlue(s: string, p: string, q: string, k: nat)
    requires k <= |s| && Step(s[..k], p) && Step(s[k..], q)
    ensures Step(s, p + q)
    decreases |q|, |s|
  {
    if q == "" {
      assert p + q == p && s[..k] == s;
    } else {
      hide Step;
      var c, q' := q[|q| - 1], q[..|q| - 1];
      CutShorter(s, p, q, k);
      StepUnfold(s[k..], q);
      StepUnfold(s, p + q);
      if c == '%' && Step(s[k..], q') {
        ConcatGlue(s, p, q', k);
      } else {
        ConcatGlue(s[..|s| - 1], p, if c == '%' then q else q', k);
      }
    }
  }

  /** A pattern without wildcards matches only itself. */
  lemma {:induction false} LiteralPattern(s: string, p: string)
    requires '%' !in p && '_' !in p
    ensures Matches(s, p) <==> s == p
  {
    StepIsMatches(s, p);
    LiteralStep(s, p);
  }

  lemma {:induction false} LiteralStep(s: string, p: string)
    requires '%' !in p && '_' !in p
    ensures Step(s, p) <==> s == p
    decreases |p|
  {
    if p != "" && s != "" {
      LiteralStep(s[..|s| - 1], p[..|p| - 1]);
      assert s == s[..|s| - 1] + [s[|s| - 1]];
      assert p == p[..|p| - 1] + [p[|p| - 1]];
    }
  }

  lemma {:induction false} PercentMatchesAll(s: string)
    ensures Step(s, "%")
  {
    if s != "" {
      PercentMatchesAll(s[..|s| - 1]);
    }
  }

  /** `%lit%` is the substring test. */
  lemma {:induction false} SubstringPattern(s: string, lit: string)
    requires '%' !in lit && '_' !in lit
    ensures Matches(s, "%" + lit + "%") <==>
            exists i, j :: 0 <= i <= j <= |s| && s[i..j] == lit
  {
    StepIsMatches(s, "%" + lit + "%");
    ConcatSplits(s, "%" + lit, "%");
    forall j | 0 <= j <= |s|
      ensures Step(s[j..], "%")
      ensures Step(s[..j], "%" + lit) <==> exists i :: 0 <= i <= j && s[i..j] == lit
    {
      PercentMatchesAll(s[j..]);
      ConcatSplits(s[..j], "%", lit);
      forall i | 0 <= i <= j
        ensures Step(s[..j][..i], "%")
        ensures Step(s[..j][i..], lit) <==> s[i..j] == lit
      {
        PercentMatchesAll(s[..j][..i]);
        LiteralStep(s[..j][i..], lit);
        assert s[..j][i..] == s[i..j];
      }
    }
  }

  // ----- Case folding -----

  function LowerByte(c: char): char {
    if 'A' <= c <= 'Z' then c - 'A' + 'a' else c
  }

  function Lower(s: string): (r: string)
    ensures |r| == |s|
    ensures forall k :: 0 <= k < |s| ==> r[k] == LowerByte(s[k])
  {
    seq(|s|, k requires 0 <= k < |s| => LowerByte(s[k]))
  }

  /** Whatever matches case-sensitively also matches after both sides are folded. */
  lemma {:induction false} LikeImpliesILike(s: string, p: string)
    requires Step(s, p)
    ensures Step(Lower(s), Lower(p))
    decreases |p|, |s|
  {
    if p != "" {
      var p' := p[..|p| - 1];
      assert Lower(p)[..|p| - 1] == Lower(p');
      if s != "" {
        assert Lower(s)[..|s| - 1] == Lower(s[..|s| - 1]);
      }
      if p[|p| - 1] == '%' {
        if Step(s, p') { LikeImpliesILike(s, p'); } else { LikeImpliesILike(s[..|s| - 1], p); }
      } else {
        LikeImpliesILike(s[..|s| - 1], p');
      }
    }
  }

  /** Two texts that differ in nothing but the case of ASCII letters. */
  ghost predicate SameLetters(a: string, b: string) {
    |a| == |b| && forall k :: 0 <= k < |a| ==> a[k] == b[k] || IsCasePair(a[k], b[k]) || IsCasePair(b[k], a[k])
  }

  /** A capital letter and its small one, by byte value. */
  predicate IsCasePair(capital: char, small: char) { 65 <= capital as int <= 90 && small as int == capital as int + 32 }

  /** After folding, a pattern without wildcards matches the texts that are equal up to case. */
  lemma {:induction false} FoldedLiteral(s: string, p: string)
    requires '%' !in p && '_' !in p
    ensures Step(Lower(s), Lower(p)) <==> SameLetters(s, p)
  {
    FoldedPlain(p);
    LiteralStep(Lower(s), Lower(p));
    if |s| == |p| {
      forall k | 0 <= k < |s|
        ensures Lower(s)[k] == Lower(p)[k] <==> s[k] == p[k] || IsCasePair(s[k], p[k]) || IsCasePair(p[k], s[k])
      {
        FoldedByte(s[k], p[k]);
      }
    }
  }

  lemma {:induction false} FoldedPlain(p: string)
    requires '%' !in p && '_' !in p
    ensures '%' !in Lower(p) && '_' !in Lower(p)
  {
    forall k | 0 <= k < |p| ensures Lower(p)[k] != '%' && Lower(p)[k] != '_' { assert p[k] in p; }
  }

  lemma {:induction false} FoldedByte(a: char, b: char)
    ensures LowerByte(a) == LowerByte(b) <==> a == b || IsCasePair(a, b) || IsCasePair(b, a)
  {
  }

  /** The underscore stands for exactly one byte. */
  lemma {:induction false} UnderscorePattern(s: string, p: string)
    ensures Matches(s, p + "_") <==> s != "" && Matches(s[..|s| - 1], p)
  {
    StepIsMatches(s, p + "_");
    if s != "" { StepIsMatches(s[..|s| - 1], p); }
    assert (p + "_")[..|p|] == p;
  }
}

/** Laws of domain evaluation: comparisons, traces, negation pushing, and what parsed lists mean. */
module DomainLaws {
  import opened Options
  import opened DomainAst
  import opened DomainEval
  import opened DomainParser
  import opened DomainTree

  // ----- Comparisons -----

  lemma {:induction false} CompareAntisymmetric(a: Value, b: Value)
    ensures NumericCompare(a, b) == -NumericCompare(b, a)
  {
  }

  /** Equality agrees with the order operators on all pairs of values, numeric or not. */
  lemma {:induction false} EqualIsATie(a: Value, b: Value, show: Value -> string)
    requires Compare(Equal, a, b, show)
    ensures Compare(LessEq, a, b, show) && Compare(GreaterEq, a, b, show)
    ensures !Compare(Less, a, b, show) && !Compare(Greater, a, b, show)
    ensures Compare(Equal, b, a, show)
  {
  }

  predicate IsNumber(v: Value) { AsNumber(v).Some? }

  /** The order with tolerance is a strict semiorder: transitive, and the two interval laws hold. */
  lemma {:induction false} LessIsSemiorder(a: Value, b: Value, c: Value, d: Value)
    requires IsNumber(a) && IsNumber(b) && IsNumber(c) && IsNumber(d)
    ensures NumericCompare(a, a) == 0
    ensures NumericCompare(a, b) < 0 && NumericCompare(b, c) < 0 ==> NumericCompare(a, c) < 0
    ensures NumericCompare(a, b) < 0 && NumericCompare(c, d) < 0 ==>
              NumericCompare(a, d) < 0 || NumericCompare(c, b) < 0
    ensures NumericCompare(a, b) < 0 && NumericCompare(b, c) < 0 ==>
              NumericCompare(a, d) < 0 || NumericCompare(d, c) < 0
  {
    var (x, y, z, w) := (AsNumber(a).value, AsNumber(b).value, AsNumber(c).value, AsNumber(d).value);
    assert forall u, v :: NumericCompare(u, v) < 0 && IsNumber(u) && IsNumber(v) ==> AsNumber(u).value + TOLERANCE <= AsNumber(v).value;
  }

  /** Ties are not transitive: two steps of 0.6e-9 make a strict difference. */
  lemma {:induction false} TiesAreNotTransitive()
    ensures exists a, b, c :: NumericCompare(a, b) == 0 && NumericCompare(b, c) == 0 && NumericCompare(a, c) < 0
  {
    var a, b, c := FloatVal(0.0), FloatVal(0.0000000006), FloatVal(0.0000000012);
    assert NumericCompare(a, b) == 0 && NumericCompare(b, c) == 0 && NumericCompare(a, c) < 0;
  }

  /** Whatever passes `like` passes `ilike`. */
  lemma {:induction false} LikeWithinILike(a: Value, e: Value, show: Value -> string)
    requires Compare(Operator.Like, a, e, show)
    ensures Compare(ILike, a, e, show)
  {
    LikeMatch.LikeImpliesILike(a.s, e.s);
  }

  // ----- Traces -----

  /** The conditions of a tree in order; a malformed negation counts as one entry. */
  function Width(n: Node): nat
    decreases n, 1
  {
    match n
    case MatchAll => 0
    case Leaf(_) => 1
    case BoolOp(op, children) => if op == Not && |children| != 1 then 1 else Widths(children, |children|)
  }

  function Widths(children: seq<Node>, k: nat): nat
    requires k <= |children|
    decreases children, 0, k
  {
    if k == 0 then 0 else Widths(children, k - 1) + Width(children[k - 1])
  }

  /** A tree read over the verdicts of its conditions, which start at `at`. */
  predicate Replay(n: Node, verdicts: seq<bool>, at: nat)
    decreases n, 1
  {
    match n
    case MatchAll => true
    case Leaf(_) => at < |verdicts| && verdicts[at]
    case BoolOp(op, children) =>
      if op == Not then |children| == 1 && !Replay(children[0], verdicts, at)
      else ReplayFold(op, children, |children|, verdicts, at)
  }

  predicate ReplayFold(op: LogicOp, children: seq<Node>, k: nat, verdicts: seq<bool>, at: nat)
    requires k <= |children|
    decreases children, 0, k
  {
    if k == 0 then op == And
    else
      var last := Replay(children[k - 1], verdicts, at + Widths(children, k - 1));
      if op == And then ReplayFold(op, children, k - 1, verdicts, at) && last
      else ReplayFold(op, children, k - 1, verdicts, at) || last
  }

  function Verdicts(conds: seq<ConditionResult>): seq<bool> {
    seq(|conds|, i requires 0 <= i < |conds| => conds[i].pass)
  }

  lemma {:induction false} TraceWidth(n: Node, env: Env)
    ensures |Trace(n, env)| == Width(n)
    decreases n, 1
  {
    if n.BoolOp? { TracesWidth(n.children, |n.children|, env); }
  }

  lemma {:induction false} TracesWidth(children: seq<Node>, k: nat, env: Env)
    requires k <= |children|
    ensures |Traces(children, k, env)| == Widths(children, k)
    decreases children, 0, k
  {
    if k > 0 {
      TracesWidth(children, k - 1, env);
      TraceWidth(children[k - 1], env);
    }
  }

  /** A stretch of a verdict list that carries the verdicts of a trace. */
  ghost predicate Carries(verdicts: seq<bool>, at: nat, conds: seq<ConditionResult>) {
    at + |conds| <= |verdicts| && forall i :: 0 <= i < |conds| ==> verdicts[at + i] == conds[i].pass
  }

  lemma {:induction false} CarriesSplit(verdicts: seq<bool>, at: nat, front: seq<ConditionResult>, last: seq<ConditionResult>)
    requires Carries(verdicts, at, front + last)
    ensures Carries(verdicts, at, front) && Carries(verdicts, at + |front|, last)
  {
    var both := front + last;
    forall i | 0 <= i < |front| ensures verdicts[at + i] == front[i].pass { assert both[i] == front[i]; }
    forall i | 0 <= i < |last| ensures verdicts[at + |front| + i] == last[i].pass {
      assert both[|front| + i] == last[i];
      assert verdicts[at + (|front| + i)] == both[|front| + i].pass;
    }
  }

  lemma {:induction false} ReplayCarried(n: Node, env: Env, verdicts: seq<bool>, at: nat)
    requires Carries(verdicts, at, Trace(n, env))
    ensures Replay(n, verdicts, at) == Pass(n, env)
    decreases n, 1
  {
    if n.Leaf? {
      assert verdicts[at + 0] == Trace(n, env)[0].pass;
    } else if n.BoolOp? && n.op == Not && |n.children| == 1 {
      assert Traces(n.children, 1, env) == [] + Trace(n.children[0], env) == Trace(n.children[0], env);
      ReplayCarried(n.children[0], env, verdicts, at);
    } else if n.BoolOp? && n.op != Not {
      ReplayFoldCarried(n.op, n.children, |n.children|, env, verdicts, at);
    }
  }

  lemma {:induction false} ReplayFoldCarried(op: LogicOp, children: seq<Node>, k: nat, env: Env, verdicts: seq<bool>, at: nat)
    requires k <= |children| && op != Not && Carries(verdicts, at, Traces(children, k, env))
    ensures ReplayFold(op, children, k, verdicts, at) ==
            if op == And then forall i :: 0 <= i < k ==> Pass(children[i], env)
            else exists i :: 0 <= i < k && Pass(children[i], env)
    decreases children, 0, k
  {
    if k > 0 {
      var front, last := Traces(children, k - 1, env), Trace(children[k - 1], env);
      TracesWidth(children, k - 1, env);
      CarriesSplit(verdicts, at, front, last);
      ReplayFoldCarried(op, children, k - 1, env, verdicts, at);
      ReplayCarried(children[k - 1], env, verdicts, at + |front|);
    }
  }

  /** The trace is adequate: its length depends on the tree alone and its verdicts determine the outcome. */
  lemma {:induction false} TraceAdequate(n: Node, env: Env)
    ensures |Trace(n, env)| == Width(n)
    ensures Pass(n, env) == Replay(n, Verdicts(Trace(n, env)), 0)
  {
    TraceWidth(n, env);
    ReplayCarried(n, env, Verdicts(Trace(n, env)), 0);
  }

  /** The conditions of a well-formed tree from left to right. */
  function Leaves(n: Node): seq<Condition>
    requires WellFormed(n)
  {
    match n
    case Leaf(c) => [c]
    case BoolOp(op, children) => if op == Not then Leaves(children[0]) else Leaves(children[0]) + Leaves(children[1])
  }

  /** A result tells of its condition what was compared with what, and whether it held or why it could not. */
  predicate Reports(r: ConditionResult, c: Condition, env: Env) {
    var known := Resolve(c.value, env.ctx).Some?;
    && r.field == c.field && r.op == Some(c.op) && r.expected == Resolve(c.value, env.ctx)
    && r.actual == (if known && c.field in env.record then Some(env.record[c.field]) else None)
    && (r.pass <==> r.actual.Some? && Compare(c.op, r.actual.value, r.expected.value, env.show))
    && r.error == if !known then Some(Unresolvable) else if c.field !in env.record then Some(MissingField) else None
  }

  /** The trace of a tree reports all its conditions from left to right, whatever their outcome. */
  lemma {:induction false} TraceReportsLeaves(n: Node, env: Env)
    requires WellFormed(n)
    ensures |Trace(n, env)| == |Leaves(n)|
    ensures forall i :: 0 <= i < |Leaves(n)| ==> Reports(Trace(n, env)[i], Leaves(n)[i], env)
  {
    hide Resolve, Compare;
    if n.BoolOp? {
      var children := n.children;
      var left := Trace(children[0], env);
      assert Traces(children, 1, env) == [] + left == left;
      TraceReportsLeaves(children[0], env);
      if n.op != Not {
        assert Traces(children, 2, env) == left + Trace(children[1], env);
        TraceReportsLeaves(children[1], env);
      }
    }
  }

  /** A negation without exactly one operand fails and reports nothing but that. */
  lemma {:induction false} MalformedNotReported(children: seq<Node>, env: Env)
    requires |children| != 1
    ensures var n := BoolOp(Not, children);
            !Pass(n, env) && |Trace(n, env)| == 1 && !Trace(n, env)[0].pass && Trace(n, env)[0].error == Some(BadNot)
  {
  }

  // ----- Failing trees without a failing condition -----

  ghost predicate HasFailure(conds: seq<ConditionResult>) { exists i :: 0 <= i < |conds| && !conds[i].pass }

  /** What the tree says when every condition holds. */
  ghost predicate TrueOnAllTrue(n: Node) { Replay(n, seq(Width(n), _ => true), 0) }

  /**
   A failing tree shows no failing condition exactly when all conditions hold and the tree is false
   of all-true conditions; the second half depends on the domain alone.
   */
  lemma {:induction false} SilentFailureExact(n: Node, env: Env)
    ensures !Pass(n, env) && !HasFailure(Trace(n, env)) <==>
            !TrueOnAllTrue(n) && forall i :: 0 <= i < |Trace(n, env)| ==> Trace(n, env)[i].pass
  {
    TraceAdequate(n, env);
    var vs, all := Verdicts(Trace(n, env)), seq(Width(n), _ => true);
    if !HasFailure(Trace(n, env)) {
      assert vs == all;
    }
  }

  /** No negation and no empty disjunction. */
  predicate Positive(n: Node) {
    match n
    case BoolOp(op, children) =>
      op != Not && (op == Or ==> children != []) && forall i :: 0 <= i < |children| ==> Positive(children[i])
    case _ => true
  }

  lemma {:induction false} PositiveOnAllTrue(n: Node, vs: seq<bool>, at: nat)
    requires Positive(n) && at + Width(n) <= |vs| && forall i :: 0 <= i < |vs| ==> vs[i]
    ensures Replay(n, vs, at)
    decreases n, 1
  {
    if n.BoolOp? {
      PositiveFoldOnAllTrue(n.op, n.children, |n.children|, vs, at);
    }
  }

  lemma {:induction false} PositiveFoldOnAllTrue(op: LogicOp, children: seq<Node>, k: nat, vs: seq<bool>, at: nat)
    requires k <= |children| && op != Not && at + Widths(children, k) <= |vs|
    requires forall i :: 0 <= i < |children| ==> Positive(children[i])
    requires forall i :: 0 <= i < |vs| ==> vs[i]
    ensures (op == And || k > 0) ==> ReplayFold(op, children, k, vs, at)
    decreases children, 0, k
  {
    if k > 0 {
      PositiveFoldOnAllTrue(op, children, k - 1, vs, at);
      PositiveOnAllTrue(children[k - 1], vs, at + Widths(children, k - 1));
    }
  }

  /** A failing tree without negation always shows a failing condition. */
  lemma {:induction false} PositiveFailureIsVisible(n: Node, env: Env)
    requires Positive(n) && !Pass(n, env)
    ensures HasFailure(Trace(n, env))
  {
    PositiveOnAllTrue(n, seq(Width(n), _ => true), 0);
    SilentFailureExact(n, env);
  }

  // ----- Negation pushing -----

  function Complement(op: Operator): Option<Operator> {
    match op
    case Equal => Some(NotEqual)
    case NotEqual => Some(Equal)
    case Less => Some(GreaterEq)
    case GreaterEq => Some(Less)
    case LessEq => Some(Greater)
    case Greater => Some(LessEq)
    case In => Some(NotIn)
    case NotIn => Some(In)
    case Like => Some(NotLike)
    case NotLike => Some(Operator.Like)
    case ILike => Some(NotILike)
    case NotILike => Some(ILike)
    case _ => None
  }

  /** Complementing a condition negates it exactly when the condition can be compared at all. */
  lemma {:induction false} ComplementNegates(c: Condition, env: Env)
    requires Complement(c.op).Some?
    ensures EvalCondition(c.(op := Complement(c.op).value), env).pass == !EvalCondition(c, env).pass <==>
            Resolvable(c, env)
  {
  }

  /** Negations pushed to the leaves; those over operators without a complement stay there. */
  function Nnf(n: Node, negated: bool): Node {
    match n
    case MatchAll => if negated then BoolOp(Or, []) else n
    case Leaf(c) =>
      if !negated then n
      else if Complement(c.op).Some? then Leaf(c.(op := Complement(c.op).value))
      else BoolOp(Not, [n])
    case BoolOp(op, children) =>
      if op == Not then
        if |children| == 1 then Nnf(children[0], !negated)
        else if negated then BoolOp(And, []) else BoolOp(Or, [])
      else
        BoolOp(if negated then (if op == And then Or else And) else op,
               seq(|children|, i requires 0 <= i < |children| => Nnf(children[i], negated)))
  }

  /** Every leaf that would be complemented can be compared. */
  predicate FlippedResolvable(n: Node, negated: bool, env: Env) {
    match n
    case MatchAll => true
    case Leaf(c) => negated && Complement(c.op).Some? ==> Resolvable(c, env)
    case BoolOp(op, children) =>
      forall i :: 0 <= i < |children| ==> FlippedResolvable(children[i], if op == Not then !negated else negated, env)
  }

  /** Pushing negations inward keeps the verdict. */
  lemma {:induction false} NnfPreserves(n: Node, negated: bool, env: Env)
    requires FlippedResolvable(n, negated, env)
    ensures Pass(Nnf(n, negated), env) == (Pass(n, env) != negated)
  {
    match n
    case MatchAll =>
    case Leaf(c) =>
      if negated && Complement(c.op).Some? { ComplementNegates(c, env); }
    case BoolOp(op, children) =>
      if op == Not {
        if |children| == 1 { NnfPreserves(children[0], !negated, env); }
      } else {
        NnfChildren(op, children, negated, env);
      }
  }

  lemma {:induction false} NnfChildren(op: LogicOp, children: seq<Node>, negated: bool, env: Env)
    requires op != Not && FlippedResolvable(BoolOp(op, children), negated, env)
    ensures Pass(Nnf(BoolOp(op, children), negated), env) == (Pass(BoolOp(op, children), env) != negated)
    decreases children, 0
  {
    var flipped := Nnf(BoolOp(op, children), negated);
    forall i | 0 <= i < |children|
      ensures Pass(flipped.children[i], env) == (Pass(children[i], env) != negated)
    {
      NnfPreserves(children[i], negated, env);
    }
  }

  /** Negations remain only directly over conditions whose operator has no complement. */
  predicate NegationNormal(n: Node) {
    match n
    case BoolOp(op, children) =>
      if op == Not then |children| == 1 && children[0].Leaf? && Complement(children[0].cond.op).None?
      else forall i :: 0 <= i < |children| ==> NegationNormal(children[i])
    case _ => true
  }

  lemma {:induction false} NnfIsNormal(n: Node, negated: bool)
    ensures NegationNormal(Nnf(n, negated))
  {
    if n.BoolOp? {
      forall i | 0 <= i < |n.children|
        ensures NegationNormal(Nnf(n.children[i], negated)) && NegationNormal(Nnf(n.children[i], !negated))
      {
        NnfIsNormal(n.children[i], negated);
        NnfIsNormal(n.children[i], !negated);
      }
    }
  }

  /** Without resolvable leaves the law fails: !(f = 1) holds of a record without f, f != 1 does not. */
  lemma {:induction false} NnfNeedsResolvable(show: Value -> string)
    ensures var n := BoolOp(Not, [Leaf(Condition("f", Equal, IntLit(1)))]);
            var env := Env(map[], EvalContext(0, 0, []), show);
            Pass(n, env) && !Pass(Nnf(n, false), env)
  {
  }

  // ----- What a parsed list means -----

  /** The left-nested conjunction passes exactly when every expression of the forest does. */
  lemma {:induction false} LeftConjMeaning(forest: seq<Node>, env: Env)
    requires forest != []
    ensures Pass(LeftConj(forest), env) <==> forall i :: 0 <= i < |forest| ==> Pass(forest[i], env)
    decreases |forest|
  {
    if |forest| > 1 {
      var k := |forest| - 1;
      var l := LeftConj(forest[..k]);
      LeftConjMeaning(forest[..k], env);
      assert Pass(Conj(l, forest[k]), env) <==> Pass(l, env) && Pass(forest[k], env) by {
        var cs := [l, forest[k]];
        assert cs[0] == l && cs[1] == forest[k];
      }
      assert forall i :: 0 <= i < k ==> forest[..k][i] == forest[i];
    }
  }

  /** A domain list means the conjunction of the complete expressions it consists of. */
  lemma {:induction false} ListMeaning(elems: seq<Element>, forest: seq<Node>, env: Env)
    requires IsForest(elems, forest)
    ensures BuildTree(elems).Some?
    ensures Pass(BuildTree(elems).value, env) <==> forall i :: 0 <= i < |forest| ==> Pass(forest[i], env)
  {
    BuildComplete(forest);
    LeftConjMeaning(forest, env);
  }
}

/**
 Evaluation of a domain against a record: resolving literals, comparing values, and the verdict
 and trace of a whole tree. Numbers are exact, a `char` is one byte, and the text form that the
 equality test falls back to is a parameter of the environment.
 */
module DomainEval {
  import opened Options
  import opened DomainAst
  import LikeMatch = Like

  /** What a JSON record holds. */
  datatype Value =
    | Nil
    | BoolVal(b: bool)
    | IntVal(n: int)
    | FloatVal(r: real)
    | StrVal(s: string)
    | ListVal(items: seq<Value>)
    | ObjectVal(text: string)

  datatype EvalContext = EvalContext(userId: int, companyId: int, companyIds: seq<int>)

  /** Record, context and the default text form of a value. */
  datatype Env = Env(record: map<string, Value>, ctx: EvalContext, show: Value -> string)

  // ----- Right-hand sides -----

  function IntVals(ids: seq<int>): seq<Value> { seq(|ids|, i requires 0 <= i < |ids| => IntVal(ids[i])) }

  function ResolveRef(name: string, ctx: EvalContext): Option<Value> {
    if name == "user.id" then Some(IntVal(ctx.userId))
    else if name == "user.company_id" || name == "user.company_id.id" then Some(IntVal(ctx.companyId))
    else if name == "company_ids" || name == "user.company_ids" then Some(ListVal(IntVals(ctx.companyIds)))
    else None
  }

  function Resolve(lit: Literal, ctx: EvalContext): Option<Value>
    decreases lit, 1
  {
    match lit
    case StringLit(t) => Some(StrVal(t))
    case IntLit(n) => Some(IntVal(n))
    case FloatLit(r) => Some(FloatVal(r))
    case BoolLit(b) => Some(BoolVal(b))
    case NoneLit => Some(Nil)
    case RefLit(name) => ResolveRef(name, ctx)
    case ListLit(items) => ResolveItems(items, ctx)
    case TupleLit(items) => ResolveItems(items, ctx)
  }

  function ResolveItems(items: seq<Literal>, ctx: EvalContext): Option<Value>
    decreases items, 0
  {
    if exists i :: 0 <= i < |items| && Resolve(items[i], ctx).None? then None
    else Some(ListVal(seq(|items|, i requires 0 <= i < |items| && Resolve(items[i], ctx).Some? => Resolve(items[i], ctx).value)))
  }

  // ----- Comparing values -----

  predicate IsNilOrFalse(v: Value) {
    match v
    case Nil => true
    case BoolVal(b) => !b
    case IntVal(n) => n == 0
    case FloatVal(r) => r == 0.0
    case _ => false
  }

  function AsNumber(v: Value): Option<real> {
    match v
    case IntVal(n) => Some(n as real)
    case FloatVal(r) => Some(r)
    case _ => None
  }

  predicate ValuesEqual(a: Value, b: Value, show: Value -> string) {
    if IsNilOrFalse(a) && IsNilOrFalse(b) then true
    else if IsNilOrFalse(a) != IsNilOrFalse(b) then false
    else if AsNumber(a).Some? && AsNumber(b).Some? then AsNumber(a) == AsNumber(b)
    else if a.StrVal? && b.StrVal? then a.s == b.s
    else if a.BoolVal? && b.BoolVal? then a.b == b.b
    else show(a) == show(b)
  }

  const TOLERANCE := 0.000000001

  /** -1, 0 or 1; 0 when either side is not a number. */
  function NumericCompare(a: Value, b: Value): int {
    match (AsNumber(a), AsNumber(b))
    case (Some(x), Some(y)) =>
      if -TOLERANCE < x - y < TOLERANCE then 0 else if x < y then -1 else 1
    case _ => 0
  }

  predicate ValueIn(actual: Value, expected: Value, show: Value -> string) {
    if expected.ListVal? then exists i :: 0 <= i < |expected.items| && ValuesEqual(actual, expected.items[i], show)
    else ValuesEqual(actual, expected, show)
  }

  predicate StringLike(actual: Value, expected: Value, caseSensitive: bool) {
    && actual.StrVal? && expected.StrVal?
    && if caseSensitive then LikeMatch.Step(actual.s, expected.s)
       else LikeMatch.Step(LikeMatch.Lower(actual.s), LikeMatch.Lower(expected.s))
  }

  predicate Compare(op: Operator, a: Value, e: Value, show: Value -> string) {
    match op
    case Equal => ValuesEqual(a, e, show)
    case NotEqual => !ValuesEqual(a, e, show)
    case Less => NumericCompare(a, e) < 0
    case LessEq => NumericCompare(a, e) <= 0
    case Greater => NumericCompare(a, e) > 0
    case GreaterEq => NumericCompare(a, e) >= 0
    case In => ValueIn(a, e, show)
    case NotIn => !ValueIn(a, e, show)
    case Like => StringLike(a, e, true)
    case NotLike => !StringLike(a, e, true)
    case ILike => StringLike(a, e, false)
    case NotILike => !StringLike(a, e, false)
    case EqLike => StringLike(a, e, true)
    case EqILike => StringLike(a, e, false)
    case ChildOf => true
    case ParentOf => true
  }

  /** The method the evaluator runs for the like family: the table matcher on the operands. */
  method StringLikeByTable(actual: Value, expected: Value, caseSensitive: bool) returns (r: bool)
    ensures r == StringLike(actual, expected, caseSensitive)
  {
    if !actual.StrVal? || !expected.StrVal? {
      return false;
    }
    var s, p := actual.s, expected.s;
    if !caseSensitive {
      s, p := LikeMatch.Lower(s), LikeMatch.Lower(p);
    }
    r := LikeMatch.MatchLike(s, p);
    LikeMatch.StepIsMatches(s, p);
  }

  /** Membership as a loop that stops at the first equal item. */
  method ValueInByLoop(actual: Value, expected: Value, show: Value -> string) returns (r: bool)
    ensures r == ValueIn(actual, expected, show)
  {
    if !expected.ListVal? {
      return ValuesEqual(actual, expected, show);
    }
    for i := 0 to |expected.items|
      invariant forall j :: 0 <= j < i ==> !ValuesEqual(actual, expected.items[j], show)
    {
      if ValuesEqual(actual, expected.items[i], show) {
        return true;
      }
    }
    return false;
  }

  // ----- One condition -----

  datatype CondError = Unresolvable | MissingField | BadNot | NotApplicable

  datatype ConditionResult = ConditionResult(
    field: string, op: Option<Operator>, expected: Option<Value>, actual: Option<Value>,
    pass: bool, error: Option<CondError>)

  function ErrorOnly(e: CondError): ConditionResult {
    ConditionResult("", None, None, None, false, Some(e))
  }

  function EvalCondition(c: Condition, env: Env): ConditionResult {
    match Resolve(c.value, env.ctx)
    case None => ConditionResult(c.field, Some(c.op), None, None, false, Some(Unresolvable))
    case Some(expected) =>
      if c.field !in env.record then
        ConditionResult(c.field, Some(c.op), Some(expected), None, false, Some(MissingField))
      else
        var actual := env.record[c.field];
        ConditionResult(c.field, Some(c.op), Some(expected), Some(actual),
                        Compare(c.op, actual, expected, env.show), None)
  }

  /** The condition can be compared at all: its value resolves and the record has its field. */
  predicate Resolvable(c: Condition, env: Env) {
    Resolve(c.value, env.ctx).Some? && c.field in env.record
  }

  // ----- Trees -----

  /** Verdict of a tree. A negation without exactly one operand fails. */
  predicate Pass(n: Node, env: Env) {
    match n
    case MatchAll => true
    case Leaf(c) => EvalCondition(c, env).pass
    case BoolOp(And, children) => forall i :: 0 <= i < |children| ==> Pass(children[i], env)
    case BoolOp(Or, children) => exists i :: 0 <= i < |children| && Pass(children[i], env)
    case BoolOp(Not, children) => |children| == 1 && !Pass(children[0], env)
  }

  /** Trace of a tree: one result per condition, in order, whatever the verdicts. */
  function Trace(n: Node, env: Env): seq<ConditionResult>
    decreases n, 1
  {
    match n
    case MatchAll => []
    case Leaf(c) => [EvalCondition(c, env)]
    case BoolOp(op, children) =>
      if op == Not && |children| != 1 then [ErrorOnly(BadNot)] else Traces(children, |children|, env)
  }

  /** Traces of the first `k` children, one after the other. */
  function Traces(children: seq<Node>, k: nat, env: Env): seq<ConditionResult>
    requires k <= |children|
    decreases children, 0, k
  {
    if k == 0 then [] else Traces(children, k - 1, env) + Trace(children[k - 1], env)
  }

  /** The recursive walk with its accumulating loops; both branches visit every child. */
  method EvalNode(n: Node, env: Env) returns (pass: bool, conds: seq<ConditionResult>)
    ensures pass == Pass(n, env)
    ensures conds == Trace(n, env)
    decreases n
  {
    match n {
      case MatchAll =>
        pass, conds := true, [];
      case Leaf(c) =>
        var cr := EvalCondition(c, env);
        pass, conds := cr.pass, [cr];
      case BoolOp(op, children) =>
        if op == Not && |children| != 1 {
          return false, [ErrorOnly(BadNot)];
        }
        if op == Not {
          pass, conds := EvalNode(children[0], env);
          assert Traces(children, 1, env) == [] + Trace(children[0], env) == Trace(children[0], env);
          return !pass, conds;
        }
        pass, conds := op == And, [];
        for i := 0 to |children|
          invariant conds == Traces(children, i, env)
          invariant op == And ==> (pass <==> forall j :: 0 <= j < i ==> Pass(children[j], env))
          invariant op == Or ==> (pass <==> exists j :: 0 <= j < i && Pass(children[j], env))
        {
          var p, cs := EvalNode(children[i], env);
          conds := conds + cs;
          if op == And && !p {
            pass := false;
          } else if op == Or && p {
            pass := true;
          }
        }
    }
  }
}

/**
 What comparisons and texts of domains mean in absolute terms: which way the operators point, what
 counts as false, what references stand for, and when a record passes the text of a domain.
 */
module DomainMeaning {
  import opened Options
  import opened Numbers
  import opened Separated
  import opened DomainAst
  import opened DomainEval
  import opened DomainParser
  import opened DomainTree
  import opened DomainPrinter
  import opened DomainStrings

  // ----- Comparisons -----

  /** The first value is a number below the second by at least a billionth. */
  predicate ClearlyBelow(a: Value, b: Value) {
    AsNumber(a).Some? && AsNumber(b).Some? && AsNumber(a).value + 0.000000001 <= AsNumber(b).value
  }

  /** The order operators hold exactly of numbers clearly in that order, or not clearly in the other. */
  lemma {:induction false} OrderExactly(a: Value, b: Value, show: Value -> string)
    ensures Compare(Less, a, b, show) <==> ClearlyBelow(a, b)
    ensures Compare(Greater, a, b, show) <==> ClearlyBelow(b, a)
    ensures Compare(LessEq, a, b, show) <==> !ClearlyBelow(b, a)
    ensures Compare(GreaterEq, a, b, show) <==> !ClearlyBelow(a, b)
  {
  }

  /** On integers all six comparisons are those of the integers. */
  lemma {:induction false} IntegersCompare(x: int, n: int, show: Value -> string)
    ensures Compare(Equal, IntVal(x), IntVal(n), show) <==> x == n
    ensures Compare(NotEqual, IntVal(x), IntVal(n), show) <==> x != n
    ensures Compare(Less, IntVal(x), IntVal(n), show) <==> x < n
    ensures Compare(LessEq, IntVal(x), IntVal(n), show) <==> x <= n
    ensures Compare(Greater, IntVal(x), IntVal(n), show) <==> x > n
    ensures Compare(GreaterEq, IntVal(x), IntVal(n), show) <==> x >= n
  {
  }

  /** Equality across types: numbers by value, false with nothing and zero, anything else by its text form. */
  lemma {:induction false} MixedEqual(v: Value, n: int, r: real, s: string, show: Value -> string)
    ensures Compare(Equal, IntVal(n), FloatVal(r), show) <==> n as real == r
    ensures Compare(Equal, v, BoolVal(false), show) <==> v in {Nil, BoolVal(false), IntVal(0), FloatVal(0.0)}
    ensures Compare(Equal, v, Nil, show) <==> v in {Nil, BoolVal(false), IntVal(0), FloatVal(0.0)}
    ensures Compare(Equal, BoolVal(true), BoolVal(true), show)
    ensures Compare(Equal, StrVal(s), IntVal(n), show) <==> n != 0 && show(StrVal(s)) == show(IntVal(n))
    ensures Compare(Equal, v, StrVal(s), show) && v.StrVal? ==> v == StrVal(s)
    ensures Compare(Equal, StrVal(s), StrVal(s), show)
  {
  }

  /** The like family on strings, sensitive to case or not, and never on anything else. */
  lemma {:induction false} LikeFamily(s: string, p: string, v: Value, show: Value -> string)
    ensures Compare(Operator.Like, StrVal(s), StrVal(p), show) <==> LikeMatch.Matches(s, p)
    ensures Compare(EqLike, StrVal(s), StrVal(p), show) <==> LikeMatch.Matches(s, p)
    ensures '%' !in p && '_' !in p ==> (Compare(ILike, StrVal(s), StrVal(p), show) <==> LikeMatch.SameLetters(s, p))
    ensures Compare(EqILike, v, StrVal(p), show) <==> Compare(ILike, v, StrVal(p), show)
    ensures !v.StrVal? ==> !Compare(Operator.Like, v, StrVal(p), show) && !Compare(ILike, v, StrVal(p), show)
    ensures Compare(ChildOf, v, StrVal(p), show) && Compare(ParentOf, v, StrVal(p), show)
  {
    LikeMatch.StepIsMatches(s, p);
    if '%' !in p && '_' !in p { LikeMatch.FoldedLiteral(s, p); }
  }

  /** Membership in a list of integers. */
  lemma {:induction false} IntegersIn(x: int, ns: seq<int>, show: Value -> string)
    ensures Compare(In, IntVal(x), ListVal(IntVals(ns)), show) <==> x in ns
    ensures Compare(NotIn, IntVal(x), ListVal(IntVals(ns)), show) <==> x !in ns
  {
    forall i | 0 <= i < |ns| ensures ValuesEqual(IntVal(x), IntVals(ns)[i], show) <==> x == ns[i] {
      IntegersCompare(x, ns[i], show);
    }
  }

  // ----- Texts of one condition -----

  /** The record passes the domain with this text. */
  predicate Passes(src: string, env: Env) { Parse(src).Some? && Pass(Parse(src).value, env) }

  /** A text of one condition passes exactly when the field is there, the value resolves and the comparison holds. */
  lemma {:induction false} ConditionOnText(c: Condition, env: Env)
    requires Expressible(c.value) && Plain(c.value) && IsName(c.field)
    ensures Passes(OneCondition(c.field, OperatorText(c.op), LitString(c.value)), env) <==>
            && c.field in env.record && Resolve(c.value, env.ctx).Some?
            && Compare(c.op, env.record[c.field], Resolve(c.value, env.ctx).value, env.show)
  {
    hide Parse, OneCondition, OperatorText, LitString, Expressible, Plain, IsName, Compare;
    OneConditionRead(c);
  }

  lemma {:induction false} IntOnText(field: string, op: Operator, n: int, x: int, env: Env)
    requires IsName(field) && MIN_INT64 <= n <= MAX_INT64
    requires field in env.record && env.record[field] == IntVal(x)
    ensures Passes(OneCondition(field, OperatorText(op), IntText(n)), env) <==> Compare(op, IntVal(x), IntVal(n), env.show)
  {
    hide Passes, OneCondition, OperatorText, IsName, Compare;
    ConditionOnText(Condition(field, op, IntLit(n)), env);
  }

  /** [('f','<',n)] passes on a record whose f is the integer x exactly when x < n; the other comparisons alike. */
  lemma {:induction false} ComparisonTexts(field: string, n: int, x: int, env: Env)
    requires IsName(field) && MIN_INT64 <= n <= MAX_INT64
    requires field in env.record && env.record[field] == IntVal(x)
    ensures Passes(OneCondition(field, "<", IntText(n)), env) <==> x < n
    ensures Passes(OneCondition(field, "<=", IntText(n)), env) <==> x <= n
    ensures Passes(OneCondition(field, ">", IntText(n)), env) <==> x > n
    ensures Passes(OneCondition(field, ">=", IntText(n)), env) <==> x >= n
    ensures Passes(OneCondition(field, "=", IntText(n)), env) <==> x == n
    ensures Passes(OneCondition(field, "!=", IntText(n)), env) <==> x != n
  {
    hide Passes, OneCondition, IsName, Compare;
    IntegersCompare(x, n, env.show);
    IntOnText(field, Less, n, x, env);
    IntOnText(field, LessEq, n, x, env);
    IntOnText(field, Greater, n, x, env);
    IntOnText(field, GreaterEq, n, x, env);
    IntOnText(field, Equal, n, x, env);
    IntOnText(field, NotEqual, n, x, env);
  }

  lemma {:induction false} NameQuoted(t: string)
    requires IsName(t)
    ensures Quote(t) == "'" + t + "'"
  {
    NameEscaped(t);
  }

  lemma {:induction false} StringOnText(field: string, op: Operator, t: string, s: string, env: Env)
    requires IsName(field) && IsName(t) && field in env.record && env.record[field] == StrVal(s)
    ensures Passes(OneCondition(field, OperatorText(op), "'" + t + "'"), env) <==> Compare(op, StrVal(s), StrVal(t), env.show)
  {
    hide Passes, OneCondition, OperatorText, Compare, Quote;
    NameQuoted(t);
    ConditionOnText(Condition(field, op, StringLit(t)), env);
  }

  /** Conditions on strings: equality, LIKE, and equality up to case. */
  lemma {:induction false} StringTexts(field: string, t: string, s: string, env: Env)
    requires IsName(field) && IsName(t) && field in env.record && env.record[field] == StrVal(s)
    ensures Passes(OneCondition(field, "=", "'" + t + "'"), env) <==> s == t
    ensures Passes(OneCondition(field, "like", "'" + t + "'"), env) <==> LikeMatch.Matches(s, t)
    ensures Passes(OneCondition(field, "=like", "'" + t + "'"), env) <==> LikeMatch.Matches(s, t)
    ensures Passes(OneCondition(field, "not like", "'" + t + "'"), env) <==> !LikeMatch.Matches(s, t)
    ensures '%' !in t && '_' !in t ==>
              && (Passes(OneCondition(field, "ilike", "'" + t + "'"), env) <==> LikeMatch.SameLetters(s, t))
              && (Passes(OneCondition(field, "=ilike", "'" + t + "'"), env) <==> LikeMatch.SameLetters(s, t))
              && (Passes(OneCondition(field, "not ilike", "'" + t + "'"), env) <==> !LikeMatch.SameLetters(s, t))
  {
    StringTests(s, t, env.show);
    hide Passes, OneCondition, IsName, Compare, LikeMatch.Matches, LikeMatch.SameLetters;
    StringOnText(field, Equal, t, s, env);
    StringOnText(field, Operator.Like, t, s, env);
    StringOnText(field, EqLike, t, s, env);
    StringOnText(field, NotLike, t, s, env);
    StringOnText(field, ILike, t, s, env);
    StringOnText(field, EqILike, t, s, env);
    StringOnText(field, NotILike, t, s, env);
  }

  lemma {:induction false} StringTests(s: string, t: string, show: Value -> string)
    ensures Compare(Equal, StrVal(s), StrVal(t), show) <==> s == t
    ensures Compare(Operator.Like, StrVal(s), StrVal(t), show) <==> LikeMatch.Matches(s, t)
    ensures Compare(EqLike, StrVal(s), StrVal(t), show) <==> LikeMatch.Matches(s, t)
    ensures Compare(NotLike, StrVal(s), StrVal(t), show) <==> !LikeMatch.Matches(s, t)
    ensures '%' !in t && '_' !in t ==>
              && (Compare(ILike, StrVal(s), StrVal(t), show) <==> LikeMatch.SameLetters(s, t))
              && (Compare(EqILike, StrVal(s), StrVal(t), show) <==> LikeMatch.SameLetters(s, t))
              && (Compare(NotILike, StrVal(s), StrVal(t), show) <==> !LikeMatch.SameLetters(s, t))
  {
    hide LikeMatch.Matches, LikeMatch.SameLetters, LikeMatch.Step;
    LikeFamily(s, t, StrVal(s), show);
  }

  /** The words False and None stand for whatever counts as false. */
  lemma {:induction false} FalseTexts(field: string, env: Env)
    requires IsName(field) && field in env.record
    ensures Passes(OneCondition(field, "=", "False"), env) <==> env.record[field] in {Nil, BoolVal(false), IntVal(0), FloatVal(0.0)}
    ensures Passes(OneCondition(field, "=", "None"), env) <==> env.record[field] in {Nil, BoolVal(false), IntVal(0), FloatVal(0.0)}
    ensures env.record[field].BoolVal? ==> (Passes(OneCondition(field, "=", "True"), env) <==> env.record[field].b)
  {
    var v := env.record[field];
    MixedEqual(v, 0, 0.0, "", env.show);
    BoolsEqual(v, env.show);
    hide Passes, OneCondition, IsName, Compare;
    ConditionOnText(Condition(field, Equal, BoolLit(false)), env);
    ConditionOnText(Condition(field, Equal, NoneLit), env);
    ConditionOnText(Condition(field, Equal, BoolLit(true)), env);
  }

  lemma {:induction false} BoolsEqual(v: Value, show: Value -> string)
    ensures v.BoolVal? ==> (Compare(Equal, v, BoolVal(true), show) <==> v.b)
  {
  }

  lemma {:induction false} RefOnText(field: string, op: Operator, name: string, env: Env)
    requires IsName(field) && IsReference(name) && field in env.record
    ensures Passes(OneCondition(field, OperatorText(op), name), env) <==>
            ResolveRef(name, env.ctx).Some? && Compare(op, env.record[field], ResolveRef(name, env.ctx).value, env.show)
  {
    hide Passes, OneCondition, OperatorText, IsName, Compare, IsReference, ResolveRef;
    ConditionOnText(Condition(field, op, RefLit(name)), env);
  }

  lemma {:induction false} KnownReferences(ctx: EvalContext)
    ensures forall name :: name in {"user.id", "user.company_id", "user.company_id.id", "company_ids", "user.company_ids"} ==> IsReference(name)
    ensures ResolveRef("user.id", ctx) == Some(IntVal(ctx.userId))
    ensures ResolveRef("user.company_id", ctx) == ResolveRef("user.company_id.id", ctx) == Some(IntVal(ctx.companyId))
    ensures ResolveRef("company_ids", ctx) == ResolveRef("user.company_ids", ctx) == Some(ListVal(IntVals(ctx.companyIds)))
  {
  }

  /** References stand for the user's id, company and companies; any other reference fails the condition. */
  lemma {:induction false} ReferenceTexts(field: string, x: int, env: Env, other: string)
    requires IsName(field) && field in env.record && env.record[field] == IntVal(x)
    ensures Passes(OneCondition(field, "=", "user.id"), env) <==> x == env.ctx.userId
    ensures Passes(OneCondition(field, "=", "user.company_id"), env) <==> x == env.ctx.companyId
    ensures Passes(OneCondition(field, "=", "user.company_id.id"), env) <==> x == env.ctx.companyId
    ensures Passes(OneCondition(field, "in", "company_ids"), env) <==> x in env.ctx.companyIds
    ensures Passes(OneCondition(field, "in", "user.company_ids"), env) <==> x in env.ctx.companyIds
    ensures IsReference(other) && other !in {"user.id", "user.company_id", "user.company_id.id", "company_ids", "user.company_ids"} ==>
              !Passes(OneCondition(field, "!=", other), env)
  {
    KnownReferences(env.ctx);
    IntegersCompare(x, env.ctx.userId, env.show);
    IntegersCompare(x, env.ctx.companyId, env.show);
    IntegersIn(x, env.ctx.companyIds, env.show);
    UnknownReference(other, env.ctx);
    hide Passes, OneCondition, IsName, Compare, IsReference, ResolveRef;
    RefOnText(field, Equal, "user.id", env);
    RefOnText(field, Equal, "user.company_id", env);
    RefOnText(field, Equal, "user.company_id.id", env);
    RefOnText(field, In, "company_ids", env);
    RefOnText(field, In, "user.company_ids", env);
    if IsReference(other) { RefOnText(field, NotEqual, other, env); }
  }

  lemma {:induction false} UnknownReference(other: string, ctx: EvalContext)
    ensures other !in {"user.id", "user.company_id", "user.company_id.id", "company_ids", "user.company_ids"} ==> ResolveRef(other, ctx).None?
  {
  }

  ghost function IntLits(ns: seq<int>): seq<Literal> { seq(|ns|, i requires 0 <= i < |ns| => IntLit(ns[i])) }

  ghost function IntTexts(ns: seq<int>): seq<string> { seq(|ns|, i requires 0 <= i < |ns| => IntText(ns[i])) }

  lemma {:induction false} IntListString(ns: seq<int>)
    requires forall i :: 0 <= i < |ns| ==> MIN_INT64 <= ns[i] <= MAX_INT64
    ensures Expressible(ListLit(IntLits(ns))) && Plain(ListLit(IntLits(ns)))
    ensures LitString(ListLit(IntLits(ns))) == "[" + Joined(IntTexts(ns), 0, ',', ']')
  {
    assert ItemStrings(IntLits(ns)) == IntTexts(ns);
  }

  lemma {:induction false} IntListResolves(ns: seq<int>, ctx: EvalContext)
    ensures Resolve(ListLit(IntLits(ns)), ctx) == Some(ListVal(IntVals(ns)))
  {
    var items := IntLits(ns);
    forall i | 0 <= i < |items| ensures Resolve(items[i], ctx) == Some(IntVal(ns[i])) {}
    assert ResolveItems(items, ctx).value.items == IntVals(ns);
  }

  /** [('f','in',[n1,n2,...])] passes exactly when x is one of them. */
  lemma {:induction false} MembershipTexts(field: string, ns: seq<int>, x: int, env: Env)
    requires IsName(field) && field in env.record && env.record[field] == IntVal(x)
    requires forall i :: 0 <= i < |ns| ==> MIN_INT64 <= ns[i] <= MAX_INT64
    ensures var list := "[" + Joined(IntTexts(ns), 0, ',', ']');
            && (Passes(OneCondition(field, "in", list), env) <==> x in ns)
            && (Passes(OneCondition(field, "not in", list), env) <==> x !in ns)
  {
    hide Passes, OneCondition, IsName, Compare, Joined, IntTexts, Expressible, Plain, LitString, Resolve;
    IntListString(ns);
    IntListResolves(ns, env.ctx);
    IntegersIn(x, ns, env.show);
    ConditionOnText(Condition(field, In, ListLit(IntLits(ns))), env);
    ConditionOnText(Condition(field, NotIn, ListLit(IntLits(ns))), env);
  }

  lemma {:induction false} IntTupleString(ns: seq<int>)
    requires forall i :: 0 <= i < |ns| ==> MIN_INT64 <= ns[i] <= MAX_INT64
    ensures Expressible(TupleLit(IntLits(ns))) && Plain(TupleLit(IntLits(ns)))
    ensures LitString(TupleLit(IntLits(ns))) == "(" + Joined(IntTexts(ns), 0, ',', ')')
  {
    assert ItemStrings(IntLits(ns)) == IntTexts(ns);
  }

  lemma {:induction false} IntTupleResolves(ns: seq<int>, ctx: EvalContext)
    ensures Resolve(TupleLit(IntLits(ns)), ctx) == Resolve(ListLit(IntLits(ns)), ctx)
  {
  }

  /** A tuple counts as a list, and a single number as the list of that number. */
  lemma {:induction false} OtherMembershipTexts(field: string, ns: seq<int>, n: int, x: int, env: Env)
    requires IsName(field) && field in env.record && env.record[field] == IntVal(x)
    requires MIN_INT64 <= n <= MAX_INT64 && forall i :: 0 <= i < |ns| ==> MIN_INT64 <= ns[i] <= MAX_INT64
    ensures Passes(OneCondition(field, "in", "(" + Joined(IntTexts(ns), 0, ',', ')')), env) <==> x in ns
    ensures Passes(OneCondition(field, "in", IntText(n)), env) <==> x == n
    ensures Passes(OneCondition(field, "not in", IntText(n)), env) <==> x != n
  {
    SingleIn(x, n, env.show);
    hide Passes, OneCondition, IsName, Compare, Joined, IntTexts, Expressible, Plain, LitString, Resolve;
    IntTupleString(ns);
    IntListResolves(ns, env.ctx);
    IntTupleResolves(ns, env.ctx);
    IntegersIn(x, ns, env.show);
    ConditionOnText(Condition(field, In, TupleLit(IntLits(ns))), env);
    IntOnText(field, In, n, x, env);
    IntOnText(field, NotIn, n, x, env);
  }

  lemma {:induction false} SingleIn(x: int, n: int, show: Value -> string)
    ensures Compare(In, IntVal(x), IntVal(n), show) <==> x == n
    ensures Compare(NotIn, IntVal(x), IntVal(n), show) <==> x != n
  {
    IntegersCompare(x, n, show);
  }

  lemma {:induction false} FloatOnText(field: string, op: Operator, r: real, env: Env)
    requires IsName(field) && IsDecimal(r) && field in env.record
    ensures Passes(OneCondition(field, OperatorText(op), FloatText(r)), env) <==> Compare(op, env.record[field], FloatVal(r), env.show)
  {
    hide Passes, OneCondition, OperatorText, IsName, Compare, FloatText, IsDecimal;
    ConditionOnText(Condition(field, op, FloatLit(r)), env);
  }

  /** Decimal numbers compare by value, whatever the record holds. */
  lemma {:induction false} DecimalTexts(field: string, r: real, env: Env)
    requires IsName(field) && field in env.record && IsDecimal(r)
    ensures Passes(OneCondition(field, "<", FloatText(r)), env) <==> ClearlyBelow(env.record[field], FloatVal(r))
    ensures Passes(OneCondition(field, ">", FloatText(r)), env) <==> ClearlyBelow(FloatVal(r), env.record[field])
  {
    hide Passes, OneCondition, IsName, Compare, FloatText, IsDecimal, ClearlyBelow;
    OrderExactly(env.record[field], FloatVal(r), env.show);
    FloatOnText(field, Less, r, env);
    FloatOnText(field, Greater, r, env);
  }

  /** The hierarchy operators pass on every record that has the field. */
  lemma {:induction false} HierarchyTexts(field: string, n: int, x: int, env: Env)
    requires IsName(field) && MIN_INT64 <= n <= MAX_INT64 && field in env.record && env.record[field] == IntVal(x)
    ensures Passes(OneCondition(field, "child_of", IntText(n)), env) && Passes(OneCondition(field, "parent_of", IntText(n)), env)
  {
    hide Passes, OneCondition, IsName;
    IntOnText(field, ChildOf, n, x, env);
    IntOnText(field, ParentOf, n, x, env);
  }

  /** A condition on a field the record does not have fails, whatever the operator. */
  lemma {:induction false} MissingFieldText(c: Condition, env: Env)
    requires Expressible(c.value) && Plain(c.value) && IsName(c.field) && c.field !in env.record
    ensures !Passes(OneCondition(c.field, OperatorText(c.op), LitString(c.value)), env)
  {
    hide Passes, OneCondition, OperatorText, LitString, Expressible, Plain, IsName, Compare;
    ConditionOnText(c, env);
  }

  // ----- Texts of several conditions -----

  /** A tree whose prefix list can be written and read back. */
  ghost predicate Writable(n: Node) { WellFormed(n) && ExpressibleDomain(Flat(n)) && PlainDomain(Flat(n)) }

  lemma {:induction false} WrittenTreePasses(elems: seq<Element>, n: Node, env: Env)
    requires ExpressibleDomain(elems) && PlainDomain(elems) && Tree(elems) == Some(n)
    ensures Passes(ListString(elems), env) <==> Pass(n, env)
  {
    hide Parse, ListString, ExpressibleDomain, PlainDomain, Tree;
    ListStringRead(elems);
  }

  lemma {:induction false} FlatTree(n: Node)
    requires WellFormed(n)
    ensures Tree(Flat(n)) == Some(n)
  {
    OneFlat(n);
    BuildComplete([n]);
  }

  lemma {:induction false} ElementsAppend(a: seq<Element>, b: seq<Element>)
    requires ExpressibleDomain(a) && PlainDomain(a) && ExpressibleDomain(b) && PlainDomain(b)
    ensures ExpressibleDomain(a + b) && PlainDomain(a + b)
  {
  }

  lemma {:induction false} BinaryText(op: LogicOp, a: Node, b: Node, env: Env)
    requires op != Not && Writable(a) && Writable(b)
    ensures var elems := [OpElem(op)] + (Flat(a) + Flat(b));
            && ExpressibleDomain(elems)
            && (Passes(ListString(elems), env) <==> Pass(BoolOp(op, [a, b]), env))
  {
    hide Pass, Passes, Tree, Flat;
    var n := BoolOp(op, [a, b]);
    ElementsAppend(Flat(a), Flat(b));
    ElementsAppend([OpElem(op)], Flat(a) + Flat(b));
    FlatBinary(op, a, b);
    FlatTree(n);
    WrittenTreePasses(Flat(n), n, env);
  }

  lemma {:induction false} FlatBinary(op: LogicOp, a: Node, b: Node)
    requires op != Not && WellFormed(a) && WellFormed(b)
    ensures WellFormed(BoolOp(op, [a, b])) && Flat(BoolOp(op, [a, b])) == [OpElem(op)] + (Flat(a) + Flat(b))
  {
  }

  /** '&' is conjunction, '|' disjunction, '!' negation, and two expressions side by side are a conjunction. */
  lemma {:induction false} LogicTexts(a: Node, b: Node, env: Env)
    requires Writable(a) && Writable(b)
    ensures ExpressibleDomain([OpElem(And)] + (Flat(a) + Flat(b))) && ExpressibleDomain([OpElem(Or)] + (Flat(a) + Flat(b)))
    ensures ExpressibleDomain([OpElem(Not)] + Flat(a)) && ExpressibleDomain(Flat(a) + Flat(b))
    ensures Passes(ListString([OpElem(And)] + (Flat(a) + Flat(b))), env) <==> Pass(a, env) && Pass(b, env)
    ensures Passes(ListString([OpElem(Or)] + (Flat(a) + Flat(b))), env) <==> Pass(a, env) || Pass(b, env)
    ensures Passes(ListString([OpElem(Not)] + Flat(a)), env) <==> !Pass(a, env)
    ensures Passes(ListString(Flat(a) + Flat(b)), env) <==> Pass(a, env) && Pass(b, env)
  {
    hide Passes, Tree, Flat, ListString, ExpressibleDomain, PlainDomain;
    BinaryText(And, a, b, env);
    BinaryText(Or, a, b, env);
    NegatedText(a, env);
    SideBySide(a, b, env);
    TwoChildren(a, b, env);
  }

  lemma {:induction false} TwoChildren(a: Node, b: Node, env: Env)
    ensures Pass(BoolOp(And, [a, b]), env) <==> Pass(a, env) && Pass(b, env)
    ensures Pass(BoolOp(Or, [a, b]), env) <==> Pass(a, env) || Pass(b, env)
  {
    var cs := [a, b];
    assert cs[0] == a && cs[1] == b;
  }

  lemma {:induction false} NegatedText(a: Node, env: Env)
    requires Writable(a)
    ensures ExpressibleDomain([OpElem(Not)] + Flat(a))
    ensures Passes(ListString([OpElem(Not)] + Flat(a)), env) <==> !Pass(a, env)
  {
    hide Passes, Tree;
    var n := BoolOp(Not, [a]);
    ElementsAppend([OpElem(Not)], Flat(a));
    FlatTree(n);
    WrittenTreePasses(Flat(n), n, env);
  }

  lemma {:induction false} SideBySide(a: Node, b: Node, env: Env)
    requires Writable(a) && Writable(b)
    ensures ExpressibleDomain(Flat(a) + Flat(b))
    ensures Passes(ListString(Flat(a) + Flat(b)), env) <==> Pass(a, env) && Pass(b, env)
  {
    hide Passes, Pass, Tree, Flat;
    ElementsAppend(Flat(a), Flat(b));
    TwoFlats(a, b);
    BuildComplete([a, b]);
    FlatNonEmpty(a);
    TreeOfSome(Flat(a) + Flat(b), Conj(a, b));
    WrittenTreePasses(Flat(a) + Flat(b), Conj(a, b), env);
    TwoChildren(a, b, env);
  }

  lemma {:induction false} OneFlat(a: Node)
    requires WellFormed(a)
    ensures Flats([a]) == Flat(a)
  {
    hide Flat;
    assert [a][..0] == [] && Flats([]) + Flat(a) == Flat(a);
  }

  lemma {:induction false} TwoFlats(a: Node, b: Node)
    requires WellFormed(a) && WellFormed(b)
    ensures AllWellFormed([a, b]) && Flats([a, b]) == Flat(a) + Flat(b) && LeftConj([a, b]) == Conj(a, b)
  {
    hide Flat;
    var two := [a, b];
    assert two[..|two| - 1] == [a];
    OneFlat(a);
    assert Flats(two) == Flats([a]) + Flat(b);
    assert LeftConj([a]) == a;
  }

  lemma {:induction false} TreeOfSome(elems: seq<Element>, n: Node)
    requires |elems| > 0 && BuildTree(elems) == Some(n)
    ensures Tree(elems) == Some(n)
  {
  }

  lemma {:induction false} FlatNonEmpty(n: Node)
    requires WellFormed(n)
    ensures |Flat(n)| > 0
  {
  }

  /** The empty list passes on every record. */
  lemma {:induction false} EmptyText(env: Env)
    ensures Passes("[]", env)
  {
    hide Parse;
    assert ElementStrings([]) == [] && ListString([]) == "[]";
    WrittenTreePasses([], MatchAll, env);
  }
}

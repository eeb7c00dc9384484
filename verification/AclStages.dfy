/** Stages 3 to 5: model access, record rules, domain evaluation. */
module AclStages {
  import opened Numbers
  import opened AclTypes
  import DomainParser
  import opened DomainEval

  // ----- Stage 3: model access -----

  predicate RuleApplies(groupId: string, effective: set<int>) {
    if groupId == "0" || groupId == "" then true
    else
      match ParseInt(groupId)
      case None => false
      case Some(gid) => gid in effective
  }

  function AccessMatch(rule: AccessRule, effective: set<int>, op: Operation): AclRuleMatch {
    var applies := RuleApplies(rule.groupId, effective);
    AclRuleMatch(rule.groupId, applies && PermFor(rule.perms, op), applies, rule.perms)
  }

  /** Some access entry applies to the user and grants the operation. */
  predicate Grants(accesses: seq<AccessRule>, effective: set<int>, op: Operation) {
    exists i :: 0 <= i < |accesses| && AccessMatch(accesses[i], effective, op).grants
  }

  function AclResult(v: Verdict, d: Detail): StageResult { StageResult(ModelAclStage, v, Unspecified, d) }

  /** Stage 3 of an ordinary user on a known model. */
  function AclStageOf(accesses: seq<AccessRule>, effective: set<int>, op: Operation): StageResult {
    var granted := Grants(accesses, effective, op);
    AclResult(if granted then OK else DENIED,
              ModelAclDetail(seq(|accesses|, i requires 0 <= i < |accesses| => AccessMatch(accesses[i], effective, op)), granted))
  }

  method CheckModelAcl(schema: Schema, user: User, effective: set<int>, model: string, op: Operation) returns (r: StageResult)
    ensures IsSuperUser(user) ==> r == AclResult(OK, ModelAclDetail([], true))
    ensures !IsSuperUser(user) && model !in schema ==> r == AclResult(ERROR, NoDetail)
    ensures !IsSuperUser(user) && model in schema ==>
              var accesses := schema[model].accesses;
              && r.stage == ModelAclStage && r.verdict == (if Grants(accesses, effective, op) then OK else DENIED)
              && r.detail.ModelAclDetail? && r.detail.granted == Grants(accesses, effective, op)
              && |r.detail.rules| == |accesses|
              && forall i :: 0 <= i < |accesses| ==> r.detail.rules[i] == AccessMatch(accesses[i], effective, op)
    ensures !IsSuperUser(user) && model in schema ==> r == AclStageOf(schema[model].accesses, effective, op)
  {
    if IsSuperUser(user) {
      return AclResult(OK, ModelAclDetail([], true));
    }
    if model !in schema {
      return AclResult(ERROR, NoDetail);
    }
    var accesses := schema[model].accesses;
    if |accesses| == 0 {
      assert !Grants(accesses, effective, op);
      return AclResult(DENIED, ModelAclDetail([], false));
    }
    var matches: seq<AclRuleMatch> := [];
    var granted := false;
    for i := 0 to |accesses|
      invariant |matches| == i
      invariant forall j :: 0 <= j < i ==> matches[j] == AccessMatch(accesses[j], effective, op)
      invariant granted <==> exists j :: 0 <= j < i && AccessMatch(accesses[j], effective, op).grants
    {
      var m := AccessMatch(accesses[i], effective, op);
      matches := matches + [m];
      if m.grants {
        granted := true;
      }
    }
    assert matches == AclStageOf(accesses, effective, op).detail.rules;
    r := AclResult(if granted then OK else DENIED, ModelAclDetail(matches, granted));
  }

  // ----- Stage 4: record rules -----

  /** Without any permission flag a rule covers every operation. */
  predicate Covers(rule: RecordRule, op: Operation) {
    rule.perms == Perms(false, false, false, false) || PermFor(rule.perms, op)
  }

  predicate IsGlobal(rule: RecordRule) { rule.groupIds == [] }

  predicate Overlaps(ids: seq<int>, effective: set<int>) {
    exists i :: 0 <= i < |ids| && ids[i] in effective
  }

  function RuleMatch(rule: RecordRule, effective: set<int>): RecordRuleMatch {
    RecordRuleMatch(rule.name, rule.domain, IsGlobal(rule), IsGlobal(rule) || Overlaps(rule.groupIds, effective), rule.groupIds)
  }

  /** The covering rules among the first `k`, global or not, as matches in order. */
  function Matches(rules: seq<RecordRule>, k: nat, op: Operation, effective: set<int>, global: bool): seq<RecordRuleMatch>
    requires k <= |rules|
  {
    if k == 0 then []
    else
      Matches(rules, k - 1, op, effective, global) +
      if Covers(rules[k - 1], op) && IsGlobal(rules[k - 1]) == global then [RuleMatch(rules[k - 1], effective)] else []
  }

  function CountApplied(ms: seq<RecordRuleMatch>, k: nat): nat
    requires k <= |ms|
  {
    if k == 0 then 0 else CountApplied(ms, k - 1) + if ms[k - 1].applies then 1 else 0
  }

  lemma {:induction false} CountAppliedSnoc(ms: seq<RecordRuleMatch>, m: RecordRuleMatch, k: nat)
    requires k <= |ms|
    ensures CountApplied(ms + [m], k) == CountApplied(ms, k)
  {
    if k > 0 { CountAppliedSnoc(ms, m, k - 1); }
  }

  predicate AnyApplies(ms: seq<RecordRuleMatch>) { exists i :: 0 <= i < |ms| && ms[i].applies }

  method UserInRuleGroups(ids: seq<int>, effective: set<int>) returns (r: bool)
    ensures r == Overlaps(ids, effective)
  {
    for i := 0 to |ids|
      invariant forall j :: 0 <= j < i ==> ids[j] !in effective
    {
      if ids[i] in effective {
        return true;
      }
    }
    return false;
  }

  function RuleResult(v: Verdict, d: Detail): StageResult { StageResult(RecordRuleStage, v, Unspecified, d) }

  /** The verdict of stage 4 from the two lists of covering rules. */
  function FindVerdict(globals: seq<RecordRuleMatch>, groups: seq<RecordRuleMatch>): Verdict {
    if globals == [] && groups == [] then SKIPPED
    else if groups != [] && !AnyApplies(groups) then DENIED
    else OK
  }

  method MatchRule(rule: RecordRule, effective: set<int>) returns (m: RecordRuleMatch)
    ensures m == RuleMatch(rule, effective) && m.global == IsGlobal(rule)
  {
    var isGlobal := |rule.groupIds| == 0;
    var applies := isGlobal;
    if !isGlobal {
      applies := UserInRuleGroups(rule.groupIds, effective);
    }
    m := RecordRuleMatch(rule.name, rule.domain, isGlobal, applies, rule.groupIds);
  }

  /** The categorizing loop: covering global and group rules in order, and how many apply. */
  method PartitionRules(rules: seq<RecordRule>, op: Operation, effective: set<int>)
    returns (globals: seq<RecordRuleMatch>, groups: seq<RecordRuleMatch>, applied: nat)
    ensures globals == Matches(rules, |rules|, op, effective, true)
    ensures groups == Matches(rules, |rules|, op, effective, false)
    ensures applied == CountApplied(globals, |globals|) + CountApplied(groups, |groups|)
  {
    hide Covers, Overlaps, RuleMatch;
    globals, groups, applied := [], [], 0;
    for i := 0 to |rules|
      invariant globals == Matches(rules, i, op, effective, true)
      invariant groups == Matches(rules, i, op, effective, false)
      invariant applied == CountApplied(globals, |globals|) + CountApplied(groups, |groups|)
    {
      if Covers(rules[i], op) {
        var m := MatchRule(rules[i], effective);
        if m.global {
          CountAppliedSnoc(globals, m, |globals|);
          globals := globals + [m];
        } else {
          CountAppliedSnoc(groups, m, |groups|);
          groups := groups + [m];
        }
        if m.applies {
          applied := applied + 1;
        }
      }
    }
  }

  method AnyRuleApplies(ms: seq<RecordRuleMatch>) returns (r: bool)
    ensures r == AnyApplies(ms)
  {
    for i := 0 to |ms|
      invariant forall j :: 0 <= j < i ==> !ms[j].applies
    {
      if ms[i].applies {
        return true;
      }
    }
    return false;
  }

  method FindRecordRules(schema: Schema, user: User, effective: set<int>, model: string, op: Operation) returns (r: StageResult)
    ensures IsSuperUser(user) ==> r == RuleResult(OK, RecordRuleDetail([], [], 0, 0))
    ensures !IsSuperUser(user) && model !in schema ==> r == RuleResult(ERROR, NoDetail)
    ensures !IsSuperUser(user) && model in schema ==>
              var rules := schema[model].rules;
              var globals := Matches(rules, |rules|, op, effective, true);
              var groups := Matches(rules, |rules|, op, effective, false);
              r == RuleResult(FindVerdict(globals, groups),
                              RecordRuleDetail(globals, groups, |globals| + |groups|,
                                               CountApplied(globals, |globals|) + CountApplied(groups, |groups|)))
  {
    if IsSuperUser(user) {
      return RuleResult(OK, RecordRuleDetail([], [], 0, 0));
    }
    if model !in schema {
      return RuleResult(ERROR, NoDetail);
    }
    var globals, groups, applied := PartitionRules(schema[model].rules, op, effective);
    var total := |globals| + |groups|;
    var anyApplies := AnyRuleApplies(groups);
    var verdict := if total == 0 then SKIPPED else if |groups| > 0 && !anyApplies then DENIED else OK;
    r := RuleResult(verdict, RecordRuleDetail(globals, groups, total, applied));
  }

  // ----- Stage 5: domains -----

  /** What evaluating one domain text gives. */
  datatype Outcome = Outcome(pass: bool, parseError: bool, conditions: seq<ConditionResult>)

  /** Evaluation of domain texts in an environment: a text that does not parse fails. */
  function DomainOutcome(domain: string, env: Env): Outcome {
    match DomainParser.Parse(domain)
    case None => Outcome(false, true, [])
    case Some(ast) => Outcome(Pass(ast, env), false, Trace(ast, env))
  }

  function Evaluator(env: Env): string -> Outcome { (domain: string) => DomainOutcome(domain, env) }

  function RuleEvaluation(name: string, domain: string, global: bool, o: Outcome): RuleDomainResult {
    RuleDomainResult(name, domain, global, o.pass, o.parseError, o.conditions)
  }

  method EvalRule(name: string, domain: string, global: bool, env: Env) returns (r: RuleDomainResult)
    ensures r == RuleEvaluation(name, domain, global, Evaluator(env)(domain))
  {
    var ast := DomainParser.ParseText(domain);
    if ast.None? {
      return RuleDomainResult(name, domain, global, false, true, []);
    }
    if ast.value.MatchAll? {
      return RuleDomainResult(name, domain, global, true, false, []);
    }
    var pass, conds := EvalNode(ast.value, env);
    r := RuleDomainResult(name, domain, global, pass, false, conds);
  }

  function Inapplicable(m: RecordRuleMatch): RuleDomainResult {
    RuleDomainResult(m.name, m.domain, false, false, false, [ErrorOnly(NotApplicable)])
  }

  /** Results of the first `k` global rules: inapplicable ones leave no entry. */
  function GlobalResults(ms: seq<RecordRuleMatch>, k: nat, eval: string -> Outcome): seq<RuleDomainResult>
    requires k <= |ms|
  {
    if k == 0 then []
    else
      GlobalResults(ms, k - 1, eval) +
      if ms[k - 1].applies then [RuleEvaluation(ms[k - 1].name, ms[k - 1].domain, true, eval(ms[k - 1].domain))] else []
  }

  function GroupEntry(m: RecordRuleMatch, eval: string -> Outcome): RuleDomainResult {
    if m.applies then RuleEvaluation(m.name, m.domain, false, eval(m.domain)) else Inapplicable(m)
  }

  function GroupResults(ms: seq<RecordRuleMatch>, k: nat, eval: string -> Outcome): seq<RuleDomainResult>
    requires k <= |ms|
  {
    if k == 0 then [] else GroupResults(ms, k - 1, eval) + [GroupEntry(ms[k - 1], eval)]
  }

  /** The result slice that both rule passes append to. */
  class ResultSlice {
    var items: seq<RuleDomainResult>

    constructor ()
      ensures items == []
    {
      items := [];
    }

    method Append(r: RuleDomainResult)
      modifies this
      ensures items == old(items) + [r]
    {
      items := items + [r];
    }
  }

  lemma {:induction false} Regroup(a: seq<RuleDomainResult>, b: seq<RuleDomainResult>, r: RuleDomainResult)
    ensures (a + b) + [r] == a + (b + [r])
  {
  }

  method EvaluateGlobalRules(ms: seq<RecordRuleMatch>, env: Env, results: ResultSlice) returns (pass: bool)
    modifies results
    ensures results.items == old(results.items) + GlobalResults(ms, |ms|, Evaluator(env))
    ensures pass <==> forall i :: 0 <= i < |ms| && ms[i].applies ==> Evaluator(env)(ms[i].domain).pass
  {
    hide Evaluator;
    ghost var eval := Evaluator(env);
    pass := true;
    for i := 0 to |ms|
      invariant results.items == old(results.items) + GlobalResults(ms, i, eval)
      invariant pass <==> forall j :: 0 <= j < i && ms[j].applies ==> eval(ms[j].domain).pass
    {
      if !ms[i].applies {
        continue;
      }
      var rr := EvalRule(ms[i].name, ms[i].domain, true, env);
      Regroup(old(results.items), GlobalResults(ms, i, eval), rr);
      results.Append(rr);
      if !rr.pass {
        pass := false;
      }
    }
  }

  /** The entry of one group rule; an inapplicable rule is not evaluated. */
  method EvaluateGroupRule(m: RecordRuleMatch, env: Env) returns (r: RuleDomainResult)
    ensures r == GroupEntry(m, Evaluator(env))
  {
    if !m.applies {
      return Inapplicable(m);
    }
    r := EvalRule(m.name, m.domain, false, env);
  }

  /** Appends one entry per group rule and says whether any rule applies. */
  method AppendGroupResults(ms: seq<RecordRuleMatch>, env: Env, results: ResultSlice) returns (hasApplicable: bool)
    modifies results
    ensures results.items == old(results.items) + GroupResults(ms, |ms|, Evaluator(env))
    ensures hasApplicable == AnyApplies(ms)
  {
    hide Evaluator, GroupEntry;
    ghost var eval := Evaluator(env);
    hasApplicable := false;
    for i := 0 to |ms|
      invariant results.items == old(results.items) + GroupResults(ms, i, eval)
      invariant hasApplicable <==> exists j :: 0 <= j < i && ms[j].applies
    {
      if ms[i].applies {
        hasApplicable := true;
      }
      var rr := EvaluateGroupRule(ms[i], env);
      Regroup(old(results.items), GroupResults(ms, i, eval), rr);
      results.Append(rr);
    }
  }

  predicate SomeGroupEntryPasses(items: seq<RuleDomainResult>) {
    exists i :: 0 <= i < |items| && !items[i].global && items[i].pass
  }

  /** The group pass scans the whole slice, including what the global pass left there. */
  method EvaluateGroupRules(ms: seq<RecordRuleMatch>, env: Env, results: ResultSlice) returns (pass: bool)
    modifies results
    ensures results.items == old(results.items) + GroupResults(ms, |ms|, Evaluator(env))
    ensures pass <==> !AnyApplies(ms) || SomeGroupEntryPasses(results.items)
  {
    hide Evaluator, GroupResults;
    var hasApplicable := AppendGroupResults(ms, env, results);
    if !hasApplicable {
      return true;
    }
    for i := 0 to |results.items|
      invariant forall j :: 0 <= j < i ==> results.items[j].global || !results.items[j].pass
    {
      if !results.items[i].global && results.items[i].pass {
        return true;
      }
    }
    return false;
  }

  function DomainResult(v: Verdict, d: Detail): StageResult { StageResult(DomainStage, v, Unspecified, d) }

  lemma {:induction false} GlobalResultsAreGlobal(ms: seq<RecordRuleMatch>, k: nat, eval: string -> Outcome)
    requires k <= |ms|
    ensures forall i :: 0 <= i < |GlobalResults(ms, k, eval)| ==> GlobalResults(ms, k, eval)[i].global
  {
    if k > 0 { GlobalResultsAreGlobal(ms, k - 1, eval); }
  }

  lemma {:induction false} GroupResultsEntries(ms: seq<RecordRuleMatch>, k: nat, eval: string -> Outcome)
    requires k <= |ms|
    ensures |GroupResults(ms, k, eval)| == k
    ensures forall i :: 0 <= i < k ==> GroupResults(ms, k, eval)[i] == GroupEntry(ms[i], eval)
  {
    if k > 0 { GroupResultsEntries(ms, k - 1, eval); }
  }

  /** Some applicable rule passes. */
  predicate AnyPasses(ms: seq<RecordRuleMatch>, eval: string -> Outcome) {
    exists i :: 0 <= i < |ms| && ms[i].applies && eval(ms[i].domain).pass
  }

  predicate AllPass(ms: seq<RecordRuleMatch>, eval: string -> Outcome) {
    forall i :: 0 <= i < |ms| && ms[i].applies ==> eval(ms[i].domain).pass
  }

  lemma {:induction false} ScanSkipsGlobals(gs: seq<RuleDomainResult>, rs: seq<RuleDomainResult>)
    requires forall i :: 0 <= i < |gs| ==> gs[i].global
    ensures SomeGroupEntryPasses(gs + rs) <==> SomeGroupEntryPasses(rs)
  {
    var items := gs + rs;
    assert forall i :: 0 <= i < |gs| ==> items[i] == gs[i];
    if i :| 0 <= i < |rs| && !rs[i].global && rs[i].pass {
      assert items[|gs| + i] == rs[i];
    }
    if i :| 0 <= i < |items| && !items[i].global && items[i].pass {
      assert items[i] == rs[i - |gs|];
    }
  }

  lemma {:induction false} ScanFindsPassing(ms: seq<RecordRuleMatch>, rs: seq<RuleDomainResult>, eval: string -> Outcome)
    requires |rs| == |ms| && forall i :: 0 <= i < |ms| ==> rs[i] == GroupEntry(ms[i], eval)
    ensures SomeGroupEntryPasses(rs) <==> AnyPasses(ms, eval)
  {
  }

  /** Scanning the shared slice for a passing group entry finds exactly the passing group rules. */
  lemma {:induction false} SharedSliceScan(globals: seq<RecordRuleMatch>, groups: seq<RecordRuleMatch>, eval: string -> Outcome)
    ensures SomeGroupEntryPasses(GlobalResults(globals, |globals|, eval) + GroupResults(groups, |groups|, eval))
            <==> AnyPasses(groups, eval)
  {
    GlobalResultsAreGlobal(globals, |globals|, eval);
    GroupResultsEntries(groups, |groups|, eval);
    ScanSkipsGlobals(GlobalResults(globals, |globals|, eval), GroupResults(groups, |groups|, eval));
    ScanFindsPassing(groups, GroupResults(groups, |groups|, eval), eval);
  }

  /** Stage 5 as a value: all applicable global rules pass, and one group rule does if any applies. */
  function Evaluated(globals: seq<RecordRuleMatch>, groups: seq<RecordRuleMatch>, eval: string -> Outcome): StageResult {
    var globalPass, groupPass := AllPass(globals, eval), !AnyApplies(groups) || AnyPasses(groups, eval);
    DomainResult(if globalPass && groupPass then OK else DENIED,
                 DomainDetail(globalPass, groupPass,
                              GlobalResults(globals, |globals|, eval) + GroupResults(groups, |groups|, eval)))
  }

  method Evaluate(globals: seq<RecordRuleMatch>, groups: seq<RecordRuleMatch>, env: Env) returns (r: StageResult)
    ensures r == Evaluated(globals, groups, Evaluator(env))
  {
    hide Evaluator, GlobalResults, GroupResults;
    ghost var eval := Evaluator(env);
    var results := new ResultSlice();
    var globalPass := EvaluateGlobalRules(globals, env, results);
    assert results.items == GlobalResults(globals, |globals|, eval);
    var groupPass := EvaluateGroupRules(groups, env, results);
    SharedSliceScan(globals, groups, eval);
    r := DomainResult(if globalPass && groupPass then OK else DENIED, DomainDetail(globalPass, groupPass, results.items));
  }

  // ----- Stages 4 and 5 as one formula -----

  /** Every match comes from a covering rule of its category. */
  lemma {:induction false} MatchFrom(rules: seq<RecordRule>, k: nat, op: Operation, effective: set<int>, global: bool,
                                     m: RecordRuleMatch) returns (i: nat)
    requires k <= |rules| && m in Matches(rules, k, op, effective, global)
    ensures i < k && Covers(rules[i], op) && IsGlobal(rules[i]) == global && m == RuleMatch(rules[i], effective)
  {
    if m in Matches(rules, k - 1, op, effective, global) {
      i := MatchFrom(rules, k - 1, op, effective, global, m);
    } else {
      i := k - 1;
    }
  }

  /** Every covering rule of a category gives a match. */
  lemma {:induction false} MatchOf(rules: seq<RecordRule>, k: nat, op: Operation, effective: set<int>, i: nat) returns (j: nat)
    requires i < k <= |rules| && Covers(rules[i], op)
    ensures var ms := Matches(rules, k, op, effective, IsGlobal(rules[i]));
            j < |ms| && ms[j] == RuleMatch(rules[i], effective)
  {
    if i < k - 1 {
      j := MatchOf(rules, k - 1, op, effective, i);
    } else {
      j := |Matches(rules, k - 1, op, effective, IsGlobal(rules[i]))|;
    }
  }

  /** Every covering global rule passes. */
  predicate GlobalsPass(rules: seq<RecordRule>, op: Operation, eval: string -> Outcome) {
    forall i :: 0 <= i < |rules| && Covers(rules[i], op) && IsGlobal(rules[i]) ==> eval(rules[i].domain).pass
  }

  predicate NoGroupRule(rules: seq<RecordRule>, op: Operation) {
    forall i :: 0 <= i < |rules| && Covers(rules[i], op) ==> IsGlobal(rules[i])
  }

  predicate SomeGroupRuleMatches(rules: seq<RecordRule>, op: Operation, effective: set<int>) {
    exists i :: 0 <= i < |rules| && Covers(rules[i], op) && !IsGlobal(rules[i]) && Overlaps(rules[i].groupIds, effective)
  }

  predicate SomeGroupRulePasses(rules: seq<RecordRule>, op: Operation, effective: set<int>, eval: string -> Outcome) {
    exists i :: 0 <= i < |rules| && Covers(rules[i], op) && !IsGlobal(rules[i]) && Overlaps(rules[i].groupIds, effective)
                && eval(rules[i].domain).pass
  }

  /** The record-level decision as one formula over the rules of the model. */
  predicate RecordAllowed(rules: seq<RecordRule>, op: Operation, effective: set<int>, eval: string -> Outcome) {
    && GlobalsPass(rules, op, eval)
    && (NoGroupRule(rules, op) || SomeGroupRulePasses(rules, op, effective, eval))
  }

  lemma {:induction false} GlobalMatchFacts(rules: seq<RecordRule>, op: Operation, effective: set<int>, eval: string -> Outcome)
    ensures AllPass(Matches(rules, |rules|, op, effective, true), eval) <==> GlobalsPass(rules, op, eval)
  {
    var ms := Matches(rules, |rules|, op, effective, true);
    forall i | 0 <= i < |rules| && Covers(rules[i], op) && IsGlobal(rules[i]) && AllPass(ms, eval)
      ensures eval(rules[i].domain).pass
    {
      var j := MatchOf(rules, |rules|, op, effective, i);
    }
    forall j | 0 <= j < |ms| && GlobalsPass(rules, op, eval)
      ensures eval(ms[j].domain).pass
    {
      var i := MatchFrom(rules, |rules|, op, effective, true, ms[j]);
    }
  }

  lemma {:induction false} GroupMatchNone(rules: seq<RecordRule>, op: Operation, effective: set<int>)
    ensures Matches(rules, |rules|, op, effective, false) == [] <==> NoGroupRule(rules, op)
  {
    var ms := Matches(rules, |rules|, op, effective, false);
    if ms != [] {
      var i := MatchFrom(rules, |rules|, op, effective, false, ms[0]);
    }
    if !NoGroupRule(rules, op) {
      var i :| 0 <= i < |rules| && Covers(rules[i], op) && !IsGlobal(rules[i]);
      var j := MatchOf(rules, |rules|, op, effective, i);
    }
  }

  lemma {:induction false} GroupMatchApplies(rules: seq<RecordRule>, op: Operation, effective: set<int>)
    ensures AnyApplies(Matches(rules, |rules|, op, effective, false)) <==> SomeGroupRuleMatches(rules, op, effective)
  {
    var ms := Matches(rules, |rules|, op, effective, false);
    if AnyApplies(ms) {
      var j :| 0 <= j < |ms| && ms[j].applies;
      var i := MatchFrom(rules, |rules|, op, effective, false, ms[j]);
      assert Overlaps(rules[i].groupIds, effective);
    }
    if SomeGroupRuleMatches(rules, op, effective) {
      var i :| 0 <= i < |rules| && Covers(rules[i], op) && !IsGlobal(rules[i]) && Overlaps(rules[i].groupIds, effective);
      var j := MatchOf(rules, |rules|, op, effective, i);
      assert ms[j].applies;
    }
  }

  lemma {:induction false} GroupMatchPasses(rules: seq<RecordRule>, op: Operation, effective: set<int>, eval: string -> Outcome)
    ensures AnyPasses(Matches(rules, |rules|, op, effective, false), eval) <==> SomeGroupRulePasses(rules, op, effective, eval)
  {
    var ms := Matches(rules, |rules|, op, effective, false);
    if AnyPasses(ms, eval) {
      var j :| 0 <= j < |ms| && ms[j].applies && eval(ms[j].domain).pass;
      var i := MatchFrom(rules, |rules|, op, effective, false, ms[j]);
      assert Overlaps(rules[i].groupIds, effective) && eval(rules[i].domain).pass;
    }
    if SomeGroupRulePasses(rules, op, effective, eval) {
      var i :| 0 <= i < |rules| && Covers(rules[i], op) && !IsGlobal(rules[i]) && Overlaps(rules[i].groupIds, effective)
               && eval(rules[i].domain).pass;
      var j := MatchOf(rules, |rules|, op, effective, i);
      assert ms[j].applies && eval(ms[j].domain).pass;
    }
  }

  /** Finding and evaluating together decide the formula: not denied, and skipped or satisfied. */
  lemma {:induction false} StagesDecideFormula(rules: seq<RecordRule>, op: Operation, effective: set<int>, eval: string -> Outcome)
    ensures var globals := Matches(rules, |rules|, op, effective, true);
            var groups := Matches(rules, |rules|, op, effective, false);
            var find := FindVerdict(globals, groups);
            (find != DENIED && (find == SKIPPED || (AllPass(globals, eval) && (!AnyApplies(groups) || AnyPasses(groups, eval)))))
            <==> RecordAllowed(rules, op, effective, eval)
  {
    GlobalMatchFacts(rules, op, effective, eval);
    GroupMatchNone(rules, op, effective);
    GroupMatchApplies(rules, op, effective);
    GroupMatchPasses(rules, op, effective, eval);
    if SomeGroupRulePasses(rules, op, effective, eval) {
      assert SomeGroupRuleMatches(rules, op, effective);
    }
  }
}

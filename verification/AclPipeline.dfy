/**
 The five-stage pipeline end to end. `Allowed` is the access decision as one closed formula over
 schema, user, group graph and record; the pipeline's verdict is proved to be that formula, the
 formula is monotone in the user's groups, and every denial carries suggestions.
 */
module AclPipeline {
  import opened Options
  import opened Sets
  import opened Groups
  import opened AclTypes
  import opened GroupStage
  import opened AclStages
  import opened Suggestions
  import opened DomainEval
  import DomainAst
  import DomainLaws

  /** The user record of a request: absent, without a readable id, or known. */
  datatype UserData = NoUser | UnreadableId | Known(value: User)

  /** One access question. The default text form of values is given. */
  datatype Request = Request(
    schema: Schema, user: UserData, groupData: seq<RawGroup>, model: string, op: Operation,
    record: map<string, Value>, show: Value -> string)

  datatype Response = Response(allowed: bool, stages: seq<StageResult>, suggestions: seq<Suggestion>)

  const RES_USERS := "res.users"

  function EnvOf(req: Request, user: User): Env {
    Env(req.record, EvalContext(user.uid, user.companyId, user.companyIds), req.show)
  }

  // ----- The decision as a formula -----

  /** Stages 1 and 2 let the request through to the rule stages. */
  predicate Admitted(req: Request) {
    && RES_USERS in req.schema && req.user.Known? && req.user.value.active
  }

  /** The record rules allow it. */
  predicate RulesAllow(req: Request, user: User, effective: set<int>)
    requires req.model in req.schema
  {
    RulesDecide(req.schema[req.model].rules, req.op, effective, Evaluator(EnvOf(req, user)), req.record == map[])
  }

  predicate GroupsAllow(req: Request, user: User, effective: set<int>) {
    && req.model in req.schema
    && Grants(req.schema[req.model].accesses, effective, req.op)
    && RulesAllow(req, user, effective)
  }

  /** An ordinary user passes on the closure of their groups over a readable, non-empty group table. */
  ghost predicate OrdinaryAllowed(req: Request, user: User) {
    && RES_GROUPS in req.schema
    && TableOf(req.groupData, |req.groupData|).Some?
    && var table := TableOf(req.groupData, |req.groupData|).value;
       table != map[] && GroupsAllow(req, user, Closure(Elems(user.groupIds), table))
  }

  /** Superusers pass; everyone else passes on their groups. */
  ghost predicate Allowed(req: Request) {
    Admitted(req) && (IsSuperUser(req.user.value) || OrdinaryAllowed(req, req.user.value))
  }

  predicate GroupsUnreadable(req: Request) {
    RES_GROUPS in req.schema && TableOf(req.groupData, |req.groupData|).None?
  }

  predicate UserUnreadable(req: Request) { RES_USERS in req.schema && req.user.UnreadableId? }

  /** The run ends with an internal error: a user without readable id, or an ordinary one with an unreadable group record. */
  predicate InternalError(req: Request) {
    UserUnreadable(req) || (Admitted(req) && !IsSuperUser(req.user.value) && GroupsUnreadable(req))
  }

  function UserResult(v: Verdict, reason: Reason): StageResult { StageResult(UserStage, v, reason, NoDetail) }

  ghost predicate AllExplained(stages: seq<StageResult>) {
    forall i :: 0 <= i < |stages| ==> Explained(stages[i])
  }

  ghost predicate NoneBlocks(stages: seq<StageResult>) {
    forall i :: 0 <= i < |stages| ==> !Blocks(stages[i].verdict)
  }

  ghost predicate AclChecked(accesses: seq<AccessRule>, effective: set<int>, op: Operation, r: StageResult) {
    && r.detail.ModelAclDetail? && |r.detail.rules| == |accesses|
    && (r.verdict == DENIED ==> !Grants(accesses, effective, op))
    && forall i :: 0 <= i < |accesses| ==> r.detail.rules[i] == AccessMatch(accesses[i], effective, op)
  }

  lemma {:induction false} AclDenialExplained(accesses: seq<AccessRule>, effective: set<int>, op: Operation, r: StageResult)
    requires r.stage == ModelAclStage && AclChecked(accesses, effective, op, r)
    ensures Explained(r)
  {
  }

  lemma {:induction false} FindDenialExplained(globals: seq<RecordRuleMatch>, groups: seq<RecordRuleMatch>, r: StageResult)
    requires r.stage == RecordRuleStage && r.detail.RecordRuleDetail? && r.detail.groupRules == groups
    requires r.verdict == FindVerdict(globals, groups)
    ensures Explained(r)
  {
    if r.verdict == DENIED {
      assert !groups[0].applies;
    }
  }

  lemma {:induction false} DomainDenialExplained(globals: seq<RecordRuleMatch>, groups: seq<RecordRuleMatch>, eval: string -> Outcome)
    ensures Explained(Evaluated(globals, groups, eval))
  {
    var r := Evaluated(globals, groups, eval);
    if r.verdict == DENIED {
      var gs, rs := GlobalResults(globals, |globals|, eval), GroupResults(groups, |groups|, eval);
      if !AllPass(globals, eval) {
        var i :| 0 <= i < |globals| && globals[i].applies && !eval(globals[i].domain).pass;
        var j := FailedGlobalEntry(globals, |globals|, eval, i);
        assert r.detail.results[j] == gs[j];
      } else {
        var i :| 0 <= i < |groups| && groups[i].applies;
        GroupResultsEntries(groups, |groups|, eval);
        assert r.detail.results[|gs| + i] == rs[i];
      }
    }
  }

  lemma {:induction false} FailedGlobalEntry(ms: seq<RecordRuleMatch>, k: nat, eval: string -> Outcome, i: nat) returns (j: nat)
    requires i < k <= |ms| && ms[i].applies && !eval(ms[i].domain).pass
    ensures var rs := GlobalResults(ms, k, eval); j < |rs| && rs[j].global && !rs[j].pass
  {
    if i < k - 1 {
      j := FailedGlobalEntry(ms, k - 1, eval, i);
    } else {
      j := |GlobalResults(ms, k - 1, eval)|;
    }
  }

  /** The decision of the rule stages: unevaluated without record data, else the formula. */
  predicate RulesDecide(rules: seq<RecordRule>, op: Operation, effective: set<int>, eval: string -> Outcome, noRecord: bool) {
    if noRecord then NoGroupRule(rules, op) || SomeGroupRuleMatches(rules, op, effective)
    else RecordAllowed(rules, op, effective, eval)
  }

  /** What each outcome of stage 4 leaves for stage 5 to decide. */
  lemma {:induction false} FindDecides(rules: seq<RecordRule>, op: Operation, effective: set<int>, eval: string -> Outcome, noRecord: bool)
    ensures var globals := Matches(rules, |rules|, op, effective, true);
            var groups := Matches(rules, |rules|, op, effective, false);
            RulesDecide(rules, op, effective, eval, noRecord) <==>
              match FindVerdict(globals, groups)
              case SKIPPED => true
              case OK => noRecord || (AllPass(globals, eval) && (!AnyApplies(groups) || AnyPasses(groups, eval)))
              case _ => false
  {
    StagesDecideFormula(rules, op, effective, eval);
    GroupMatchNone(rules, op, effective);
    GroupMatchApplies(rules, op, effective);
  }

  // ----- The trace as a value -----

  /** Stage 1. An inactive user's reason names the login, which may mention anything. */
  function UserStageOf(req: Request, loginSaysMissing: bool): StageResult {
    if RES_USERS !in req.schema then UserResult(ERROR, Unspecified)
    else
      match req.user
      case Known(user) => if user.active then UserResult(OK, Unspecified) else UserResult(DENIED, Mentions(true, loginSaysMissing))
      case _ => UserResult(DENIED, Mentions(false, true))
  }

  /** Stages 4 and 5: found rules are evaluated if there is record data. */
  function RuleStagesOf(rules: seq<RecordRule>, op: Operation, effective: set<int>, eval: string -> Outcome, noRecord: bool): seq<StageResult> {
    var globals, groups := Matches(rules, |rules|, op, effective, true), Matches(rules, |rules|, op, effective, false);
    var found := RuleResult(FindVerdict(globals, groups),
                            RecordRuleDetail(globals, groups, |globals| + |groups|,
                                             CountApplied(globals, |globals|) + CountApplied(groups, |groups|)));
    if found.verdict != OK then [found]
    else [found] + [if noRecord then DomainResult(SKIPPED, NoDetail) else Evaluated(globals, groups, eval)]
  }

  /** Stages 3 to 5. */
  function AccessStagesOf(req: Request, user: User, effective: set<int>): seq<StageResult> {
    if req.model !in req.schema then [AclResult(ERROR, NoDetail)]
    else
      var model := req.schema[req.model];
      var acl := AclStageOf(model.accesses, effective, req.op);
      if Blocks(acl.verdict) then [acl]
      else [acl] + RuleStagesOf(model.rules, req.op, effective, Evaluator(EnvOf(req, user)), req.record == map[])
  }

  /** Stages 2 to 5 of an ordinary user whose group records are readable. */
  ghost function GroupStagesOf(req: Request, user: User): seq<StageResult>
    requires !GroupsUnreadable(req)
  {
    if RES_GROUPS !in req.schema || TableOf(req.groupData, |req.groupData|) == Some(map[]) then [GroupsResult(ERROR)]
    else
      [GroupsResult(OK)]
      + AccessStagesOf(req, user, Closure(Elems(user.groupIds), TableOf(req.groupData, |req.groupData|).value))
  }

  /** All stages that are run. */
  ghost function StagesOf(req: Request, loginSaysMissing: bool): seq<StageResult>
    requires !InternalError(req)
  {
    var first := UserStageOf(req, loginSaysMissing);
    if Blocks(first.verdict) || IsSuperUser(req.user.value) then [first] else [first] + GroupStagesOf(req, req.user.value)
  }

  // ----- The run -----

  /** Stage 1. An inactive user's reason names the login, which may mention anything. */
  method ResolveUser(req: Request, loginSaysMissing: bool) returns (r: Option<StageResult>)
    ensures r.None? <==> UserUnreadable(req)
    ensures r.Some? ==> r.value == UserStageOf(req, loginSaysMissing)
    ensures r.Some? ==> Explained(r.value) && (Blocks(r.value.verdict) <==> !Admitted(req))
  {
    if RES_USERS !in req.schema {
      return Some(UserResult(ERROR, Unspecified));
    }
    match req.user {
      case NoUser => r := Some(UserResult(DENIED, Mentions(false, true)));
      case UnreadableId => r := None;
      case Known(user) => r := Some(if user.active then UserResult(OK, Unspecified) else UserResult(DENIED, Mentions(true, loginSaysMissing)));
    }
  }

  /** Stage 5 when there is record data. */
  method DomainStages(globals: seq<RecordRuleMatch>, groups: seq<RecordRuleMatch>, env: Env) returns (r: StageResult)
    ensures Explained(r) && r == Evaluated(globals, groups, Evaluator(env))
    ensures var eval := Evaluator(env);
            Blocks(r.verdict) <==> !(AllPass(globals, eval) && (!AnyApplies(groups) || AnyPasses(groups, eval)))
  {
    r := Evaluate(globals, groups, env);
    DomainDenialExplained(globals, groups, Evaluator(env));
  }

  /** Stages 4 and 5 of an ordinary user on a known model. */
  method RuleStages(req: Request, user: User, effective: set<int>) returns (stages: seq<StageResult>)
    requires req.model in req.schema && !IsSuperUser(user)
    ensures AllExplained(stages)
    ensures NoneBlocks(stages) <==> RulesAllow(req, user, effective)
    ensures stages == RuleStagesOf(req.schema[req.model].rules, req.op, effective, Evaluator(EnvOf(req, user)), req.record == map[])
  {
    hide Matches, CountApplied, FindVerdict, RulesDecide, Evaluated, Evaluator, AllPass, AnyPasses, AnyApplies;
    var found := FindRecordRules(req.schema, user, effective, req.model, req.op);
    var globals, groups := found.detail.globalRules, found.detail.groupRules;
    FindDenialExplained(globals, groups, found);
    FindDecides(req.schema[req.model].rules, req.op, effective, Evaluator(EnvOf(req, user)), req.record == map[]);
    stages := [found];
    Single(found);
    if found.verdict != OK {
      return;
    }
    if |req.record| == 0 {
      stages := [found] + [DomainResult(SKIPPED, NoDetail)];
      Single(DomainResult(SKIPPED, NoDetail));
      Prepended(found, [DomainResult(SKIPPED, NoDetail)]);
      return;
    }
    var evaluated := DomainStages(globals, groups, EnvOf(req, user));
    stages := [found] + [evaluated];
    Single(evaluated);
    Prepended(found, [evaluated]);
  }

  /** Stages 3 to 5 of an ordinary user with resolved groups. */
  method AccessStages(req: Request, user: User, effective: set<int>) returns (stages: seq<StageResult>)
    requires !IsSuperUser(user)
    ensures AllExplained(stages)
    ensures NoneBlocks(stages) <==> GroupsAllow(req, user, effective)
    ensures stages == AccessStagesOf(req, user, effective)
  {
    var acl := CheckModelAcl(req.schema, user, effective, req.model, req.op);
    stages := [acl];
    Single(acl);
    if req.model in req.schema {
      AclDenialExplained(req.schema[req.model].accesses, effective, req.op, acl);
    }
    if Blocks(acl.verdict) {
      return;
    }
    var rest := RuleStages(req, user, effective);
    stages := [acl] + rest;
    Prepended(acl, rest);
  }

  lemma {:induction false} Single(r: StageResult)
    ensures Explained(r) ==> AllExplained([r])
    ensures NoneBlocks([r]) <==> !Blocks(r.verdict)
  {
    assert [r][0] == r;
  }

  lemma {:induction false} Prepended(r: StageResult, rest: seq<StageResult>)
    requires Explained(r) && AllExplained(rest)
    ensures AllExplained([r] + rest)
    ensures NoneBlocks([r] + rest) <==> !Blocks(r.verdict) && NoneBlocks(rest)
  {
    var all := [r] + rest;
    assert all[0] == r;
    assert forall i :: 0 <= i < |rest| ==> all[i + 1] == rest[i];
    assert forall i :: 1 <= i < |all| ==> all[i] == rest[i - 1];
  }

  /** Stages 2 to 5 of an ordinary user; none when a group record is unreadable. */
  method GroupStages(req: Request, user: User) returns (stages: Option<seq<StageResult>>)
    requires !IsSuperUser(user)
    ensures stages.None? <==> GroupsUnreadable(req)
    ensures stages.Some? ==> AllExplained(stages.value) && (NoneBlocks(stages.value) <==> OrdinaryAllowed(req, user))
    ensures stages.Some? ==> stages.value == GroupStagesOf(req, user)
  {
    var g := ResolveGroups(req.schema, user, req.groupData);
    if g.Internal? {
      return None;
    }
    if g.Stopped? {
      Single(g.result);
      return Some([g.result]);
    }
    var rest := AccessStages(req, user, g.groups.effective);
    Prepended(g.result, rest);
    stages := Some([g.result] + rest);
  }

  /** The stage results of a whole run, in order. */
  method RunStages(req: Request, loginSaysMissing: bool) returns (stages: Option<seq<StageResult>>)
    ensures stages.None? <==> InternalError(req)
    ensures stages.Some? ==> AllExplained(stages.value) && (NoneBlocks(stages.value) <==> Allowed(req))
    ensures stages.Some? ==> stages.value == StagesOf(req, loginSaysMissing)
  {
    var resolved := ResolveUser(req, loginSaysMissing);
    if resolved.None? {
      return None;
    }
    var first := resolved.value;
    if Blocks(first.verdict) || IsSuperUser(req.user.value) {
      Single(first);
      return Some([first]);
    }
    var rest := GroupStages(req, req.user.value);
    if rest.None? {
      return None;
    }
    Prepended(first, rest.value);
    stages := Some([first] + rest.value);
  }

  /** The verdict and the suggestions of a finished list of stages. */
  method BuildResponse(stages: seq<StageResult>) returns (r: Response)
    ensures r.stages == stages && (r.allowed <==> NoneBlocks(stages))
    ensures r.suggestions == if r.allowed then [] else Fixes(stages, |stages|)
  {
    var allowed := true;
    for i := 0 to |stages|
      invariant allowed <==> forall j :: 0 <= j < i ==> !Blocks(stages[j].verdict)
    {
      if Blocks(stages[i].verdict) {
        allowed := false;
        break;
      }
    }
    var suggestions: seq<Suggestion> := [];
    if !allowed {
      suggestions := Generate(stages);
    }
    r := Response(allowed, stages, suggestions);
  }

  /** The whole pipeline decides the formula, and a denial names every blocking stage. */
  method TraceAccess(req: Request, loginSaysMissing: bool) returns (r: Option<Response>)
    ensures r.None? <==> InternalError(req)
    ensures r.Some? ==> (r.value.allowed <==> Allowed(req))
    ensures r.Some? ==> r.value.stages == StagesOf(req, loginSaysMissing)
    ensures r.Some? ==> r.value.suggestions == Fixes(r.value.stages, |r.value.stages|)
    ensures r.Some? ==> (r.value.suggestions == [] <==> r.value.allowed)
    ensures r.Some? ==> forall i :: 0 <= i < |r.value.stages| && Blocks(r.value.stages[i].verdict) ==>
              exists s :: s in r.value.suggestions && s.stage == r.value.stages[i].stage
  {
    var stages := RunStages(req, loginSaysMissing);
    if stages.None? {
      return None;
    }
    SuggestionsComplete(stages.value);
    var response := BuildResponse(stages.value);
    r := Some(response);
  }

  // ----- Monotonicity -----

  lemma {:induction false} GrantsMonotone(accesses: seq<AccessRule>, small: set<int>, big: set<int>, op: Operation)
    requires small <= big && Grants(accesses, small, op)
    ensures Grants(accesses, big, op)
  {
  }

  lemma {:induction false} RulesMonotone(rules: seq<RecordRule>, op: Operation, small: set<int>, big: set<int>, eval: string -> Outcome)
    requires small <= big
    ensures SomeGroupRuleMatches(rules, op, small) ==> SomeGroupRuleMatches(rules, op, big)
    ensures SomeGroupRulePasses(rules, op, small, eval) ==> SomeGroupRulePasses(rules, op, big, eval)
  {
  }

  /**
   Giving a user more direct groups, or a group more implied groups, never turns an allowed access
   into a denied one. Everything else in the request stays fixed.
   */
  lemma {:induction false} AllowedMonotone(req: Request, more: Request)
    requires Allowed(req)
    requires more == req.(user := more.user, groupData := more.groupData)
    requires more.user.Known? && more.user.value == req.user.value.(groupIds := more.user.value.groupIds)
    requires Elems(req.user.value.groupIds) <= Elems(more.user.value.groupIds)
    requires TableOf(more.groupData, |more.groupData|).Some?
    requires TableOf(req.groupData, |req.groupData|).Some? ==>
               Extends(TableOf(req.groupData, |req.groupData|).value, TableOf(more.groupData, |more.groupData|).value)
    ensures Allowed(more)
  {
    var user, user' := req.user.value, more.user.value;
    if !IsSuperUser(user) {
      var table, table' := TableOf(req.groupData, |req.groupData|).value, TableOf(more.groupData, |more.groupData|).value;
      var small, big := Closure(Elems(user.groupIds), table), Closure(Elems(user'.groupIds), table');
      ClosureMonotone(Elems(user.groupIds), Elems(user'.groupIds), table, table');
      assert table.Keys != {};
      var g := SomeElement(table.Keys);
      assert g in table';
      GrantsMonotone(req.schema[req.model].accesses, small, big, req.op);
      assert EnvOf(more, user') == EnvOf(req, user);
      RulesMonotone(req.schema[req.model].rules, req.op, small, big, Evaluator(EnvOf(req, user)));
    }
  }

  // ----- Denials without a named condition -----

  /**
   The explanation of a failed rule says "unknown" exactly when the domain parses, every condition
   in the trace holds, and the tree is false of all-true conditions.
   */
  lemma {:induction false} UnknownExactly(ast: DomainAst.Node, env: Env, rr: RuleDomainResult)
    requires !rr.parseError && rr.conditions == Trace(ast, env) && rr.pass == Pass(ast, env)
    ensures !rr.pass && FailuresOf(rr) == Unknown <==>
            !DomainLaws.TrueOnAllTrue(ast) && forall i :: 0 <= i < |rr.conditions| ==> rr.conditions[i].pass
    ensures !rr.pass && DomainLaws.Positive(ast) ==> FailuresOf(rr).FailedConditions?
  {
    FailingIndicesEmpty(rr.conditions, |rr.conditions|);
    DomainLaws.SilentFailureExact(ast, env);
    if !rr.pass && DomainLaws.Positive(ast) {
      DomainLaws.PositiveFailureIsVisible(ast, env);
    }
  }
}

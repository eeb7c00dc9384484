/**
 The access decision on requests given in full: which flags, group ids, rule texts and records let an
 ordinary user through, and what the superuser, unreadable rules and the user's own ids do.
 */
module AccessMeaning {
  import opened Options
  import opened Numbers
  import opened Groups
  import opened AclTypes
  import opened GroupStage
  import opened AclStages
  import opened AclPipeline
  import opened Suggestions
  import opened DomainEval
  import opened DomainParser
  import opened DomainStrings
  import opened DomainMeaning

  /** The operations a set of flags names. */
  function Flags(p: Perms): set<Operation> {
    (if p.read then {OpRead} else {}) + (if p.write then {OpWrite} else {})
    + (if p.create then {OpCreate} else {}) + (if p.unlink then {OpUnlink} else {})
  }

  lemma {:induction false} FlagsPermit(p: Perms, op: Operation)
    ensures PermFor(p, op) <==> op in Flags(p)
  {
  }

  /** An entry is for everyone, for the members of the group its text names, or for nobody. */
  lemma {:induction false} EntryApplies(groupId: string, g: int, effective: set<int>)
    ensures RuleApplies("", effective) && RuleApplies("0", effective)
    ensures MIN_INT64 <= g <= MAX_INT64 && g != 0 ==> (RuleApplies(IntText(g), effective) <==> g in effective)
    ensures groupId != "" && (forall n :: ParseInt(groupId) != Some(n)) ==> !RuleApplies(groupId, effective)
  {
    ParseIntText(g);
    ParseIntText(0);
    ZeroText();
    if ParseInt(groupId).Some? { assert ParseInt(groupId) == Some(ParseInt(groupId).value); }
  }

  lemma {:induction false} ZeroText()
    ensures IntText(0) == "0"
  {
  }

  // ----- Two groups, one entry, one rule -----

  /** An ordinary, active user with one direct group `d`, whose record implies the group `g`. */
  ghost predicate OneOfTwo(req: Request, user: User, d: int, g: int) {
    && req.user == Known(user) && user.active && user.uid != 1 && user.groupIds == [d]
    && (exists dn, gn :: req.groupData == [RawGroup(Some(d), dn, [g]), RawGroup(Some(g), gn, [])])
    && "res.users" in req.schema && "res.groups" in req.schema && req.model in req.schema
  }

  lemma {:induction false} TwoGroups(raw: seq<RawGroup>, d: int, g: int, dn: string, gn: string)
    requires raw == [RawGroup(Some(d), dn, [g]), RawGroup(Some(g), gn, [])]
    ensures TableOf(raw, |raw|).Some? && TableOf(raw, |raw|).value != map[]
    ensures Closure({d}, TableOf(raw, |raw|).value) == {d, g}
  {
    TableFails(raw, |raw|);
    var table := TableOf(raw, |raw|).value;
    TableHoldsLast(raw, |raw|, d);
    TableHoldsLast(raw, |raw|, g);
    assert IsLast(raw, |raw|, 1, g);
    assert d != g ==> IsLast(raw, |raw|, 0, d);
    assert g in table;
    hide TableOf;
    ClosureIsLeast({d}, table);
    forall x, i | x in {d, g} && x in table && i in table[x].impliedIds ensures i in {d, g} {}
    forall t: set<int> | {d} <= t && ClosedUnder(t, table) ensures {d, g} <= t {
      if d != g { assert g in table[d].impliedIds; }
    }
    ClosureUnique(Closure({d}, table), {d, g}, {d}, table);
  }

  lemma {:induction false} OrdinaryOfTwo(req: Request, user: User, d: int, g: int)
    requires OneOfTwo(req, user, d, g)
    ensures Allowed(req) <==> GroupsAllow(req, user, {d, g})
  {
    hide GroupsAllow, TableOf, Closure;
    var dn, gn :| req.groupData == [RawGroup(Some(d), dn, [g]), RawGroup(Some(g), gn, [])];
    TwoGroups(req.groupData, d, g, dn, gn);
    assert Elems(user.groupIds) == {d};
  }

  lemma {:induction false} OneEntry(e: int, p: Perms, op: Operation, effective: set<int>)
    requires MIN_INT64 <= e <= MAX_INT64 && e != 0
    ensures Grants([AccessRule(IntText(e), p)], effective, op) <==> e in effective && op in Flags(p)
  {
    var accesses := [AccessRule(IntText(e), p)];
    EntryApplies("", e, effective);
    FlagsPermit(p, op);
    assert accesses[0] == AccessRule(IntText(e), p);
  }

  predicate Overlapping(ids: seq<int>, effective: set<int>) { exists i :: i in ids && i in effective }

  /** One rule decides as it says: outside its operations nothing, otherwise its groups, if any, and its text. */
  lemma {:induction false} OneRule(rule: RecordRule, op: Operation, effective: set<int>, eval: string -> Outcome)
    ensures RulesDecide([rule], op, effective, eval, false) <==>
              (Flags(rule.perms) == {} || op in Flags(rule.perms) ==>
                 (rule.groupIds == [] || Overlapping(rule.groupIds, effective)) && eval(rule.domain).pass)
  {
    var rules := [rule];
    assert rules[0] == rule;
    FlagsPermit(rule.perms, op);
    assert Flags(rule.perms) == {} <==> rule.perms == Perms(false, false, false, false) by { NoFlags(rule.perms); }
    assert Overlaps(rule.groupIds, effective) <==> Overlapping(rule.groupIds, effective) by { OverlapsAlike(rule.groupIds, effective); }
  }

  lemma {:induction false} OverlapsAlike(ids: seq<int>, effective: set<int>)
    ensures Overlaps(ids, effective) <==> Overlapping(ids, effective)
  {
    if Overlaps(ids, effective) {
      var i :| 0 <= i < |ids| && ids[i] in effective;
      var x := ids[i];
      assert x in ids && x in effective;
    }
    if Overlapping(ids, effective) {
      var x :| x in ids && x in effective;
      var i :| 0 <= i < |ids| && ids[i] == x;
    }
  }

  lemma {:induction false} NoFlags(p: Perms)
    ensures Flags(p) == {} <==> p == Perms(false, false, false, false)
  {
    if p.read { assert OpRead in Flags(p); }
    if p.write { assert OpWrite in Flags(p); }
    if p.create { assert OpCreate in Flags(p); }
    if p.unlink { assert OpUnlink in Flags(p); }
  }

  /** The outcome of a rule's text is whether the record passes it. */
  lemma {:induction false} RuleText(req: Request, user: User, src: string)
    ensures Evaluator(EnvOf(req, user))(src).pass <==> Passes(src, EnvOf(req, user))
  {
    hide Parse, Pass, Trace;
  }

  /**
   A request on a model with one entry and one rule, whatever the ids, flags and text: it is allowed
   exactly when the entry names one of the user's two groups and flags the operation, and the rule,
   where it covers the operation, is global or for one of those groups and its text passes.
   */
  lemma {:induction false} AccessInFull(req: Request, user: User, d: int, g: int, e: int, p: Perms, rule: RecordRule)
    requires OneOfTwo(req, user, d, g) && MIN_INT64 <= e <= MAX_INT64 && e != 0 && req.record != map[]
    requires req.schema[req.model] == SchemaModel([AccessRule(IntText(e), p)], [rule])
    ensures Allowed(req) <==>
              && e in {d, g} && req.op in Flags(p)
              && (Flags(rule.perms) == {} || req.op in Flags(rule.perms) ==>
                    (rule.groupIds == [] || Overlapping(rule.groupIds, {d, g})) && Passes(rule.domain, EnvOf(req, user)))
  {
    hide Allowed, Passes, Grants, RulesDecide, Overlapping, Flags, Evaluator;
    OrdinaryOfTwo(req, user, d, g);
    OneEntry(e, p, req.op, {d, g});
    OneRule(rule, req.op, {d, g}, Evaluator(EnvOf(req, user)));
    RuleText(req, user, rule.domain);
  }

  /** For example: with the rule [('f','<',n)] for the implied group, reading a record whose f is x needs x < n. */
  lemma {:induction false} LimitedByRule(req: Request, user: User, d: int, g: int, p: Perms, rule: RecordRule, field: string, n: int, x: int)
    requires OneOfTwo(req, user, d, g) && MIN_INT64 <= g <= MAX_INT64 && g != 0
    requires req.schema[req.model] == SchemaModel([AccessRule(IntText(g), p)], [rule])
    requires IsName(field) && MIN_INT64 <= n <= MAX_INT64 && field in req.record && req.record[field] == IntVal(x)
    requires rule.groupIds == [g] && rule.domain == OneCondition(field, "<", IntText(n)) && rule.perms.read && req.op == OpRead
    ensures Allowed(req) <==> p.read && x < n
  {
    hide Allowed, Passes, OneCondition, IsName;
    AccessInFull(req, user, d, g, g, p, rule);
    ComparisonTexts(field, n, x, EnvOf(req, user));
    assert g in rule.groupIds && g in {d, g};
  }

  /** A global rule that compares with the user's own id, company or companies. */
  lemma {:induction false} OwnRecordsOnly(req: Request, user: User, d: int, g: int, p: Perms, rule: RecordRule, field: string, x: int)
    requires OneOfTwo(req, user, d, g) && MIN_INT64 <= g <= MAX_INT64 && g != 0 && req.op in Flags(p)
    requires req.schema[req.model] == SchemaModel([AccessRule(IntText(g), p)], [rule])
    requires IsName(field) && field in req.record && req.record[field] == IntVal(x)
    requires rule.groupIds == [] && Flags(rule.perms) == {}
    ensures rule.domain == OneCondition(field, "=", "user.id") ==> (Allowed(req) <==> x == user.uid)
    ensures rule.domain == OneCondition(field, "=", "user.company_id") ==> (Allowed(req) <==> x == user.companyId)
    ensures rule.domain == OneCondition(field, "in", "company_ids") ==> (Allowed(req) <==> x in user.companyIds)
  {
    hide Allowed, Passes, OneCondition, IsName, Flags;
    AccessInFull(req, user, d, g, g, p, rule);
    ReferenceTexts(field, x, EnvOf(req, user), "");
  }

  /** The user with id 1 passes everywhere once known and active; with no record data no text is evaluated. */
  lemma {:induction false} WithoutRules(req: Request, user: User)
    requires req.user == Known(user)
    ensures user.uid == 1 ==> (Allowed(req) <==> "res.users" in req.schema && user.active)
    ensures user.uid != 1 && Allowed(req) ==> "res.users" in req.schema && "res.groups" in req.schema && user.active
    ensures user.uid != 1 && Allowed(req) ==> req.groupData != [] && req.model in req.schema && req.schema[req.model].accesses != []
  {
    hide RulesAllow, Closure;
    if req.groupData == [] { NoRecords(req.groupData); }
    if user.uid != 1 && Allowed(req) {
      assert OrdinaryAllowed(req, user);
    }
  }

  lemma {:induction false} NoRecords(raw: seq<RawGroup>)
    requires raw == []
    ensures TableOf(raw, |raw|) == Some(map[])
  {
  }

  /** A covering global rule whose text does not parse denies every record. */
  lemma {:induction false} UnreadableRuleDenies(req: Request, user: User, i: nat)
    requires req.user == Known(user) && user.uid != 1 && req.record != map[] && req.model in req.schema
    requires i < |req.schema[req.model].rules|
    requires var rule := req.schema[req.model].rules[i];
             && rule.groupIds == [] && (Flags(rule.perms) == {} || req.op in Flags(rule.perms)) && Parse(rule.domain).None?
    ensures !Allowed(req)
  {
    hide Parse, Closure, TableOf, Grants;
    var rule := req.schema[req.model].rules[i];
    NoFlags(rule.perms);
    FlagsPermit(rule.perms, req.op);
    assert Covers(rule, req.op) && IsGlobal(rule);
    assert !Evaluator(EnvOf(req, user))(rule.domain).pass;
  }

  // ----- The stages of a trace -----

  const ORDER: seq<Stage> := [UserStage, GroupsStage, ModelAclStage, RecordRuleStage, DomainStage]

  /** The stages from number `k` on, in order, and none behind one that blocks. */
  ghost predicate InOrder(stages: seq<StageResult>, k: nat) {
    && 0 < |stages| <= 5 - k
    && (forall i :: 0 <= i < |stages| ==> stages[i].stage == ORDER[k + i])
    && (forall i :: 0 <= i < |stages| - 1 ==> !Blocks(stages[i].verdict))
  }

  lemma {:induction false} OneInOrder(r: StageResult, k: nat)
    requires k < 5 && r.stage == ORDER[k]
    ensures InOrder([r], k)
  {
  }

  lemma {:induction false} ThenInOrder(r: StageResult, k: nat, rest: seq<StageResult>)
    requires k < 4 && r.stage == ORDER[k] && !Blocks(r.verdict) && InOrder(rest, k + 1)
    ensures InOrder([r] + rest, k)
  {
  }

  lemma {:induction false} RuleStagesInOrder(rules: seq<RecordRule>, op: Operation, effective: set<int>, eval: string -> Outcome, noRecord: bool)
    ensures InOrder(RuleStagesOf(rules, op, effective, eval, noRecord), 3)
  {
    hide InOrder, Matches, CountApplied, FindVerdict, GlobalResults, GroupResults;
    var stages := RuleStagesOf(rules, op, effective, eval, noRecord);
    if |stages| == 1 {
      OneInOrder(stages[0], 3);
    } else {
      OneInOrder(stages[1], 4);
      ThenInOrder(stages[0], 3, [stages[1]]);
    }
  }

  lemma {:induction false} AccessStagesInOrder(req: Request, user: User, effective: set<int>)
    ensures InOrder(AccessStagesOf(req, user, effective), 2)
  {
    hide InOrder, RuleStagesOf, Grants;
    if req.model !in req.schema {
      OneInOrder(AclResult(ERROR, NoDetail), 2);
    } else {
      var model := req.schema[req.model];
      var acl := AclStageOf(model.accesses, effective, req.op);
      OneInOrder(acl, 2);
      RuleStagesInOrder(model.rules, req.op, effective, Evaluator(EnvOf(req, user)), req.record == map[]);
      if !Blocks(acl.verdict) {
        ThenInOrder(acl, 2, RuleStagesOf(model.rules, req.op, effective, Evaluator(EnvOf(req, user)), req.record == map[]));
      }
    }
  }

  lemma {:induction false} GroupStagesInOrder(req: Request, user: User)
    requires !GroupsUnreadable(req)
    ensures InOrder(GroupStagesOf(req, user), 1)
  {
    hide InOrder, AccessStagesOf, Closure, TableOf;
    OneInOrder(GroupsResult(ERROR), 1);
    if RES_GROUPS in req.schema && TableOf(req.groupData, |req.groupData|) != Some(map[]) {
      var effective := Closure(Elems(user.groupIds), TableOf(req.groupData, |req.groupData|).value);
      AccessStagesInOrder(req, user, effective);
      ThenInOrder(GroupsResult(OK), 1, AccessStagesOf(req, user, effective));
    }
  }

  /** A trace consists of the first of the five stages in order, up to the first that blocks; the superuser's ends with the first. */
  lemma {:induction false} TraceInOrder(req: Request, loginSaysMissing: bool)
    requires !InternalError(req)
    ensures InOrder(StagesOf(req, loginSaysMissing), 0)
    ensures req.user.Known? && req.user.value.uid == 1 ==> |StagesOf(req, loginSaysMissing)| == 1
  {
    hide InOrder, GroupStagesOf;
    var first := UserStageOf(req, loginSaysMissing);
    OneInOrder(first, 0);
    if !Blocks(first.verdict) && !IsSuperUser(req.user.value) {
      GroupStagesInOrder(req, req.user.value);
      ThenInOrder(first, 0, GroupStagesOf(req, req.user.value));
    }
  }

  // ----- What a denial names -----

  /** A record-rule denial: no rule for groups fits the user, and exactly those that cover the operation are named. */
  lemma {:induction false} RuleDenialFromRules(rules: seq<RecordRule>, op: Operation, effective: set<int>, name: string)
    requires FindVerdict(Matches(rules, |rules|, op, effective, true), Matches(rules, |rules|, op, effective, false)) == DENIED
    ensures var ms := Matches(rules, |rules|, op, effective, false);
            name in ForeignRules(ms, |ms|) <==>
              exists i :: 0 <= i < |rules| && rules[i].name == name && rules[i].groupIds != []
                          && (Flags(rules[i].perms) == {} || op in Flags(rules[i].perms))
    ensures forall i :: 0 <= i < |rules| && Covers(rules[i], op) && rules[i].groupIds != [] ==> !Overlapping(rules[i].groupIds, effective)
  {
    hide Matches, ForeignRules, Covers, Overlapping;
    var ms := Matches(rules, |rules|, op, effective, false);
    ForeignRulesExact(ms, |ms|, name);
    forall i | 0 <= i < |rules| ensures Covers(rules[i], op) <==> Flags(rules[i].perms) == {} || op in Flags(rules[i].perms) {
      CoversExactly(rules[i], op);
    }
    if name in ForeignRules(ms, |ms|) {
      var j :| 0 <= j < |ms| && ms[j].name == name && !ms[j].applies;
      var i := MatchFrom(rules, |rules|, op, effective, false, ms[j]);
    }
    forall i | 0 <= i < |rules| && Covers(rules[i], op) && rules[i].groupIds != []
      ensures name == rules[i].name ==> name in ForeignRules(ms, |ms|)
      ensures !Overlapping(rules[i].groupIds, effective)
    {
      var j := MatchOf(rules, |rules|, op, effective, i);
      assert !ms[j].applies;
      OverlapsAlike(rules[i].groupIds, effective);
    }
  }

  lemma {:induction false} CoversExactly(rule: RecordRule, op: Operation)
    ensures Covers(rule, op) <==> Flags(rule.perms) == {} || op in Flags(rule.perms)
  {
    NoFlags(rule.perms);
    FlagsPermit(rule.perms, op);
  }

  /** The record-rule stage is skipped when no rule covers the operation, and denies when rules for groups do but none fits. */
  lemma {:induction false} FindVerdictExactly(rules: seq<RecordRule>, op: Operation, effective: set<int>)
    ensures var verdict := FindVerdict(Matches(rules, |rules|, op, effective, true), Matches(rules, |rules|, op, effective, false));
            && (verdict == SKIPPED <==> forall i :: 0 <= i < |rules| ==> !Covers(rules[i], op))
            && (verdict == DENIED <==> !NoGroupRule(rules, op) && !SomeGroupRuleMatches(rules, op, effective))
            && verdict != ERROR
  {
    hide Matches, Covers, AnyApplies;
    var globals, groups := Matches(rules, |rules|, op, effective, true), Matches(rules, |rules|, op, effective, false);
    GroupMatchNone(rules, op, effective);
    GroupMatchApplies(rules, op, effective);
    if globals != [] { var i := MatchFrom(rules, |rules|, op, effective, true, globals[0]); }
    forall i | 0 <= i < |rules| && Covers(rules[i], op) ensures globals != [] || groups != [] {
      var j := MatchOf(rules, |rules|, op, effective, i);
    }
  }

  /** An unknown user gets one suggestion, an inactive one as many as the reason has phrases, and a missing user model an error. */
  lemma {:induction false} UserStageSuggestions(req: Request, loginSaysMissing: bool)
    ensures var first := UserStageOf(req, loginSaysMissing);
            && first.stage == UserStage
            && (first.verdict == ERROR <==> "res.users" !in req.schema)
            && (first.verdict == OK <==> "res.users" in req.schema && req.user.Known? && req.user.value.active)
            && (first.verdict == DENIED ==>
                  |FixesFor(first)| == if req.user.Known? && loginSaysMissing then 2 else 1)
  {
  }

  /** What the evaluation of a rule leaves in the trace. */
  function Entry(m: RecordRuleMatch, global: bool, o: Outcome): RuleDomainResult {
    RuleDomainResult(m.name, m.domain, global, o.pass, o.parseError, o.conditions)
  }

  lemma {:induction false} GlobalEntries(ms: seq<RecordRuleMatch>, k: nat, eval: string -> Outcome, r: RuleDomainResult)
    requires k <= |ms|
    ensures r in GlobalResults(ms, k, eval) <==> exists i :: 0 <= i < k && ms[i].applies && r == Entry(ms[i], true, eval(ms[i].domain))
  {
    if k > 0 { GlobalEntries(ms, k - 1, eval, r); }
  }

  /** The failed global rules of a trace are the covering ones whose text fails, under their own name and text. */
  lemma {:induction false} FailedGlobalsFromRules(rules: seq<RecordRule>, op: Operation, effective: set<int>, eval: string -> Outcome, name: string)
    ensures var ms := Matches(rules, |rules|, op, effective, true);
            (exists r :: r in GlobalResults(ms, |ms|, eval) && r.ruleName == name && !r.pass) <==>
              exists i :: 0 <= i < |rules| && rules[i].name == name && rules[i].groupIds == []
                          && Covers(rules[i], op) && !eval(rules[i].domain).pass
  {
    hide Matches, GlobalResults, Covers;
    var ms := Matches(rules, |rules|, op, effective, true);
    if r :| r in GlobalResults(ms, |ms|, eval) && r.ruleName == name && !r.pass {
      GlobalEntries(ms, |ms|, eval, r);
      var j :| 0 <= j < |ms| && ms[j].applies && r == Entry(ms[j], true, eval(ms[j].domain));
      var i := MatchFrom(rules, |rules|, op, effective, true, ms[j]);
    }
    forall i | 0 <= i < |rules| && rules[i].name == name && rules[i].groupIds == [] && Covers(rules[i], op) && !eval(rules[i].domain).pass
      ensures exists r :: r in GlobalResults(ms, |ms|, eval) && r.ruleName == name && !r.pass
    {
      var j := MatchOf(rules, |rules|, op, effective, i);
      GlobalEntries(ms, |ms|, eval, Entry(ms[j], true, eval(ms[j].domain)));
    }
  }

  /** A group rule that fits the user leaves its verdict in the trace, any other a failed entry without conditions. */
  lemma {:induction false} GroupEntries(ms: seq<RecordRuleMatch>, eval: string -> Outcome, i: nat)
    requires i < |ms|
    ensures |GroupResults(ms, |ms|, eval)| == |ms|
    ensures var r := GroupResults(ms, |ms|, eval)[i];
            && (ms[i].applies ==> r == Entry(ms[i], false, eval(ms[i].domain)))
            && (!ms[i].applies ==>
                  && r == Entry(ms[i], false, Outcome(false, false, r.conditions))
                  && |r.conditions| == 1 && !r.conditions[0].pass && r.conditions[0].error == Some(NotApplicable))
  {
    GroupResultsEntries(ms, |ms|, eval);
  }

  /** The record-rule stage reports the rules that cover the operation, each as it is and whether it fits the user. */
  lemma {:induction false} RulesReported(rules: seq<RecordRule>, op: Operation, effective: set<int>, global: bool, m: RecordRuleMatch)
    ensures m in Matches(rules, |rules|, op, effective, global) <==>
              exists i :: 0 <= i < |rules| && Covers(rules[i], op) && (rules[i].groupIds == []) == global
                          && m.name == rules[i].name && m.domain == rules[i].domain && m.groupIds == rules[i].groupIds
                          && m.global == global && m.applies == (global || Overlapping(rules[i].groupIds, effective))
  {
    hide Matches, Covers, Overlapping;
    if m in Matches(rules, |rules|, op, effective, global) {
      var i := MatchFrom(rules, |rules|, op, effective, global, m);
      OverlapsAlike(rules[i].groupIds, effective);
    }
    forall i | 0 <= i < |rules| && Covers(rules[i], op) && (rules[i].groupIds == []) == global
               && m.name == rules[i].name && m.domain == rules[i].domain && m.groupIds == rules[i].groupIds
               && m.global == global && m.applies == (global || Overlapping(rules[i].groupIds, effective))
      ensures m in Matches(rules, |rules|, op, effective, global)
    {
      var j := MatchOf(rules, |rules|, op, effective, i);
      OverlapsAlike(rules[i].groupIds, effective);
    }
  }

  /** A text that does not parse is explained as that. */
  lemma {:induction false} UnreadableIsExplained(m: RecordRuleMatch, global: bool, env: Env)
    requires Parse(m.domain).None?
    ensures FailuresOf(Entry(m, global, DomainOutcome(m.domain, env))) == ParseFailure
  {
    hide Parse;
  }

  /** The model-access stage reports every entry as it is, whether it applies and whether it grants. */
  lemma {:induction false} EntriesReported(accesses: seq<AccessRule>, effective: set<int>, op: Operation, i: nat)
    requires i < |accesses|
    ensures var ms := AclStageOf(accesses, effective, op).detail.rules;
            && |ms| == |accesses| && ms[i].groupId == accesses[i].groupId && ms[i].perms == accesses[i].perms
            && (ms[i].grants <==> ms[i].applies && op in Flags(accesses[i].perms))
            && (ms[i].applies <==> RuleApplies(accesses[i].groupId, effective))
  {
    FlagsPermit(accesses[i].perms, op);
  }

  lemma {:induction false} AppliedAreCounted(ms: seq<RecordRuleMatch>, k: nat)
    requires k <= |ms|
    ensures CountApplied(ms, k) == |set i: nat | i < k && ms[i].applies|
  {
    var s := set i: nat | i < k && ms[i].applies;
    if k > 0 {
      AppliedAreCounted(ms, k - 1);
      var front := set i: nat | i < k - 1 && ms[i].applies;
      assert s == if ms[k - 1].applies then front + {k - 1} else front;
    }
  }
}

/**
 Fix suggestions for a trace. Texts are reduced to what they name: the stage, the severity and the
 items the text lists.
 */
module Suggestions {
  import opened AclTypes
  import DomainEval

  datatype Severity = Low | Medium | High

  datatype Suggestion = Suggestion(stage: Stage, severity: Severity, items: seq<string>)

  // ----- Failing conditions of a rule -----

  datatype Failures = FailedConditions(indices: seq<nat>) | ParseFailure | Unknown

  function FailingIndices(conds: seq<DomainEval.ConditionResult>, k: nat): seq<nat>
    requires k <= |conds|
  {
    if k == 0 then [] else FailingIndices(conds, k - 1) + if conds[k - 1].pass then [] else [k - 1]
  }

  function FailuresOf(rr: RuleDomainResult): Failures {
    var failing := FailingIndices(rr.conditions, |rr.conditions|);
    if failing != [] then FailedConditions(failing)
    else if rr.parseError then ParseFailure
    else Unknown
  }

  method CollectFailedConditions(rr: RuleDomainResult) returns (r: Failures)
    ensures r == FailuresOf(rr)
  {
    var parts: seq<nat> := [];
    for i := 0 to |rr.conditions|
      invariant parts == FailingIndices(rr.conditions, i)
    {
      if rr.conditions[i].pass {
        continue;
      }
      parts := parts + [i];
    }
    r := if |parts| > 0 then FailedConditions(parts) else if rr.parseError then ParseFailure else Unknown;
  }

  lemma {:induction false} FailingIndicesEmpty(conds: seq<DomainEval.ConditionResult>, k: nat)
    requires k <= |conds|
    ensures FailingIndices(conds, k) == [] <==> forall i :: 0 <= i < k ==> conds[i].pass
  {
    if k > 0 { FailingIndicesEmpty(conds, k - 1); }
  }

  /** Exactly the failing conditions are named, in order. */
  lemma {:induction false} FailingIndicesExact(conds: seq<DomainEval.ConditionResult>, k: nat)
    requires k <= |conds|
    ensures var f := FailingIndices(conds, k);
            && (forall i :: i in f <==> 0 <= i < k && !conds[i].pass)
            && forall i, j :: 0 <= i < j < |f| ==> f[i] < f[j]
  {
    if k > 0 {
      FailingIndicesExact(conds, k - 1);
      var front := FailingIndices(conds, k - 1);
      forall i | 0 <= i < |front| ensures front[i] < k - 1 { assert front[i] in front; }
    }
  }

  // ----- Per stage -----

  function UserFixes(reason: Reason): seq<Suggestion> {
    var one := Suggestion(UserStage, Low, []);
    (if reason.Mentions? && reason.inactive then [one] else []) +
    (if reason.Mentions? && reason.missing then [one] else []) +
    (if reason.Mentions? && (reason.inactive || reason.missing) then [] else [one])
  }

  /** Group ids of the first `k` access entries that apply without granting, or that do not apply. */
  function AclGroups(rules: seq<AclRuleMatch>, k: nat, applicable: bool): seq<string>
    requires k <= |rules|
  {
    if k == 0 then []
    else
      AclGroups(rules, k - 1, applicable) +
      if rules[k - 1].applies == applicable && !(applicable && rules[k - 1].grants) then [rules[k - 1].groupId] else []
  }

  function AclFixes(detail: Detail): seq<Suggestion> {
    if !detail.ModelAclDetail? || detail.rules == [] then [Suggestion(ModelAclStage, Medium, [])]
    else
      var noGrant, foreign := AclGroups(detail.rules, |detail.rules|, true), AclGroups(detail.rules, |detail.rules|, false);
      if noGrant != [] then [Suggestion(ModelAclStage, Low, noGrant)]
      else if foreign != [] then [Suggestion(ModelAclStage, Medium, foreign)]
      else []
  }

  /** Names of the first `k` group rules that do not apply. */
  function ForeignRules(ms: seq<RecordRuleMatch>, k: nat): seq<string>
    requires k <= |ms|
  {
    if k == 0 then [] else ForeignRules(ms, k - 1) + if ms[k - 1].applies then [] else [ms[k - 1].name]
  }

  function RecordRuleFixes(detail: Detail): seq<Suggestion> {
    if !detail.RecordRuleDetail? then [Suggestion(RecordRuleStage, Medium, [])]
    else
      var names := ForeignRules(detail.groupRules, |detail.groupRules|);
      if names != [] then [Suggestion(RecordRuleStage, Medium, names)] else []
  }

  function FailedGlobals(rs: seq<RuleDomainResult>, k: nat): seq<Suggestion>
    requires k <= |rs|
  {
    if k == 0 then []
    else
      FailedGlobals(rs, k - 1) +
      if rs[k - 1].global && !rs[k - 1].pass then [Suggestion(DomainStage, High, [rs[k - 1].ruleName])] else []
  }

  function FailedGroups(rs: seq<RuleDomainResult>, k: nat): seq<string>
    requires k <= |rs|
  {
    if k == 0 then []
    else FailedGroups(rs, k - 1) + if !rs[k - 1].global && !rs[k - 1].pass then [rs[k - 1].ruleName] else []
  }

  function DomainFixes(detail: Detail): seq<Suggestion> {
    if !detail.DomainDetail? then [Suggestion(DomainStage, Medium, [])]
    else
      var failed := FailedGroups(detail.results, |detail.results|);
      FailedGlobals(detail.results, |detail.results|) +
      if !detail.groupPass && failed != [] then [Suggestion(DomainStage, Medium, failed)] else []
  }

  function FixesFor(r: StageResult): seq<Suggestion> {
    match r.verdict
    case DENIED =>
      (match r.stage
       case UserStage => UserFixes(r.reason)
       case GroupsStage => [Suggestion(GroupsStage, Medium, [])]
       case ModelAclStage => AclFixes(r.detail)
       case RecordRuleStage => RecordRuleFixes(r.detail)
       case DomainStage => DomainFixes(r.detail))
    case ERROR => [Suggestion(r.stage, Medium, [])]
    case _ => []
  }

  function Fixes(stages: seq<StageResult>, k: nat): seq<Suggestion>
    requires k <= |stages|
  {
    if k == 0 then [] else Fixes(stages, k - 1) + FixesFor(stages[k - 1])
  }

  // ----- The loops -----

  method SuggestModelAclFixes(detail: Detail) returns (r: seq<Suggestion>)
    ensures r == AclFixes(detail)
  {
    if !detail.ModelAclDetail? || |detail.rules| == 0 {
      return [Suggestion(ModelAclStage, Medium, [])];
    }
    var noGrant: seq<string>, foreign: seq<string> := [], [];
    for i := 0 to |detail.rules|
      invariant noGrant == AclGroups(detail.rules, i, true) && foreign == AclGroups(detail.rules, i, false)
    {
      var rule := detail.rules[i];
      if rule.applies && !rule.grants {
        noGrant := noGrant + [rule.groupId];
      }
      if !rule.applies {
        foreign := foreign + [rule.groupId];
      }
    }
    r := [];
    if |noGrant| > 0 {
      r := r + [Suggestion(ModelAclStage, Low, noGrant)];
    }
    if |foreign| > 0 && |noGrant| == 0 {
      r := r + [Suggestion(ModelAclStage, Medium, foreign)];
    }
  }

  method SuggestRecordRuleFixes(detail: Detail) returns (r: seq<Suggestion>)
    ensures r == RecordRuleFixes(detail)
  {
    if !detail.RecordRuleDetail? {
      return [Suggestion(RecordRuleStage, Medium, [])];
    }
    var names: seq<string> := [];
    for i := 0 to |detail.groupRules|
      invariant names == ForeignRules(detail.groupRules, i)
    {
      if !detail.groupRules[i].applies {
        names := names + [detail.groupRules[i].name];
      }
    }
    r := if |names| > 0 then [Suggestion(RecordRuleStage, Medium, names)] else [];
  }

  method SuggestDomainFixes(detail: Detail) returns (r: seq<Suggestion>)
    ensures r == DomainFixes(detail)
  {
    if !detail.DomainDetail? {
      return [Suggestion(DomainStage, Medium, [])];
    }
    var rs := detail.results;
    r := [];
    for i := 0 to |rs|
      invariant r == FailedGlobals(rs, i)
    {
      if rs[i].global && !rs[i].pass {
        r := r + [Suggestion(DomainStage, High, [rs[i].ruleName])];
      }
    }
    if !detail.groupPass {
      var failed: seq<string> := [];
      for i := 0 to |rs|
        invariant failed == FailedGroups(rs, i)
      {
        if !rs[i].global && !rs[i].pass {
          failed := failed + [rs[i].ruleName];
        }
      }
      if |failed| > 0 {
        r := r + [Suggestion(DomainStage, Medium, failed)];
      }
    }
  }

  method Generate(stages: seq<StageResult>) returns (r: seq<Suggestion>)
    ensures r == Fixes(stages, |stages|)
  {
    r := [];
    for i := 0 to |stages|
      invariant r == Fixes(stages, i)
    {
      var s := stages[i];
      var more: seq<Suggestion> := [];
      if s.verdict == DENIED {
        match s.stage {
          case UserStage => more := UserFixes(s.reason);
          case GroupsStage => more := [Suggestion(GroupsStage, Medium, [])];
          case ModelAclStage => more := SuggestModelAclFixes(s.detail);
          case RecordRuleStage => more := SuggestRecordRuleFixes(s.detail);
          case DomainStage => more := SuggestDomainFixes(s.detail);
        }
      } else if s.verdict == ERROR {
        more := [Suggestion(s.stage, Medium, [])];
      }
      r := r + more;
    }
  }

  // ----- What the suggestions name -----

  lemma {:induction false} AclGroupsExact(rules: seq<AclRuleMatch>, k: nat, applicable: bool, g: string)
    requires k <= |rules|
    ensures g in AclGroups(rules, k, applicable) <==>
              exists i :: 0 <= i < k && rules[i].groupId == g && rules[i].applies == applicable && !(applicable && rules[i].grants)
  {
    if k > 0 { AclGroupsExact(rules, k - 1, applicable, g); }
  }

  lemma {:induction false} ForeignRulesExact(ms: seq<RecordRuleMatch>, k: nat, name: string)
    requires k <= |ms|
    ensures name in ForeignRules(ms, k) <==> exists i :: 0 <= i < k && ms[i].name == name && !ms[i].applies
  {
    if k > 0 { ForeignRulesExact(ms, k - 1, name); }
  }

  lemma {:induction false} FailedGlobalsExact(rs: seq<RuleDomainResult>, k: nat, s: Suggestion)
    requires k <= |rs|
    ensures s in FailedGlobals(rs, k) <==>
              exists i :: 0 <= i < k && rs[i].global && !rs[i].pass && s == Suggestion(DomainStage, High, [rs[i].ruleName])
  {
    if k > 0 { FailedGlobalsExact(rs, k - 1, s); }
  }

  lemma {:induction false} FailedGroupsExact(rs: seq<RuleDomainResult>, k: nat, name: string)
    requires k <= |rs|
    ensures name in FailedGroups(rs, k) <==> exists i :: 0 <= i < k && rs[i].ruleName == name && !rs[i].global && !rs[i].pass
  {
    if k > 0 { FailedGroupsExact(rs, k - 1, name); }
  }

  /** A model-access denial names the groups that lack the permission or, if none applies, those the user could join. */
  lemma {:induction false} AclDenialNames(r: StageResult)
    requires r.stage == ModelAclStage && r.verdict == DENIED && r.detail.ModelAclDetail? && r.detail.rules != []
    requires forall i :: 0 <= i < |r.detail.rules| ==> !r.detail.rules[i].grants
    ensures var ms := r.detail.rules;
            var some := exists i :: 0 <= i < |ms| && ms[i].applies;
            && |FixesFor(r)| == 1 && FixesFor(r)[0].severity == (if some then Low else Medium)
            && forall g :: g in FixesFor(r)[0].items <==> exists i :: 0 <= i < |ms| && ms[i].groupId == g && ms[i].applies == some
  {
    hide AclGroups;
    var ms := r.detail.rules;
    forall g, b ensures g in AclGroups(ms, |ms|, b) <==> exists i :: 0 <= i < |ms| && ms[i].groupId == g && ms[i].applies == b {
      AclGroupsExact(ms, |ms|, b, g);
    }
    if i :| 0 <= i < |ms| && ms[i].applies {
      assert ms[i].groupId in AclGroups(ms, |ms|, true);
    } else {
      assert ms[0].groupId in AclGroups(ms, |ms|, false);
      NoneIn(AclGroups(ms, |ms|, true));
    }
  }

  lemma {:induction false} NoneIn(s: seq<string>)
    ensures (forall x :: x !in s) ==> s == []
  {
    if s != [] { assert s[0] in s; }
  }

  /** A record-rule denial names exactly the group rules that do not apply. */
  lemma {:induction false} RuleDenialNames(r: StageResult, i: nat)
    requires r.stage == RecordRuleStage && r.verdict == DENIED && r.detail.RecordRuleDetail?
    requires i < |r.detail.groupRules| && !r.detail.groupRules[i].applies
    ensures var ms := r.detail.groupRules;
            && |FixesFor(r)| == 1 && FixesFor(r)[0].severity == Medium
            && forall name :: name in FixesFor(r)[0].items <==> exists j :: 0 <= j < |ms| && ms[j].name == name && !ms[j].applies
  {
    hide ForeignRules;
    var ms := r.detail.groupRules;
    forall name ensures name in ForeignRules(ms, |ms|) <==> exists j :: 0 <= j < |ms| && ms[j].name == name && !ms[j].applies {
      ForeignRulesExact(ms, |ms|, name);
    }
    assert ms[i].name in ForeignRules(ms, |ms|);
  }

  /** Errors and group denials get one suggestion; a user denial one for each thing its reason mentions, or one. */
  lemma {:induction false} PlainSuggestions(r: StageResult)
    ensures r.verdict == ERROR || (r.verdict == DENIED && r.stage == GroupsStage) ==> FixesFor(r) == [Suggestion(r.stage, Medium, [])]
    ensures r.verdict == DENIED && r.stage == UserStage ==>
              && |FixesFor(r)| == (if r.reason == Mentions(true, true) then 2 else 1)
              && forall i :: 0 <= i < |FixesFor(r)| ==> FixesFor(r)[i] == Suggestion(UserStage, Low, [])
    ensures r.verdict == DENIED && (match r.stage case ModelAclStage => !r.detail.ModelAclDetail? || r.detail.rules == []
                                                  case RecordRuleStage => !r.detail.RecordRuleDetail?
                                                  case DomainStage => !r.detail.DomainDetail?
                                                  case _ => false) ==>
              FixesFor(r) == [Suggestion(r.stage, Medium, [])]
  {
  }

  /** A domain denial names each failed global rule by itself and, if no group rule passed, all of those together. */
  lemma {:induction false} DomainDenialNames(r: StageResult, s: Suggestion)
    requires r.stage == DomainStage && r.verdict == DENIED && r.detail.DomainDetail?
    ensures var rs := r.detail.results;
            && (s.severity == High ==>
                  (s in FixesFor(r) <==>
                     exists i :: 0 <= i < |rs| && rs[i].global && !rs[i].pass && s == Suggestion(DomainStage, High, [rs[i].ruleName])))
            && (s.severity != High ==>
                  (s in FixesFor(r) <==>
                     && s.stage == DomainStage && s.severity == Medium && !r.detail.groupPass && s.items == FailedGroups(rs, |rs|) != []))
  {
    FailedGlobalsExact(r.detail.results, |r.detail.results|, s);
  }

  // ----- Completeness -----

  /** What the stages put into a denial, and what the suggestions rely on. */
  ghost predicate Explained(r: StageResult) {
    r.verdict == DENIED ==>
      match r.stage
      case ModelAclStage =>
        r.detail.ModelAclDetail? && forall i :: 0 <= i < |r.detail.rules| ==> !r.detail.rules[i].grants
      case RecordRuleStage =>
        r.detail.RecordRuleDetail? && exists i :: 0 <= i < |r.detail.groupRules| && !r.detail.groupRules[i].applies
      case DomainStage =>
        && r.detail.DomainDetail?
        && exists i :: 0 <= i < |r.detail.results| && !r.detail.results[i].pass && (r.detail.results[i].global || !r.detail.groupPass)
      case _ => true
  }

  lemma {:induction false} AclGroupsNonEmpty(rules: seq<AclRuleMatch>, k: nat)
    requires k <= |rules| && forall i :: 0 <= i < |rules| ==> !rules[i].grants
    ensures k > 0 ==> AclGroups(rules, k, true) != [] || AclGroups(rules, k, false) != []
  {
  }

  lemma {:induction false} ForeignRulesNonEmpty(ms: seq<RecordRuleMatch>, k: nat, i: nat)
    requires i < k <= |ms| && !ms[i].applies
    ensures ForeignRules(ms, k) != []
  {
    if i < k - 1 { ForeignRulesNonEmpty(ms, k - 1, i); }
  }

  lemma {:induction false} FailedNonEmpty(rs: seq<RuleDomainResult>, k: nat, i: nat)
    requires i < k <= |rs| && !rs[i].pass
    ensures if rs[i].global then FailedGlobals(rs, k) != [] else FailedGroups(rs, k) != []
  {
    if i < k - 1 { FailedNonEmpty(rs, k - 1, i); }
  }

  lemma {:induction false} FailedGlobalsTagged(rs: seq<RuleDomainResult>, k: nat)
    requires k <= |rs|
    ensures forall j :: 0 <= j < |FailedGlobals(rs, k)| ==> FailedGlobals(rs, k)[j].stage == DomainStage
  {
    if k > 0 { FailedGlobalsTagged(rs, k - 1); }
  }

  ghost predicate TaggedWith(s: seq<Suggestion>, stage: Stage) {
    forall j :: 0 <= j < |s| ==> s[j].stage == stage
  }

  /** A stage gets a suggestion exactly when it blocks, and every suggestion names its stage. */
  lemma {:induction false} StageSuggestions(r: StageResult)
    requires Explained(r)
    ensures FixesFor(r) != [] <==> Blocks(r.verdict)
    ensures TaggedWith(FixesFor(r), r.stage)
  {
    if r.verdict == DENIED {
      match r.stage
      case ModelAclStage => AclGroupsNonEmpty(r.detail.rules, |r.detail.rules|);
      case RecordRuleStage =>
        var ms := r.detail.groupRules;
        var i :| 0 <= i < |ms| && !ms[i].applies;
        ForeignRulesNonEmpty(ms, |ms|, i);
      case DomainStage =>
        var rs := r.detail.results;
        var i :| 0 <= i < |rs| && !rs[i].pass && (rs[i].global || !r.detail.groupPass);
        FailedNonEmpty(rs, |rs|, i);
        FailedGlobalsTagged(rs, |rs|);
      case _ =>
    }
  }

  lemma {:induction false} FixesContain(stages: seq<StageResult>, k: nat, i: nat, x: Suggestion)
    requires i < k <= |stages| && x in FixesFor(stages[i])
    ensures x in Fixes(stages, k)
  {
    hide FixesFor;
    if i < k - 1 { FixesContain(stages, k - 1, i, x); }
  }

  lemma {:induction false} FixesEmpty(stages: seq<StageResult>, k: nat)
    requires k <= |stages| && forall i :: 0 <= i < k ==> Explained(stages[i])
    ensures Fixes(stages, k) == [] <==> forall i :: 0 <= i < k ==> !Blocks(stages[i].verdict)
  {
    hide FixesFor, Explained;
    if k > 0 {
      FixesEmpty(stages, k - 1);
      StageSuggestions(stages[k - 1]);
    }
  }

  /** Every blocking stage is suggested for under its own name; nothing is suggested when none blocks. */
  lemma {:induction false} SuggestionsComplete(stages: seq<StageResult>)
    requires forall i :: 0 <= i < |stages| ==> Explained(stages[i])
    ensures Fixes(stages, |stages|) == [] <==> forall i :: 0 <= i < |stages| ==> !Blocks(stages[i].verdict)
    ensures forall i :: 0 <= i < |stages| && Blocks(stages[i].verdict) ==>
              exists s :: s in Fixes(stages, |stages|) && s.stage == stages[i].stage
  {
    FixesEmpty(stages, |stages|);
    forall i | 0 <= i < |stages| && Blocks(stages[i].verdict)
      ensures exists s :: s in Fixes(stages, |stages|) && s.stage == stages[i].stage
    {
      StageSuggestions(stages[i]);
      FixesContain(stages, |stages|, i, FixesFor(stages[i])[0]);
    }
  }
}

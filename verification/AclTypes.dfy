/** Entities of the access pipeline. Reason texts are not modelled, only what picks them. */
module AclTypes {
  import opened Groups
  import DomainEval

  datatype Verdict = OK | DENIED | SKIPPED | ERROR

  datatype Stage = UserStage | GroupsStage | ModelAclStage | RecordRuleStage | DomainStage

  /** CRUD operation; any other text is `OtherOp`. */
  datatype Operation = OpRead | OpWrite | OpCreate | OpUnlink | OtherOp

  datatype User = User(uid: int, active: bool, companyId: int, companyIds: seq<int>, groupIds: seq<int>)

  /** The built-in superuser has id 1. */
  predicate IsSuperUser(u: User) { u.uid == 1 }

  datatype Perms = Perms(read: bool, write: bool, create: bool, unlink: bool)

  predicate PermFor(p: Perms, op: Operation) {
    match op
    case OpRead => p.read
    case OpWrite => p.write
    case OpCreate => p.create
    case OpUnlink => p.unlink
    case OtherOp => false
  }

  /** A model-level access entry; the group id is a decimal text, empty or "0" for everyone. */
  datatype AccessRule = AccessRule(groupId: string, perms: Perms)

  /** A record-level rule; no groups makes it global. */
  datatype RecordRule = RecordRule(name: string, groupIds: seq<int>, domain: string, perms: Perms)

  datatype SchemaModel = SchemaModel(accesses: seq<AccessRule>, rules: seq<RecordRule>)

  type Schema = map<string, SchemaModel>

  datatype ResolvedGroups = ResolvedGroups(
    directIds: seq<int>, impliedIds: seq<int>, effectiveIds: seq<int>, effective: set<int>, groups: seq<GroupRecord>)

  datatype AclRuleMatch = AclRuleMatch(groupId: string, grants: bool, applies: bool, perms: Perms)

  datatype RecordRuleMatch = RecordRuleMatch(name: string, domain: string, global: bool, applies: bool, groupIds: seq<int>)

  datatype RuleDomainResult = RuleDomainResult(
    ruleName: string, domain: string, global: bool, pass: bool, parseError: bool,
    conditions: seq<DomainEval.ConditionResult>)

  datatype Detail =
    | NoDetail
    | ModelAclDetail(rules: seq<AclRuleMatch>, granted: bool)
    | RecordRuleDetail(globalRules: seq<RecordRuleMatch>, groupRules: seq<RecordRuleMatch>, totalRules: nat, appliedCount: nat)
    | DomainDetail(globalPass: bool, groupPass: bool, results: seq<RuleDomainResult>)

  /** Which phrases the reason of a user-stage denial contains. */
  datatype Reason = Unspecified | Mentions(inactive: bool, missing: bool)

  datatype StageResult = StageResult(stage: Stage, verdict: Verdict, reason: Reason, detail: Detail)

  predicate Blocks(v: Verdict) { v == DENIED || v == ERROR }
}

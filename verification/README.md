# Verified model of the Odoo toolkit back end

A Dafny model of three parts of the toolkit's server, with proofs.

**The access pipeline** answers "may this user do this operation on this record?". The model covers
the whole way from the text of a record-rule domain to the verdict: the byte-level lexer and the
recursive-descent parser of domains, the conversion of prefix lists to trees, evaluation of trees on
a record (with the dynamic-programming LIKE matcher), the search through implied groups, model
access, record rules, the five-stage run and the suggestions for a denial. The main results: the
pipeline's verdict is one closed formula (`AclPipeline.Allowed`), the formula is monotone in the
user's groups and spelled out on requests given in full (`AccessMeaning.AccessInFull`), the accepted domain texts and their trees are exactly those of a grammar stated apart
from the code (`DomainAcceptance.ParseExact`), parsing inverts printing exactly on the domains
without a logic symbol as a string, records pass texts as they should
(`DomainMeaning.ComparisonTexts` and its neighbours), and every denial names each blocking stage.

**The Redis algorithms** are a sliding-window rate limiter, the login lockout, the session store with
its per-user index, and the capped log list. A key is a value with an expiry instant, every operation
is one step at an instant of a non-decreasing clock, and each algorithm is proved against an unbounded
history or against the set of live keys. Durations reach Redis in whole seconds or milliseconds, and
scores are 64-bit floats: both are part of the model, and where they break the intended law the
exact condition is proved.

**The error-group and alert tables** are proved for all interleavings of ingest transactions with
resolve, acknowledge, reopen and removal: a transaction reads the status without a lock, holds its row
from the upsert on, and commits or leaves nothing. Retention and the delivery worker's retry cycle
follow.

Code that works by changing state is modelled as classes and loops (`Lexer`, `Parser`, `MatchLike`'s
table, the shared result slice, `Limiter`, `Attempts`, `SessionCache`, `LogList`, `Store`,
`AlertStore`, `Worker`), each proved against a function on values; the theorems are about those
functions.

## Where the code and its documentation differ

- A quoted `'&'`, `'|'` or `'!'` is lexed as an operator, so no text at all stands for a domain that
  compares with such a string (`DomainAcceptance.TreeHasTextExactly`, `DomainAcceptance.LogicSymbolIsLost`).
- Tokens behind the closing bracket of a domain change nothing, but they have to lex: a tail that does
  not makes the whole text an error (`DomainAcceptance.TrailingText`, `DomainAcceptance.TailMustLex`).
- A rate-limit window above one second that is not a whole number of seconds is cut: its key expires
  after the whole seconds, too early (`RateLimiter.FaithfulExactly`). Among requests at distinct
  instants, intervals never admit more than the limit exactly up to the shorter of the key's lifetime
  (the whole seconds of a cut window, at least the window otherwise) and the window less 256
  nanoseconds, the error of float64 scores (`RateAdmission.DeployedWindowAdmitsLimit`). A whole window
  admits at most the limit plus the lesser of the limit and 128; if it is cut, at most that or, where
  this is more, twice the limit, as far as the nanoseconds cut off plus one allow. These numbers are
  reached (`RateAdmission.DeployedExcess`, `RateAdmission.ExcessIsReached`).
- Requests at one and the same nanosecond share a member. Over all histories, repeated instants
  included, the limit is kept for limit 1 on the intervals above and for no larger limit on any
  interval: there any number of requests passes (`RateAdmission.DeployedRepeatsExactly`,
  `RateAdmission.SameInstantUnlimited`).
- A new session that ends more than an hour before another of the same user takes that one out of the
  index while it is still alive (`Sessions.CreateAgreesExactly`, `Sessions.ShortSessionLosesLong`), and
  refreshing a session that ends between the read and the write leaves a key without expiry
  (`Sessions.TouchAgreesExactly`).
- The delivery worker documents `MaxAttempts` as an attempt ceiling; the attempt column starts at 1, so
  a delivery is dispatched at most `MaxAttempts - 1` times, the successful dispatch included, and once
  at least. A dispatch whose mark statement fails is repeated and comes on top
  (`Deliveries.DispatchesBounded`, `Deliveries.BoundIsMet`).
- The reopen alert depends on an unlocked read, so concurrent ingests can alert twice for one reopening
  and a resolve in between can make a reopening silent (`IngestRuns.TwoReadersAlertTwice`,
  `IngestRuns.ResolveInBetweenIsSilent`).
- The spike threshold is cut to 32 bits and comes with each ingest: an ingest alerts if and only if the
  count it leaves is its own threshold, so a crossing by an ingest with another one is silent
  (`IngestRuns.EveryRun`, `IngestRuns.SilentCrossing`).
- Retention lists and removes traces before it deletes rows by the same condition, and rows change in
  between. A group that was open at the listing and is resolved or acknowledged before the deletion, or
  is ingested and then closed, loses its row and leaves its trace behind
  (`Retention.OrphansExactly`, `Retention.LateCloseOrphans`); a listed group that is reopened by hand
  keeps its row and a reference to a removed trace (`Retention.DanglesExactly`). The conditions are
  exact for all references, which do repeat: trace keys have a granularity of one second
  (internal/worker/ingest.go:248), and the HTTP path stores the traceback itself
  (internal/service/error_service.go:56-58).

## Model

| member | source | states |
|---|---|---|
| `DomainLexer.Lexer.LexString` | internal/acl/domain/lexer.go:102-152 | the string loop reads exactly the escaped text up to the closing quote, classifies the three logic symbols as operators, and fails on an open string |
| `DomainLexer.Lexer.LexNumber` | internal/acl/domain/lexer.go:154-192 | sign, digits and at most one point, with the integer and float kinds told apart and lone signs and points rejected |
| `DomainLexer.Lexer.LexWord` | internal/acl/domain/lexer.go:194-217 | the longest run of identifier bytes, classified as keyword or reference |
| `DomainLexer.Lexer.LexNextToken` | internal/acl/domain/lexer.go:39-88 | one dispatch of the lexer equals the token function at that position |
| `DomainLexer.Lexer.Run` | internal/acl/domain/lexer.go:25-37 | the cursor machine produces the token list of the whole text, or fails where the function does |
| `DomainLexer.Lex` | internal/acl/domain/lexer.go:17-23 | lexing a text is the token function |
| `DomainParser.Parser.ParseValue` | internal/acl/domain/parser.go:167-226 | the value at the cursor and the cursor behind it, nested lists and tuples included |
| `DomainParser.Parser.ParseItems` | internal/acl/domain/parser.go:228-249 | the comma loop reads the entries up to the closer, for every nesting |
| `DomainParser.Parser.ParseCondition` | internal/acl/domain/parser.go:130-165 | field, operator and value of a condition with its optional commas, or an error |
| `DomainParser.Parser.ParseElements` | internal/acl/domain/parser.go:71-107 | the element loop of the outer list |
| `DomainParser.Parser.ParseDomain` | internal/acl/domain/parser.go:71-107 | the element list of the tokens turned into a tree, or an error |
| `DomainParser.InsertImplicitAnd` | internal/acl/domain/parser.go:318-369 | the counting passes prefix exactly operands minus binary operators minus one conjunctions |
| `DomainParser.Consume` | internal/acl/domain/parser.go:371-405 | reading an operand always moves forward inside the list |
| `DomainParser.ParseText` | internal/acl/domain/parser.go:20-27 | lexer and parser machines together compute `Parse` |
| `DomainParser.ValueForward` | internal/acl/domain/parser.go:167-249 | a parsed value ends behind its start and within the tokens, so the parser terminates |
| `DomainPrinter.OperatorRoundTrip` | internal/acl/domain/parser.go:260-292 | the operator table of the code finds an operator for a text if and only if a second table, by operators, writes it so |
| `DomainPrinter.ValueOfTokens` | internal/acl/domain/parser.go:167-249 | a printed literal standing anywhere in the tokens is read back, nested lists included, or fails if it holds a logic symbol |
| `DomainPrinter.ElementsRoundTrip` | internal/acl/domain/parser.go:71-165 | printed elements are read back whatever follows the closing bracket |
| `DomainTree.ConsumeFlat` | internal/acl/domain/parser.go:371-405 | consuming the prefix form of a tree, anywhere in a list, gives the tree back and stops behind it |
| `DomainTree.ConsumeSound` | internal/acl/domain/parser.go:371-405 | whatever is consumed is a tree with correct arities whose prefix form are the elements read |
| `DomainTree.BuildTreeExact` | internal/acl/domain/parser.go:296-405 | a list is accepted if and only if it is a non-empty forest of complete prefix expressions, and the result is their left-nested conjunction |
| `DomainTree.ParseWellFormed` | internal/acl/domain/parser.go:20-405 | every accepted text gives match-all or a tree in which each operator has its arity |
| `DomainLayout.QuotedExact` | internal/acl/domain/lexer.go:102-152 | the string loop ends at a position if and only if the closing quote stands there and what lies before decodes, for both quotes and every escape form |
| `DomainLayout.SpaceEndExact` | internal/acl/domain/lexer.go:94-100 | exactly the bytes of white space are skipped, by byte value |
| `DomainLayout.WordBytes` | internal/acl/domain/lexer.go:223-233 | the bytes words start with and go on with, by byte value |
| `DomainLayout.TokenAtExact` | internal/acl/domain/lexer.go:39-217 | the lexer finds a token at a position if and only if a lexeme of it stands there that the next byte does not extend |
| `DomainLayout.LexExact` | internal/acl/domain/lexer.go:17-217 | lexing gives a token list if and only if the text is a layout of it: one lexeme per token, in order, any white space around them |
| `DomainLayout.LexedIsLayout` | internal/acl/domain/lexer.go:17-217 | a text lexes if and only if it is a layout of some token list |
| `DomainText.LexSpelled` | internal/acl/domain/lexer.go:17-217 | lexing inverts the canonical spelling under every layout of white space |
| `DomainText.EveryDomainHasText` | internal/acl/domain/lexer.go:17-217 | every domain over values the syntax can express has a text |
| `DomainText.ListRoundTrip` | internal/acl/domain/parser.go:20-405 | every canonical text of a domain list parses to the tree of that list, or is rejected when a string in it is a logic symbol |
| `DomainText.TreeRoundTrip` | internal/acl/domain/parser.go:20-405 | parsing inverts printing on a tree if and only if no string in it is a logic symbol; otherwise the text is rejected |
| `DomainText.ForestRoundTrip` | internal/acl/domain/parser.go:296-369 | expressions written side by side parse to their conjunction |
| `DomainStrings.ListStringRead` | internal/acl/domain/parser.go:20-405 | a list written byte by byte, every bracket, quote and symbol named, parses to its tree, or is rejected for a logic symbol used as a string |
| `DomainStrings.OneConditionRead` | internal/acl/domain/parser.go:20-165 | the text `[('field','operator',value)]` parses to that condition, for every field without quotes, every operator and every literal |
| `Numbers.IntMeaning` | internal/acl/domain/parser.go:171-186 | digits behind an optional sign are read as their number, if it fits into 64 bits |
| `Numbers.FloatMeaning` | internal/acl/domain/parser.go:171-186 | a decimal text times the power of ten of its places is the number of its digits, with the sign |
| `DomainGrammar.EntriesExact` | internal/acl/domain/parser.go:71-107 | the list loops read exactly the lists of the grammar: commas optional between entries, one allowed before the closer |
| `DomainGrammar.ValueExact` | internal/acl/domain/parser.go:167-249 | a value is read from a stretch of tokens if and only if the grammar writes it there |
| `DomainGrammar.ElementExact` | internal/acl/domain/parser.go:109-165 | operators and conditions likewise |
| `DomainGrammar.ElementsExact` | internal/acl/domain/parser.go:71-107 | the parser returns an element list if and only if the grammar writes it at the start of the tokens |
| `DomainGrammar.DomainSpanLocal` | internal/acl/domain/parser.go:71-107 | tokens behind the closing bracket play no part |
| `DomainAcceptance.WrittenIsRead` | internal/acl/domain/parser.go:20-405 | every text that writes a list, in any accepted form, parses to the tree of that list |
| `DomainAcceptance.ParseExact` | internal/acl/domain/parser.go:20-405 | a text parses to a tree if and only if it writes a list that means the tree: match-all for the empty list, else the left-nested conjunction of its complete expressions |
| `DomainAcceptance.TrailingText` | internal/acl/domain/parser.go:20-27 | behind a complete domain the text must lex, or it is rejected; if it does, it changes nothing |
| `DomainAcceptance.TailMustLex` | internal/acl/domain/lexer.go:25-37 | `[]` is match-all and `[] @` is an error |
| `DomainAcceptance.HasTextExactly` | internal/acl/domain/parser.go:20-405 | an element list has some text if and only if the syntax can express it and no string in it is a logic symbol |
| `DomainAcceptance.TreeHasTextExactly` | internal/acl/domain/parser.go:20-405 | a tree is the meaning of some text if and only if that holds of its prefix list |
| `DomainAcceptance.LogicSymbolIsLost` | internal/acl/domain/lexer.go:102-152 | no text, of whatever layout, parses to a comparison with one of the three logic symbols, such as `[('f','=','&')]`, and its canonical texts are errors |
| `Like.MatchLike` | internal/acl/domain_evaluator.go:566-600 | the table returns true if and only if the subject splits into consecutive pieces matching the pattern bytes, for every subject and pattern |
| `Like.StepIsMatches` | internal/acl/domain_evaluator.go:566-600 | the recurrence on last bytes is the declarative splitting |
| `Like.ConcatSplits` | internal/acl/domain_evaluator.go:566-600 | a concatenated pattern matches if and only if the subject can be cut between its parts |
| `Like.LiteralPattern` | internal/acl/domain_evaluator.go:545-600 | a pattern without wildcards matches exactly itself |
| `Like.SubstringPattern` | internal/acl/domain_evaluator.go:545-600 | `%lit%` is the substring test |
| `Like.UnderscorePattern` | internal/acl/domain_evaluator.go:566-600 | an underscore stands for exactly one byte |
| `Like.FoldedLiteral` | internal/acl/domain_evaluator.go:545-563 | after folding, a pattern without wildcards matches exactly the texts equal up to the case of ASCII letters |
| `Like.LikeImpliesILike` | internal/acl/domain_evaluator.go:545-563 | lower-casing subject and pattern keeps every match |
| `DomainEval.StringLikeByTable` | internal/acl/domain_evaluator.go:545-563 | the like operators decide the declarative relation, false on non-strings |
| `DomainEval.ValueInByLoop` | internal/acl/domain_evaluator.go:496-509 | the membership loop finds an equal item if there is one, and compares directly with a non-list |
| `DomainEval.EvalNode` | internal/acl/domain_evaluator.go:235-283 | the walk returns the tree's verdict and one result per condition in order, without short-circuit |
| `DomainLaws.CompareAntisymmetric` | internal/acl/domain_evaluator.go:478-492 | swapping operands negates the comparison, numeric or not |
| `DomainLaws.EqualIsATie` | internal/acl/domain_evaluator.go:379-492 | equality implies `<=` and `>=`, excludes `<` and `>`, and is symmetric, for every pair of values |
| `DomainLaws.LessIsSemiorder` | internal/acl/domain_evaluator.go:462-492 | on numbers `<` with tolerance is transitive and satisfies both semiorder laws |
| `DomainLaws.TiesAreNotTransitive` | internal/acl/domain_evaluator.go:478-492 | two ties can make a strict difference |
| `DomainLaws.LikeWithinILike` | internal/acl/domain_evaluator.go:379-397 | whatever passes `like` passes `ilike` |
| `DomainMeaning.OrderExactly` | internal/acl/domain_evaluator.go:379-492 | the order operators hold exactly of numbers a billionth or more apart in that direction, or not so in the other |
| `DomainMeaning.IntegersCompare` | internal/acl/domain_evaluator.go:379-492 | on integers the six comparisons are those of the integers |
| `DomainMeaning.MixedEqual` | internal/acl/domain_evaluator.go:408-474 | equality across types: numbers by value, false, zero and nothing alike, an empty string not, anything else by its text form |
| `DomainMeaning.LikeFamily` | internal/acl/domain_evaluator.go:379-404 | `like` and `=like` are LIKE, `ilike` and `=ilike` ignore case, all fail on other than strings, and the hierarchy operators always hold |
| `DomainMeaning.ConditionOnText` | internal/acl/domain_evaluator.go:202-317 | a record passes the text of one condition if and only if it has the field, the value resolves and the comparison holds |
| `DomainMeaning.ComparisonTexts` | internal/acl/domain_evaluator.go:202-404 | a record whose `f` is the integer x passes `[('f','<',n)]` if and only if x < n; the other five comparisons alike |
| `DomainMeaning.StringTexts` | internal/acl/domain_evaluator.go:202-404 | the texts with `=` and the like family on strings |
| `DomainMeaning.FalseTexts` | internal/acl/domain_evaluator.go:286-459 | a record passes a comparison with `False` or `None` if and only if its field is nothing, false or zero |
| `DomainMeaning.ReferenceTexts` | internal/acl/domain_evaluator.go:321-377 | `user.id`, `user.company_id` and the companies stand for the user's own, and any other reference fails the condition |
| `DomainMeaning.MembershipTexts` | internal/acl/domain_evaluator.go:321-509 | `[('f','in',[n1,n2])]` passes if and only if the field is one of them, `not in` if and only if it is none |
| `DomainMeaning.OtherMembershipTexts` | internal/acl/domain_evaluator.go:321-509 | a tuple counts as a list, and a single number as the list of that number |
| `DomainMeaning.DecimalTexts` | internal/acl/domain_evaluator.go:321-492 | a decimal number in a text compares by value with whatever number the record holds |
| `DomainMeaning.HierarchyTexts` | internal/acl/domain_evaluator.go:379-397 | texts with `child_of` or `parent_of` pass on every record that has the field |
| `DomainMeaning.MissingFieldText` | internal/acl/domain_evaluator.go:286-317 | a text of one condition fails on a record without its field, whatever the operator |
| `DomainMeaning.LogicTexts` | internal/acl/domain_evaluator.go:202-283 | texts joined by the symbols for and, or and not pass as conjunction, disjunction and negation, texts side by side as conjunction |
| `DomainLaws.TraceAdequate` | internal/acl/domain_evaluator.go:202-283 | the trace's length depends on the tree alone and replaying the tree on its verdicts gives the verdict |
| `DomainLaws.TraceReportsLeaves` | internal/acl/domain_evaluator.go:235-317 | the trace reports every condition from left to right with field, operator, both values, verdict and the reason it could not be compared |
| `DomainLaws.SilentFailureExact` | internal/acl/domain_evaluator.go:235-283 | a failing tree shows no failing condition if and only if all conditions hold and the tree is false of all-true conditions |
| `DomainLaws.PositiveFailureIsVisible` | internal/acl/domain_evaluator.go:235-283 | a failing tree without negation and empty disjunction shows a failing condition |
| `DomainLaws.ComplementNegates` | internal/acl/domain_evaluator.go:286-404 | complementing an operator negates the condition if and only if its value resolves and the record has its field |
| `DomainLaws.NnfPreserves` | internal/acl/domain_evaluator.go:235-404 | pushing negations to the leaves keeps the verdict of every tree whose complemented leaves can be compared |
| `DomainLaws.NnfIsNormal` | internal/acl/domain_evaluator.go:235-404 | afterwards negations stand only over operators without a complement |
| `DomainLaws.NnfNeedsResolvable` | internal/acl/domain_evaluator.go:286-317 | on a record without the field the law fails |
| `DomainLaws.ListMeaning` | internal/acl/domain/parser.go:296-369 | a parsed list passes if and only if each of its complete expressions does |
| `Groups.ParseGroupRecords` | internal/acl/group_resolver.go:159-176 | the loop builds the table of the records, or fails on an unreadable id |
| `Groups.TableFails` | internal/acl/group_resolver.go:159-176 | parsing fails if and only if some record has no readable id |
| `Groups.TableHoldsLast` | internal/acl/group_resolver.go:159-176 | the table holds exactly the ids of the records, each with the name and the implied ids of its last record |
| `Groups.AddImplied` | internal/acl/group_resolver.go:86-101 | one turn adds the implied ids and queues each new one exactly once |
| `Groups.ExpandGroups` | internal/acl/group_resolver.go:73-101 | the search computes the closure for every graph, cycles and unknown ids included, and pops once per listed direct id plus once per added group |
| `Groups.ClosureIsLeast` | internal/acl/group_resolver.go:73-101 | the closure is the least set with the direct groups that is closed under the implied ids of known groups |
| `Groups.ClosureMonotone` | internal/acl/group_resolver.go:73-101 | more direct groups and more implied edges lose no effective group |
| `Groups.EffectiveOverRecords` | internal/acl/group_resolver.go:36-101 | over the raw records: the effective groups are the least set that holds the direct groups and, with each group, those its last record implies |
| `GroupStage.SortedIds` | internal/acl/group_resolver.go:103-116 | the sorted list has the set's elements in strictly increasing order |
| `GroupStage.IncreasingUnique` | internal/acl/group_resolver.go:103-116 | that list does not depend on the order the set was walked in |
| `GroupStage.ResolveGroups` | internal/acl/group_resolver.go:36-156 | effective ids are the closure, implied ids are effective minus direct, both sorted without repetition; missing model, empty and unreadable tables give their errors |
| `GroupStage.ResolvesOverRecords` | internal/acl/group_resolver.go:36-156 | a resolution has that least set as its effective groups, the ones not direct as implied, both sorted, and lists the last record of each effective id that has one |
| `AclStages.CheckModelAcl` | internal/acl/model_acl_checker.go:45-195 | granted if and only if some entry applies to the user's groups and permits the operation, with one match per entry |
| `AclStages.UserInRuleGroups` | internal/acl/record_rule_finder.go:216-223 | true if and only if a rule group is effective |
| `AclStages.PartitionRules` | internal/acl/record_rule_finder.go:99-150 | covering rules split into global and group rules in order, with the number that apply |
| `AclStages.FindRecordRules` | internal/acl/record_rule_finder.go:56-189 | skipped without covering rules, denied when group rules cover and none applies, found otherwise |
| `AclStages.EvalRule` | internal/acl/domain_evaluator.go:202-232 | a rule that does not parse fails, match-all passes, anything else is its tree's verdict and trace |
| `AclStages.EvaluateGlobalRules` | internal/acl/domain_evaluator.go:100-118 | appends the results of applicable global rules to the shared slice and says whether all pass |
| `AclStages.EvaluateGroupRules` | internal/acl/domain_evaluator.go:120-151 | appends one entry per group rule and scans the whole slice, the global entries too |
| `AclStages.SharedSliceScan` | internal/acl/domain_evaluator.go:88-151 | the scan of the shared slice finds a passing group entry if and only if an applicable group rule passes |
| `AclStages.Evaluate` | internal/acl/domain_evaluator.go:66-199 | passes if and only if all applicable global rules pass and, if group rules apply, one of them passes |
| `AclStages.StagesDecideFormula` | internal/acl/record_rule_finder.go:99-189 | finding and evaluating together decide one formula: every covering global rule passes, and no group rule covers or some covering rule of the user's groups passes |
| `Suggestions.CollectFailedConditions` | internal/acl/suggestion.go:322-341 | the failing conditions in order, else the parse error, else "unknown" |
| `Suggestions.SuggestModelAclFixes` | internal/acl/suggestion.go:130-205 | which entries a model-access denial names |
| `Suggestions.SuggestRecordRuleFixes` | internal/acl/suggestion.go:208-253 | which rules a record-rule denial names |
| `Suggestions.SuggestDomainFixes` | internal/acl/suggestion.go:256-317 | one suggestion per failed global rule and one for the failed group rules |
| `Suggestions.Generate` | internal/acl/suggestion.go:37-78 | the suggestions of all stages in order |
| `Suggestions.StageSuggestions` | internal/acl/suggestion.go:54-317 | a stage gets a suggestion if and only if it blocks, tagged with that stage |
| `Suggestions.AclDenialNames` | internal/acl/suggestion.go:161-202 | a model-access denial names exactly the groups of the entries that apply without the permission or, if there is none, of those that do not apply |
| `Suggestions.RuleDenialNames` | internal/acl/suggestion.go:208-253 | a record-rule denial names exactly the group rules that do not apply |
| `Suggestions.DomainDenialNames` | internal/acl/suggestion.go:256-317 | a domain denial names each failed global rule by itself and, when no group rule passed, all failed group rules together |
| `Suggestions.PlainSuggestions` | internal/acl/suggestion.go:71-137 | errors, group denials and denials without detail get one suggestion, a user denial one for each phrase of its reason, or one |
| `Suggestions.SuggestionsComplete` | internal/acl/suggestion.go:37-78 | every blocking stage is suggested for, and nothing is suggested if and only if none blocks |
| `AclPipeline.RuleStages` | internal/service/acl_service.go:183-219 | stages 4 and 5 block if and only if the rules forbid the access; without record data evaluation is skipped |
| `AclPipeline.RunStages` | internal/service/acl_service.go:122-152 | the stages of the run are those of the stage functions in order; they block if and only if the access formula is false, each denial carrying what the suggestions need |
| `AclPipeline.TraceAccess` | internal/service/acl_service.go:90-152 | the verdict is the access formula, the stages are those of the whole run, the only internal errors are a user without readable id and an unreadable group record, and suggestions exist exactly for denials, one at least for each blocking stage |
| `AclPipeline.AllowedMonotone` | internal/service/acl_service.go:122-219 | more direct groups or more implied edges never turn an allowed access into a denial |
| `AccessMeaning.EntryApplies` | internal/acl/model_acl_checker.go:170-180 | an access entry is for everyone, for the members of the group its text names, or for nobody |
| `AccessMeaning.AccessInFull` | internal/service/acl_service.go:122-219 | with raw group records, one access entry and one rule of any ids, flags and text, the access is allowed if and only if the entry names one of the two groups and flags the operation and a covering rule fits the groups and passes by its text |
| `AccessMeaning.LimitedByRule` | internal/service/acl_service.go:122-219 | with the rule `[('f','<',n)]` for an implied group, reading a record whose `f` is x needs the read flag and x < n |
| `AccessMeaning.OwnRecordsOnly` | internal/service/acl_service.go:183-219 | a global rule on `user.id`, `user.company_id` or `company_ids` lets the user to records of that user, company or companies only |
| `AccessMeaning.WithoutRules` | internal/service/acl_service.go:122-152 | user id 1 needs no more than a known, active account; anyone else both models, group records and an access entry |
| `AccessMeaning.UnreadableRuleDenies` | internal/acl/domain_evaluator.go:202-232 | a covering global rule whose text does not parse denies every record |
| `AccessMeaning.TraceInOrder` | internal/service/acl_service.go:122-219 | a trace is the first of the five stages in order, up to the first that blocks |
| `AccessMeaning.RulesReported` | internal/acl/record_rule_finder.go:99-150 | the record-rule stage reports exactly the rules that cover the operation, each as it is and whether it fits the user |
| `AccessMeaning.EntriesReported` | internal/acl/model_acl_checker.go:76-165 | the model-access stage reports every entry as it is, whether it applies and whether it grants |
| `AccessMeaning.GroupEntries` | internal/acl/domain_evaluator.go:120-151 | a group rule that fits leaves its verdict in the trace, any other a failed entry that says it does not apply |
| `AccessMeaning.FindVerdictExactly` | internal/acl/record_rule_finder.go:152-189 | the stage is skipped if and only if no rule covers the operation, and denies if and only if rules for groups do and none fits |
| `AccessMeaning.RuleDenialFromRules` | internal/acl/record_rule_finder.go:99-175 | a record-rule denial means that no covering rule for groups fits the user, and names exactly those rules |
| `AccessMeaning.FailedGlobalsFromRules` | internal/acl/domain_evaluator.go:100-118 | the failed global rules of a trace are the covering global rules whose text fails |
| `AclPipeline.UnknownExactly` | internal/acl/suggestion.go:322-341 | a failed rule is explained as "unknown" if and only if all its conditions hold and its tree is false of all-true conditions; never without negation |
| `RateLimiter.Limiter.CheckRateLimit` | internal/cache/redis.go:559-601 | allowed and remaining follow from the number of earlier requests, accepted or not, in the window of the unbounded history |
| `RateLimiter.CountIsRecent` | internal/cache/redis.go:567-580 | trimming and key expiry never change a count, for windows up to a second or of whole seconds |
| `RateLimiter.FaithfulExactly` | internal/cache/redis.go:567-579 | every decision of every run is that of the unbounded history if and only if the window is at most a second or a whole number of seconds |
| `RateAdmission.Bounded` | internal/cache/redis.go:567-595 | accepted requests at distinct instants that the last of them still counts, the key having lived since each, are at most the limit |
| `RateAdmission.ReachIsExact` | internal/cache/redis.go:567-595 | for any rounding of scores: intervals of a length never admit more than the limit, over all histories of distinct instants and all limits, if and only if the length is within the reach of window, key lifetime and rounding |
| `RateAdmission.WindowAdmitsLimit` | internal/cache/redis.go:559-601 | with exact scores that reach is the window, or the whole seconds of a window that is cut |
| `RateAdmission.DeployedWindowAdmitsLimit` | internal/cache/redis.go:567-577 | with float64 scores and instants between 2006 and 2043 it is the shorter of the key's lifetime and the window less 256 nanoseconds, cut windows included |
| `RateAdmission.DeployedExcess` | internal/cache/redis.go:567-595 | every whole window above 512 nanoseconds admits at most the limit plus the lesser of the limit and 128, or, if that is more, the lesser of twice the limit and the nanoseconds cut off the window plus one |
| `RateAdmission.ExcessIsReached` | internal/cache/redis.go:567-595 | and for every limit and window, cut or not, in which that many instants fit, a history in that range reaches exactly this number |
| `RateAdmission.RoundingAdmitsMore` | internal/cache/redis.go:567-595 | the limit plus the lesser of the limit and 128 occurs within any window, by rounding alone |
| `RateAdmission.ExpiryAdmitsMore` | internal/cache/redis.go:567-595 | every number up to twice the limit and the nanoseconds cut off plus one occurs within a cut window, around the early expiry of its key |
| `RateAdmission.SameInstantUnlimited` | internal/cache/redis.go:573-577 | from limit 2 on, any number of requests at one instant is accepted, in intervals of any length |
| `RateAdmission.RepeatsExactly` | internal/cache/redis.go:573-577 | for any rounding of scores, over all histories with repeated instants: intervals of positive length keep a positive limit if and only if it is 1, the window exceeds the rounding and the length is within the reach |
| `RateAdmission.DeployedRepeatsExactly` | internal/cache/redis.go:567-595 | the same with float64 scores and instants between 2006 and 2043: limit 1, a window above 256 nanoseconds and a length within the reach |
| `Float64.ScoreMonotone` | internal/cache/redis.go:573-577 | conversion to float64 keeps the order of instants over the whole 64-bit range |
| `Float64.ScoreSeparates` | internal/cache/redis.go:573-577 | before 2043, instants more than 256 nanoseconds apart keep distinct scores |
| `RateAdmission.DeployedFaithfulExactly` | internal/cache/redis.go:567-580 | with float64 scores also exactly the good windows are faithful |
| `RateLimiter.RemainingIsHonoured` | internal/cache/redis.go:587-595 | the next request's remainder is at most one smaller, so a positive remainder is admitted |
| `RateAdmission.RemainderIsExact` | internal/cache/redis.go:567-595 | while nothing leaves the window, exactly as many of the next requests are accepted as the remainder said |
| `LoginLockout.Attempts.RecordLoginAttempt` | internal/cache/redis.go:623-663 | a failure increments a live counter or starts one, the fifth sets the lock; a success clears the counter only |
| `LoginLockout.Attempts.IsLoginLocked` | internal/cache/redis.go:666-684 | locked while the key lives and its whole-second time has not passed; a stale lock is removed |
| `LoginLockout.Attempts.Login` | internal/service/auth_service.go:107-151 | a login is refused if and only if the lock is found; otherwise, or when the lookup fails, unknown accounts and wrong passwords are recorded as failures, inactive and unverified accounts leave no record, and the right password clears the counter; a wrong password is told when it locks |
| `LoginLockout.CounterExpiredFirst` | internal/cache/redis.go:607-684 | in every run a full counter has expired before the lock it caused ends, whole seconds or not |
| `LoginLockout.RunKeeps` | internal/cache/redis.go:623-684 | every run of logins, successes and unrecorded ones included, keeps the counter, lock and spacing invariant |
| `LoginLockout.EightPerWindow` | internal/cache/redis.go:607-684 | at every point of every run a half-open interval of 15 minutes holds at most eight failures recorded since the last success |
| `LoginLockout.EightIsReached` | internal/cache/redis.go:607-684 | and eight are possible |
| `LoginLockout.FifthFailureLocks` | internal/cache/redis.go:652-660 | a failure sets a lock if and only if it is at least the fifth of a live counter, and the lock refuses logins for 30 minutes, cut to the whole second, and no longer |
| `LoginLockout.CounterLives` | internal/cache/redis.go:623-650 | the counter lives for 15 minutes from its first failure |
| `LoginLockout.CounterGrows` | internal/service/auth_service.go:107-151 | a login adds one to the counter, leaves it or clears it, by how it ends |
| `Sessions.SessionCache.CreateSession` | internal/cache/redis.go:293-319 | stores the session with its lifetime in milliseconds and resets the index to an hour longer in seconds; an ended session is refused |
| `Sessions.SessionCache.UpdateSessionActivity` | internal/cache/redis.go:341-356 | rewrites a session read earlier with the lifetime left at the write, which may leave no expiry |
| `Sessions.SessionCache.DeleteSession` | internal/cache/redis.go:359-368 | removes the session and its id from the given user's index |
| `Sessions.SessionCache.DeleteAllUserSessions` | internal/cache/redis.go:381-402 | the loop removes every indexed session and then the index |
| `Sessions.SessionCache.GetUserSessions` | internal/cache/redis.go:405-425 | returns each live indexed session exactly once |
| `Sessions.CreateAgreesExactly` | internal/cache/redis.go:299-316 | creating a session keeps every live session listed from then on if and only if no other live session of the user outlasts the reset index |
| `Sessions.ShortSessionLosesLong` | internal/cache/redis.go:315-316 | a short session after a long one unlists the long one |
| `Sessions.TouchAgreesExactly` | internal/cache/redis.go:341-356 | a refresh keeps the agreement if and only if it writes before the session's end, or one nanosecond after it on a key still alive |
| `Sessions.DeleteAgrees` | internal/cache/redis.go:359-368 | deleting a session, under whatever user, keeps every other live session listed |
| `SessionLife.DeleteRemoves` | internal/cache/redis.go:359-368 | a deleted session is live at no instant and in no later listing of that user; every other session and listing stays |
| `SessionLife.DeletedForGood` | internal/cache/redis.go:293-425 | in every run, an id that was deleted and not created again is never live or listed |
| `SessionLife.CreateStores` | internal/cache/redis.go:293-319 | the session is stored as given, lives for its time in whole milliseconds and is listed for an hour more in whole seconds, beside those listed before |
| `SessionLife.TouchRefreshes` | internal/cache/redis.go:341-356 | a refresh changes the instant of the last activity only and lets the session live to its end |
| `SessionLife.DeleteAllRemoves` | internal/cache/redis.go:381-402 | logging out everywhere removes exactly the listed sessions and the listing of that user |
| `SessionLife.StoredIsCurrent` | internal/cache/redis.go:293-402 | in every run, what is stored under an id is the last session created with it, active last at its last refresh |
| `Sessions.DeleteAllLeavesNone` | internal/cache/redis.go:381-402 | after logging out everywhere the user has no live session, then or later |
| `Sessions.SessionsAgree` | internal/cache/redis.go:293-425 | after every run with non-decreasing ends per user a listing is exactly the live sessions and logout leaves none |
| `ServerLogs.LogList.AppendServerLogs` | internal/cache/redis.go:762-793 | the stored list stays the last thousand lines since the key last expired, whatever the batch sizes |
| `ServerLogs.LogList.GetServerLogs` | internal/cache/redis.go:796-819 | the last lines oldest first, as many as the clamped limit |
| `ServerLogs.LastOfLast` | internal/cache/redis.go:778-780 | trimming early does not show |
| `ServerLogs.LastIsSuffix` | internal/cache/redis.go:778-819 | what is kept is the end of the list, as many lines as asked for or all |
| `ServerLogs.DayStartsAnew` | internal/cache/redis.go:744-793 | lines a day or more after the last batch start a new stream, earlier ones go on with the old one |
| `ServerLogs.StreamIsEverything` | internal/cache/redis.go:744-793 | while the key never expires these are the last lines of everything ever appended |
| `ErrorGroups.Store.AppendAffectedUsers` | db/sqlc/error_groups.sql.go:52-70 | users become the distinct union |
| `ErrorGroups.DistinctIsExact` | db/sqlc/error_groups.sql.go:52-59 | the merged array has no duplicates and exactly the elements of both |
| `ErrorGroups.Store.IngestErrorBatchTx` | db/sqlc/tx_ingest_error.go:28-83 | a committed ingest leaves the upserted row and its alerts; a fault at any statement or at commit, or a full counter, leaves everything as it was |
| `ErrorGroups.Store.ResolveErrorGroup` | db/sqlc/error_groups.sql.go:428-436 | status, resolver and time of an existing group |
| `ErrorGroups.Store.AcknowledgeErrorGroup` | db/sqlc/error_groups.sql.go:16-21 | status only |
| `ErrorGroups.Store.ReopenErrorGroup` | db/sqlc/error_groups.sql.go:389-397 | status, with resolver and time cleared |
| `IngestRuns.StepKeepsLocks` | db/sqlc/tx_ingest_error.go:28-83 | no two transactions hold one row, and a holder's row is the ingest of the committed one |
| `IngestRuns.CommitAccounts` | db/sqlc/tx_ingest_error.go:49-83 | a commit keeps counter, users, columns and alert numbers of every group in step with the ingests committed in its life |
| `IngestRuns.DueOnce` | db/sqlc/tx_ingest_error.go:126-135 | an alert is due if and only if the count equals a positive threshold cut to 32 bits |
| `IngestRuns.Wrap32Exact` | db/sqlc/tx_ingest_error.go:126-135 | the threshold counts as the number of the 32-bit range that differs from it by a multiple of 2^32 |
| `IngestRuns.LifeIsSinceBirth` | db/sqlc/error_groups.sql.go:101-117 | the log and alerts of a row's present life are what the run has added since retention last removed the row, or all if it never did |
| `IngestRuns.EveryRun` | db/sqlc/tx_ingest_error.go:28-165 | in every interleaving, with removals by retention, in each life of a row and each ingest with its own threshold: counter = ingests committed in that life, which left the counts 1, 2 and so on; users = their duplicate-free union; first seen, last seen and trace reference are the first and the last one's; open groups have no resolver, resolved ones a time; spike alerts of the life = its ingests that left a count equal to their threshold |
| `IngestRuns.SpikeExactlyOnce` | db/sqlc/tx_ingest_error.go:126-165 | with one threshold for a group it has one spike alert per life of its row if and only if its counter has reached it as a positive 32-bit number |
| `RowHistory.AbortReleases` | db/sqlc/exec_tx.go:9-25 | an aborted ingest leaves rows, alerts and the other transactions as they were and frees the row it held |
| `RowHistory.StatusIsLastChange` | db/sqlc/error_groups.sql.go:16-552 | in every run a row's status is that of its last change, and its resolution columns are those of the last resolve since it was last open |
| `RowHistory.AlertsTellCounts` | db/sqlc/tx_ingest_error.go:85-165 | every alert of every run carries the count left by the ingest it is for |
| `RowHistory.CountersFit` | db/sqlc/error_groups.sql.go:525-552 | no counter of any run leaves the 32-bit range |
| `RowHistory.FullCounterAborts` | db/sqlc/error_groups.sql.go:525-552 | an ingest into a counter at the end of the 32-bit range is aborted and leaves the row as it was |
| `IngestRuns.SilentCrossing` | internal/worker/ingest.go:304-316 | when the ingest that reaches the threshold carries another one, no spike alert is raised in that life of the row |
| `IngestRuns.ReopenAlerts` | db/sqlc/tx_ingest_error.go:35-47 | over whole runs, reopen alerts count the ingests that read a closed group, which are the reopenings when each read was still current at the upsert |
| `IngestRuns.SerialIngest` | db/sqlc/tx_ingest_error.go:28-83 | a serial ingest is the store's transaction and its read is current |
| `IngestRuns.SerialReopenAlerts` | db/sqlc/tx_ingest_error.go:35-124 | in every serial run reopen alerts = ingests that found the group resolved or acknowledged |
| `IngestRuns.TwoReadersAlertTwice` | db/sqlc/tx_ingest_error.go:35-47 | two ingests that both read before either writes: the group is found closed once and two reopen alerts are added |
| `IngestRuns.ResolveInBetweenIsSilent` | db/sqlc/tx_ingest_error.go:35-47 | a resolve between read and upsert: the group is reopened and no reopen alert is added |
| `Retention.NoOrphans` | internal/worker/retention.go:242-286 | whatever runs between listing and deletion, a group that is not resolved or acknowledged in that time is deleted only if it was listed, closed and unchanged since, and survives if it was ingested |
| `Retention.OrphansExactly` | internal/worker/retention.go:242-286 | whatever runs in between, a row is deleted whose trace was not removed if and only if the group expires at the deletion and, not ingested since the listing, its removal failed or it was open then and no listed group shares its reference, or, ingested since, its last report's reference was not removed |
| `Retention.OrphansWithOwnRefs` | internal/worker/retention.go:242-286 | when references do not repeat and removals succeed: if and only if the expiring group has been ingested since the listing or was open then |
| `Retention.LateCloseOrphans` | internal/worker/retention.go:242-286 | a resolve or acknowledge of an old open group in between deletes its row and leaves its trace, unless another listed group shares it |
| `Retention.DanglesExactly` | internal/worker/retention.go:242-286 | whatever runs in between, a surviving row refers to a removed object if and only if, not ingested, it was listed and is open again or shares a listed reference, its removal having succeeded, or, ingested, its last report's reference was removed |
| `Retention.DanglesWithOwnRefs` | internal/worker/retention.go:242-286 | when references do not repeat and removals succeed: if and only if it was listed, has not been ingested and is open at the deletion |
| `Retention.LateReopenDangles` | internal/worker/retention.go:242-286 | a listed group reopened by hand in between keeps its row, and its reference dangles |
| `Retention.DeletedExactly` | db/sqlc/error_groups.sql.go:101-117 | in every run a row is deleted if and only if it is the tenant's, was last resolved or acknowledged, and the last report of its present life came before the cutoff; kept rows do not change |
| `Retention.ListedAreDeleted` | db/sqlc/error_groups.sql.go:351-369 | the references listed are those of the rows a deletion at that moment would take |
| `Deliveries.AlertStore.CreateAlertWithDeliveryTx` | db/sqlc/tx_alert_deliver.go:20-65 | one pending delivery per active channel of the tenant and nothing else, or, on any failing statement, nothing |
| `Deliveries.FannedOutContents` | db/sqlc/tx_alert_deliver.go:48-58 | the fan-out keeps earlier deliveries and adds one per channel |
| `Deliveries.ActiveIdsExact` | db/sqlc/tx_alert_deliver.go:40-58 | deliveries go to the active channels of the tenant, as many as those are, and to no other |
| `Deliveries.Worker.MarkDelivery` | db/sqlc/alerts.sql.go:664-692 | the mark statements change the row whatever its status |
| `Deliveries.Worker.DeliverPending` | internal/worker/notification.go:142-203 | each listed pending row takes its one mark, or none when the mark statement fails, and no other row changes |
| `Deliveries.PollExactly` | internal/worker/notification.go:142-203 | a poll leaves each listed row sent, failed with one more attempt, or as it was when the mark is lost, and every other row alone |
| `Deliveries.Worker.RetryFailedDeliveries` | db/sqlc/alerts.sql.go:696-702 | exactly the failed rows under the ceiling and younger than a day become pending |
| `Deliveries.RetryAllExactly` | db/sqlc/alerts.sql.go:696-702 | a retry changes exactly the failed rows under the ceiling and younger than a day, and makes them pending |
| `Deliveries.StaysFailed` | db/sqlc/alerts.sql.go:696-702 | a failed delivery that no retry finds under the ceiling and younger than a day is never dispatched again |
| `Deliveries.RetriedExactly` | db/sqlc/alerts.sql.go:696-702 | and one that a retry finds so is dispatched by the next poll |
| `Deliveries.FailuresTracked` | db/sqlc/alerts.sql.go:664-702 | for any initial attempt a, recorded failures, counted in the attempt column, and a sending are at most max(1, M - a), and the dispatches are these and one for each lost mark |
| `Deliveries.DispatchesBounded` | db/sqlc/alerts.sql.go:131-139 | a new delivery is dispatched at most max(1, M - 1) times, the successful dispatch included, and once more for each mark that was lost |
| `Deliveries.BoundIsMet` | db/sqlc/alerts.sql.go:664-702 | every number of failures up to the bound occurs, with any number of lost marks on top |
| `Deliveries.RankDecreases` | db/sqlc/alerts.sql.go:664-702 | every change of a row lowers its rank |
| `Deliveries.CycleEnds` | db/sqlc/alerts.sql.go:664-702 | every run changes a row at most rank-many times, and never a sent one |
| `Deliveries.EveryDeliveryBounded` | internal/worker/notification.go:111-217 | in every run of polls and retries over the table, recorded failures and a sending together stay within the bound, and the dispatches exceed them by the lost marks |
| `Deliveries.SecondMarkUndoesSent` | db/sqlc/alerts.sql.go:664-692 | two workers that listed the same row can turn it from sent to failed |

## Left out

- Reason, summary and error texts, positions in error messages, JSON encoding and logging.
- Extraction of user fields from request data: the user record is an input, and what of an inactive user's reason text matters is a parameter.
- Floating point: domain numbers are exact reals, number texts out of the float range are not rejected, and NaN and infinities are absent. The scores of the rate limiter are the exception.
- Strings are sequences of bytes; lower-casing is ASCII only; the default text form used to compare unlike values is a parameter.
- `child_of` and `parent_of` are always true, as in the code; their hierarchy is not modelled.
- AclPipeline.RunStages: stages are returned as lists and joined, where the source appends to one slice of the pipeline object; the shared slice of rule results is modelled in place.
- Groups are identified by environment and signature instead of generated ids; message, module, model and error type columns are carried along without effect and are not modelled.
- ErrorGroups.Store.AppendAffectedUsers: the order of the merged array is not that of the database.
- Commands of one Redis call are one step at one instant, except the read and the write of a session refresh; interleaving of clients within a call is not modelled.
- Retention.NoOrphans, Retention.OrphansExactly and Retention.DanglesExactly: environments of the tenant are fixed between listing and deletion.
- RateAdmission.DeployedWindowAdmitsLimit, and the other results on float64 scores: windows up to 2^59 nanoseconds (18 years) and instants between 2^60 and 2^61 (2006 to 2043).
- LoginLockout.EightPerWindow: logins whose lookup of the lock succeeds; `LoginLockout.Attempts.Login` has the other case.
- Deliveries.EveryDeliveryBounded: a single worker; the batch size and the order of the listing do not matter to it and are not modelled.
- Publish/subscribe, token blacklists, the other tables and queries, HTTP handlers, configuration, the agent and the remaining workers: they would only add easy members.

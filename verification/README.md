# A verified model of pg-canary

pg-canary seeds rows as an owner, attacks them as an adversary inside one PostgreSQL transaction, and reports whether row
level security held. This project models the parts of it that decide what a report says, and proves what the reports mean.

| module | models |
|---|---|
| `Fixtures` | the fixture planner, Kahn's algorithm with a re-sorted ready list |
| `Redaction`, `RedactionExact`, `RedactionText` | what a published report may still contain, and what redaction does to a text |
| `WorkerPool` | the barrier-started worker pool, as a protocol of interleaved steps |
| `SqlSyntax`, `SqlSafe` | the SQL text, the reader a server applies to it, and the statement builders |
| `Postgres` | the server side of one transaction: rows, policies, role, settings, savepoints, the aborted state |
| `Harness` | the savepoint harness over that transaction |
| `SessionConfig`, `Seeder`, `Control`, `Attacks`, `Evaluate`, `Preflight`, `GateReport`, `Runner` | one run, step by step |
| `Isolation` | what `pass` and `fail` imply |
| `FixtureKeys`, `ProfileValidation`, `Diagnoses`, `Accepted` | fixture keys, the profile validator, what its report says, and what acceptance buys a run |
| `Exactness`, `Failure` | when a run passes, and when it fails, in terms of the policies alone |
| `Wrappers`, `Text`, `Ordering`, `Domain` | shared types, text, sorting and data contracts |

The code is modelled in its own form: methods with loops, and classes for the transaction, the gate's findings and the
validator's diagnostics. Each method is proved equal to a specification function or predicate, and the theorems are about
those. Maps are walked in an arbitrary order (`:|`), so no result depends on the order.

The central results:

- `Fixtures.Plan` returns the lexicographically least topological order, or the cycle error exactly for cyclic graphs.
- `Exactness.PassExactly`: for an accepted profile and a server that refuses nothing but what its policies forbid, the
  verdict is `pass` if and only if the policies isolate every attacked row and at most one insert is attempted, in the
  last attack. `Failure.FailExactly` does the same for `fail`: something is exposed, every owner sees its row, no update
  is refused for what it would make of a row, and a forbidden insert comes once and last. Without that assumption on the
  server, `Isolation.PassIsolates`, `Isolation.PassChangesNothing`, `Isolation.PassRejectsAtMostOnce` and
  `Isolation.PassRefusesInserts` say what every `pass` implies.
- `Isolation.FailIsAccess`: behind every `fail` of a profile with supported operations stands an entry of the run's log,
  the built statement of a listed operation, accepted in the adversary's context, that reached a stored row or whose row
  the policy admitted. `Isolation.LeaksAreAccessesIff` says exactly when every leak behind a `fail` is such an access.
- `Harness.StepIsPlain` and `Harness.RunIsPlain`: the savepoint harness refines a fold that skips failing operations.
  `Harness.RunErrorIsExact` says which error a run returns, and when it returns none.
- `Runner.RunEndsRightly`: every run ends with the report or the error of the phase that ended it.
  `Preflight.OutcomeIsExact` says when the gate passes, blocks or leaves a run in doubt, privilege by privilege, and
  `GateReport.FindingsAreInOrder` what it reports.
- `Redaction.HidingIsExact`, `RedactionExact.OneValueHidingIsExact`, `Redaction.UrlRemovalIsExact`,
  `Redaction.RedactionIsIdempotent`. `RedactionText.UrlIsRemovedWhole` and `RedactionText.ValueIsRemoved` say which
  characters go; all others stay.
- `ProfileValidation.Validate` has one result for all map orders, and `ProfileValidation.AcceptedIsWellFormed` says which
  profiles it accepts. `Diagnoses.ReportIsExact`: the report has one line for each thing that is wrong, and no other.
  `FixtureKeys.KeyIsExact` says exactly when a fixture key belongs to one choice of values.

Where the code and its documents differ, the model follows the code:

- docs/architecture.md:75-80 and docs/project-overview.md:103-105 promise a savepoint for each attack. The runner takes
  none. `Isolation.RefusalEndsRun` and `Exactness.TwoInsertsNeverPass` prove what follows: after a refused statement the
  next attack cannot be configured, and a profile with inserts under two attacks can never pass against secure policies.
- internal/harness/harness.go:14-15 says an operation's error cannot abort later work. `Harness.SilentAbortIsFatal` is the
  exception: an operation that returns nil on a transaction it has aborted ends the run.
- internal/evaluate/evaluate.go:36-40 takes evidence that is neither denied nor failed for an access. For an operation
  outside the supported four nothing is sent and the evidence is blank, so `fail` is reported on secure policies
  (`Failure.SomeFalseAlarm`); validation is what keeps such operations out.
- internal/evaluate/evaluate.go:31-35 takes an update that its policy refuses (internal/attacks/run.go:61-63) for an
  unclear error, which takes the `fail` away from a run whose other operations got through (`Failure.SomeLeakIsHidden`).
- internal/attacks/run.go:95-103 counts a lost insert as denied, so a `pass` does not show that an insert was refused, only
  that it was refused or never arrived (`Isolation.PassRefusesInserts`, `Attacks.InsertDenialIsExact`).
- internal/evaluate/evaluate.go:22-30 checks coverage by operation only; `Isolation.PassCovers` proves it by table and
  operation for every `pass` of the runner.

## Model

| member | source | states |
|---|---|---|
| Fixtures.IndexNames | internal/fixtures/plan.go:20-29 | refuses exactly the first empty or repeated name, else an index of every node by its name |
| Fixtures.Link | internal/fixtures/plan.go:30-38 | counters equal each node's dependency count with repetition, child lists mirror them; or the first unknown dependency |
| Fixtures.InitiallyReady | internal/fixtures/plan.go:39-45 | the ready list is the sorted list of exactly the available nodes |
| Fixtures.Settle | internal/fixtures/plan.go:51-57 | after one emission counters again count the unemitted dependencies, and the list is exactly the available nodes, sorted, each once |
| Fixtures.Drain | internal/fixtures/plan.go:46-58 | ends with the least topological order of all nodes, or short of them only when the graph has a cycle |
| Fixtures.Plan | internal/fixtures/plan.go:16-63 | every outcome of the planner: the first name or dependency error, the cycle error for a cyclic graph, or a least topological order that is a permutation of the input |
| Fixtures.GreedyIsLeast | internal/fixtures/plan.go:45-58 | always taking the least available name gives the lexicographically least of all topological orders |
| Fixtures.TopologicalIsAcyclic | internal/fixtures/plan.go:59-61 | a graph with a topological order has no cycle, self-dependencies included |
| Fixtures.StuckIsCyclic | internal/fixtures/plan.go:59-61 | when every remaining node waits for a remaining node there is an actual cycle |
| Fixtures.CycleErrorIffCyclic | internal/fixtures/plan.go:30-61 | for unique non-empty names and known dependencies the cycle error appears if and only if the graph has a cycle |
| Fixtures.LeastIsUnique | internal/fixtures/plan.go:14-16 | there is only one least topological order, so the result is deterministic |
| Fixtures.PlanIgnoresListing | internal/fixtures/plan.go:14-16 | two listings of the same graph, nodes and dependencies in any order and multiplicity, give the same verdict and the same names |
| Redaction.Redact | internal/domain/report_json.go:52-60 | the loop computes one URL pass, then one pass per non-empty sensitive value in list order |
| Redaction.RedactFindings | internal/domain/report_json.go:24-30 | target, message and detail of every finding are redacted, code and severity kept |
| Redaction.RedactOperations | internal/domain/report_json.go:31-37 | table, template and error of every operation are redacted, the rest kept |
| Redaction.MarshalFields | internal/domain/report_json.go:13-50 | the published fields are the report's with every free text redacted |
| Redaction.RedactionHides | internal/domain/report_json.go:52-60 | if no sensitive value can share a character with a marker, none occurs in the output, for every text and list order |
| Redaction.BracketFreeIsClear | internal/domain/report_json.go:56 | a bracket-free value meets the marker exactly when it is part of the word REDACTED |
| Redaction.HidingIsExact | internal/domain/report_json.go:54-58 | for bracket-free lists: all texts come out clean if and only if no value is part of the word REDACTED |
| RedactionExact.PassHidingIsExact | internal/domain/report_json.go:54-58 | for any one value, brackets or not: its pass hides it in every text if and only if it cannot be put back, that is, it cannot begin inside a marker, nor take in a marker after characters that stay |
| RedactionExact.OneValueHidingIsExact | internal/domain/report_json.go:52-60 | the whole redaction hides a value in every text if and only if the value cannot come back into a text without URLs; for a value without a colon that is what its own pass cannot put back |
| RedactionExact.DoubleBracketIsHidden | internal/domain/report_json.go:54-58 | the value `[[` can touch a marker and is still never put back |
| RedactionExact.UrlHides | internal/domain/report_json.go:52-60 | a value that its own pass puts back, but that no text leaks, since the text would hold a URL |
| Redaction.MarkerPartLeaks | internal/domain/report_json.go:54-58 | a listed value that is part of the marker is put back by its own replacement |
| Redaction.BracketLeaks | internal/domain/report_json.go:54-58 | the value `a[` leaks from `aa[`: the marker's bracket completes it |
| Redaction.RedactionRemovesUrls | internal/domain/report_json.go:9 | no match of the database URL pattern is left when every value is safe, replacing around a marker forms no new one |
| Redaction.UrlRemovalIsExact | internal/domain/report_json.go:52-60 | for one value: all texts come out free of URLs if and only if the value is safe |
| Redaction.RedactionIsIdempotent | internal/domain/report_json.go:52-60 | redacting a redacted text changes nothing |
| Redaction.PublishedIsClean | internal/domain/report_json.go:11-13 | no published text field shows a sensitive value or a database URL |
| RedactionText.UrlIsRemovedWhole | internal/domain/report_json.go:9-53 | the first URL of a text, a scheme in either case and the whole run of characters after it up to white space, a quote or the end, becomes the marker; what is before it stays, what is after it is redacted on its own |
| RedactionText.NoUrlStays | internal/domain/report_json.go:53 | a text in which no URL begins comes out unchanged |
| RedactionText.PasswordGoes | internal/domain/report_json.go:9 | a worked example: a quoted URL with a password, in capitals |
| RedactionText.ValueIsRemoved | internal/domain/report_json.go:54-58 | values go in list order: the last one's occurrences in what the others leave, cut from left to right, become markers, and the pieces between them stay; an empty value does nothing |
| RedactionText.CleanReportIsKept | internal/domain/report_json.go:23-49 | a report of clean texts is published as it is, every text in its own field, the list of values withheld |
| WorkerPool.InvStep | internal/concurrency/probe.go:17-35 | the pool's invariant survives every step of every thread |
| WorkerPool.NoProbeBeforeAllSpawned | internal/concurrency/probe.go:17-33 | in every interleaving, when a probe has started every worker has been spawned |
| WorkerPool.AtMostOneAppends | internal/concurrency/probe.go:27-29 | in every reachable state at most one worker is between lock and unlock |
| WorkerPool.ReturnsEveryError | internal/concurrency/probe.go:12-35 | on return every worker has ended, each id ran its probe once, and the errors are the multiset of the probes' non-nil results; with fewer than one worker the one error is the pool's own and nothing ever runs |
| WorkerPool.MeasureFalls | internal/concurrency/probe.go:21-34 | every step lowers a natural number |
| WorkerPool.RunsAreBounded | internal/concurrency/probe.go:21-34 | every run ends within a bound linear in the number of workers |
| WorkerPool.NeverStuck | internal/concurrency/probe.go:21-34 | no reachable unfinished state is stuck |
| SqlSafe.Identifier | internal/sqlsafe/sql.go:15-25 | the quoted name exactly for lowercase identifiers of at most 63 bytes, else the error |
| SqlSafe.Qualified | internal/sqlsafe/sql.go:26-36 | both quoted names, or the first bad one's error |
| SqlSafe.PredicateOffset | internal/sqlsafe/sql.go:114-133 | the joined conditions numbered from the offset and the values in key order, or the first key's error |
| SqlSafe.Select | internal/sqlsafe/sql.go:37-48 | the SELECT statement of the key, or the first error in the code's order |
| SqlSafe.Delete | internal/sqlsafe/sql.go:49-60 | the DELETE statement of the key, or the first error in the code's order |
| SqlSafe.Update | internal/sqlsafe/sql.go:61-84 | the UPDATE statement with the mutation as first argument, or the first error in the code's order |
| SqlSafe.Insert | internal/sqlsafe/sql.go:85-110 | the INSERT statement with names, placeholders and values aligned, or the first error in the code's order |
| SqlSafe.KeyStatementsMeanKey | internal/sqlsafe/sql.go:37-60 | SELECT and DELETE text parse back to schema, table, columns and placeholder numbers; with the arguments bound, the filter holds of a row exactly when every key column equals its configured value |
| SqlSafe.UpdateMeansKey | internal/sqlsafe/sql.go:61-84 | UPDATE text parses back to its one column set from `$1` and a filter from `$2` on, which means the configured key |
| SqlSafe.InsertMeansRow | internal/sqlsafe/sql.go:85-110 | INSERT text of a whole map parses back and stores exactly the configured row |
| SqlSafe.TextIgnoresValues | internal/sqlsafe/sql.go:37-110 | statement text does not depend on the values bound to it |
| SqlSafe.ErrorsAreFirst | internal/sqlsafe/sql.go:15-110 | a statement that cannot be built fails for the schema, then the table, then the mutation, and then names the first column that is no identifier or has no value |
| Text.LongIdentifiers | internal/sqlsafe/sql.go:15-18 | 63 bytes are not too long for an identifier, 64 are |
| Text.ShortIdentifiers | internal/sqlsafe/sql.go:19-24 | no digit begins an identifier; capitals, signs and quotes have no place in it |
| SqlSyntax.WhereRead | internal/sqlsafe/sql.go:114-133 | a rendered key filter of any length, with multi-digit placeholders, reads back as its columns and numbers |
| SqlSyntax.SearchPathRead | internal/session/configure.go:22 | the search path statement reads back as its schema |
| SqlSyntax.RoleRead | internal/session/configure.go:25 | the role statement reads back as its role |
| Postgres.Transaction.Exec | internal/attacks/run.go:30-66 | one statement on the transaction: accepted, refused (which aborts), refused with 25P02 once aborted, or never delivered |
| Postgres.Transaction.Rollback | internal/runner/runner.go:39-43 | the outer rollback restores the session at BEGIN, or fails |
| Postgres.SelectStatementRuns | internal/attacks/run.go:23-39 | an accepted key SELECT changes nothing and returns rows exactly when a stored row has the key and is visible |
| Postgres.DeleteStatementRuns | internal/attacks/run.go:40-53 | an accepted key DELETE affects rows exactly when it reaches one, and otherwise disturbs nothing |
| Postgres.UpdateStatementRuns | internal/attacks/run.go:54-67 | an accepted key UPDATE affects rows exactly when it reaches one, and otherwise disturbs nothing |
| Postgres.InsertStatementRuns | internal/attacks/run.go:89-94 | an INSERT is accepted only on an active transaction whose policy admits that very row |
| Harness.Perform | internal/harness/harness.go:33 | an operation run against the transaction is the operation's statements in turn |
| Harness.RunLoop | internal/harness/harness.go:28-43 | savepoint, operation, rollback on its error and release, until a fatal error; each operation starts where the specification says |
| Harness.Run | internal/harness/harness.go:17-45 | begin, the loop, and the deferred rollback joined to the loop's error on every path; the error is the one that `RunErrorIsExact` says |
| Harness.StepIsPlain | internal/harness/harness.go:29-42 | an iteration is not fatal exactly when its savepoint commands arrive and a nil result leaves no aborted transaction; then it equals running the operation bare, or undoing it on its error, even when it left savepoints behind |
| Harness.RunIsPlain | internal/harness/harness.go:28-43 | a run without a fatal error is the fold of the operations with failing ones skipped, and the errors are exactly theirs in order |
| Harness.RunIsPlainUntilFatal | internal/harness/harness.go:28-43 | up to a fatal iteration the run is that fold, and the errors are the fold's in order, then at most the fatal operation's own |
| Harness.OperationsStartActive | internal/harness/harness.go:28-43 | in every run, whatever its operations do, each operation that is started starts on an active transaction |
| Harness.SilentAbortIsFatal | internal/harness/harness.go:33-42 | an operation that returns nil but leaves the transaction aborted stops the run at its release |
| Harness.EveryExitRestores | internal/harness/harness.go:22-44 | the loop never closes the transaction early, so every exit ends in a rollback to the session at BEGIN, or returns the rollback's failure |
| Harness.RunErrorIsExact | internal/harness/harness.go:17-45 | the error is nil if and only if the transaction began, every iteration succeeded and the outer rollback arrived; otherwise it is how the first iteration that did not succeed ended (savepoint lost, rollback lost, release lost or refused), joined with the outer rollback's failure if that was lost too |
| Harness.StepSends | internal/harness/harness.go:29-42 | an iteration's own commands name `pg_canary_n`: the savepoint first, after an error the rollback, the release last |
| SessionConfig.Configure | internal/session/configure.go:13-39 | both identifier checks, then search path, role and the settings in name order, up to the first failure |
| SessionConfig.ConfiguredOverlays | internal/session/configure.go:22-38 | success means an active transaction whose settings are the identity's laid over the existing ones, whatever the map order |
| SessionConfig.ConfigureTells | internal/session/configure.go:13-39 | a name that is no identifier, the schema first, stops it with nothing sent; else search path, role and the settings by name are sent in order up to the one that fails, and the failure names that one |
| Seeder.Seed | internal/seeder/seeder.go:17-35 | fixtures inserted in profile order up to the first failure, the last row of each table remembered |
| Seeder.SeedSucceeds | internal/seeder/seeder.go:17-35 | a successful seeding had every statement accepted and changed nothing but tables |
| Seeder.SeedTells | internal/seeder/seeder.go:17-35 | the inserts of the first fixtures were accepted in order; a failure belongs to the next fixture, whose insert could not be built or was refused, and nothing is sent after it |
| Seeder.OwnerIsLast | internal/seeder/seeder.go:32 | the remembered row of a table is its last fixture's |
| Control.Verify | internal/control/control.go:12-26 | the control succeeds exactly when the built query is answered with at least one row |
| Control.VerifiedObserves | internal/control/control.go:17-25 | a successful control saw a stored row with the configured key, and left the transaction as it was |
| Attacks.Run | internal/attacks/run.go:14-73 | evidence of every operation but the inserts, in order, each against the transaction its predecessors left |
| Attacks.RunOne | internal/attacks/run.go:20-70 | one pass of the switch, unsupported operations leaving blank evidence |
| Attacks.InsertOne | internal/attacks/run.go:75-105 | the insert's evidence, denied on 42501 and on any error that is not the server's |
| Attacks.AttemptMeans | internal/attacks/run.go:22-68 | denied means accepted and nothing reached or disturbed; not denied without an error means a row was reached |
| Attacks.InsertMeans | internal/attacks/run.go:89-104 | denied means never sent or refused with 42501; not denied without an error means the policy admits the row |
| Attacks.AttemptIsAccess | internal/attacks/run.go:22-68 | a leak of a supported operation is the statement just sent, accepted, with as many rows as the evidence reports and a reached row; an unsupported operation always leaves a leak, with nothing sent |
| Attacks.InsertIsAccess | internal/attacks/run.go:89-94 | a leak of an insert is the insert just sent, accepted, whose row the policy admits |
| Attacks.InsertDenialIsExact | internal/attacks/run.go:89-104 | an insert is denied exactly when it was built and was lost or refused with 42501; the denial is the server's exactly when it was delivered |
| Attacks.EvidenceIsExact | internal/attacks/run.go:22-68 | a read, update or delete leaves its table, operation, template, count and error as the reply to its one statement has them; nothing is recorded of a statement that cannot be built but the error |
| Attacks.InsertEvidenceIsExact | internal/attacks/run.go:75-105 | an insert's evidence carries the server's own error code, is denied for 42501 and for an insert that never arrived, and counts what was inserted |
| Evaluate.Outcome | internal/evaluate/evaluate.go:5-42 | blocked, inconclusive, fail and pass by severity, controls, coverage, unclear errors and denials, in that precedence |
| Preflight.Check | internal/preflight/gate.go:19-75 | the gate's findings in order; they are exactly its concerns, and the outcome is blocked, inconclusive or pass as `OutcomeIsExact` says |
| Preflight.RequiredPrivileges | internal/preflight/gate.go:79-94 | the owner's two privileges, then the adversary's for each supported operation |
| Preflight.GateIsExact | internal/preflight/gate.go:19-75 | the gate passes if and only if every one of its conditions holds, triggers and rules among them |
| Preflight.RequirementsAreNeeds | internal/preflight/gate.go:79-94 | the privileges asked for are INSERT and SELECT for the owner, and for the adversary SELECT, UPDATE, DELETE or INSERT for each such operation listed, and no other |
| Preflight.FindingsAreConcerns | internal/preflight/gate.go:19-75 | a finding is reported exactly when its condition holds, with its code, severity, target and message |
| Preflight.OutcomeIsExact | internal/preflight/gate.go:19-75 | blocked exactly when a blocking condition holds; else inconclusive exactly when a table cannot be inspected or a privilege is missing; else pass |
| GateReport.FindingsAreInOrder | internal/preflight/gate.go:19-75 | the findings are one for each place of the gate that speaks against the run, in the order in which the gate looks: configuration, login, roles, then attack by attack its table, owners, effects and privileges |
| Runner.RunAttack | internal/runner/runner.go:53-71 | one attack: owner context, control, adversary context, operations, then inserts |
| Runner.RunMatrix | internal/runner/runner.go:51-71 | all attacks in order, ended by a failed configuration |
| Runner.RequiredOperations | internal/runner/runner.go:72-75 | every operation of every attack, in order |
| Runner.RunInTransaction | internal/runner/runner.go:44-81 | configure, seed, attack and judge, or the first error |
| Runner.Execute | internal/runner/runner.go:18-82 | the whole run with its early exits and the deferred rollback |
| Runner.RunEndsRightly | internal/runner/runner.go:18-82 | open, login, gate, begin, configuration, seeding, attacks: the report or the error of the phase that ended the run, with findings, server, evidence and outcome; a lost outer rollback takes the place of any error and keeps the report |
| Runner.ErrorIffIncomplete | internal/runner/runner.go:18-82 | no error if and only if there is a report and the transaction, if one was begun, was rolled back |
| Runner.MatrixEnds | internal/runner/runner.go:53-64 | the first attack at which a configuration fails ends the run with that failure, and no later attack is tried |
| Runner.VerdictFits | internal/evaluate/evaluate.go:5-42 | after the gate: inconclusive exactly when a control failed, a listed operation has no evidence, there is none, or an error is no denial; else pass exactly when all is denied, else fail |
| Isolation.PassChangesNothing | internal/runner/runner.go:51-71 | if the verdict is `pass`, the tables just before rollback are the tables just after seeding |
| Isolation.PassIsolates | internal/runner/runner.go:51-76 | if the verdict is `pass`, each attack has a stored row with the key that its owner context sees, and no stored row with the key can be reached by the attack's operation in the adversary context |
| Isolation.PassRejectsAtMostOnce | internal/runner/runner.go:53-70 | a passing run has at most one refused statement, an insert with 42501 in the last attack, and nothing is accepted after it |
| Isolation.AdversaryContextIsFixed | internal/runner/runner.go:44-64 | the adversary context is the same at every attack: base, then owner, then adversary settings |
| Isolation.NoOwnerValueLeft | internal/runner/runner.go:55-64 | the adversary's context at every attack is the base with the adversary settings alone if and only if each owner setting that the adversary does not name was in the base with that value; so it is when the adversary names them all |
| Isolation.FailIsAccess | internal/evaluate/evaluate.go:11-41 | `fail` on supported operations means every control succeeded, no evidence was unclear, and reported evidence is backed by a log entry: the built statement of a listed operation, accepted in the adversary context, that returned or affected rows and reached a stored row with the key, or an insert the policy admitted |
| Isolation.LeakIsAccess | internal/attacks/run.go:29-67 | so does every single undenied, error-free evidence of a supported operation in a failing run |
| Isolation.LeaksAreAccessesIff | internal/evaluate/evaluate.go:36-40 | in a failing run every leak is such an access if and only if the profile lists supported operations only |
| Isolation.PassRefusesInserts | internal/attacks/run.go:95-103 | each attack of a `pass` that lists an insert has its own insert in the log, in the adversary context, refused with 42501 or never delivered |
| Isolation.EvidenceIsComplete | internal/runner/runner.go:65-70 | when every control succeeds, the evidence is each attack's operations, inserts moved last, in order |
| Isolation.EvidenceFollowsControls | internal/runner/runner.go:53-70 | a control that fails costs its own attack's evidence and no other: the evidence is, in order, the operations of the attacks whose controls succeeded |
| Isolation.PassCovers | internal/evaluate/evaluate.go:22-30 | a `pass` has denied evidence for every operation of every table |
| Isolation.RefusalEndsRun | internal/runner/runner.go:53-64 | once the server has refused a statement, a next attack cannot be configured and there is no verdict |
| ProfileValidation.CheckIdentifier | internal/profile/validate.go:191-207 | accepts exactly what the statement builder's own check accepts |
| ProfileValidation.CheckSettingName | internal/profile/validate.go:209-220 | accepts exactly two or more identifiers joined by dots |
| FixtureKeys.FixtureKey | internal/profile/validate.go:179-189 | the joined key parts, or none when a key column is missing |
| FixtureKeys.KeyIsExact | internal/profile/validate.go:179-189 | no row with other values has the same key if and only if the row is unambiguous: no key text holds a NUL followed by a printed value (`type:...` to the end of the text, or just `<nil>:<nil>`) while some key column but the last, not nil, could take in the part after it |
| FixtureKeys.OneColumnIsExact | internal/profile/validate.go:179-189 | with one key column keys agree exactly when values do, for every text |
| FixtureKeys.NoNulIsExact | internal/profile/validate.go:179-189 | without NULs in the key texts keys agree exactly when the values do, for any number of columns |
| FixtureKeys.KeyCollides | internal/profile/validate.go:186-188 | a family of rows that differ in a key column and have the same key |
| ProfileValidation.ValidateIdentity | internal/profile/validate.go:155-164 | a diagnostic for a bad role and one for each bad setting name, in any map order |
| ProfileValidation.ValidateColumns | internal/profile/validate.go:166-177 | a diagnostic for each column that is no identifier and each that repeats an earlier one |
| ProfileValidation.ValidateFixtures | internal/profile/validate.go:61-84 | the diagnostics of every fixture, and the table index |
| ProfileValidation.ValidateAttacks | internal/profile/validate.go:86-116 | the diagnostics of every attack, and the first attack on each table |
| ProfileValidation.ValidateTables | internal/profile/validate.go:118-141 | the diagnostics of missing attacks, missing key columns and repeated keys, for every order of the tables |
| ProfileValidation.Validate | internal/profile/validate.go:43-153 | nothing is returned exactly when nothing is wrong; otherwise the one sorted list of everything wrong, for every map order |
| ProfileValidation.OneReport | internal/profile/validate.go:146-152 | every sorted arrangement of the diagnostics is the same list, so an unstable sort does no harm |
| ProfileValidation.AcceptedIsWellFormed | internal/profile/validate.go:43-145 | nothing is wrong if and only if the profile is well formed: names, unique tables, references both ways, key columns present, keys distinct |
| ProfileValidation.ReportIsOrdered | internal/profile/validate.go:146-152 | the report ascends by path, and at one path by message |
| ProfileValidation.DotIsNeeded | internal/profile/validate.go:209-220 | a setting name has a dot, and two identifiers joined by one are a setting name |
| Diagnoses.ReportIsExact | internal/profile/validate.go:43-153 | the report is one line, path and message, for each thing that is wrong: every kind of problem with its condition, written out apart from the validator's own lists |
| Diagnoses.LinesAreCounted | internal/profile/validate.go:43-153 | a line is there as often as there are problems that it tells of |
| Diagnoses.IndicesAreExact | internal/profile/validate.go:93-139 | a repeated key or table is reported against the first fixture or attack that has it, and a missing key column or attack where it is missing, and only so |
| Diagnoses.LineTells | internal/profile/validate.go:93-139 | such a line tells of one problem only, so that its indices can be relied on |
| Accepted.FixturesDiffer | internal/profile/validate.go:127-140 | fixtures of one table differ in some key column |
| Accepted.AimedAtLastFixture | internal/seeder/seeder.go:32 | the row an attack is aimed at is its table's last fixture, with every key column |
| Accepted.StatementsBuild | internal/sqlsafe/sql.go:37-60 | every seed insert, control select, and select or delete attack can be built |
| Accepted.AcceptedRunsBuild | internal/runner/runner.go:44-64 | a run of an accepted profile never ends for a name or row it cannot put into a statement |
| Exactness.PassExactly | internal/runner/runner.go:18-82 | for an accepted profile on a server that refuses only by policy: `pass` if and only if the policies isolate every attack, updates and inserts can be built, and at most one insert comes, in the last attack |
| Exactness.SomeTargetPasses | internal/runner/runner.go:18-82 | there are a profile with all four operations and a target that meet all the assumptions and pass, so no theorem about `pass` is vacuous |
| Failure.FailExactly | internal/runner/runner.go:18-82 | for a well shaped profile on a server that refuses only by policy: `fail` if and only if the statements can be built, every owner sees its row, the update policy admits as mutated every row that an attack's first update finds, a forbidden insert comes once and last, and some attack reaches a row, has its insert admitted, or lists an unsupported operation |
| Failure.SomeTargetFails | internal/runner/runner.go:18-82 | there are an accepted profile with all four operations and a target whose update policy refuses rows of others that fail on a real access, so no theorem about `fail` is vacuous |
| Failure.SomeLeakIsHidden | internal/evaluate/evaluate.go:31-35 | there are an accepted profile and such a target where a select returns the owner's row, and a refused update leaves the run neither `fail` nor `pass` |
| Failure.SomeFalseAlarm | internal/evaluate/evaluate.go:36-40 | there are a profile with an unsupported operation and a target with secure policies that fail with nothing sent |
| Exactness.TwoInsertsNeverPass | internal/runner/runner.go:53-70 | with inserts under two attacks no such run passes |

## Left out

- Redaction.RedactionRemovesUrls: for lists the condition is sufficient only; an earlier value can hide an unsafe later one, so the exact condition is given for one value (UrlRemovalIsExact).
- Redaction.HidingIsExact: exact among bracket-free lists; for lists with brackets RedactionHides gives a sufficient condition, and RedactionExact.PassHidingIsExact the exact one for a single value.
- FixtureKeys.KeyIsExact: a value is known by its dynamic type and its printed form, so two composite values that print alike (`[a b]` from one or two elements) are one value here, and their collision is not seen.
- Failure.FailExactly: assumes, like Exactness.PassExactly, that every statement arrives and only policies refuse; what every `fail` shows without that is in Isolation.
- Exactness.PassExactly: assumes every statement arrives and only policies refuse; privileges, constraints and lost connections are in the one-way results of Isolation.
- Harness.StepIsPlain: an operation sends a bounded number of statements of any form and sees replies as counts and states only; it does not name the harness's current savepoint, and does not commit or close the transaction.
- WorkerPool.ReturnsEveryError: a probe is one step that returns; a probe that hangs or panics is not modelled.
- Isolation.PassIsolates: assumes the catalog reports triggers and rules truthfully.
- Policies are fixed predicates on context and row; their composition, sequences, foreign keys and external effects are not modelled, except that triggers and rules may change any table, and that the server may refuse a statement on any other ground.
- The server reads the SQL forms that the program emits; what a statement in any other form does to the session is a parameter, but it can neither touch savepoints nor end the transaction.
- Attacks.AttemptMeans: a query fails at once or delivers its whole result, because internal/attacks/run.go:34-38 never reads the error left on the rows.
- An error that is not the server's counts as a statement never sent; internal/attacks/run.go:95-103 leaves such an insert denied, and so does the model.
- Durations, clocks, contexts and timeouts, which decide no verdict.
- Opening the connection, the login query, BEGIN and the catalog are parameters of a run; a failed membership query is an empty list.
- Unicode letter and digit tables are left unspecified outside ASCII; strings are sequences of characters, so invalid UTF-8 is not modelled.
- The wording of errors is not modelled beyond being non-empty, nor the escapes of quoted values in them.
- YAML decoding, JSON encoding, exit codes, report presentation, views, functions, PostgREST and advisory modules.

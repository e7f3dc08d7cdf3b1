# Security portal: verified models

This project models the parts of the security portal whose correctness depends on state, order
or recursion, and proves what they promise. `dafny verify dfyconfig.toml` checks all of it.

## The two-person automation workflow

A privileged action (renew a certificate, revoke a lease, rescan) is requested once, approved by
two people other than the requester or rejected by one, expires when nobody acts in time, and is
dispatched at most once, no closer than a cooldown to the previous dispatch of the same action on
the same target. Every change writes one row of an append-only, hash-chained audit table. The
workflow is modelled at two levels that share one vocabulary.

- `Workflow` holds the request row, the six events that change it, the audit row each event
  writes, and `Replay`, an independent reading of the audit trail as a small automaton.
  `AuditChain` holds the chain, its checker and the migration of tables written before the chain
  existed, and `MigrationOutcomes` what that migration writes. `Creation` holds the draft of a
  request and the look-up by idempotency key. `Ledger` says what every permitted change keeps.
- `Service` is the atomic level: classes over the two tables whose methods begin, change the
  tables in place and commit or roll back. Each method is proved against a specification function
  of `ServiceSpec` and against the outcome that `ServiceOutcomes` states without those functions:
  by columns, audit rows, clock readings and literal texts, for every answer. `ServiceTheorems`
  proves what whole sequences of calls keep, `ServiceSpacing` that they keep dispatches a cooldown
  apart, and `ServiceDeadlines` what a deadline does and does not guarantee.
- `Machine` is the statement level: any number of transactions, each standing at one SQL statement
  of `create`, `get`, `approve` or `dispatch`, over read-committed tables with row locks, blocking
  unique keys, an advisory lock per dispatch scope (for any lock-number function, colliding ones
  included), unlocked and therefore stale reads in `get` and `create`, and a clock that is read
  several times per operation. A transaction may be lost at any statement. `MachineInvariant` states
  an invariant local to each transaction, `MachineProofs` and `MachineSafety` show that every
  statement of every interleaving keeps it, and `MachineTheorems` draws the conclusions. A run
  starts on any tables that satisfy the store invariant: empty ones, or what an earlier run left.
- `MachineRefinesService` joins the two levels: the committed tables of every interleaving are those
  that the transactions which committed a change produce when they run whole, one after another in
  commit order. Each of these calls has the transaction's own arguments, the clock readings it made
  and the dispatcher answer it got.
- `MachineAnswers` does the same for what callers are told: every transaction that returns or raises
  answers as its whole call would at some moment of its life, and unless it publishes something
  that call changes nothing. `MachineOutcomes` carries the literal outcomes over: each answer has the
  outcome of its operation at that moment, and a committed decision is the one asked for.

Clock readings are microseconds and may be any integers that do not decrease; stored times are the
whole seconds that `_iso` keeps. SHA-256 over an audit record is an arbitrary function; where it
matters, a theorem assumes that it has no collisions and never yields the genesis value or the empty
text. The payload hash, text redaction, lower-casing, the JSON text of audit details and the scope
lock number are arbitrary functions throughout, so nothing depends on redaction being idempotent: an
audit actor equals the row's actor up to one more redaction, which is how `Replay` compares them.
Environment variables, new ids and dispatcher answers are inputs of each call. SQLite's
`BEGIN IMMEDIATE` runs write transactions one at a time; those runs are among the machine's.

Behaviour worth knowing, stated by the code and kept here:

- an expiry made inside `approve` or `dispatch` is rolled back when the call then raises, so only
  `get`, `list` and a replayed `create` persist one (`DecidersNeverCommitExpiry`);
- expiry is checked once, so a dispatch that waits for its scope lock may be recorded after
  `expires_at` (`DispatchMayBeLate`); that happens exactly when the time of its audit row, and not
  that of its check, lies past the deadline (`LateExactlyByItsStamp`), and a request found past its
  deadline is never decided (`DeadlineRefuses`, `DecisionsAreCheckedInTime`);
- the cooldown query looks only at the latest earlier dispatch and at times cut to the second, and
  is still enough (`DispatchesAreSpaced`).

## The other components

- `SqlTranslator`: the `?` to `%s` scanner agrees with a quote-parity reading of the statement, and
  the `:name` substitution leaves no parameter behind.
- `VaultTree` describes the tree below a prefix by positions in listings and single-slash paths;
  `VaultLeases` proves the bounded stack traversal against it, in the order in which it reads.
- `PkiCollector`, with `Json` and `Ordering`: the mutually recursive export visitor and the canonical
  list of certificates. `PkiReach` says by chains of containers which records an export lists and
  what a record is read as, and that the list holds exactly those, cut in the order of the output.
- `Sanitizer`: depth and size bounds, secrecy, and when a second pass changes nothing. Being its own
  fixed point is false of the code, for three reasons: the cut at the text limit can leave a blank
  that the next pass strips (`CutCanLeaveABlank`); redaction can change a key or whether it is
  secret; and the truncation marker of an object on the last level, where it takes the place of a
  field that was kept, is cut itself (`MarkerCanBeCut`). `FixedPointIffSettled` gives the exact
  condition for every redaction function that leaves the marker's key `_truncated` alone.
  `SanitizerOutcomes` says what becomes of each part of a value and which values are left alone.
- `CaseStore`: the case as a replay of its audit trail, and the batched join against the per-case
  fetch. `CaseOutcomes`: what each write stores, column by column, and what a case shows.
  `CaseInterleaving`: writes that run beside each other leave and show every case as the same
  writes do in commit order.
- `OllamaGate`: the single slot, its release, and the spacing of admitted requests.
- `RiskScore`: weights, order, monotonicity and bounds of the aggregate score. Adding a signal can
  lower the score of fewer than five; `NeverLoweredIffItKeepsUp` says exactly when it cannot.

## Model

| member | source | states |
|---|---|---|
| `AuditChain.CheckTrail` | portal/backend/app/automation.py:976-998 | the loop reports a row valid exactly when it names the stored hash of the row before it (or genesis) and its own hash matches its contents |
| `AuditChain.LimitKeepsVerdicts` | portal/backend/app/automation.py:966-974 | reading only the first rows gives each of them the verdict it has in the whole trail |
| `AuditChain.HeadCommitsToHistory` | portal/backend/app/automation.py:141-164 | with a collision-free hash, two fully valid trails that end in the same hash are row for row equal, whatever their lengths |
| `AuditChain.AuditTable.Migrate` | portal/backend/app/automation.py:422-454 | the in-place pass with its per-request dictionary yields the recursively defined migrated table, for any table |
| `AuditChain.MigrationIsPerRequest` | portal/backend/app/automation.py:422-454 | however the table interleaves requests, each trail is migrated as if it were alone |
| `AuditChain.MigrationRepairsEveryTrail` | portal/backend/app/automation.py:422-454 | a request whose hashed rows come first and are linked has an unbroken chain afterwards |
| `AuditChain.MigrationKeepsColumns` | portal/backend/app/automation.py:442-453 | payload columns of all rows and every column of already hashed rows are unchanged |
| `MigrationOutcomes.MigrationFillsInEveryRow` | portal/backend/app/automation.py:428-453 | a row without a hash gets the hash of the row before it in its trail, or 64 zeros, the version it states or else 1, and the hash of all its columns |
| `AuditChain.MigrationIsIdempotent` | portal/backend/app/automation.py:434-454 | a second migration changes nothing |
| `Workflow.ExtendIsSound` | portal/backend/app/automation.py:734-799 | each event allowed by the guards keeps the row equal to the replay of its trail, the chain linked, the duties separated and the expiry timely |
| `Workflow.AppendKeepsEveryTrail` | portal/backend/app/automation.py:476-524 | the row inserted for one request keeps the chain of every request unbroken, on a migrated table or any other |
| `Workflow.TrailIsWord` | portal/backend/app/automation.py:476-524 | a trail that replays is one of nine action sequences of at most four entries, and its last action determines the status |
| `Workflow.DispatchEntryMeansDispatched` | portal/backend/app/automation.py:923-954 | a dispatch entry is the last entry of its trail and its request is dispatched |
| `Ledger.ChangeKeepsConsistency` | portal/backend/app/automation.py:476-558 | every permitted change keeps all requests sound, keys unique and no audit row without its request, keeps identity columns, only extends trails and leaves terminal requests alone |
| `MachineProofs.CommitKeepsWork` | portal/backend/app/automation.py:248-259 | under exclusive locks another transaction's commit cannot invalidate an uncommitted row, its audit entry or the hash it linked to |
| `MachineProofs.QuerySteps` | portal/backend/app/automation.py:828-846 | the latest dispatch row by id carries the greatest time of its scope, so checking it alone suffices |
| `MachineProofs.OwnStep` | portal/backend/app/automation.py:583-958 | every statement of the four operations re-establishes the local invariant of the transaction that runs it |
| `MachineSafety.CommitKeepsSpacing` | portal/backend/app/automation.py:897-958 | a commit keeps all dispatches of a scope a cooldown apart |
| `MachineSafety.StepRefinesLedger` | portal/backend/app/automation.py:244-259 | each step of each interleaving keeps the invariant and changes the committed ledger by nothing or by one permitted change with its audit row |
| `MachineTheorems.RunInv` | portal/backend/app/automation.py:583-958 | the invariant holds in every state of every run, whatever sound tables it starts on |
| `MachineTheorems.HistoryOnlyGrows` | portal/backend/app/automation.py:476-558 | along a run no request is lost or re-keyed and trails only grow |
| `MachineTheorems.TerminalIsForever` | portal/backend/app/automation.py:526-558 | a rejected, dispatched or expired request, its receipt and its trail never change again, though `get` acts on a stale row |
| `MachineTheorems.RowIsFoldOfItsTrail` | portal/backend/app/automation.py:476-524 | in every reachable state status, approvers and rejecter are the replay of the audit trail, whose chain is unbroken and whose actions form a word of the automaton |
| `MachineTheorems.AtMostOneExpiry` | portal/backend/app/automation.py:535-556 | concurrent lazy expiries leave at most one expiry row, and the request is then expired |
| `MachineTheorems.NobodyActsTwice` | portal/backend/app/automation.py:734-799 | in every reachable state approvers differ from the requester and each other, and a rejecter from the requester and any first approver |
| `MachineTheorems.DecidersNeverCommitExpiry` | portal/backend/app/automation.py:730-733 | no approval or dispatch ever commits an expiry |
| `MachineTheorems.DecisionsAreCheckedInTime` | portal/backend/app/automation.py:526-537 | no approval, rejection or dispatch commits unless its own check found the request within its deadline; its audit row has the time of a later reading |
| `MachineTheorems.NoInternalError` | portal/backend/app/automation.py:910 | the plan lookup never fails and a conflicting insertion always finds the conflicting row |
| `MachineTheorems.OneRowForEachKey` | portal/backend/app/automation.py:623-637 | at most one committed request per requester and key |
| `MachineTheorems.CreateReturnsTheOneRequest` | portal/backend/app/automation.py:597-669 | once a key has a request, every `create` for it that returns, on the look-up path or the conflict path, returns that request and had its payload |
| `MachineTheorems.DispatchesAreSpaced` | portal/backend/app/automation.py:818-855 | two dispatched requests with one action and target are at least the later one's cooldown apart in every reachable state, for any lock-number function |
| `MachineTheorems.NoWaitCycle` | portal/backend/app/automation.py:261-271 | rows are locked before scopes and no reachable state has a cycle of waiting transactions |
| `MachineTheorems.SomebodyCanRun` | portal/backend/app/automation.py:244-271 | while a transaction is alive, some transaction can take a possible step through its next statement |
| `MachineRefinesService.StepIsCallOrStutter` | portal/backend/app/automation.py:583-958 | a statement publishes exactly the effect and the answer of one whole call of the same operation, at the times the transaction read and with the dispatcher answer it got, or no effect |
| `MachineRefinesService.DispatchMayRun` | portal/backend/app/automation.py:818-855 | the cooldown check a dispatch passed while others were committing still passes, at the same clock reading, on the tables it commits to |
| `MachineRefinesService.RunIsSerial` | portal/backend/app/automation.py:583-958 | serializability: the committed tables of every run are produced by exactly the publishing transactions run whole in commit order, with their own clock readings and answers, each returning what it returned |
| `MachineAnswers.LatestAgrees` | portal/backend/app/automation.py:828-846 | the latest dispatch among all insertions is the latest one of the committed audit table |
| `MachineAnswers.StatementSees` | portal/backend/app/automation.py:583-958 | after each statement a transaction stands where an earlier state or the one it just looked at explains it, stale reads included |
| `MachineAnswers.EveryAnswerIsOfAWholeCall` | portal/backend/app/automation.py:583-958 | every transaction that returns or raises, replays and refusals included, answers as its whole call would on the committed tables of some moment of its life; unless it publishes, that call changes nothing |
| `MachineOutcomes.EveryAnswerHasItsOutcome` | portal/backend/app/automation.py:583-958 | every transaction that returns or raises has the literal outcome of its operation on the committed tables of some moment of its life; what it publishes is that outcome, and else the outcome changes nothing |
| `MachineOutcomes.CommittedDecisionIsTheOneAskedFor` | portal/backend/app/automation.py:718-801 | a committed rejection rejects, and a committed approval is the first of a request that waited for its first and the second of one that waited for its second, by an independent approver in time |
| `Service.Database.Exit` | portal/backend/app/database.py:98-104 | an exception restores both tables as they were at the beginning, a normal exit keeps them |
| `ServiceSpec.Prepared` | portal/backend/app/automation.py:590-622 | only canonical actions pass validation, and the lifetime lies between 300 and 86400 seconds |
| `Service.AutomationService.Audit` | portal/backend/app/automation.py:476-524 | appends one row linked to the last hash of its request |
| `Service.AutomationService.ExpireIfNeeded` | portal/backend/app/automation.py:526-558 | a due live request is expired with one audit row, any other is returned unchanged |
| `Service.AutomationService.Get` | portal/backend/app/automation.py:686-692 | an unknown request is not found; a stored one is returned as it is up to its deadline and expired, with one audit row, by the first look after it |
| `Service.AutomationService.Create` | portal/backend/app/automation.py:583-684 | a bad key or action is refused; a used key gives its stored request or a conflict; else exactly one row is stored, with the submitted texts redacted, the named action, and an expiry one settled lifetime after its creation, and one linked audit row |
| `Service.AutomationService.InsertOrResolve` | portal/backend/app/automation.py:637-669 | on whatever tables the insertion meets, key taken or not, it answers as a look-up at that moment would: the stored request, a conflict, or the new row with its audit row |
| `Service.AutomationService.Resume` | portal/backend/app/automation.py:606-614 | a stored request with the payload is returned after lazy expiry, any other payload is a conflict that changes nothing |
| `Service.AutomationService.Approve` | portal/backend/app/automation.py:718-801 | an independent approver of a pending request in time, and nobody else, succeeds: a rejection rejects, an approval is the first or the second according to the status, each with this approver, this time and one audit row of the matching action; every refusal changes nothing |
| `Service.AutomationService.PolicyBlocks` | portal/backend/app/automation.py:803-816 | what passes the policy is switched on, allowed and has a plan |
| `Service.AutomationService.CooldownActive` | portal/backend/app/automation.py:818-855 | active exactly when there is an earlier dispatch of the scope after which no other one was audited and which is less than the cooldown old |
| `Service.AutomationService.Send` | portal/backend/app/automation.py:910-955 | one plan is handed over, with the adapter and operation of the request's own action; a bad receipt or a failing dispatcher changes no table, a good one is recorded with its audit row |
| `Service.AutomationService.Dispatch` | portal/backend/app/automation.py:879-958 | every answer and its effect by literal conditions: the dispatcher is called exactly for an approved request in time that the policy permits outside a cooldown, with the plan of its action; the stored receipt carries its action, target, rollback strategy and the cooldown in force |
| `Service.AutomationService.ListAudit` | portal/backend/app/automation.py:960-999 | returns the first rows of the trail, each marked valid exactly when it is linked in the whole trail |
| `ServiceOutcomes.GetOutcome` | portal/backend/app/automation.py:686-692 | the specification of `get` has the literal outcome: not found, returned as stored, or expired past the deadline |
| `ServiceOutcomes.ApproveOutcome` | portal/backend/app/automation.py:718-801 | the specification of `approve` has the literal outcome for every row, decision and reading: which refusal, or which columns and which audit action |
| `ServiceOutcomes.PermitsIsPolicy` | portal/backend/app/automation.py:116-125 | what passes the policy: no kill switch, execution enabled, a known action, and when a list is configured a text of it that names this very action |
| `ServiceOutcomes.CooldownInForce` | portal/backend/app/automation.py:128-138 | the setting between one second and a day, cut to these bounds, and 300 seconds without a setting |
| `ServiceOutcomes.PlanFits` | portal/backend/app/automation.py:37-93 | each action goes with its own adapter and operation, and the plan names the request and its target |
| `ServiceOutcomes.DeliveryOutcome` | portal/backend/app/automation.py:921-954 | the dispatcher's answer decides: an error, a bad receipt for anything with unmanaged side effects, or a stored receipt with the preflight facts and rollback strategy of the same request |
| `ServiceOutcomes.DispatchedOutcome` | portal/backend/app/automation.py:879-958 | the specification of `dispatch` has the literal outcome, refusals, replays and the dispatcher call included |
| `ServiceOutcomes.PreparedOutcome` | portal/backend/app/automation.py:590-622 | a submission is refused exactly for its key or an unknown action text; its draft carries the redacted texts, the named action and the submitted, configured or default lifetime within bounds |
| `ServiceOutcomes.CreateOutcome` | portal/backend/app/automation.py:583-684 | validation followed by the specification of `create` has the literal outcome on tables whose keys are unique |
| `ServiceOutcomes.NewRequestLives` | portal/backend/app/automation.py:526-635 | a new request is returned as created up to the end of its lifetime and expired by any look after it |
| `ServiceTheorems.CallKeeps` | portal/backend/app/automation.py:583-958 | every call keeps the tables consistent and moves requests only forward |
| `ServiceTheorems.RunKeeps` | portal/backend/app/automation.py:583-958 | the same for every sequence of calls |
| `ServiceTheorems.ReplayAnswersWithOriginal` | portal/backend/app/automation.py:599-614 | after any calls a key answers with its first request and changes nothing but a lazy expiry, or conflicts and changes nothing when the payload differs |
| `ServiceTheorems.ReceiptIsFinal` | portal/backend/app/automation.py:887-890 | after any calls a dispatched request is returned with its receipt, without a dispatcher call and without a change |
| `ServiceTheorems.RaisingChangesNothing` | portal/backend/app/database.py:98-104 | an operation that raises leaves both tables as they were, its own lazy expiry included |
| `ServiceSpacing.LatestIsLatest` | portal/backend/app/automation.py:828-846 | the earlier dispatch with the greatest id also has the greatest time of its scope |
| `ServiceSpacing.CoolingDownMeansRecent` | portal/backend/app/automation.py:828-855 | the query for the latest earlier dispatch finds the cooldown active exactly when any other dispatched request of the same action and target was dispatched less than the cooldown ago |
| `ServiceSpacing.CallSpaces` | portal/backend/app/automation.py:879-958 | every call whose readings are in order keeps all dispatches of a scope a cooldown apart |
| `ServiceSpacing.DispatchedCallsAreSpaced` | portal/backend/app/automation.py:818-855 | after any calls, two dispatched requests with one action and target are at least the later one's cooldown apart, whatever order the calls come in |
| `ServiceDeadlines.DeadlineRefuses` | portal/backend/app/automation.py:526-537 | an approval, rejection or dispatch whose check finds the request past its deadline is refused, changes nothing and calls no dispatcher |
| `ServiceDeadlines.LateExactlyByItsStamp` | portal/backend/app/automation.py:718-958 | a decision that takes effect was checked in time, and is recorded after the deadline exactly when its own audit time lies past it |
| `ServiceDeadlines.DispatchMayBeLate` | portal/backend/app/automation.py:886-954 | checked in its last microsecond, an approved request outside any cooldown is dispatched however late it is recorded |
| `ServiceDeadlines.ApprovalMayBeLate` | portal/backend/app/automation.py:730-799 | the same for approvals and rejections |
| `SqlTranslator.Translate` | portal/backend/app/database.py:45-69 | the scanner with its doubled-quote lookahead turns exactly the `?` with an even number of quotes before them into `%s` and keeps all else in order; named statements get the substitution of `:name` |
| `SqlTranslator.ParametersAreReplaced` | portal/backend/app/database.py:11 | the first `:name` of a statement becomes `%(name)s`, whole, and what stands before it is kept |
| `SqlTranslator.CastsAreKept` | portal/backend/app/database.py:11 | a doubled colon is kept |
| `SqlTranslator.LoneColonsAreKept` | portal/backend/app/database.py:11 | a colon that no name follows is kept |
| `SqlTranslator.NamedIsIdempotent` | portal/backend/app/database.py:49-50 | a second substitution finds no named parameter left, doubled colons included |
| `SqlTranslator.ForwardAgrees` | portal/backend/app/database.py:52-69 | the quote-parity reading equals a left-to-right reading that carries one flag |
| `SqlTranslator.TranslationIsIdempotent` | portal/backend/app/database.py:52-69 | translating twice is translating once |
| `SqlTranslator.TranslationIsReversible` | portal/backend/app/database.py:52-69 | mapping unquoted `%s` back recovers the statement if and only if it had none of its own |
| `VaultLeases.LeaseCount` | portal/backend/app/vault_client.py:424-456 | terminates for every listing with at most 501 listings; the keys it reads enumerate the positions of the depth-limited tree, it is truncated exactly when there are more than 500 and reports the leases among the first 500 |
| `VaultLeases.TraversalEnumerates` | portal/backend/app/vault_client.py:438-450 | the order of reading lists each position of the tree once and nothing else, with its paths joined by single slashes, and marks as leases exactly the keys that are not entered |
| `VaultLeases.ReportIsOfTheTree` | portal/backend/app/vault_client.py:435-456 | however the tree is enumerated: cut short exactly above 500 keys, never more than the number of leases, and that number when not cut short |
| `VaultLeases.ReadKeepsOrder` | portal/backend/app/vault_client.py:441-450 | reading one key takes it off the front of what is unread, and its folder comes before the folders stacked earlier |
| `VaultTree.EnumerationsAgree` | portal/backend/app/vault_client.py:435-456 | any two enumerations of a tree have as many entries and as many leases |
| `VaultTree.DifferentKeysDifferentPaths` | portal/backend/app/vault_client.py:448 | keys of one listing have the same path only if trailing slashes alone tell them apart |
| `PkiCollector.VisitCollection` | scripts/collect-vault-pki-certificate-status.py:328-351 | terminates on every value; under a forced mount every candidate carries it, and none is without a mount |
| `PkiCollector.VisitPayload` | scripts/collect-vault-pki-certificate-status.py:354-404 | the same for the other half of the recursion |
| `PkiCollector.RecordCandidates` | scripts/collect-vault-pki-certificate-status.py:323-325 | with a valid override every candidate carries exactly that mount |
| `PkiReach.CandidatesAreListed` | scripts/collect-vault-pki-certificate-status.py:323-404 | the candidates of an export are exactly the records that a chain of containers reaches, by the precedence and the mount rules of each container form |
| `PkiCollector.NormalizedIsComplete` | scripts/collect-vault-pki-certificate-status.py:258-317 | whatever the raw record is, a normalised one has a name, a mount and a status, and revocation overrides a stated status |
| `PkiReach.RecordIsRead` | scripts/collect-vault-pki-certificate-status.py:230-317 | a record is normalised exactly to the first accepted serial, common name and end date in their order of preference, the derived names, and the status that revocation, the record or its details decide |
| `PkiCollector.Collect` | scripts/collect-vault-pki-certificate-status.py:407-421 | the result is the first part of the strictly increasing listing of the set of normalised records |
| `PkiReach.CollectionIsFirst` | scripts/collect-vault-pki-certificate-status.py:407-421 | the output holds found records only, each once, in order of mount, common name, serial, end date, name and status; a found record is missing only when the list is full, and then all shown precede it |
| `PkiReach.RecordSetIsFound` | scripts/collect-vault-pki-certificate-status.py:407-414 | the collected set is exactly what the listed records of all exports are read as |
| `PkiCollector.CanonicalIsUnique` | scripts/collect-vault-pki-certificate-status.py:407-421 | a set of records has one strictly increasing listing |
| `PkiCollector.CollectIsCanonical` | scripts/collect-vault-pki-certificate-status.py:407-421 | exports with the same normalised records give the same output, it is strictly increasing, and a smaller count gives a prefix |
| `PkiCollector.SamePayloadsSameRecords` | scripts/collect-vault-pki-certificate-status.py:407-414 | permuting or repeating the exports does not change the set of normalised records |
| `PkiCollector.ListExportsSplit` | scripts/collect-vault-pki-certificate-status.py:328-339 | the candidates of a concatenated list export are those of its parts, in order |
| `PkiCollector.SplitExportsCollectAlike` | scripts/collect-vault-pki-certificate-status.py:407-421 | collecting a concatenated export equals collecting its parts |
| `Sanitizer.Sanitize` | portal/backend/app/safe_data.py:90-138 | the dictionary loop with its break and the list branch compute the recursively specified value |
| `SanitizerOutcomes.SanitizedIsClean` | portal/backend/app/safe_data.py:90-138 | numbers, booleans and null are kept, texts redacted, secrets replaced, lists cut behind a marker, and an object holds each rendered key once with the last value given to it, and the marker exactly if fields are left out |
| `SanitizerOutcomes.PlainValuesPass` | portal/backend/app/safe_data.py:90-138 | a value within the limits, without secrets and without texts that redaction changes passes unchanged, fields in order |
| `Sanitizer.SanitizedIsBounded` | portal/backend/app/safe_data.py:90-138 | at most `max_depth` nested containers of at most `max_items + 1` members |
| `Sanitizer.SecretsDoNotShow` | portal/backend/app/safe_data.py:105-121 | values that differ only under secret keys have equal outputs |
| `Sanitizer.FixedPointIffSettled` | portal/backend/app/safe_data.py:90-138 | a second pass changes nothing if and only if texts and remaining keys are redacted for good by the first, no key changes its secrecy to effect and no last-level object lets its truncation marker replace a kept field |
| `Sanitizer.MarkerCanBeCut` | portal/backend/app/safe_data.py:105-121 | whatever redaction does elsewhere, for all limits of at least one, a dictionary under lists on which sanitizing twice differs from sanitizing once |
| `Sanitizer.CutCanLeaveABlank` | portal/backend/app/safe_data.py:77-87 | stripping before cutting leaves, for every text limit of at least two, a plain text that a second pass shortens |
| `CaseStore.CaseRepository.Create` | portal/backend/app/case_management.py:236-284 | an open case at version 1 with its SLA date and one audit row, or nothing |
| `CaseStore.CaseRepository.Change` | portal/backend/app/case_management.py:329-390 | chosen columns, one version step and one audit row with the update; an empty update, a missing case or a forbidden null leaves the tables as they were |
| `CaseStore.CaseRepository.AddComment` | portal/backend/app/case_management.py:392-428 | the comment, one version step and one audit row naming it, or nothing |
| `CaseStore.CaseRepository.AddEvidence` | portal/backend/app/case_management.py:430-481 | the evidence, one version step and one audit row naming it, or nothing |
| `CaseStore.CaseRepository.IncludeRelated` | portal/backend/app/case_management.py:174-212 | each case of a page gets exactly what fetching that case alone gives; of entries that repeat an id only the last gets rows |
| `CaseStore.CaseRepository.Get` | portal/backend/app/case_management.py:317-327 | a case is shown as any page containing it shows it, with all its rows |
| `CaseOutcomes.CreateOpens` | portal/backend/app/case_management.py:236-284 | the columns of a new case as requested, open, at version 1, due as requested or after the configured hours (24 by default, 1 to 720), with its audit row; or a refusal without effect |
| `CaseOutcomes.UpdateChanges` | portal/backend/app/case_management.py:329-390 | each named column takes its value and each other stays, the version grows by one and one audit row tells the update; or nothing changes |
| `CaseOutcomes.AddAdds` | portal/backend/app/case_management.py:392-481 | a comment or evidence is appended to its own table, the case touched, and one audit row names it; or nothing changes |
| `CaseOutcomes.FetchedShows` | portal/backend/app/case_management.py:174-212 | a case shows its own comments and evidence, each as often as stored, by time and then identifier |
| `CaseStore.Attach` | portal/backend/app/case_management.py:182-211 | one query for many cases gives each its own rows, each once and in order |
| `CaseStore.OfOrdered` | portal/backend/app/case_management.py:184-203 | selecting one case from the ordered table is ordering that case's rows |
| `CaseStore.OrderedIsSorting` | portal/backend/app/case_management.py:184-203 | ordering by time and id keeps every row exactly once |
| `CaseStore.WriteKeepsAccounts` | portal/backend/app/case_management.py:236-481 | every write keeps every case equal to what its audit trail tells |
| `CaseStore.RunsKeepAccounts` | portal/backend/app/case_management.py:236-481 | after any sequence of whole writes a case's version is its number of audit rows, its severity, status, owner and SLA date are the replay of those rows, and they name its comments and evidence one by one in order |
| `CaseInterleaving.LandedAlike` | portal/backend/app/case_management.py:392-481 | wherever among concurrent ones the rows of a write land, it does to every case what the whole write does |
| `CaseInterleaving.InterleavingDoesNotMatter` | portal/backend/app/case_management.py:236-481 | interleaved writes leave every case with the row, the audit trail and, up to table order, the comments and evidence of the same writes in commit order |
| `CaseInterleaving.InterleavedRunsKeepAccounts` | portal/backend/app/case_management.py:174-481 | after any interleaved run every case is shown as after the serial one, and version, profile, counts and names still agree with its audit trail |
| `OllamaGate.Gate.Answer` | portal/backend/app/assistant.py:604-655 | the slot is returned on every exit, and the stamp moves exactly when the request is admitted |
| `OllamaGate.StepKeepsInv` | portal/backend/app/assistant.py:604-655 | every step of any number of callers keeps one holder, a matching lock and spaced admissions |
| `OllamaGate.RunInv` | portal/backend/app/assistant.py:604-655 | the same in every state of every run |
| `OllamaGate.OneInFlight` | portal/backend/app/assistant.py:604-655 | at most one request is in flight |
| `OllamaGate.SlotsAreReturned` | portal/backend/app/assistant.py:606-655 | each acquisition is released exactly once and the semaphore is never over-released |
| `OllamaGate.LockIsFree` | portal/backend/app/assistant.py:608-611 | nobody ever waits for the rate lock |
| `OllamaGate.FreeSlotDecides` | portal/backend/app/assistant.py:604-611 | a caller with concurrency that finds the slot free is admitted, at the time it reads, exactly when its interval has passed since the last admission |
| `OllamaGate.AdmissionsAreSpaced` | portal/backend/app/assistant.py:608-611 | any two admissions are at least the later caller's interval apart |
| `RiskScore.ScoreIgnoresOrder` | portal/backend/app/repository.py:375-379 | the score does not depend on the order of the signals |
| `RiskScore.WeightsAreExact` | portal/backend/app/repository.py:377-379 | however the five worst are chosen, the unrounded score is 55 hundredths of the worst plus 45 hundredths of their mean |
| `RiskScore.RaisingNeverLowers` | portal/backend/app/repository.py:377-379 | raising one signal's score never lowers the result |
| `RiskScore.AddingNeverLowers` | portal/backend/app/repository.py:377-379 | an added signal that keeps up never lowers the score, under any rounding |
| `RiskScore.AddingLowersUnlessItKeepsUp` | portal/backend/app/repository.py:377-379 | before rounding an added signal does not lower the score if and only if there are five or more already or it reaches their mean |
| `RiskScore.NeverLoweredIffItKeepsUp` | portal/backend/app/repository.py:377-379 | the same condition is exact for the rounded score over all roundings: without it some rounding shows a fall |
| `RiskScore.AddingToFewCanLower` | portal/backend/app/repository.py:377-379 | a second signal without risk next to one of ten lowers the score under every rounding |
| `RiskScore.ScoreIsBounded` | portal/backend/app/repository.py:377-379 | for non-negative scores the result lies between the rounded 55% of the worst and the worst |

## Left out

- `AutomationService.list`: its filter before the lazy expiry and its locking of several rows; the no-deadlock theorem covers `create`, `get`, `approve` and `dispatch`.
- MachineTheorems.DispatchesAreSpaced: a run starts on tables that satisfy the store invariant, so dispatches that other software recorded closer together are not covered.
- MachineRefinesService.RunIsSerial: orders the transactions that publish something; the moment at which one of the others answers is given by `MachineAnswers.EveryAnswerIsOfAWholeCall` as a state of the run, not as a place in that order.
- Output shaping in `_request_dict` and `_preflight_receipt`'s list of checks; the stored receipt is the dispatcher's answer with the preflight values before sanitizing, and an unhashable `external_side_effects` value counts as an unmanaged one.
- `Deliver` knows dispatchers only by their answers, so `PlanOnlyDispatcher` is one case among them; plan steps and rollback steps are reduced to one name each.
- Row identity of audit entries: an id is a position in the log of all insertions, committed or lost; a collision of generated request ids is an error.
- A zero-row UPDATE may keep or give up the row lock it waited for; both are covered, isolation levels above read committed are not.
- SQL engines, table definitions, triggers, PRAGMAs, connection handling and initialisation locks.
- SHA-256, JSON encoding, regular expressions of `redact_text`, `is_secret_key` and the collector's text, date and certificate parsing: arbitrary functions.
- VaultLeases.LeaseCount: a listing is a pure function of its path; HTTP errors and authentication are not modelled.
- CaseStore.CaseRepository.Get: SLA status, list filters, paging and the audit listing are not modelled; values arrive redacted, and audit details are data before sanitizing and JSON.
- CaseInterleaving.LandedAlike: concurrent writes are described at their commit, with their rows at the places where they landed, not statement by statement; an update reads the row it has locked.
- OllamaGate.Gate.Answer: the HTTP work between the stamp and the release succeeds or raises; its contents are not modelled.
- RiskScore.ScoreIsBounded: arithmetic is exact and rounding is any monotone function that keeps integers; floating-point error and the other summary fields are not modelled.
- Routes, authentication, the frontend, connectors, demo data and deployment files.

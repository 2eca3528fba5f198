# Verification of the brokerage platform's data protocols

This project models the parts of the platform where correctness rests on a protocol rather than on
one function: database triggers and deferred checks, exclusion and partial unique indexes, ordered
backfills, transactional command handlers, and the loops that accept, project or copy data. Each
module models one protocol. Where the program changes tables or stores in place, a class holds them
and its methods are proved equal to a specification function; the properties are then proved about
that function, over every run, every script or every input. `dafny verify dfyconfig.toml` checks all
of it.

| module | what it models |
|---|---|
| `MarketLedger`, `EventKeys` | the versioned market source rows, their revisions and their durable contributions (0028) |
| `MarketProjection` | the projector that drains contributions into shared records, interleaved with writers |
| `AssignmentIntegrity` | the cached advisor against the assignment history, checked at commit for queued ids only |
| `CommandReceipts` | claim, effect, commit: idempotent operator commands |
| `Reservations`, `Appointments` | calendar and absence exclusion, reschedule chains |
| `OrganizationScope` | the Organization backfill of 0026 and its composite keys |
| `ConstraintSchema` | creating and dropping uniques and the foreign keys over them (0015) |
| `MediaMigration` | the verified, resumable copy of authoritative media |
| `SponsoredDelivery` | the sponsored delivery view, recomputed against incremental |
| `LegacyQuarantine`, `LegacyBackfill`, `ProjectionDedupe` | bulk data migrations (0011, 0012 with 0013, 0027) |
| `InboundMessages` | webhook bodies: at-least-once delivery, exactly-once storage |
| `SupportLogin`, `PropertySlug` | the support login inside HTTP Basic, the property slug |
| `Prelude`, `Texts`, `Counting` | shared vocabulary |

## Where the code does less than it says

Each of these is stated as an exact condition and, where useful, with a concrete run.

- A market row inserted again under a deleted id is accepted, but `ON CONFLICT .. DO NOTHING` can drop
  its contribution (`MarketLedger.ReusedIdIsContributedExactlyWhen`, `ReusedIdCanLoseItsContribution`).
  Worse, when its version lies inside the old history, the trigger's own revision key refuses every later
  UPDATE of the row (`MarketLedger.ReusedIdIsFrozenExactlyWhen`, `FrozenRowStays`).
- The projector stores the new version before it converts the columns. A conversion failure is marked
  Failed, and its retry is then taken for a duplicate and marked Projected
  (`MarketProjection.RetryHidesConversionFailure`; with the PostgreSQL date 'infinity',
  `EndlessSaleIsNeverDelivered`).
- The assignment trigger looks at the new opportunity of a changed assignment row only, so moving an
  open assignment escapes the commit check unless another write queues the opportunity it leaves
  (`AssignmentIntegrity.CommitCheckIsExact`, `MovedAssignmentEscapesCheck`).
- 0026 files every delivery status under the bootstrap Organization, and its comment says that every
  existing row is the bootstrap Organization's; the composite key over the status's message then
  validates exactly when the message came from that Organization
  (`OrganizationScope.DeliveryStatusKeyHoldsExactlyWhen`, `SecondOrganizationFailsTheKey`). Agent sessions
  fail in the same way through their cycles (`AgentSessionKeyHoldsExactlyWhen`).
- 0013 promises one opportunity per legacy contact, but joins identities: a contact with two
  identities that wrote in gets two (`LegacyBackfill.OneOpportunityExactlyWhen`). The schema admits such a
  contact; nothing in the repository writes one, since each identity is created with a contact of its own
  (`src/realestate/domain/commercial/identity.py:167-186`).
- An engineer's account is looked up as it was configured, but the grant lower-cases it: a granted
  login leads back to the account exactly when the configured name is already lower-case, stripped and
  free of colons. An account configured as "Gerardo" cannot enter with its granted login, and typing the
  capital authenticates a login that was never granted (the member lookup compares logins exactly,
  `organization.py:430`). With a colon in the name, entry depends on another account having the same
  password (`SupportLogin.LoginNamesItsEngineerExactlyWhen`, `GrantedLoginAuthenticatesExactlyWhen`,
  `MixedCaseEngineer`, `ColonInEngineerName`).

The webhook handler counts a message as unroutable when a domain service refuses it, without a rollback.
Nothing here shows that a service can refuse once the message's row is flushed, so this is not counted as
a failure of the code; `InboundMessages.KeyIsStoredExactlyWhen` says, for any refusals, what a call stores.

## Assumptions

`str.lower()` is a function of which `SupportLogin.Lowers` says all that is used: it changes nothing the
second time, leaves a text alone exactly when it leaves each character alone, makes and loses no colon,
turns no end of a trimmed text into whitespace, lets no text vanish, and leaves the support prefix alone.

Commits are serialised; constraints are checked at once or at commit, as declared. Row ids never
change, and fresh ids are fresh. Domain effects, payload digests, SHA-256 and payload conversions are
arbitrary functions passed as parameters; the clock, the storage failures and the fate of each message
are inputs.

## Model

| member | source | states |
|---|---|---|
| EventKeys.EventKeyIsInjective | migrations/versions/0028_customer_market_intel.py:336-344 | different (source type, id, version) triples never share an event key, over all ids and versions |
| EventKeys.EventKeyFitsColumn | migrations/versions/0028_customer_market_intel.py:225 | an event key of an integer version fits the 200-character column |
| MarketLedger.RunKeepsHistory | migrations/versions/0028_customer_market_intel.py:309-360 | after every run without reused ids, each source has dense versions, and every revision links the contribution before it to the contribution it produced, up to the current row |
| MarketLedger.ExactlyOnePerVersion | migrations/versions/0028_customer_market_intel.py:309-360 | a source first stored at v0 and now at n has exactly one contribution for each of v0..n and one revision for each of v0+1..n, and none elsewhere |
| MarketLedger.ReplayRebuildsCurrentRow | migrations/versions/0028_customer_market_intel.py:309-327 | folding the revisions from the first contribution gives the current row |
| MarketLedger.SuppliedVersionIsIgnored | migrations/versions/0028_customer_market_intel.py:316-317 | two updates that differ only in the version and timestamp the writer supplied have the same result |
| MarketLedger.AcceptedExactlyWhen | migrations/versions/0028_customer_market_intel.py:99-200 | in a consistent ledger a statement is accepted exactly when its id is free, where it inserts, and the source tables keep their constraints with the row stored at the version and instant the triggers give it; the unique keys of revisions and contributions refuse nothing |
| MarketLedger.ChecksOnColumns | migrations/versions/0028_customer_market_intel.py:113-194 | the CHECKs hold exactly when every number reaches its least value, every enumerated text is one of its choices, no birth year is past 2100, each price and its currency are both there or both missing, and a completed sale has its eight required columns |
| MarketLedger.TablesKeepTheirConstraints | migrations/versions/0028_customer_market_intel.py:109-200 | after any run, ids reused or not, two rows of one table and Organization never share an opportunity or a journey, every value is in range, and a completed sale has its property, date, price and author |
| MarketLedger.InsertStoresWhatWasSent | migrations/versions/0028_customer_market_intel.py:336-346 | an accepted INSERT of a new source stores the row as sent and appends one Pending contribution of it, with no attempts, dated then; every other row, revision and contribution stays |
| MarketLedger.UpdateStoresWhatWasSent | migrations/versions/0028_customer_market_intel.py:316-325 | an accepted UPDATE stores what the writer sent, but for the version, one more than the old row's, and the timestamp; one revision with the row before and after, the role and the instant; one fresh contribution; every other row stays |
| MarketLedger.HistoryTellsItsWrites | migrations/versions/0028_customer_market_intel.py:309-360 | over every run without reused ids, a source has one contribution for each accepted write, with the columns and Organization sent, in order, one revision for each after the first with its role and instant, and the last write's row |
| MarketLedger.EventKeyNeverConflicts | migrations/versions/0028_customer_market_intel.py:336-344 | a contribution that passes the three-column conflict clause never violates the separate event-key uniqueness |
| MarketLedger.EventKeyClashAborts | migrations/versions/0028_customer_market_intel.py:336-344 | in any ledger, consistent or not, a free version whose event key another contribution has aborts the statement |
| MarketLedger.StepKeepsHistory | migrations/versions/0028_customer_market_intel.py:349-360 | one statement with both of its triggers keeps every source's history linked |
| MarketLedger.ReusedIdIsContributedExactlyWhen | migrations/versions/0028_customer_market_intel.py:344 | after any run, ids reused or not, an inserted row is contributed if and only if its version was never contributed for its id or was contributed with the very same row |
| MarketLedger.RunIsKeyed | migrations/versions/0028_customer_market_intel.py:336-344 | after every run, ids reused or not, each contribution carries the event key of its own source, id and version |
| MarketLedger.ReusedIdIsFrozenExactlyWhen | migrations/versions/0028_customer_market_intel.py:214 | an UPDATE of a row reinserted under a deleted id is refused if and only if the reinserted version lies in the id's old history before its last version |
| MarketLedger.FrozenRowStays | migrations/versions/0028_customer_market_intel.py:309-327 | a row whose next revision is taken refuses every later UPDATE, however many |
| MarketLedger.ReusedIdCanLoseItsContribution | migrations/versions/0028_customer_market_intel.py:344 | a run whose reinserted row has no contribution |
| MarketLedger.MarketStore.CaptureMarketSourceRevision | migrations/versions/0028_customer_market_intel.py:309-327 | the BEFORE trigger forces the version and timestamp and appends the old and new row |
| MarketLedger.MarketStore.EnqueueMarketContribution | migrations/versions/0028_customer_market_intel.py:329-347 | the AFTER trigger appends a pending contribution unless the version is taken; a clash of event keys aborts |
| MarketLedger.MarketStore.InsertRow | migrations/versions/0028_customer_market_intel.py:355-360 | INSERT with its trigger equals one step of the ledger; an abort leaves every table as it was |
| MarketLedger.MarketStore.UpdateRow | migrations/versions/0028_customer_market_intel.py:349-360 | UPDATE with both triggers equals one step of the ledger; an abort leaves every table as it was |
| MarketLedger.MarketStore.DeleteRow | migrations/versions/0028_customer_market_intel.py:349-360 | DELETE fires neither trigger and equals one step of the ledger: revisions and contributions of the row stay |
| MarketProjection.LiveIsFaithful | src/realestate/domain/market_intelligence.py:455-556 | every interleaving of writers and claims, in any claim order, keeps each shared record the image of a real contribution and never older than one marked projected |
| MarketProjection.ProjectedSaleIsCurrent | src/realestate/domain/market_intelligence.py:486-556 | once the newest contribution of a convertible sale is marked Projected, the shared record is the image of the current row |
| MarketProjection.DrainSettles | src/realestate/domain/market_intelligence.py:455-484 | after a drain of the open sale contributions each one is Projected or Failed and has its version stored |
| MarketProjection.TwoDrainsProjectAll | src/realestate/domain/market_intelligence.py:455-484 | after a second drain of those still open every sale contribution is Projected |
| MarketProjection.TwoDrainsDeliverExactlyWhen | src/realestate/domain/market_intelligence.py:455-556 | after two drains without writes in between every sale's shared record has the current version, and holds the current row if and only if that row converts |
| MarketProjection.SharedVersionsNeverGoBack | src/realestate/domain/market_intelligence.py:497-501 | no event lowers the version of a shared record or removes it |
| MarketProjection.ClaimKeepsDistinct | src/realestate/domain/market_intelligence.py:502-515 | archiving a replaced version never violates its unique key |
| MarketProjection.ReplacementIsArchived | src/realestate/domain/market_intelligence.py:502-515 | for any world and event, a shared record the event changes is archived by it, under its id, as it was; an event that changes none archives nothing |
| MarketProjection.ArchiveHoldsFormerRecordsOnce | src/realestate/domain/market_intelligence.py:502-515 | over every interleaving of writers and claims the archive holds each record that some key once held and no longer does, exactly once, and nothing else |
| MarketProjection.AttemptsCountClaims | src/realestate/domain/market_intelligence.py:467-482 | over every interleaving a contribution's attempts are the claims made of it while it was open, and it is Pending exactly when there were none |
| MarketProjection.ProjectionWritesImage | src/realestate/domain/market_intelligence.py:527-556 | a fresh projection raises exactly when some column fails to convert, and otherwise leaves the full image of the payload |
| MarketProjection.RetryHidesConversionFailure | src/realestate/domain/market_intelligence.py:468-482 | after a failed projection is retried the contribution is Projected, and the payload was delivered if and only if every column converts |
| MarketProjection.EndlessSaleIsNeverDelivered | src/realestate/domain/market_intelligence.py:554 | a sale with the publication date 'infinity', written once and claimed twice with a converter that refuses it, ends Projected and not delivered |
| MarketProjection.MarketProjector.ProjectOne | src/realestate/domain/market_intelligence.py:486-556 | one projection in place: skip when stale, archive, store the version, then the columns in turn |
| MarketProjection.MarketProjector.ClaimOne | src/realestate/domain/market_intelligence.py:467-482 | a claim of a sale or a profile counts an attempt and marks the contribution by its outcome |
| MarketProjection.MarketProjector.Drain | src/realestate/domain/market_intelligence.py:455-484 | draining a batch of sales and profiles equals claiming its members in order; the report counts the members that end Projected, and none ends Pending |
| AssignmentIntegrity.CommitCheckIsExact | migrations/versions/0017_assignment_trigger_repair.py:36-86 | for every script from a consistent state, the final state is consistent if and only if the queued ids agree and every opportunity an UPDATE took an open row from, and that still exists, was queued by another write |
| AssignmentIntegrity.QueuedCheckEqualsFullCheck | migrations/versions/0015_commercial_integrity.py:394-447 | from a consistent state, when no row changes its opportunity, checking the queued ids equals checking all of them |
| AssignmentIntegrity.VerdictIgnoresOrder | migrations/versions/0015_commercial_integrity.py:394-397 | two scripts that reach the same tables get the same verdict, whatever the order of their writes |
| AssignmentIntegrity.MovedAssignmentEscapesCheck | migrations/versions/0017_assignment_trigger_repair.py:63-76 | a transaction that moves an open assignment commits with a divergent cache |
| AssignmentIntegrity.CommittedCacheIsOpenAdvisor | migrations/versions/0017_assignment_trigger_repair.py:36-86 | in every state committed by scripts that queue the opportunities they move open rows from, each cached advisor is its unique open assignment's advisor, or NULL without one |
| AssignmentIntegrity.HistoryCommitsInTurn | migrations/versions/0015_commercial_integrity.py:394-447 | a history applies each script to what the one before it committed |
| AssignmentIntegrity.AgreesIsEquality | migrations/versions/0013_opportunities_and_actions.py:328-334 | with one open row at most, the trigger's IS DISTINCT FROM comparison is equality with that row's advisor |
| AssignmentIntegrity.AcceptedExactlyWhen | migrations/versions/0013_opportunities_and_actions.py:328-334 | a statement is accepted if and only if its id is free, where it inserts, and the unique and foreign keys hold of the tables it asks for |
| AssignmentIntegrity.CacheAfterStatement | migrations/versions/0015_commercial_integrity.py:437-445 | an accepted statement changes the cached advisor of the opportunity it names only, to the value it carries, NULL included |
| AssignmentIntegrity.AssignmentAfterStatement | migrations/versions/0015_commercial_integrity.py:437-445 | an accepted statement changes the assignment it names only, to the row it carries, or removes those of a deleted opportunity |
| AssignmentIntegrity.ReassignmentCommits | src/realestate/domain/commercial/assignment.py:194-248 | closing, attaching and caching commits with the cache written first or last, and names the new advisor |
| AssignmentIntegrity.ReleaseCommits | src/realestate/domain/commercial/assignment.py:250-262 | closing the open row and emptying the cache commits in either order and leaves no cached advisor and no open row, and nothing else changed |
| AssignmentIntegrity.FirstAssignmentCommits | src/realestate/domain/commercial/assignment.py:554-581 | attaching an advisor to an opportunity without one commits with the cache written first or last: one new open row, named by the cache |
| AssignmentIntegrity.AssignmentStore.Apply | migrations/versions/0015_commercial_integrity.py:437-445 | one statement changes the tables, or is refused by a key, and queues the ids its triggers name |
| AssignmentIntegrity.AssignmentStore.Commit | migrations/versions/0015_commercial_integrity.py:400-417 | COMMIT keeps the working tables exactly when every queued id agrees, and otherwise restores the committed ones |
| AssignmentIntegrity.AssignmentStore.Transact | migrations/versions/0015_commercial_integrity.py:394-447 | a whole transaction takes effect as specified or not at all |
| CommandReceipts.RunRefinesOnce | src/realestate/api/crm.py:2360-2458 | for any requests, the receipts' keys and the business state equal those of "apply each key once" |
| CommandReceipts.StateIsWinnersApplied | src/realestate/api/crm.py:2360-2458 | the business state is the winning requests' effects applied in order, all of which succeed |
| CommandReceipts.ReceiptsNameWinners | src/realestate/domain/commercial/idempotency.py:67-79 | a receipt is stored for exactly the winners' Organizations and keys, with the winner's operation, subject and payload digest, and no two winners share a key |
| CommandReceipts.UnappliedRequestsAreInvisible | src/realestate/api/crm.py:2455-2457 | removing a refused, replayed or conflicting request from a run changes nothing |
| CommandReceipts.WinnersAloneSuffice | src/realestate/api/crm.py:2360-2458 | sending only the winners gives the same database |
| CommandReceipts.WinnerReplaysForever | src/realestate/domain/commercial/idempotency.py:54-65 | repeating a winner at any later time replays it and changes nothing |
| CommandReceipts.KeyIsBoundToItsCommand | src/realestate/domain/commercial/idempotency.py:55-64 | a winner's key with another operation, subject or payload conflicts and changes nothing |
| CommandReceipts.AppliedExactlyWhen | src/realestate/api/crm.py:2373-2383 | a request takes effect at its place exactly when its key has not won before and its effect succeeds there |
| CommandReceipts.AnswersCompareFacts | src/realestate/domain/commercial/idempotency.py:48-65 | after any run from an empty database, a request is a replay if and only if a winner of its Organization and key has its operation, subject type, subject id and payload digest, and a conflict if and only if one differs in any of them |
| CommandReceipts.OrganizationsDoNotInterfere | src/realestate/domain/commercial/idempotency.py:48-53 | where effects keep Organizations apart, an Organization's requests are answered, and leave its part of the state, as if the others' had not been sent, whatever keys those chose |
| CommandReceipts.CommandKeysAgreeExactlyWhen | src/realestate/api/operator.py:129-138 | two accepted submissions share a key if and only if their handlers share the colon-free prefix and their nonces differ at most in the white space around them |
| CommandReceipts.KeylessExactlyWhen | src/realestate/api/operator.py:129-137 | a submission is refused a key exactly when its nonce is missing or blank |
| CommandReceipts.PayloadIgnoresOnlyNonce | src/realestate/api/operator.py:141-145 | two forms have the same payload exactly when they agree on every field but the nonce |
| CommandReceipts.CommandStore.Claim | src/realestate/domain/commercial/idempotency.py:29-79 | an exact replay is recognised, different facts raise, and a new key is claimed in the session only |
| CommandReceipts.CommandStore.Post | src/realestate/db/engine.py:44-52 | one handler run on a session equals one step of the protocol; without a commit nothing persists |
| Reservations.AdmittedExactlyWhenExclusive | migrations/versions/0019_appointment_authority.py:29-41 | the guard on one row accepts exactly the writes that keep all live intervals of a resource disjoint |
| Reservations.BusyCountsInstants | migrations/versions/0019_appointment_authority.py:31-34 | in an exclusive table the live time inside a window is the number of instants some live row covers |
| Reservations.BusyFitsWindow | migrations/versions/0019_appointment_authority.py:31-34 | the live time of a resource inside any window is at most the window's length |
| Reservations.CapacityBound | migrations/versions/0019_appointment_authority.py:31-34 | at most floor(window / length) whole visits of a fixed length fit a window |
| Appointments.RunIsSound | migrations/versions/0019_appointment_authority.py:26-52 | every reachable table has disjoint live slots, one unrejected successor at most, and earlier predecessors |
| Appointments.RunWritesInTurn | migrations/versions/0019_appointment_authority.py:29-51 | a run applies each write to what the ones before it left; a refused one changes nothing |
| Appointments.VisitsShareNoInstant | migrations/versions/0019_appointment_authority.py:29-41 | in every reachable state, two different appointments of one calendar, each Pending, Confirmed, NeedsReview, or Rescheduled with an event, share no instant |
| Appointments.InsertRefusedExactlyWhen | src/realestate/domain/scheduling/appointments.py:1126-1164 | for every table, an insert is refused exactly for an unknown predecessor, an inverted range that occupies a calendar, an instant held by another visit of its calendar, or a predecessor another unrejected attempt replaces, named in that order |
| Appointments.ChangeRefusedExactlyWhen | migrations/versions/0019_appointment_authority.py:29-51 | the same of an update, against the other rows; the predecessor it carries is ignored |
| Appointments.CalendarCapacity | migrations/versions/0019_appointment_authority.py:29-41 | in every reachable state, at most floor(window / length) standing visits of one calendar and one length lie inside any window, and its live time fits the window |
| Appointments.ChainIsSimple | migrations/versions/0019_appointment_authority.py:44-51 | following successors ends; the chain has no repetition and its last entry has no successor |
| Appointments.ChainIsAllDescendants | migrations/versions/0019_appointment_authority.py:44-51 | the chain of a root holds exactly its unrejected descendants, so they never branch |
| Appointments.CurrentIsUnique | migrations/versions/0019_appointment_authority.py:44-51 | the current appointment is the one descendant without an unrejected successor |
| Appointments.OnlyCurrentIsRescheduled | src/realestate/domain/scheduling/appointments.py:1149-1163 | an unrejected attempt on an appointment that already has a successor is refused |
| Appointments.RescheduleExtendsChain | src/realestate/domain/scheduling/appointments.py:1112-1164 | an accepted attempt extends exactly the chains whose current appointment it reschedules |
| Appointments.RejectionCutsChain | migrations/versions/0019_appointment_authority.py:49-51 | rejecting an attempt cuts its chain just before it, and what preceded it is current again |
| Appointments.AbsencesFitWindow | migrations/versions/0018_human_operation_and_visits.py:126-147 | the live absences of an advisor fit every window |
| Appointments.AbsencesShareNoInstant | migrations/versions/0018_human_operation_and_visits.py:136-147 | in every reachable state no two absences of one advisor that are not cancelled share an instant |
| Appointments.AbsenceRecordedExactlyWhen | migrations/versions/0018_human_operation_and_visits.py:126-147 | an absence is recorded exactly when it lasts and shares no instant with another live absence of its advisor; no other row changes |
| Appointments.AbsencesRecordInTurn | migrations/versions/0018_human_operation_and_visits.py:136-147 | the same of absences |
| Appointments.AppointmentTable.InsertRow | src/realestate/domain/scheduling/appointments.py:1126-1164 | an insert appends the row, or is refused naming the constraint and changes nothing |
| Appointments.AppointmentTable.ChangeRow | migrations/versions/0019_appointment_authority.py:35-51 | a status change replaces the row under the same guards, or is refused and changes nothing |
| Appointments.AppointmentTable.CheckArbiters | migrations/versions/0019_appointment_authority.py:29-51 | the scan of the other rows finds a refusal exactly when the specification has one |
| OrganizationScope.BackfillReadsRoot | migrations/versions/0026_managed_platform.py:520-524 | the update loop gives every row the Organization its root had before the migration |
| OrganizationScope.BackfilledChildrenAgree | migrations/versions/0026_managed_platform.py:65-82 | for any list with parents before children, every child ends with the Organization of the parent it read |
| OrganizationScope.RowsEndWithTheirParents | migrations/versions/0026_managed_platform.py:520-526 | on the columns: a row of a table set directly ends with the bootstrap Organization, one of a joined table with the Organization its parent ends with, any other as it was; references and rows stay |
| OrganizationScope.RevisionIsSensible | migrations/versions/0026_managed_platform.py:65-95 | the revision's own lists are ordered as the theorems ask |
| OrganizationScope.OrderMatters | migrations/versions/0026_managed_platform.py:68-69 | with the follow-ups before the cycles they read, a follow-up stays without an Organization |
| OrganizationScope.EveryRowIsScoped | migrations/versions/0026_managed_platform.py:550-555 | after the updates every row has an Organization, so no NOT NULL alteration fails |
| OrganizationScope.UpgradeValidatesExactlyWhen | migrations/versions/0026_managed_platform.py:575-584 | all composite keys validate if and only if the references the backfill did not read join rows with the same home |
| OrganizationScope.DeliveryStatusKeyHoldsExactlyWhen | migrations/versions/0026_managed_platform.py:87-95 | a delivery status's key validates if and only if its message's conversation was the bootstrap Organization's |
| OrganizationScope.SecondOrganizationFailsTheKey | migrations/versions/0026_managed_platform.py:87-95 | a two-Organization database in which every composite key validates but the delivery statuses' |
| OrganizationScope.AgentSessionKeyHoldsExactlyWhen | migrations/versions/0026_managed_platform.py:87-95 | an agent session's key validates if and only if its cycle's lead was the bootstrap Organization's |
| OrganizationScope.FollowupConversationSharesHome | migrations/versions/0015_commercial_integrity.py:67-271 | given 0015's keys between follow-ups, conversations, cycles and leads, a follow-up and its conversation have one home, so that cross key never fails |
| OrganizationScope.ConnectedRowsShareOrganization | migrations/versions/0026_managed_platform.py:137-280 | rows connected by any chain of composite references share one Organization |
| OrganizationScope.OrganizationsSeparate | migrations/versions/0026_managed_platform.py:137-280 | keeping or removing one Organization's rows leaves every composite key valid |
| OrganizationScope.ScopedDatabase.Upgrade | migrations/versions/0026_managed_platform.py:520-526 | the two update loops change the tables as specified |
| ConstraintSchema.UpgradeSucceedsExactlyWhen | migrations/versions/0015_commercial_integrity.py:289-300 | the loops succeed if and only if all names are new and every key's target is covered by a unique |
| ConstraintSchema.UpgradeAppendsItsLists | migrations/versions/0015_commercial_integrity.py:289-300 | a successful upgrade leaves the old constraints, then the uniques as listed, then the keys as listed, each relying on the oldest unique over the columns it refers to |
| ConstraintSchema.DowngradeUndoesUpgrade | migrations/versions/0015_commercial_integrity.py:460-463 | downgrade after upgrade fails nowhere and restores the constraints exactly |
| ConstraintSchema.CreationKeepsWellFounded | migrations/versions/0015_commercial_integrity.py:289-300 | no step of the upgrade creates a key without the unique it references |
| ConstraintSchema.DropKeepsWellFounded | migrations/versions/0015_commercial_integrity.py:460-463 | a drop that succeeds never leaves a key without its unique |
| ConstraintSchema.DroppedExactlyWhen | migrations/versions/0015_commercial_integrity.py:460-463 | dropping a constraint identified by its table and name removes it alone, and fails exactly when it is a unique that a key relies on |
| ConstraintSchema.KeysMustGoFirst | migrations/versions/0015_commercial_integrity.py:459-463 | after the upgrade, dropping the parent uniques without dropping the keys first succeeds if and only if no key relies on any of them |
| ConstraintSchema.RevisionIsCovered | migrations/versions/0015_commercial_integrity.py:30-271 | the revision's own parent uniques cover each of its keys |
| ConstraintSchema.Catalogue.RunUpgrade | migrations/versions/0015_commercial_integrity.py:289-300 | the two loops reach the specified schema, or roll back to the old one |
| ConstraintSchema.Catalogue.RunDowngrade | migrations/versions/0015_commercial_integrity.py:460-463 | the two reversed loops reach the specified schema, or roll back |
| MediaMigration.ReturnedReportIsExact | src/realestate/media_migrate.py:45-72 | if the migration returns, every row's destination bytes hash to its checksum, keys of no row are untouched, copied plus verified is the row count, and the bytes copied are the exact sum |
| MediaMigration.EarlierRowsAreGood | src/realestate/media_migrate.py:48-70 | if it raises, every row before the failing one is correct in the destination |
| MediaMigration.OtherKeysAreUntouched | src/realestate/media_migrate.py:63 | a key that no reached row names keeps its object or its absence |
| MediaMigration.ReturnsExactlyWhen | src/realestate/media_migrate.py:45-72 | whatever the stores do, it returns if and only if every row gets through: its destination object is readable and right, or the copy of a right source object goes well; a destination that refuses to be read is copied to again |
| MediaMigration.StopsAtFirstFailure | src/realestate/media_migrate.py:48-70 | otherwise it stops at the first row that does not get through |
| MediaMigration.StoppedRowHolds | src/realestate/media_migrate.py:49-70 | the row it stops at keeps the object it had, if no put was tried or the put raised without effect, and otherwise has what the put left |
| MediaMigration.RerunCopiesNothing | src/realestate/media_migrate.py:50-55 | a rerun after success copies nothing, whatever became of the source |
| MediaMigration.RerunResumes | src/realestate/media_migrate.py:48-70 | after an exception, a rerun finds the earlier rows done and resumes at the failing one |
| MediaMigration.MigrateRow | src/realestate/media_migrate.py:49-70 | the loop body on live stores does what one step specifies, for every storage failure |
| MediaMigration.MigrateAuthoritativeMedia | src/realestate/media_migrate.py:32-72 | the loop on live stores equals the specification, with its report or its exception |
| SponsoredDelivery.OneEventChangesOneCell | migrations/versions/0025_analytics_and_sponsorship.py:281-320 | recomputing after one more event changes its own row only, by its filters, and the distinct sessions by one exactly for a new session |
| SponsoredDelivery.RowCountsItsEvents | migrations/versions/0025_analytics_and_sponsorship.py:281-320 | a row exists exactly when an event of its Organization, definition, campaign, listing, surface and day does; each named column counts the valid events of that name, the invalid column all invalid ones, and the sessions are those of the valid visible impressions |
| SponsoredDelivery.ViewConservesEvents | migrations/versions/0025_analytics_and_sponsorship.py:291-318 | an additive column summed over all rows is the number of filtered events it counts |
| SponsoredDelivery.ViewIgnoresOrder | migrations/versions/0025_analytics_and_sponsorship.py:281-320 | permuting the events leaves the view as it is |
| SponsoredDelivery.SessionsAreImpressions | migrations/versions/0025_analytics_and_sponsorship.py:295-315 | a row's distinct sessions never exceed its visible impressions |
| LegacyQuarantine.NothingUnsafeIsLeft | migrations/versions/0011_quarantine_legacy_outbound.py:87-106 | a Pending or Sending row without a Queued decision ends Failed or DeliveryUnknown with no further attempt, and every other row stays as it was |
| LegacyQuarantine.OneAuditPerChangedRow | migrations/versions/0011_quarantine_legacy_outbound.py:63-86 | each changed row gets exactly one audit event with its prior status, and others get none |
| LegacyQuarantine.AuditsTellWhatChanged | migrations/versions/0011_quarantine_legacy_outbound.py:63-86 | over the whole migration the audits added about a row are one, with its prior status, if the row changed and none if it did not |
| LegacyQuarantine.OptOutsAreSuppressedOnce | migrations/versions/0011_quarantine_legacy_outbound.py:24-41 | each opted-out lead ends with exactly one active suppression, and the others keep what they had |
| LegacyQuarantine.OptOutIsTold | migrations/versions/0011_quarantine_legacy_outbound.py:24-62 | after it each opted-out lead has exactly one unrevoked WhatsApp suppression and a revoked marketing consent |
| LegacyQuarantine.OnlyOptOutsAreRecorded | migrations/versions/0011_quarantine_legacy_outbound.py:24-62 | nothing is recorded about any other lead, and no earlier record is changed or lost |
| LegacyQuarantine.QuarantineIsIdempotent | migrations/versions/0011_quarantine_legacy_outbound.py:23-106 | running the migration again changes nothing |
| LegacyQuarantine.OutboundStore.Upgrade | migrations/versions/0011_quarantine_legacy_outbound.py:23-106 | the four passes over live tables, in order, reach the specified tables |
| LegacyBackfill.ContactsPairLeads | migrations/versions/0012_organization_and_contacts.py:239-284 | after 0012 every lead has exactly one identity, every contact has exactly one, and contact ids stay unique |
| LegacyBackfill.LeadsAreCarriedOver | migrations/versions/0012_organization_and_contacts.py:253-284 | a lead without an identity gets a contact of the initial organization with its name and creation instant, and an identity of that contact with its handle; the rows that were there stay |
| LegacyBackfill.ContactsAreIdempotent | migrations/versions/0012_organization_and_contacts.py:249-251 | repeating the contact pass adds nothing, whatever ids it draws |
| LegacyBackfill.OpportunitiesPerContact | migrations/versions/0013_opportunities_and_actions.py:479-512 | 0013 leaves a contact without opportunities with one for each of its identities that wrote in, and others as they were |
| LegacyBackfill.OneOpportunityExactlyWhen | migrations/versions/0013_opportunities_and_actions.py:470-477 | no contact gets two opportunities if and only if no contact has two identities that wrote in |
| LegacyBackfill.TwoIdentitiesGetTwoOpportunities | migrations/versions/0013_opportunities_and_actions.py:487-488 | two leads of one person open two opportunities |
| LegacyBackfill.OpportunityOpensFromHistory | migrations/versions/0013_opportunities_and_actions.py:489-554 | each new opportunity is New, has exactly one origin and one opening transition, and its origin is the earliest conversation of the contact's lead and that conversation's earliest message, if any |
| LegacyBackfill.LegacyHistoryIsPursuedOnce | migrations/versions/0013_opportunities_and_actions.py:470-554 | from leads alone, the two revisions give each lead one contact, with no opportunity if the lead has no conversation, and otherwise exactly one, New, whose origin is that lead's earliest conversation and its earliest message |
| LegacyBackfill.OpportunitiesAreIdempotent | migrations/versions/0013_opportunities_and_actions.py:507-509 | repeating the opportunity pass adds nothing, even for contacts with several identities |
| LegacyBackfill.LegacyStore.BackfillContacts | migrations/versions/0012_organization_and_contacts.py:239-284 | the temporary mapping and two inserts reach the specified tables |
| LegacyBackfill.LegacyStore.BackfillOpportunities | migrations/versions/0013_opportunities_and_actions.py:479-554 | the joined temporary table and three inserts reach the specified tables |
| ProjectionDedupe.KeepsExactlyTheLeast | migrations/versions/0027_stage8_measurement_repairs.py:204-214 | the DELETE keeps exactly the least row of each group under (projected_at, id) |
| ProjectionDedupe.KeysBecomeUnique | migrations/versions/0027_stage8_measurement_repairs.py:215-220 | the two-column uniqueness then holds |
| ProjectionDedupe.EachKeyKeepsOneRow | migrations/versions/0027_stage8_measurement_repairs.py:204-214 | every key that had a row keeps exactly one |
| ProjectionDedupe.DedupeIsIdempotent | migrations/versions/0027_stage8_measurement_repairs.py:204-214 | deleting again deletes nothing |
| ProjectionDedupe.SnapshotDoesNotMatter | migrations/versions/0027_stage8_measurement_repairs.py:207-212 | as long as no spared row has gone, the remaining table condemns the same rows as the snapshot |
| ProjectionDedupe.EventTable.Deduplicate | migrations/versions/0027_stage8_measurement_repairs.py:206-214 | deleting row by row from the live table gives the result of the one DELETE |
| InboundMessages.KeyIsStoredExactlyWhen | src/realestate/api/webhooks.py:236-268 | after any call, a key is stored if and only if it was before, or a message new for it commits, loses a race, or is refused after its flush and a commit of the session, by a message or a delivery status, comes before any rollback |
| InboundMessages.CompletesExactlyWhen | src/realestate/db/engine.py:44-52 | a call completes if and only if no item that reached the database failed it |
| InboundMessages.HistoryStoresExactlyWhen | src/realestate/domain/inbox.py:167-327 | the same condition, over any history of calls, decides every key; each key has one row and stored rows never change |
| InboundMessages.StoredExactlyOnce | src/realestate/domain/inbox.py:167-327 | over any history with duplicates, races, refusals and crashes, a key that some completed call routed without refusing it after a flush is stored, nothing unrouted is, each key has one row, and stored rows never change |
| InboundMessages.OrderDoesNotMatter | src/realestate/api/webhooks.py:230-268 | two histories that offer a key, and answer it when they do, agree on whether it is stored, however their calls are ordered, repeated or cut |
| InboundMessages.CountersAddUp | src/realestate/api/webhooks.py:236-268 | in every completed call accepted plus duplicates plus unroutable is the number of messages and refused delivery statuses, so the size of a body of messages |
| InboundMessages.ItemsAreAnswered | src/realestate/api/webhooks.py:236-268 | in a completed call each item is counted once, in order: unroutable when its account is not bound, duplicate when its key is already there, and otherwise by its fate |
| InboundMessages.BoundMessagesAreStored | src/realestate/domain/inbox.py:190-239 | in a completed call of messages none of which is refused late, each message whose account an Organization bound on its channel ends stored for that Organization, channel and provider id, and each other one is unroutable |
| InboundMessages.RunKeepsUnique | migrations/versions/0030_meta_customer_channels.py:86-90 | no call ever leaves two rows for one (organization, channel, provider message id), flushed or committed |
| InboundMessages.StoredRowsWereDelivered | src/realestate/domain/inbox.py:226-239 | every row a call leaves, flushed or committed, was there before or holds the content of a message routed to its key, or of the delivery that won its race |
| InboundMessages.LeftoverIsKeptExactlyWhen | src/realestate/api/webhooks.py:246-254 | a row flushed by a refused message is kept if and only if a later commit of the session comes before any rollback, and still waits if and only if neither came |
| InboundMessages.LateRefusals | src/realestate/api/webhooks.py:92-145 | the shortest bodies in which a message refused after its flush would be persisted by a message, persisted by a delivery status, and stored nowhere although its repetition is acknowledged |
| InboundMessages.Inbox.AcceptMessage | src/realestate/domain/inbox.py:167-341 | accepting one message on the live session does what one step specifies |
| InboundMessages.Inbox.RecordDeliveryStatus | src/realestate/domain/outbox.py:292-346 | a delivery status commits the session, or rolls it back when it was filed before |
| InboundMessages.Inbox.ReceiveWebhook | src/realestate/api/webhooks.py:90-161 | the message and status loops on the live session equal the specification, with exact counters, and leave nothing uncommitted behind |
| InboundMessages.Inbox.AcceptCustomerMessages | src/realestate/api/webhooks.py:230-268 | the same for a body of messages, whose three counters add up to its size |
| SupportLogin.RecoveredExactlyWhen | src/realestate/api/developer.py:77-94 | decoding undoes encoding exactly for support logins with colon-free passwords and for colon-free logins other than the bare prefix with a colon in its password |
| SupportLogin.SupportLoginsRoundTrip | src/realestate/api/developer.py:84-89 | any support login and colon-free password come back exactly |
| SupportLogin.PlainLoginsRoundTrip | src/realestate/api/developer.py:77-94 | any other colon-free login passes through with an arbitrary password |
| SupportLogin.SupportLoginIsIdempotent | src/realestate/domain/platform/support.py:133-146 | qualifying an already qualified login gives it back |
| SupportLogin.GrantRefusedExactlyWhen | src/realestate/domain/platform/support.py:139-144 | a grant is refused exactly when the engineer's name is blank, or else the Organization's |
| SupportLogin.GrantedLoginsAgreeExactlyWhen | src/realestate/domain/platform/support.py:139-146 | grants to two colon-free names give one login if and only if the names and the Organizations are equal once stripped and lowered |
| SupportLogin.LoginNames | src/realestate/api/developer.py:90-103 | a support login names the account after its last colon, any other login itself |
| SupportLogin.LoginNamesItsEngineerExactlyWhen | src/realestate/domain/platform/support.py:133-146 | a granted login leads to the engineer's configured account if and only if that name is stripped, lower-case and free of colons |
| SupportLogin.AuthenticatesExactlyWhen | src/realestate/api/developer.py:90-110 | recoverable credentials enter as their own login exactly with the password of the account the login names, and are refused otherwise |
| SupportLogin.GrantedLoginAuthenticatesExactlyWhen | src/realestate/api/developer.py:77-110 | for every configured account, the granted login with that account's password enters if and only if the password has no colon and is also that of the account the login names |
| SupportLogin.LoneEngineerEntersExactlyWhen | src/realestate/api/developer.py:77-110 | where the engineer's is the only account, the granted login enters if and only if the name is stripped, lower-case and free of colons and the password has no colon |
| SupportLogin.MixedCaseEngineer | src/realestate/api/developer.py:90-103 | an account configured as "Gerardo" is refused with its granted login, and enters only as a login that was never granted |
| SupportLogin.AsciiLowers | src/realestate/domain/platform/support.py:139-142 | what the other rows ask of lower-casing can be met: lowering ASCII letters alone meets it |
| SupportLogin.ColonInEngineerName | src/realestate/api/developer.py:90-103 | an account "a:bob" enters with its granted login exactly when an account "bob" has the same password |
| PropertySlug.SlugIsCutJoinedWords | src/realestate/api/admin.py:190-197 | for every name the slug is canonical, at most 120 characters, a prefix of the name's words joined by single hyphens, and all of them exactly when they fit; a cut on a separator drops it |
| PropertySlug.SlugIsIdempotent | src/realestate/api/admin.py:190-197 | the slug of a slug is that slug |
| PropertySlug.CanonicalIsFixed | src/realestate/api/admin.py:190-197 | the pipeline's fixed points are exactly the canonical texts of at most 120 characters |
| PropertySlug.SlugKeepsWords | src/realestate/api/admin.py:190-197 | a slug that was not cut has the same words as the name |
| PropertySlug.SlugKeepsLetters | src/realestate/api/admin.py:190-197 | every character of a slug is a lower-case letter, a digit or a hyphen, at most 120 of them; its letters and digits are the first ones of the name, in order, and all of them when the name fits |

## Left out

- MarketProjection.ProjectedSaleIsCurrent: does not model JSON number parsing, so a numeric column whose JSON form loses digits is outside the model; the buyer-profile half of the projector is not modelled.
- MarketProjection.MarketProjector.Drain: does not model what a profile's projection writes to the buyer profiles; only whether it raises.
- MarketLedger.AcceptedExactlyWhen: does not model column types, NOT NULL or the foreign keys, which can also refuse a row.
- ConstraintSchema.UpgradeSucceedsExactlyWhen: does not model the rows: existing rows that break a new unique or key also fail the loops.
- LegacyBackfill.ContactsPairLeads: does not model `uq_contact_identity`; the inserts are taken to meet it, which needs distinct WhatsApp ids.
- SponsoredDelivery.OneEventChangesOneCell: does not model the session time zone of `date_trunc`; days are UTC days.
- InboundMessages.Inbox.AcceptMessage: does not model the effects of the domain services after a flush, the leads and conversations an acceptance opens, or the trimming of channel account ids; an integrity error is only ever the race on the message key.
- SupportLogin.AuthenticatesExactlyWhen: does not model how the framework turns the header's bytes into text, nor the membership lookup behind the login.
- CommandReceipts.KeyIsBoundToItsCommand: does not model SHA-256; facts count as different when their digest differs.
- Updates that change a row's primary key, and self-references in `rescheduled_from_id` at insert, are hypotheses of the ledger and the calendar, not modelled operations.
- PostgreSQL locking, isolation levels and savepoints, including the one around attaching an advisor.
- Domain rules behind the handlers: stage transitions, eligibility, assignment policy, slot search.
- The bucket copy `docker/migrate_minio_to_garage.py`: a straight copy without resumption; the media migration is the harder loop.
- The swap of the WhatsApp id uniqueness and the transaction table in 0015, the renamed uniques of 0026 and 0030's backfills: finite lists of the same constructs.
- 0029's document canonicalisation, the id list parser of the engagement pages, host normalisation, field states and the assistant's tools: short pure functions.
- Inbox claiming, leases and retries, outbound delivery, HTML, signatures, telemetry and network clients.

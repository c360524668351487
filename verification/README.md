# Verified model of the cloned routes, the account loaders and the audit exceptions

This project models three parts of the repository in Dafny and proves what they
promise.

**Cloned routes** (`Route*.dfy`, `OutboxEncoding.dfy`, `SqlLiteral.dfy`). The
script `deploy/configure_official_cloud_routes.py` plans, checks, applies and
rolls back copies of five groups. `RouteTables` holds the tables, the SQL
conditions over them and the row that is cloned. `RouteTransactions`,
`RouteApply` and `RouteRollback` give each transaction as a function from
database to outcome, an outcome being the tables, the reported ids and the
outbox events the transaction asks for, and prove what it keeps and establishes.
The outbox is not locked: `RouteOutbox` says what a transaction's inserts leave
in it while other sessions insert rows and release dedup keys between its
statements, `RouteDelivery` which events of apply and rollback are then pending.
`RouteDatabase` is a class whose fields are the tables; its methods change them
statement by statement, restore them when the block raises, and are proved equal
to those functions. `RouteMeaning` says once more, over rows, bindings and
times, what the digest covers, what is eligible, what a clone is and when a mode
commits. `RouteRuns` is a state machine of any number of operators: arguments
are admitted, the record file is reserved exclusively, the transaction commits
or aborts, the result is written, a crash or a torn write may come between any
two steps, and other writers change the database meanwhile; `RouteRecords` says
what a record then stands for. `OutboxEncoding` covers the text the outbox key
is hashed from in its three writers, `SqlLiteral` the quoting of string
constants against the PostgreSQL scanner (section 4.1.2.1 of the PostgreSQL
manual, standard-conforming strings).

**Accounts** (`EagerLoading*.dfy`, `SelectColumns.dfy`, `AccountRow.dfy`,
`BulkCreate*.dfy`). Entities are heap objects whose `edges` the loaders assign
in place. Each loader is proved against a per-node lookup over the rows the
query returned. `SelectColumns` shows that eager loading does not depend on a
projection. `AccountRow` has defaults, checks, `createSpec`, `scanValues` and
`assignValues`. `BulkCreate` has the chain of mutators behind a bulk save, with
hooks that may change their mutation, hand on another one, fail late or swallow
an error.

**Audit exceptions** (`AuditFile.dfy`, `AuditCheck.dfy`). The line parser is
proved to invert a printer that may quote or not, and the index and scan of
`tools/check_pnpm_audit_exceptions.py` to decide an acceptance condition that
mentions neither.

`Wrappers.dfy` and `Ascending.dfy` hold Option, Result and sorting.

## Findings

- `loadGroups` lists an account's groups in the order in which groups first
  appear in the whole result, which need not be the order of the account's own
  rows (`OwnOrderMayDiffer`); `OwnOrderExactly` says when the two agree, and
  they do for every account when the query is ordered by group
  (`GroupedRowsKeepOwnOrder`).
- A bulk save is all or nothing, whatever the mutations, the validators and the
  database, if and only if each builder's stack of hooks that can be called
  reports every error and, where a batch can be sent at all, none fails after a
  mutation that can pass (`HooksAllOrNothingExactly`). A hook that fails after
  its mutator leaves an inserted batch and a mutation marked done behind a
  reported error (`LateFailureIsNotAtomic`).
- `check` looks at the builder's own mutation before a mutation handed on by a
  hook replaces it, so the replacement enters the batch unchecked
  (`SwappedMutationIsUnchecked`). `CheckedExactly` says for which hooks that
  cannot happen: whatever they hand on from a mutation that can pass must be
  complete and have only validated values that the builder's own mutation has
  too, or that some builder's hooks force on every mutation. A hook that hands
  on a copy is one of them (`CopyIsChecked`).
- A bulk save drops the error of `defaults`. The check afterwards refuses the
  same builders if and only if no hook completes a mutation that lacks a
  computed default (`ErrorIsReportedExactly`); a hook that does hides the error,
  and the batch is sent (`CompletingHookHidesError`).
- A committed rollback may leave no event for a group it disabled: its insert
  does nothing because the event of the apply is still pending, and the consumer
  releases that row before the rollback commits (`RollbackEventLost`). An event
  is certain to be pending at commit, whatever other sessions do, if and only if
  it names a group its transaction was allotted (`CertainExactly`). So an apply
  is certain of the events of its new groups, and of the event of an account
  exactly when the account is bound to a source that had no live clone
  (`ApplyCertainExactly`); a rollback is certain of none
  (`RollbackNeverCertain`).
- The digest guard of rollback fires only for a source group; ids of a genuine
  receipt never trip it (`GuardSeesSources`, `GenuineRollback`). A soft-deleted
  clone keeps its name taken, so its target is refused for the rest of the run
  while no live group carries the marker (`DeletedCloneStaysRefused`).
- The audit compares severities only at the first tuple of each package and
  advisory, so its verdict depends on the order of tuples (`SwappedIsRefused`).
  `SomeOrderExactly` and `EveryOrderExactly` say when an audit is accepted in
  some and in every order, `OrderIrrelevantExactly` when the order does not
  matter.

## Assumptions

MD5 and SHA-256 (FIPS 180-4) are injective, so a digest stands for what it is
taken from. Group ids come from a sequence and are natural numbers. Primary and
foreign keys hold, the marker of live groups is unique
(`backend/migrations/181_group_duplicate_operation_id.sql`) and so is the dedup
key of pending events
(`backend/migrations/153_scheduler_outbox_pending_dedup_key_index_notx.sql`).
The columns the script names exist and none is generated; names, statuses, types
of subscription and flags are not null. The table locks make each mutating
transaction one atomic step for every table but the outbox; there other sessions
may commit anything between two statements, as long as keys stay unique, fit
their events and no pending event names a group whose id has not been allotted
yet. Between steps other writers do not rename, re-mark or physically delete
groups. The documents a create stores were marshalled and can be unmarshalled
again. An `IF` over a chain of `OR`s takes its branch exactly when one disjunct
is true, so SQL's unknown counts as false. An outbox row is pending while it
holds a dedup key; the consumer clears the key when it picks the row up.

## Model

| member | source | states |
|---|---|---|
| SqlLiteral.LiteralRoundTrip | deploy/configure_official_cloud_routes.py:41-42 | for every string and suffix, scanning the quoted string gives back the string and the suffix if and only if the suffix neither starts with a quote nor resumes the constant across a newline, with spaces and line comments in between |
| SqlLiteral.NestedLiteralRoundTrip | deploy/configure_official_cloud_routes.py:148 | a literal inside a literal gives back the string after two evaluations |
| OutboxEncoding.DecimalInjective | deploy/configure_official_cloud_routes.py:61 | different ids have different decimal texts |
| OutboxEncoding.DecimalReadsBack | deploy/configure_official_cloud_routes.py:61 | reading the digits of a decimal text by position gives the id back, without a leading zero |
| OutboxEncoding.PayloadInjective | deploy/configure_official_cloud_routes.py:175-176 | equal account payloads list the same group ids in the same order |
| OutboxEncoding.PayloadIsList | deploy/configure_official_cloud_routes.py:175-176 | the payload is the object with the ids in brackets, a comma between any two |
| OutboxEncoding.PreimageInjective | backend/internal/repository/scheduler_outbox_repo.go:213-229 | equal hashed texts come from equal kind, account, group and payload |
| OutboxEncoding.GoKey | backend/internal/repository/scheduler_outbox_repo.go:213-229 | the service's sequence of writes hashes the same text as the specification |
| OutboxEncoding.WritersAgree | deploy/configure_official_cloud_routes.py:58-64 | for every id the keys of apply's SQL, rollback's Python and the service are byte for byte the same |
| RouteTables.OverriddenAreIgnored | deploy/configure_official_cloud_routes.py:28 | a column other than the id is copied from the source if and only if the clone comparison looks at it |
| RouteTables.SameKeySameEvent | deploy/configure_official_cloud_routes.py:165-167 | two pending events with one dedup key are the same event |
| RouteTables.EnqueueDelivers | deploy/configure_official_cloud_routes.py:164-167 | right after one insert with DO NOTHING the very event is pending, no earlier row is lost, keys stay unique |
| RouteTables.WritersAreHonest | deploy/configure_official_cloud_routes.py:164-181 | every event apply or rollback enqueues bears the key of its own contents |
| RouteTables.TargetsAreDistinct | deploy/configure_official_cloud_routes.py:18-24 | the five targets have pairwise different names and markers |
| RouteTables.TargetsAre | deploy/configure_official_cloud_routes.py:18-24 | the five targets are those of the script: source, platform, name and marker |
| RouteTransactions.SharedColumns | deploy/configure_official_cloud_routes.py:146-156 | a cloned row agrees with its source in every compared column |
| RouteTransactions.CloneRowAccepted | deploy/configure_official_cloud_routes.py:98-105 | a cloned row passes the strict comparison and carries the target's name and marker |
| RouteTransactions.CopiedLists | deploy/configure_official_cloud_routes.py:106-115 | after the copy the ordered lists of accounts with priorities and of channels are those of the source |
| RouteTransactions.TargetKept | deploy/configure_official_cloud_routes.py:67-117 | validation of another target does not see the new group, its bindings or its event |
| RouteTransactions.InsertEstablishes | deploy/configure_official_cloud_routes.py:139-169 | one round of the clone loop makes the strict validation hold for its target |
| RouteTransactions.SnapshotKept | deploy/configure_official_cloud_routes.py:30-38 | the digest of the sources does not see a new group |
| RouteTransactions.InsertValid | deploy/configure_official_cloud_routes.py:158-163 | inserting a missing clone keeps keys, schema, unique live markers and an outbox that names allotted groups only |
| RouteTransactions.CloneLoop | deploy/configure_official_cloud_routes.py:139-169 | from the lenient validation the whole loop reaches the strict one for all targets, keeps the digest and adds exactly the reported groups, newly allotted, with their bindings, each the clone of a target whose name was free |
| RouteOutbox.OwnExactly | deploy/configure_official_cloud_routes.py:164-167 | a transaction inserts exactly those of its events that were not pending when their insert was executed, whatever other sessions do in between |
| RouteOutbox.PendingExactly | backend/internal/repository/scheduler_outbox_repo.go:30-57 | an event a transaction asked for is pending at its commit if and only if none was pending at the insert or one is at commit, that is, the row that suppressed it was not released meanwhile |
| RouteOutbox.FreshIsPending | deploy/configure_official_cloud_routes.py:159-167 | an event that names a group the transaction itself was allotted is pending at commit whatever other sessions do |
| RouteOutbox.CertainExactly | deploy/configure_official_cloud_routes.py:164-167 | an event is pending at commit whatever other sessions do to the outbox if and only if it names a group allotted by the transaction itself |
| RouteOutbox.FinalIsOrderly | deploy/configure_official_cloud_routes.py:164-167 | at commit no committed row of another session is lost, only the transaction's events are added, keys stay unique and no pending event names a group still to be allotted |
| RouteOutbox.QuietDelivers | deploy/configure_official_cloud_routes.py:164-167 | undisturbed, a transaction leaves all its events pending |
| RouteOutbox.SuppressedThenReleased | backend/internal/repository/scheduler_outbox_repo.go:30-57 | an event whose pending row is released between the insert and the commit is not pending at commit |
| RouteApply.ValidatedSourcesExist | deploy/configure_official_cloud_routes.py:71-76 | validation proves that every source group exists |
| RouteApply.AccountEventNamesItsGroups | deploy/configure_official_cloud_routes.py:175-176 | the payload is the ascending list of exactly the groups the account is bound to |
| RouteApply.ApplyCommitsExactly | deploy/configure_official_cloud_routes.py:133-195 | apply commits if and only if the baseline is unchanged and the lenient validation passes; the second validation and the final digest guard never abort it |
| RouteApply.ApplyEffect | deploy/configure_official_cloud_routes.py:133-196 | a committed apply leaves all targets strictly valid, the sources' digest unchanged and only new groups added, and asks for the group_changed event of each new group in order and then the account_changed event of each account bound to a source in ascending order |
| RouteApply.ValidatesLater | deploy/configure_official_cloud_routes.py:82-86 | once strictly valid, validation at any other time fails if and only if a source has no usable account then |
| RouteApply.ApplyTwice | deploy/configure_official_cloud_routes.py:125-196 | applying again to its own result, whatever became of the outbox, creates nothing and changes no table, and check passes, at any time at which each source has a usable account; otherwise both are refused; it asks for the account events again |
| RouteApply.RowAcceptedExactly | deploy/configure_official_cloud_routes.py:98-105 | the comparison accepts a row if and only if it is, up to its two timestamps, the row cloning would insert |
| RouteApply.ListsAgreeExactly | deploy/configure_official_cloud_routes.py:106-115 | the aggregated lists are equal if and only if both groups have the same accounts with the same priorities and the same channels |
| RouteApply.CheckIsExact | deploy/configure_official_cloud_routes.py:67-117 | check passes for a target if and only if its source is eligible and exactly one live group has its marker and is an exact clone |
| RouteRollback.GuardSeesSources | deploy/configure_official_cloud_routes.py:195 | after disabling, the digest guard fires if and only if a source group was changed |
| RouteRollback.RollbackCommitsExactly | deploy/configure_official_cloud_routes.py:184-195 | rollback commits if and only if the baseline holds, every id is a live owned group and no source would change; then each listed group not yet disabled has status disabled and the time of update now, every other column as it was, an event is asked for it once, and nothing else changes |
| RouteRollback.GenuineRollback | deploy/configure_official_cloud_routes.py:184-195 | with the ids of a committed apply only the baseline and ownership can refuse a rollback |
| RouteRollback.RollbackTwice | deploy/configure_official_cloud_routes.py:191-192 | a second rollback with the same ids, whatever became of the outbox, commits, changes nothing and asks for no event |
| RouteRollback.DisabledCloneRefuses | deploy/configure_official_cloud_routes.py:98-105 | while a disabled clone is live every plan, check and apply is refused |
| RouteRollback.DeletedCloneRefuses | deploy/configure_official_cloud_routes.py:92-97 | a target whose name belongs to another group, as after the soft delete of its clone, is refused |
| RouteDelivery.AccountEventNames | deploy/configure_official_cloud_routes.py:175-176 | an account event names a group if and only if the account is bound to it |
| RouteDelivery.ApplyDelivers | deploy/configure_official_cloud_routes.py:164-182 | after a committed apply, whatever other sessions did to the outbox meanwhile, the events of all new groups and of all accounts bound to one are pending, every other event exactly when none was pending at its insert or one is at commit, no row of others is lost and the database is in order |
| RouteDelivery.ApplyCertainExactly | deploy/configure_official_cloud_routes.py:164-182 | which events of a committed apply are pending whatever other sessions do: all group_changed events, and the account_changed event of an account if and only if the account is bound to a source whose target had no live clone |
| RouteDelivery.UndisturbedApply | deploy/configure_official_cloud_routes.py:164-182 | when no other session writes to the outbox, every account bound to a source has its event pending after an apply and no earlier row is lost |
| RouteDelivery.UndisturbedApplyTwice | deploy/configure_official_cloud_routes.py:125-196 | two applies with one baseline and nothing in between leave the second time every table, the outbox included, as it was |
| RouteDelivery.RollbackDelivers | deploy/configure_official_cloud_routes.py:184-193 | after a committed rollback the event of each group it disabled is pending exactly when none was pending at its insert or one is at commit |
| RouteDelivery.RollbackNeverCertain | deploy/configure_official_cloud_routes.py:184-193 | no event of a committed rollback is pending whatever other sessions do |
| RouteDelivery.RollbackEventLost | deploy/configure_official_cloud_routes.py:191-192 | for any committed rollback of one enabled group there are releases that leave the group disabled and no event pending |
| RouteMeaning.SnapshotsAgreeExactly | deploy/configure_official_cloud_routes.py:30-38 | two databases have the same digest if and only if for every source its row, its bindings, the accounts and channels bound to it and the prices of those channels agree |
| RouteMeaning.StalePlanAborts | deploy/configure_official_cloud_routes.py:125-126 | where any of these has changed since the plan, apply and rollback with its baseline abort |
| RouteMeaning.SourceOkExactly | deploy/configure_official_cloud_routes.py:71-90 | a source passes if and only if its row is live, active, of the platform, standard, not exclusive and discounted, no account bound to it is deleted or an API key where only OAuth is allowed, one is usable now, and its channels are active |
| RouteMeaning.CloneRowExactly | deploy/configure_official_cloud_routes.py:146-159 | the row apply inserts, column by column: the values the script sets, the time of insertion, and in every other column that of the source |
| RouteMeaning.ValidatesExactly | deploy/configure_official_cloud_routes.py:67-117 | the validation passes if and only if every source is eligible and has exactly one live group with the marker, which is its clone in row and bindings; the lenient one also if there is none and the name is free |
| RouteMeaning.ApplyAgainstPlan | deploy/configure_official_cloud_routes.py:125-195 | apply with the baseline of an earlier database commits if and only if every source still looks as it did there and every target passes the lenient validation now |
| RouteMeaning.SharedExactly | deploy/configure_official_cloud_routes.py:173-174 | the accounts apply refreshes are exactly those bound to a source |
| RouteMeaning.OwnedExactly | deploy/configure_official_cloud_routes.py:187-190 | an id is owned if and only if it is a live group with the marker of a target |
| RouteDatabase.InsertSelectClones | deploy/configure_official_cloud_routes.py:142-159 | the INSERT assembled column by column from the schema puts in the specified clone row |
| RouteDatabase.Database.Restore | deploy/configure_official_cloud_routes.py:127-132 | an exception puts every table back |
| RouteDatabase.Database.Validate | deploy/configure_official_cloud_routes.py:67-117 | the validation loop answers the quantified validation |
| RouteDatabase.Database.Inspect | deploy/configure_official_cloud_routes.py:120-136 | plan and check answer as specified and change nothing |
| RouteDatabase.Database.SelectList | deploy/configure_official_cloud_routes.py:141-157 | the two accumulators pair every schema column with its expression |
| RouteDatabase.Database.Insert | deploy/configure_official_cloud_routes.py:164-167 | one insert into the outbox, among the rows other sessions have committed by then |
| RouteDatabase.Database.InsertRows | deploy/configure_official_cloud_routes.py:158-163 | the inserts into groups and the binding tables change the tables as specified |
| RouteDatabase.Database.CloneGroup | deploy/configure_official_cloud_routes.py:158-168 | the statements of one round change the tables as specified and ask for the group's event |
| RouteDatabase.Database.CloneMissing | deploy/configure_official_cloud_routes.py:139-169 | the loop over the targets leaves the specified tables and created ids |
| RouteDatabase.Database.RefreshAccounts | deploy/configure_official_cloud_routes.py:173-182 | the loop over shared accounts asks for the specified events in order and changes no other table |
| RouteDatabase.Database.CloneAndRefresh | deploy/configure_official_cloud_routes.py:139-195 | clone loop, strict validation, account loop and digest guard leave the specified tables and events |
| RouteDatabase.Database.Apply | deploy/configure_official_cloud_routes.py:133-196 | apply on the tables, with other sessions' outbox rows between its statements, refines the specified transaction: committed with everything ApplyEffect promises and the outbox ApplyDelivers describes, or every table as before |
| RouteDatabase.Database.DisableListed | deploy/configure_official_cloud_routes.py:184-193 | the receipt's statements disable the listed groups or stop at one that is not owned |
| RouteDatabase.Database.Rollback | deploy/configure_official_cloud_routes.py:184-195 | rollback on the tables, with other sessions' outbox rows between its statements, refines the specified transaction: exactly the listed groups disabled, or every table as before |
| RouteRuns.NextKeeps | deploy/configure_official_cloud_routes.py:219-269 | every step of every operator, crash, torn write or other writer keeps the invariant of the whole system |
| RouteRuns.RunKeeps | deploy/configure_official_cloud_routes.py:219-269 | the invariant holds in every state of every run |
| RouteRuns.EachTargetCreatedOnce | deploy/configure_official_cloud_routes.py:91-169 | in every run no group is reported as created twice, no two reported groups were created for one target, and at most one live group has each marker |
| RouteRuns.ReportedInOneEntry | deploy/configure_official_cloud_routes.py:159-168 | in every run each group a transaction creates is reported by exactly one committed apply, from its commit on, and its group_changed event is pending at that commit |
| RouteRuns.RecordsAreTruthful | deploy/configure_official_cloud_routes.py:227-261 | in every run a committed mutation has its record file, a complete record of a mutation names a committed one with exactly those ids, and a rollback works on the non-empty ids of a committed apply |
| RouteRuns.RecordsArePermanent | deploy/configure_official_cloud_routes.py:208-216 | in every run no record disappears and no complete record is overwritten |
| RouteRuns.OrphansArePermanent | deploy/configure_official_cloud_routes.py:229-265 | in every run a file that no process owns, the pending or torn record of an operator that failed included, keeps its content to the end |
| RouteRuns.NamesArePermanent | deploy/configure_official_cloud_routes.py:184-193 | in every run no transaction takes a group away or changes its name or marker |
| RouteRuns.DeletedCloneStaysRefused | deploy/configure_official_cloud_routes.py:91-97 | in every run, once some group bears a target's name, every later plan, check and apply is refused while no live group carries the target's marker |
| RouteRuns.RollbackNeverTripsGuard | deploy/configure_official_cloud_routes.py:241-250 | in every run a rollback that reaches the database commits if and only if its baseline holds and its ids are still live and owned |
| RouteRecords.CheckCommitsExactly | deploy/configure_official_cloud_routes.py:133-136 | a check transaction commits if and only if the baseline, if any, holds and every target has an eligible source and exactly one live group, a clone; it changes nothing |
| RouteRecords.PlanCommitsExactly | deploy/configure_official_cloud_routes.py:133-136 | a plan transaction commits if and only if the same holds with a clone allowed to be missing where the name is free; it changes nothing |
| RouteRecords.AdmitExactly | deploy/configure_official_cloud_routes.py:227-250 | who may start: a mutation names a record, the record is a new file, a baseline is a complete plan, apply has one, rollback has the complete receipt of an apply that created something; what it then expects and rolls back |
| RouteRecords.TornIsRefused | deploy/configure_official_cloud_routes.py:255-261 | a torn write leaves an unreadable record, with which nobody is admitted |
| RouteRecords.RecordHasOrigin | deploy/configure_official_cloud_routes.py:199-205 | in every run each complete record, unless there from the start, reports a committed transaction of the process that reserved it: its mode, the digest of the database it met, the ids it created |
| RouteRecords.WrittenIsRecorded | deploy/configure_official_cloud_routes.py:255-261 | in every run a process that writes its result leaves the complete record of its transaction and is finished |
| RouteRecords.ApplyFollowsPlan | deploy/configure_official_cloud_routes.py:231-239 | in every run an apply given a plan of that run commits if and only if every source still looks as the plan met it and every target passes the lenient validation now |
| RouteRecords.AnsweredCheckHeld | deploy/configure_official_cloud_routes.py:91-117 | in every run, when a check is answered, its database had for every target an eligible source and exactly one live group with the marker, its clone |
| EagerLoading.KeysOfExact | backend/ent/account_query.go:776-787 | the queried ids have no duplicates and are exactly the non-nil keys |
| EagerLoading.IndexByKey | backend/ent/account_query.go:776-787 | the first loop of a to-one loader yields those ids and partitions the keyed nodes by key |
| EagerLoading.AssignOne | backend/ent/account_query.go:801-803 | one row is assigned to all its nodes and no other edge changes |
| EagerLoading.ScatterRows | backend/ent/account_query.go:796-804 | rows are scattered up to the first whose id was not asked for, which is named in the error |
| EagerLoading.LoadToOne | backend/ent/account_query.go:775-806 | each node's edge is the returned row with its key or stays as it was; all other edges are unchanged; the error comes up if and only if a returned id was not queried |
| EagerLoading.RowWithIdExact | backend/ent/account_query.go:807-838 | over distinct ids the scattered row is the one row with that id, and there is none if and only if no row has it |
| EagerLoadingMany.InitMany | backend/ent/account_query.go:840-849 | the first loop indexes the nodes by id and empties the edge of each |
| EagerLoadingMany.AppendRows | backend/ent/account_query.go:859-867 | rows are appended up to the first whose key is nil or no node's id |
| EagerLoadingMany.LoadToMany | backend/ent/account_query.go:901-933 | each node's edge is exactly the subsequence of returned rows whose key is its id, and the error comes up if and only if a row belongs to no node |
| EagerLoadingMany.FirstSeenExact | backend/ent/account_query.go:751-757 | the groups read from the join are those of its rows, each once |
| EagerLoadingMany.ReadJoin | backend/ent/account_query.go:737-763 | reading the join row by row collects each group once, in order of its first row, with exactly the accounts it is joined with |
| EagerLoadingMany.AssignGroup | backend/ent/account_query.go:769-771 | a group is appended once to each of its accounts in whatever order the map is walked |
| EagerLoadingMany.LoadGroups | backend/ent/account_query.go:714-774 | each account's groups are the collected ones joined with it, in their order; all other edges are unchanged; the error for an unexpected group cannot come up |
| EagerLoadingLaws.GroupsAreTheJoin | backend/ent/account_query.go:714-774 | for any rows, duplicates included, an account's groups are duplicate-free, exactly the joined ones, in order of first appearance in the result |
| EagerLoadingLaws.OwnOrderMayDiffer | backend/ent/account_query.go:751-772 | three rows for which that order is not the order of the account's own rows |
| EagerLoadingLaws.OwnOrderExactly | backend/ent/account_query.go:751-772 | the two orders agree if and only if the account's groups first appear in its own rows in the order in which they first appear in the result |
| EagerLoadingLaws.GroupedRowsKeepOwnOrder | backend/ent/account_query.go:751-772 | they agree for every account when the rows of each group stand together |
| EagerLoadingLaws.OrderedRowsAreGrouped | backend/ent/account_query.go:751-772 | as they do when the query is ordered by group |
| EagerLoadingLaws.FilteredRowsBelong | backend/ent/account_query.go:852-854 | rows that pass the loader's own filter never end it early |
| EagerLoadingLaws.ParentInvertsChildren | backend/ent/account_query.go:869-933 | over one table, fetched anew by each loader, an entity with one account's id is among the other's children if and only if the one's parent has the other's id |
| SelectColumns.QueryColumns | backend/ent/account_query.go:1007-1032 | the fetched columns are the id, once and first, the selected fields and the keys of the requested to-one edges, or all columns without a selection |
| SelectColumns.ListsHaveKeys | backend/ent/account_query.go:1007-1032 | the column lists of accounts and of every neighbour have what the loaders read: the id first, the keys of the to-one edges, the key back of a to-many edge |
| SelectColumns.SelectKeepsToOne | backend/ent/account_query.go:1015-1032 | a requested to-one edge is read from fetched columns only, for any selection on either side |
| SelectColumns.SelectKeepsToMany | backend/ent/account_query.go:849-851 | likewise a to-many edge, whose key is appended to the neighbours' selection |
| SelectColumns.LoadedToOneIgnoresSelect | backend/ent/account_query.go:658-710 | accounts fetched under any selection get from the loader the to-one edge they get under a full one |
| SelectColumns.LoadedToManyIgnoresSelect | backend/ent/account_query.go:658-710 | and the same to-many rows in the same order |
| SelectColumns.SelectKeepsJoin | backend/ent/account_query.go:737-757 | the ids loadGroups reads by position are those of the join under any selection of the groups |
| SelectColumns.LoadedGroupsIgnoreSelect | backend/ent/account_query.go:714-774 | an account gets the same groups in the same order under any selection on either side |
| AccountRow.ScanValues | backend/ent/account.go:201-222 | the holders are those of the columns, in order |
| AccountRow.KindsAgree | backend/ent/account.go:201-222 | for every column the holder scanValues makes is of the type assignValues asserts, and exactly unknown columns have no assertion |
| AccountRow.AssignValues | backend/ent/account.go:226-477 | the loop over the columns ends at the first failed assertion or document that cannot be unmarshalled and otherwise sets the fields as specified |
| AccountRow.AssignAllExactly | backend/ent/account.go:226-477 | whatever holders it is given, it fails if and only if one is of the wrong type or holds a document that cannot be unmarshalled; otherwise each known column has the last value given for it that is not NULL |
| AccountRow.ScanThenAssign | backend/ent/account.go:201-477 | for any column list, in any order, with duplicates and unknown names, every assertion passes, and the entity gets exactly the fetched columns of the row unless a fetched document cannot be unmarshalled |
| AccountRow.ChecksExactly | backend/ent/account_create.go:670-752 | check passes if and only if every required field is set and every validated field that is set is accepted |
| AccountRow.FillDefaults | backend/ent/account_create.go:605-667 | unset fields get their default in turn; set fields stay; the first missing default function ends it |
| AccountRow.Defaults | backend/ent/account_create.go:605-667 | what defaults leaves set, with and without an error |
| AccountRow.ChecksAfterDefaults | backend/ent/account_create.go:605-752 | straight after defaults, before any hook, check passes if and only if defaults had no error, name, platform and type were set and the validators accept |
| AccountRow.SettableExactly | backend/ent/account_create.go:772-1026 | createSpec visits every known column but the id and the foreign keys of its to-one edges, and no other |
| AccountRow.CollectMany | backend/ent/account_create.go:906-1026 | the spec has exactly the to-many edges that ids were added to, with those ids |
| AccountRow.CreateSpec | backend/ent/account_create.go:772-1026 | node and spec hold every field the mutation sets and nothing else, to-one edges by foreign key, to-many edges by their ids |
| AccountRow.CreateThenRead | backend/ent/account_create.go:772-1026 | reading back the row a spec describes gives the node createSpec returned; it holds exactly the fields and foreign keys the mutation set, and no required column reads as NULL when the mutation passed its check |
| BulkCreate.Chain.CallHook | backend/ent/account_create.go:2431-2434 | a hook changes the builder's own mutation only while that is the one handed on |
| BulkCreate.Chain.Mutate | backend/ent/account_create.go:2431-2434 | one builder's hooks and everything behind them: which mutations end up done, which nodes got their ids, what was sent and what is returned |
| BulkCreate.Chain.Inner | backend/ent/account_create.go:2397-2430 | the same for the mutator inside the hooks |
| BulkCreate.Chain.SendBatch | backend/ent/account_create.go:2410-2419 | the batch is sent with the specs of all builders in order |
| BulkCreate.Chain.Finish | backend/ent/account_create.go:2423-2428 | a mutation is done with the id of its own spec |
| BulkCreate.Save | backend/ent/account_create.go:2386-2443 | the batch is sent at most once, if and only if all checks pass; each mutation is done and each node has its own spec's id exactly when specified; Save's result is the outermost hook's |
| BulkCreate.InnerOkExactly | backend/ent/account_create.go:2397-2430 | behind hooks that neither add nor hide errors a mutator succeeds if and only if it and all later checks pass and the database accepts |
| BulkCreate.TransparentIsAllOrNothing | backend/ent/account_create.go:2386-2443 | with such hooks a bulk save marks all mutations done or none, and succeeds if and only if every check passes and the database accepts |
| BulkCreate.AllOrNothingExactly | backend/ent/account_create.go:2386-2443 | for given verdicts of the hooks a bulk save is always all or nothing if and only if each builder's stack returns an error exactly when its mutator did |
| BulkCreateLaws.HooksAllOrNothingExactly | backend/ent/account_create.go:2386-2443 | for given hooks, which may judge by the mutation they are given, a bulk save is all or nothing whatever the mutations, the validators and the database if and only if each stack that can be called reports every error and none fails after a mutation that can pass, unless no batch can be sent at all |
| BulkCreate.LateFailureIsNotAtomic | backend/ent/account_create.go:2428-2434 | a hook that fails late leaves a sent batch and a done mutation behind a reported error |
| BulkCreateLaws.BatchIsChecked | backend/ent/account_create.go:2402-2414 | when no hook hands on another mutation, every spec in the batch is of a mutation that passed its check, in builder order |
| BulkCreateLaws.SwappedMutationIsUnchecked | backend/ent/account_create.go:2402-2406 | a mutation handed on by a hook enters the batch whether or not it would pass the check |
| BulkCreateLaws.CheckedExactly | backend/ent/account_create.go:2402-2414 | with given hooks no mutation that fails its check ever enters a batch if and only if no batch can be sent at all, or whatever a builder hands on from a mutation that can pass is complete and has only validated values of its own mutation or values that some builder's hooks force |
| BulkCreateLaws.UneditedCheckedExactly | backend/ent/account_create.go:2402-2414 | for hooks that change nothing in place: if and only if whatever they hand on from a complete mutation is complete and has only validated values of that mutation |
| BulkCreateLaws.CopyIsChecked | backend/ent/account_create.go:2402-2414 | a hook that hands on a copy of its mutation is always checked |
| BulkCreateLaws.ChecksBehindHooks | backend/ent/account_create.go:2395-2404 | behind its hooks a builder's check passes if and only if they set every required column that defaults left out, keep the others, and the validators accept; defaults left none out if and only if it had no error and name, platform and type were set |
| BulkCreateLaws.ErrorIsReportedExactly | backend/ent/account_create.go:2395-2404 | the check refuses every builder whose dropped defaults error it should report if and only if no hook completes a mutation that lacks a computed default |
| BulkCreateLaws.CompletingHookHidesError | backend/ent/account_create.go:2395-2404 | a hook that sets the missing columns: defaults failed, and the batch is sent |
| AuditFile.IndexOf | tools/check_pnpm_audit_exceptions.py:14 | a line is split at its first colon |
| AuditFile.ParseExceptions | tools/check_pnpm_audit_exceptions.py:23-48 | the loop over the lines returns what folding one line after the other into its two variables gives |
| AuditFile.OnlyItemsFail | tools/check_pnpm_audit_exceptions.py:34-44 | a line makes the parser fail if and only if it is an item with text and no colon |
| AuditFile.NoiseDoesNothing | tools/check_pnpm_audit_exceptions.py:29-33 | blank, comment, version and exceptions lines can be removed anywhere without effect |
| AuditFile.StripExactly | tools/check_pnpm_audit_exceptions.py:15-20 | stripping takes the whitespace off both ends and nothing else |
| AuditFile.SpacesAre | tools/check_pnpm_audit_exceptions.py:15 | the characters that count as whitespace, by code point |
| AuditFile.SplitPrinted | tools/check_pnpm_audit_exceptions.py:12-20 | splitting a field gives back key and value, bare or in quotes of either kind, with whitespace around the colon, quotes and colons in the value included |
| AuditFile.LoneQuoteIsEmpty | tools/check_pnpm_audit_exceptions.py:16-19 | a quote by itself counts as an empty quoted value |
| AuditFile.ParsePrinted | tools/check_pnpm_audit_exceptions.py:23-48 | records printed with any choice of quotes and whitespace per field are parsed back, whatever noise lines stand between the printed ones |
| AuditFile.ReadPrintedFile | tools/check_pnpm_audit_exceptions.py:27-48 | the same for the text of the file, with any of the three line ends |
| AuditCheck.BuildIndex | tools/check_pnpm_audit_exceptions.py:153-185 | the index holds exactly the first usable exception of each key, and there is one error for every other exception |
| AuditCheck.NoFindingsExactly | tools/check_pnpm_audit_exceptions.py:156-185 | there is no error if and only if all exceptions are complete and dated with pairwise different keys |
| AuditCheck.Match | tools/check_pnpm_audit_exceptions.py:191-219 | the scan with its set of seen keys lists exactly what the first tuples of each key lack |
| AuditCheck.LeadsWhenUnseen | tools/check_pnpm_audit_exceptions.py:203-206 | a tuple is the first of its key if and only if the key was not seen |
| AuditCheck.NoReportsExactly | tools/check_pnpm_audit_exceptions.py:193-219 | the lists stay empty if and only if every relevant tuple has an advisory and every first one passes |
| AuditCheck.ScannedExactly | tools/check_pnpm_audit_exceptions.py:191-219 | over lawful exceptions that is the acceptance condition, stated without index and seen set |
| AuditCheck.AcceptsExactly | tools/check_pnpm_audit_exceptions.py:156-219 | the acceptance condition spelled out: all five fields filled, a readable date, stripped and lower-cased names pairwise different; every named high or critical tuple has an advisory and an exception of its names that has not expired; severities equal, or blank in the exception, at the first tuple of its names |
| AuditCheck.Check | tools/check_pnpm_audit_exceptions.py:142-243 | the exit code is 0 if and only if the file parses and its exceptions accept the audit, by the acceptance condition and by its plain form |
| AuditCheck.StrictExactly | tools/check_pnpm_audit_exceptions.py:211-215 | severities agree at every tuple if and only if the audit is accepted and tuples of one key excepted by severity have one severity |
| AuditCheck.EveryOrderExactly | tools/check_pnpm_audit_exceptions.py:203-215 | an audit is accepted in every order of its tuples if and only if it is accepted in the given one and that uniformity holds |
| AuditCheck.SomeOrderExactly | tools/check_pnpm_audit_exceptions.py:203-215 | an audit is accepted in some order if and only if its exceptions are lawful and cover it and each relevant tuple has one of its key whose severity agrees |
| AuditCheck.OrderIrrelevantExactly | tools/check_pnpm_audit_exceptions.py:203-215 | the verdict is the same for every order if and only if the audit is refused in all of them, by that condition, or accepted in all of them, by the other one |
| AuditCheck.SwappedIsRefused | tools/check_pnpm_audit_exceptions.py:203-215 | two tuples accepted in one order and refused in the other |

## Left out

- EagerLoadingMany.LoadGroups: asks for distinct node ids, which a query by primary key returns; with repeated ids the index keeps only the last node, and that behaviour is not described.
- EagerLoadingMany.LoadToMany: asks for distinct node ids, for the same reason.
- EagerLoading.LoadToOne: the query that fetches the neighbours is a parameter, and an error of that query is not described.
- BulkCreate.Chain.Mutate: a hook that skips its next mutator, calls it twice, panics, passes a mutation of another type, changes its mutation after its next mutator, or decides from anything but the mutation it is given and its next's success is not described.
- AccountRow.CreateSpec: the priority and creation time that a groups edge gives the rows of the join table, and the order of the edges, are not described.
- AuditCheck.Check: lower-casing and ISO date parsing are parameters, and the tuples are given; picking names and advisory ids out of the audit's JSON is not part of this model.
- RouteDatabase.Database.SelectList: quoting of column names and the text of the dynamic statement; a row is a map from column to value.
- RouteRuns.RunKeeps: an aborted transaction and DO NOTHING may skip numbers of the id sequence, which the model does not do; only freshness of ids is used.
- The docker and psql processes, lock and statement timeouts, error wording and the printed summary: an outcome is commit, abort or, after a crash, unknown.
- jsonb canonicalization, real hashing and the trigger that invalidates cached authentication when groups change.
- The other entities' loaders and bulk creates, which repeat those of accounts; interceptors, the sqlgraph runtime, setters, upserts and the accessors of loaded edges.
- Unicode: characters outside ASCII count as one character each.

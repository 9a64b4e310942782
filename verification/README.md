# Moneta's transaction ingestion, modelled and proved

Moneta copies bank transactions from a provider (TrueLayer) into a local ledger and mirrors the ledger into
Actual. This project models that path, from a provider response to the mirror, and proves what the code
promises about it: under exact bounds on the provider's latency every transaction gets a row, which is live unless
a pending of its identity was soft-deleted, nothing is duplicated, pendings are replaced by their settled twins as
well as possible, and Actual holds what the ledger says, whatever fails in between.

`dafny verify dfyconfig.toml` checks the project.

## How the model is laid out

| module | models |
|---|---|
| `Domain`, `Text`, `Calendar`, `SetFacts` | the values, decimal numerals, the calendar and its ISO days, counting facts |
| `Numbering`, `Normalize` | stable identities of one response (`normalize.ts`) |
| `Store`, `StoreRefinement` | the transactions table and the upsert loop (`transaction-store.ts`, `schema.prisma`) |
| `Reconciler`, `Pairing`, `Convergence` | pending reconciliation (`pending-reconciler.ts`) |
| `Gateway`, `Export`, `MirrorCoherence`, `MirrorContents` | the export to Actual, its dirty flag, and what Actual then holds (`export-service.ts`, `fake-gateway.ts`) |
| `AccountLinks` | which account of Actual an account is linked to (`account-linker.ts`) |
| `SyncWindow`, `SyncEngine`, `SyncLock` | the fetch window and cursor, one run of a connection, the per-connection lock (`sync-engine.ts`) |
| `Protocol`, `SyncRuns` | all runs of ingests, reconciliations and exports from an empty database, each cut short anywhere; the runs of the engine are among them |
| `Origins`, `Liveness`, `Completeness` | which report each row of a run comes from; when its row is live; that every transaction of the bank gets its row |
| `SyncHistory` | the engine's own calls for an account as such a history of windows and cursors |
| `Witnesses` | runs that reach what goes wrong |
| `Mapper` | decimal to pence, signs, days (`mapper.ts`) |
| `CsvExport` | the CSV file and a reader that inverts it (`status.ts`) |
| `Connections` | authorisation sessions under interleaving, account discovery (`connection-service.ts`) |

What the source changes step by step is a method, or a class with the source's fields, proved against a
specification function; the properties are then proved of that function. The class `Store.Database` stands
for the Prisma tables, `Gateway.FakeActualGateway` for the deduplicating gateway, `SyncLock.Engine` for the
engine's lock, `Connections.AccountTables` for the account and balance tables.

How the outside world enters:

- A row id is the row's place in the table: ids are handed out at creation and no code removes a row.
- SHA-256 is taken to be injective: a hash is modelled by the string that is hashed, so that the argument
  about separators is about the real strings.
- Clock readings are parameters, one per reading (`now`, `stamp`, `importedAt`, `updatedAt`). No reading is
  assumed to equal another unless a lemma says so.
- Database answers come in any order their ORDER BY permits; results hold for every such answer. Sorting by
  the method `Numbering.Sort` stands for the database's and the runtime's own sort.
- Failures are parameters: a batch sent to Actual can throw at the account link, in the import after any
  number of payloads were taken, in any bookkeeping write, and again in the catch block.
- `toUpperCase`, `trim`, `normalizeDescription` and `localeCompare` are arbitrary functions in
  `Domain.Runtime`; only where a sort is involved must `localeCompare` be a total preorder.
- The steps of `Protocol` are atomic with respect to the rows they touch: the per-connection lock keeps runs of
  one connection apart (`SyncLock.MutualExclusion`), and runs of different connections share no row
  (`Protocol.StepIsLocal`).

## Where a stronger statement is false

The model keeps the code as it is; each of these is a lemma.

- Transactions without a provider id can be left without a row. The window cuts a day in two, the second of two
  look-alikes is then reported alone, gets occurrence 0 again and falls together with the first
  (`Completeness.SecondCoffeeIsLost`). Each has a row if and only if latency + delay + one day <= overlap + 2 ms
  (`Completeness.NeverMissedExactlyWhen`); with the default overlap of seven days the provider has six. A
  transaction with an id needs latency + delay <= overlap + 1 ms (`SyncWindow.OverlapSufficesExactlyWhen`,
  `Completeness.IdsAreNeverMissed`).
- A settled transaction can have a row and still be missing from the live ledger. Its pending forerunner, under the
  same id or the same number of the same fingerprint, was merged into another settled row or expired, and a
  soft-deleted row is never revived (`Witnesses.PendingCostsTheSettled`, with an id and without). After a sync the
  row of an id is live if and only if its identity was not dead before the sync, and all rows of the look-alikes are
  live if and only if none of their numbers was; once settled, that stays so until the identity is reported as
  pending again (`Completeness.IdsAreNeverMissed`, `Completeness.LookalikesAreNeverMissed`,
  `Liveness.LiveExactlyWhen`). An identity never reported as pending is never soft-deleted
  (`Liveness.NeverPendingNeverDead`), so that without pending look-alikes the bound above is also the exact one for a
  live row.
- First fit is not optimal for arbitrary rows (`Origins.MixedNamesCanLose`, `Origins.FallingDatesCanLose`, each
  with the run that leads there); it is when names are comparable and dates rise (`Pairing.FirstFitIsOptimal`),
  and never below half (`Pairing.AtLeastHalf`). Dates rise in every run in which no provider id is reported with
  two different days (`Origins.FirstFitIsOptimalInRuns`).
- Claims are forgotten between calls, so two calls can merge two pendings into one settled row
  (`Convergence.NextCallReusesTheTwin`; a run that does: `Witnesses.TwinIsUsedTwice`). With comparable names and
  rising dates a second call changes nothing if and only if every pending that has a twin and is not expirable adds to
  what can be merged
  (`Convergence.SecondCallIsNoOp`); the same decides whether repeating a sync changes nothing
  (`SyncEngine.RepeatedSyncIsNoOp`).
- Status is not monotone: an id reported in both lists ends up pending (`SyncEngine.PendingReportWins`).
- `addedIds.shift()` gives every row its own Actual id if and only if the rows new to Actual stand first and the
  others carried their own before (`MirrorCoherence.RowsGetTheirOwnIds`); a correction and a new row exported
  together get it wrong (`Witnesses.IdGoesToTheWrongRow`).
- What Actual holds for an account is its ledger and a residue: the payloads of rows that were exported and later
  soft-deleted stay there (`MirrorContents.MoneyIsConserved`).
- Two local accounts can be linked to one account of Actual when an open account has their name
  (`AccountLinks.NamesakesCanShare`); without namesakes each has its own (`AccountLinks.EachHasItsOwn`).
- A changed row is noticed by the export exactly when its write is stamped strictly after `importedAt`
  (`MirrorCoherence.UpdateNeedsLaterStamp`); one made in the millisecond of the import is passed over
  (`Witnesses.ChangeIsUnnoticed`). Right after an export in which nothing failed, the query selects
  exactly the rows whose bookkeeping write saw the clock move between its two readings
  (`MirrorCoherence.SecondExportSelects`).
- The CSV file reads back if and only if the columns that are not escaped hold no comma, quote or line break
  (`CsvExport.RoundTripExactlyWhenPlain`); the provider's transaction id is one of them.
- Fingerprints join free texts without escaping, so a separator inside a text can make two different
  transactions share one (`Normalize.JoinedTextsCanCollide`); when they do is `Normalize.FingerprintsAgreeExactlyWhen`.
  Transactions that share a fingerprint survive side by side exactly when one batch reports them together;
  reported one at a time, the later is taken for the earlier (`Protocol.SurviveTogetherExactlyWhen`).
- The comment at apps/server/src/services/sync/normalize.ts:25-31 calls the occurrence numbers order-independent.
  The hashes of a batch are; which row gets which is not: two different rows that tie in the sort trade their
  hashes when they trade places (`Normalize.TradeMovesHashes`). A row keeps its hashes under every permutation if
  and only if no different row of its fingerprint ties with it (`Normalize.KeepsItsHashesExactlyWhen`).
- Outside the years 0 to 9999 the ten characters of a day hold no day of the month (`Calendar.ExtendedYearIsPrinted`).
- Without the boundary's guarantee, empty provider ids break a unique constraint (`Store.EmptyIdsViolate`).
- Doubles bring pence back exactly up to 100 * 2^45 + 1 of them and no further (`Mapper.PenceAreExactExactlyUpTo`);
  the next one comes back as a penny more (`Mapper.PenceGoWrongBeyond`).

Where the code and its documentation differ, the model follows the code: the design document asks, under
"Pending transaction handling", that an expired pending already exported be flagged for review, and the code
only soft-deletes it, so it stays in Actual; under "Transaction identity and deduplication" it names a
constraint over provider and provider account, and the schema has it over the local account.

## Model

| member | source | states |
|---|---|---|
| Numbering.Sort | apps/server/src/services/sync/normalize.ts:36-41 | every index of the list once, in the order of the stable sort |
| Numbering.OccurrencesAreExact | apps/server/src/services/sync/normalize.ts:43-54 | the items of one key get exactly the numbers 0 to count - 1 |
| Numbering.OccurrencesDiffer | apps/server/src/services/sync/normalize.ts:50-53 | two items of one key never get the same number |
| Calendar.CivilInverts | apps/server/src/services/sync/normalize.ts:18-18 | every day number has one date, and the date gives the day number back |
| Calendar.CivilIsDate | apps/server/src/services/sync/normalize.ts:18-18 | no day is printed as a date the calendar does not have: months have their lengths and 29 February its leap years |
| Calendar.DatesFollow | apps/server/src/services/sync/normalize.ts:18-18 | from 1 January 1970 on, the next day has the next date of the calendar |
| Calendar.DateRoundTrip | apps/server/src/providers/truelayer/mapper.ts:75-79 | days and dates of the calendar correspond one to one |
| Calendar.DayRoundTrip | apps/server/src/routes/status.ts:96-96 | the printed day reads back as the day, in the years 0 to 9999 |
| Calendar.ExtendedYearIsPrinted | apps/server/src/routes/status.ts:96-96 | outside those years the ten characters are a sign, six digits of the year and the month, and the day of the month is cut off |
| Calendar.SameDayPrintedExactlyWhenSameDay | apps/server/src/integrations/actual/export-service.ts:17-17 | in those years two instants print the same day if and only if they fall on the same day |
| Normalize.ComparatorIsPreorder | apps/server/src/services/sync/normalize.ts:36-41 | the three-level comparator is a total preorder when `localeCompare` is |
| Normalize.NormalizeBatch | apps/server/src/services/sync/normalize.ts:32-57 | the sort-and-count loop gives each row the hash of its id, or of its fingerprint and its rank among the rows of that fingerprint, and keeps the order of the batch |
| Normalize.NumbersFollowTime | apps/server/src/services/sync/normalize.ts:36-54 | of two rows of one fingerprint the one with the earlier timestamp, or at the same time with the description that collates first, or else with the earlier place, gets the lower number |
| Normalize.LaterLookalikesMoveNothing | apps/server/src/services/sync/normalize.ts:43-54 | look-alikes that are appended to a batch and do not precede a row leave its hash as it was |
| Normalize.FingerprintHashInjective | apps/server/src/services/sync/normalize.ts:15-23 | fingerprint and occurrence number can both be read off the hashed string, whatever separators the texts contain |
| Normalize.FingerprintsAgreeExactlyWhen | apps/server/src/services/sync/normalize.ts:15-23 | two transactions share a fingerprint if and only if they print the same booked day, have the same amount and either the same texts, or the description of one goes on after that of the other with a separator and a rest that the other merchant carries in front |
| Normalize.PlainTextsAreToldApart | apps/server/src/services/sync/normalize.ts:16-22 | without a separator in one of the two positions, different texts have different fingerprints |
| Normalize.JoinedTextsCanCollide | apps/server/src/services/sync/normalize.ts:16-22 | for any texts, merchant present or absent, a separator can make two transactions with different descriptions and merchants share a fingerprint |
| Normalize.FingerprintHashForm | apps/server/src/services/sync/normalize.ts:15-23 | no fingerprint hash continues the account prefix with a `p` |
| Normalize.FormsAreDisjoint | apps/server/src/services/sync/normalize.ts:46-53 | the id form is never a fingerprint form |
| Normalize.IdentitiesCollideOnlyOnEqualIds | apps/server/src/services/sync/normalize.ts:45-54 | two rows of a batch share a hash if and only if they are the same row or carry the same provider id |
| Normalize.SubBatchKeepsIdentities | apps/server/src/services/sync/normalize.ts:36-54 | every identity of a sub-multiset of a batch is an identity of the batch |
| Normalize.PermutationKeepsMultiplicity | apps/server/src/services/sync/normalize.ts:36-54 | a permuted batch hands out the same multiset of hashes |
| Normalize.OrderIndependence | apps/server/src/services/sync/normalize.ts:25-31 | however a batch is permuted, a hash goes to a row with the same provider id, or the same fingerprint, timestamp, amount and collation rank |
| Normalize.TradeMovesHashes | apps/server/src/services/sync/normalize.ts:36-54 | two different tied rows of one fingerprint trade their hashes when they trade their places |
| Normalize.KeepsItsHashesExactlyWhen | apps/server/src/services/sync/normalize.ts:25-31 | a row keeps its hashes under every permutation if and only if no different row without an id and of its fingerprint ties with it |
| Store.UpsertTransactions | apps/server/src/services/sync/transaction-store.ts:31-98 | the find/create/update/skip loop leaves the table and the counts of the upsert fold; a refused create or a database failure after any number of transactions throws and keeps the earlier writes |
| Store.UpsertConserves | apps/server/src/services/sync/transaction-store.ts:37-98 | the table grows by `inserted`, received = inserted + updated + skipped, existing rows keep id, amount, timestamp, currency and hash, a soft-deleted row and other accounts' rows stay as they are |
| Store.UpsertStamps | apps/server/src/services/sync/transaction-store.ts:82-94 | a changed row carries the clock of one of the pass's writes |
| Store.NormalizedIsIdentified | apps/server/src/services/sync/normalize.ts:45-54 | a normalised batch carries the id form for its own ids and fingerprint forms otherwise |
| Store.UpsertNeverViolates | apps/server/src/services/sync/transaction-store.ts:39-74 | from a valid table no create is ever refused by a unique constraint, whatever the batch repeats, and the table stays valid |
| Store.EmptyIdsViolate | apps/server/src/services/sync/transaction-store.ts:40-58 | two new transactions with an empty provider id do violate the constraint |
| StoreRefinement.UpsertRefinesAssign | apps/server/src/services/sync/transaction-store.ts:39-95 | the loop refines a left fold over a map from identity to data in which the last writer wins and dead entries are left alone |
| StoreRefinement.NoChangesMeansSameContent | apps/server/src/services/sync/transaction-store.ts:19-29 | the change test passes a row over if and only if it holds what would be written and the reported date is a midnight |
| StoreRefinement.LastWriterWins | apps/server/src/services/sync/transaction-store.ts:53-94 | closed form of the data under each identity after a batch |
| StoreRefinement.AssignAllIsIdempotent | apps/server/src/services/sync/transaction-store.ts:76-80 | ingesting a batch again changes no data |
| StoreRefinement.QuietPass | apps/server/src/services/sync/transaction-store.ts:76-80 | a pass reports nothing inserted or updated exactly when every transaction finds a dead or unchanged row, and then writes nothing |
| StoreRefinement.RepeatWritesNothing | apps/server/src/services/sync/transaction-store.ts:37-98 | repeating a batch writes nothing if and only if the batch does not contradict itself on a live identity |
| StoreRefinement.StoredAfter | apps/server/src/services/sync/transaction-store.ts:39-74 | after any prefix of a batch the stored identities are the old ones and those of the prefix |
| StoreRefinement.DistinctAreInserted | apps/server/src/services/sync/transaction-store.ts:53-74 | a batch of distinct identities ingested into an empty table leaves one new row for each, in order |
| Reconciler.FindMany | apps/server/src/services/reconciliation/pending-reconciler.ts:46-55 | the live rows of the account with the status, each once, by timestamp |
| Reconciler.ReconcilePending | apps/server/src/services/reconciliation/pending-reconciler.ts:40-87 | the loop leaves the table, the merged and the expired counts of the reconciliation specification; a database failure after any number of turns throws and keeps the earlier writes |
| Convergence.RowsAfter | apps/server/src/services/reconciliation/pending-reconciler.ts:61-84 | a row is untouched unless it was merged or expired, and then it is a queried pending soft-deleted at its turn |
| Convergence.FateOfAPending | apps/server/src/services/reconciliation/pending-reconciler.ts:61-84 | a queried pending is soft-deleted at the time of the call and stamped at its turn if it was merged, or if its id is not among the reported ones and more than the expiry days have passed since its last update; any other is left as it was |
| Convergence.UnmatchedExpiresExactlyWhen | apps/server/src/services/reconciliation/pending-reconciler.ts:73-83 | a pending that no live settled row of the account matches is soft-deleted if and only if its id is absent or not reported and it is overdue |
| Convergence.LonePairMergesExactlyWhen | apps/server/src/services/reconciliation/pending-reconciler.ts:22-33 | a lone pending is merged into a lone settled row if and only if their amounts are equal, their dates at most five days apart, and their merchants read the same in upper case or, where one is missing, their normalised descriptions do |
| Convergence.CallConserves | apps/server/src/services/reconciliation/pending-reconciler.ts:57-86 | live pendings before = live pendings after + merged + expired, and all other rows are as before |
| Pairing.ClaimsArePairing | apps/server/src/services/reconciliation/pending-reconciler.ts:59-71 | the claims of one call are one-to-one and respect `matches` |
| Pairing.NoTwinLeft | apps/server/src/services/reconciliation/pending-reconciler.ts:62-71 | the claims are maximal: all possible twins of an unmerged pending were claimed |
| Pairing.AtLeastHalf | apps/server/src/services/reconciliation/pending-reconciler.ts:59-71 | for arbitrary rows, one call merges at least half as many as any valid pairing |
| Pairing.TwinIsEarliest | apps/server/src/services/reconciliation/pending-reconciler.ts:62-62 | with rising dates the twin found is the earliest of those left |
| Pairing.Exchange | apps/server/src/services/reconciliation/pending-reconciler.ts:22-33 | the exchange step: crossing pairs of comparable rows can be uncrossed |
| Pairing.FirstFitIsOptimal | apps/server/src/services/reconciliation/pending-reconciler.ts:46-71 | with comparable names and rising dates, one call merges as many pendings as any valid pairing |
| Pairing.MergedExactlyWhenItAdds | apps/server/src/services/reconciliation/pending-reconciler.ts:61-71 | under the same conditions a pending is merged if and only if some pairing of the pendings up to it is larger than every pairing of those before it |
| Origins.RowsAreOnTheirDay | apps/server/src/providers/truelayer/mapper.ts:75-79 | in every run whose reports come from the boundary and never change the day of a provider id, each row is booked on the day of its timestamp |
| Origins.FirstFitIsOptimalInRuns | apps/server/src/services/reconciliation/pending-reconciler.ts:46-71 | in those runs dates rise, and one call merges as many pendings as any valid pairing of rows with comparable names |
| Origins.MixedNamesCanLose | apps/server/src/services/reconciliation/pending-reconciler.ts:29-32 | a run with steady days but mixed merchant names after which one pending is merged where two could be |
| Origins.FallingDatesCanLose | apps/server/src/services/sync/transaction-store.ts:82-94 | a run with comparable names in which the bank moves a pending to another day, after which one pending is merged where two could be |
| Convergence.AllTwinnedMergeExactlyWhenPairable | apps/server/src/services/reconciliation/pending-reconciler.ts:61-71 | under the same conditions, one call merges every pending with a twin if and only if those can be paired off at all |
| Convergence.CallMakesProgress | apps/server/src/services/reconciliation/pending-reconciler.ts:61-84 | a call changes the table exactly when a doomed pending is left, and then strictly fewer are left |
| Convergence.Converges | apps/server/src/services/reconciliation/pending-reconciler.ts:40-87 | after at most as many calls as doomed pendings the table is a fixpoint whose pendings are those that match nothing and are not expirable, whatever the order of the answers |
| Convergence.OneCallSettlesExactlyWhen | apps/server/src/services/reconciliation/pending-reconciler.ts:61-84 | with comparable names and rising dates, one call leaves no doomed pending if and only if, before it, every pending that has a twin and is not expirable adds to what can be merged |
| Convergence.SecondCallIsNoOp | apps/server/src/services/reconciliation/pending-reconciler.ts:59-71 | on the same condition, checked before the first call, and on no other, a second call changes nothing |
| Convergence.SecondCallIsNoOpWhenNoneExpires | apps/server/src/services/reconciliation/pending-reconciler.ts:59-71 | when no pending with a twin is expirable, that is if and only if the pendings with twins can be paired off at all |
| Convergence.OneCallIsEnough | apps/server/src/services/reconciliation/pending-reconciler.ts:61-84 | when no settled row has two suitors, one call leaves no doomed pending |
| Convergence.NextCallReusesTheTwin | apps/server/src/services/reconciliation/pending-reconciler.ts:59-59 | two calls merge two pendings into one settled row |
| Witnesses.TwinIsUsedTwice | apps/server/src/services/reconciliation/pending-reconciler.ts:59-71 | a run in which two calls merge two pendings into one settled row |
| Gateway.FakeActualGateway.ImportTransactions | apps/server/src/integrations/actual/fake-gateway.ts:40-61 | the dedup loop over the payloads taken, with its added and updated ids, and the batch recorded; or a throw after some payloads |
| Gateway.FakeActualGateway.constructor | apps/server/src/integrations/actual/fake-gateway.ts:10-19 | nothing seen, nothing imported, ids count from 1 |
| Gateway.FakeActualGateway.CreateAccount | apps/server/src/integrations/actual/fake-gateway.ts:33-38 | a created account takes the next id of the counter that also numbers transactions |
| Gateway.NoDuplicates | apps/server/src/integrations/actual/fake-gateway.ts:48-59 | local and Actual transactions stay one to one, no id is reassigned, and Actual grows by what was reported as added |
| Gateway.AddedAreNew | apps/server/src/integrations/actual/fake-gateway.ts:48-60 | the added ids are those of the rows new to Actual, in batch order |
| Gateway.ShiftPairsCorrectly | apps/server/src/integrations/actual/export-service.ts:94-96 | the shift loop gives each id to its own row if and only if the new rows stand at the front of the batch |
| Export.EnsureAccountLink | apps/server/src/integrations/actual/account-linker.ts:15-49 | an existing link is returned unchanged; a missing one goes to the account of the name or to a new one, and is recorded |
| AccountLinks.LinksOfExport | apps/server/src/integrations/actual/account-linker.ts:15-49 | over an export a link that was there stays, a missing one is made exactly for the accounts whose link step was reached, to the open account of the name or, where there is none, to an account created meanwhile |
| AccountLinks.LinkedOnce | apps/server/src/integrations/actual/account-linker.ts:11-25 | between any two moments of a run a link stays as it was made |
| AccountLinks.EachHasItsOwn | apps/server/src/integrations/actual/account-linker.ts:40-44 | in every run in which no open account of Actual has the name of a local one, no two local accounts share an account of Actual |
| AccountLinks.NamesakesCanShare | apps/server/src/integrations/actual/account-linker.ts:36-41 | an open account of the name makes two local accounts share it |
| Export.FindPendingRows | apps/server/src/integrations/actual/export-service.ts:44-54 | exactly the live rows never imported, failed, or changed since import, each once, by timestamp within an account |
| Export.GroupByAccount | apps/server/src/integrations/actual/export-service.ts:76-81 | one batch per account that occurs, holding its rows in query order, with as many rows in all as were selected |
| Export.EachRowInOneBatch | apps/server/src/integrations/actual/export-service.ts:76-81 | a row is selected if and only if it is in some batch, and it is in one only |
| Export.MarkBatch | apps/server/src/integrations/actual/export-service.ts:95-108 | the bookkeeping writes done before the one that throws |
| Export.MarkErrors | apps/server/src/integrations/actual/export-service.ts:111-114 | exactly the rows of the batch are marked as failed |
| Export.SendBatch | apps/server/src/integrations/actual/export-service.ts:87-116 | what one account's turn leaves behind for each way it can throw |
| Export.ExportAccounts | apps/server/src/integrations/actual/export-service.ts:56-122 | the state after all accounts or up to an escaping exception; exported + failed = selected on normal return; the budget is opened only if needed and closed whenever it was opened |
| MirrorCoherence.BatchKeepsCoherence | apps/server/src/integrations/actual/export-service.ts:87-116 | mirror coherence survives a batch whatever stage of it throws |
| MirrorCoherence.ExportKeepsCoherence | apps/server/src/integrations/actual/export-service.ts:83-121 | mirror coherence survives an export up to wherever it stops |
| MirrorCoherence.ExportKeepsBankData | apps/server/src/integrations/actual/export-service.ts:97-114 | an export changes bookkeeping columns only, no dead row, and reassigns no Actual id |
| MirrorCoherence.FateOfASentRow | apps/server/src/integrations/actual/export-service.ts:92-115 | what a batch leaves of each of its rows, whichever stage throws: the two clock readings of its own bookkeeping write if that was made, and the flag of the catch block, which touches nothing else |
| MirrorCoherence.ResultIsInTheRows | apps/server/src/integrations/actual/export-service.ts:110-115 | a batch counts as exported if and only if its rows are all marked as imported, and as failed if and only if they are flagged |
| MirrorCoherence.CountsAreRows | apps/server/src/integrations/actual/export-service.ts:83-122 | `exported` and `failed` are the numbers of sent rows that are marked as imported and as failed in the table afterwards |
| MirrorCoherence.UpsertKeepsCoherence | apps/server/src/services/sync/transaction-store.ts:82-94 | an upsert stamped after the account's imports makes dirty what it changes |
| MirrorCoherence.UpdateNeedsLaterStamp | apps/server/src/integrations/actual/export-service.ts:48-49 | an update that changes the payload of a clean row keeps coherence if and only if its stamp is later than `importedAt` |
| Witnesses.ChangeIsUnnoticed | apps/server/src/integrations/actual/export-service.ts:48-49 | a run in which a correction stamped with the instant of the import leaves Actual with the old payload and the row unselected |
| MirrorCoherence.SecondExportSelects | apps/server/src/integrations/actual/export-service.ts:97-108 | right after an export in which nothing failed, the query selects exactly the rows whose bookkeeping write saw the clock move between its two readings |
| MirrorCoherence.RowsGetTheirOwnIds | apps/server/src/integrations/actual/export-service.ts:93-107 | after a batch every row carries its own Actual id if and only if the rows new to Actual stood first and the known rows carried their own ids before |
| Witnesses.IdGoesToTheWrongRow | apps/server/src/integrations/actual/export-service.ts:94-96 | a run in which a corrected row exported with a new one is given the new one's Actual id |
| SyncWindow.OverlapSufficesExactlyWhen | apps/server/src/services/sync/sync-engine.ts:228-264 | every transaction lies in the window of the first successful sync after it shows up, in all histories of successes and failures, if and only if latency + delay <= overlap + 1 ms |
| SyncWindow.WindowsOverlap | apps/server/src/services/sync/sync-engine.ts:228-232 | successive successful windows leave no gap |
| Completeness.IdsAreNeverMissed | apps/server/src/services/sync/sync-engine.ts:228-264 | in every run, a transaction with an id that is visible within latency <= overlap + 1 - delay has a row with that id from the first successful sync on that starts once it is visible; after the sync, and later as long as it was left settled and is not reported as pending, the row is live if and only if the id was not soft-deleted before the sync; it is live if the id was never reported as pending |
| Completeness.LookalikesAreNeverMissed | apps/server/src/services/sync/sync-engine.ts:228-264 | in every run, when the overlap covers latency, delay and a day, each of the transactions of a fingerprint visible by a successful sync has a row to itself, with one of the first numbers, from then on; after the sync, and later as long as the numbers were left settled and are not reported as pending, all these rows are live if and only if none of the numbers was soft-deleted before the sync |
| Completeness.SecondCoffeeIsLost | apps/server/src/services/sync/sync-engine.ts:228-240 | beyond that bound, a run with honest responses in which two equal transactions of one day end up as one row |
| Completeness.NeverMissedExactlyWhen | apps/server/src/services/sync/sync-engine.ts:228-264 | over all runs, every transaction without an id has a row to itself if and only if latency + delay + one day <= overlap + 2 ms, and every one without a pending look-alike has a live row to itself if and only if the same |
| Witnesses.PendingCostsTheSettled | apps/server/src/services/sync/transaction-store.ts:76-80 | within the bound, a run with honest responses after which a settled transaction that was due has only a soft-deleted row, with an id it kept and without one |
| Liveness.LiveAfterIngest | apps/server/src/services/sync/transaction-store.ts:76-80 | right after an ingest the row of an identity is live if and only if the identity was not dead before |
| Liveness.LiveExactlyWhen | apps/server/src/services/sync/transaction-store.ts:76-94 | the same at any later moment until the identity, settled if live, is reported as pending again |
| Liveness.NeverPendingNeverDead | apps/server/src/services/reconciliation/pending-reconciler.ts:46-83 | an identity never reported as pending is never soft-deleted, in any run |
| SyncHistory.AsksForTheWindow | apps/server/src/services/sync/sync-engine.ts:228-264 | over the engine's calls for an account, each asks the provider for the window after the last successful one |
| SyncHistory.TurnIsCall | apps/server/src/services/sync/sync-engine.ts:118-129 | the cursor a run read at its start is still that of the account at its turn |
| SyncHistory.CallsAreDelivered | apps/server/src/services/sync/sync-engine.ts:228-264 | the engine's calls with an honest provider, whatever happens between them, are part of one run in which each successful call ingested all that was due |
| SyncHistory.EngineMissesNothing | apps/server/src/services/sync/sync-engine.ts:209-266 | so after a successful call of the engine every transaction of a fingerprint visible by then has a row to itself |
| Origins.EveryRowWasReported | apps/server/src/services/sync/transaction-store.ts:53-94 | in every run each row was created from a report, and still has its identity, timestamp, amount and currency |
| Origins.NumberedRowHasTheAmount | apps/server/src/services/sync/normalize.ts:15-23 | a row that bears a number of a fingerprint has no provider id and the amount of every transaction with that fingerprint |
| SyncEngine.SyncOneAccount | apps/server/src/services/sync/sync-engine.ts:209-266 | appends the balance, asks for the window of the cursor, ingests the response and reconciles, for every provider error and database failure on the way; the cursor moves only at the end |
| SyncEngine.CursorMovesExactlyWhenNothingFails | apps/server/src/services/sync/sync-engine.ts:209-266 | from a valid table and a response without empty ids, an account counts as synced if and only if balance and response came and the four writes went through; the cursor moves exactly then, and rows change only once the balance is recorded |
| SyncEngine.RepeatedSyncIsNoOp | apps/server/src/services/sync/sync-engine.ts:242-259 | with comparable names and rising dates, repeating a sync with the same response at the same moment leaves the table as it was if and only if every pending that has a twin and is not expirable adds to what can be merged |
| SyncEngine.RepeatIngestsNothing | apps/server/src/services/sync/sync-engine.ts:242-248 | for arbitrary names and dates the repetition reports nothing inserted or updated and ingests nothing, unless the response contradicts itself |
| SyncEngine.RepeatedSyncWithoutRivalsIsNoOp | apps/server/src/services/sync/sync-engine.ts:242-259 | for arbitrary names and dates it changes nothing when no settled row has two suitors |
| SyncEngine.DistinctProviderIdsAreConsistent | apps/server/src/services/sync/sync-engine.ts:242-248 | a response with distinct provider ids never contradicts itself |
| SyncEngine.PendingReportWins | apps/server/src/services/sync/sync-engine.ts:242-242 | a live id reported in both lists ends up pending |
| SyncEngine.ReportedPendingSurvives | apps/server/src/services/sync/sync-engine.ts:250-259 | over one sync, a pending whose id is in the pending list of the reply and that no settled row matches is left as the ingest left it, however old it is |
| SyncEngine.RunSync | apps/server/src/services/sync/sync-engine.ts:105-206 | the accounts of the connection synced one after the other on the database with the cursors read at the start, up to the first that needs reauthorisation; totals, processed accounts, classified errors and status over them; then the export, which has no say in the status; a failed write of the run's own records breaks it off where it stands |
| SyncEngine.RunConserves | apps/server/src/services/sync/sync-engine.ts:127-135 | over a run received = inserted + updated + skipped, and the table grows by at least what was inserted, by exactly that when every account was synced |
| SyncEngine.RecordSaysWhatHappened | apps/server/src/services/sync/sync-engine.ts:127-165 | the record of a run: each exception once, in the order of the accounts, with the type of its status or class; reauthorisation exactly when an account asked for it, which is then the last; each total the sum over the synced accounts; the status that of their number |
| SyncRuns.RunSyncLeads | apps/server/src/services/sync/sync-engine.ts:105-206 | a run of the engine, whatever fails in it or makes it break off, is a path of protocol steps |
| SyncRuns.RunSyncIsSound | apps/server/src/services/sync/sync-engine.ts:105-206 | so runs of the engine lead from reachable systems to reachable ones, which satisfy the constraints |
| SyncRuns.ExportReachesTheRun | apps/server/src/services/sync/sync-engine.ts:158-165 | the export at the end of a run touches no row of another account, and when an account was synced and nothing fails in it, every live row of the run's accounts that was never imported, failed or was written since is marked as imported |
| SyncLock.Engine.Begin | apps/server/src/services/sync/sync-engine.ts:93-97 | the atomic check-and-add of the lock |
| SyncLock.Engine.End | apps/server/src/services/sync/sync-engine.ts:100-102 | the release, the same for a normal and an exceptional exit |
| SyncLock.MutualExclusion | apps/server/src/services/sync/sync-engine.ts:93-103 | in every interleaving at most one call per connection is inside a run, and `running` is exactly the set of connections with an active run |
| SyncLock.LocksAreOwn | apps/server/src/services/sync/sync-engine.ts:93-103 | a rejected call changes no lock and an exit releases its own lock and no other |
| Protocol.StepIsSafe | apps/server/prisma/schema.prisma:139-142 | every step, cut short anywhere, keeps the constraints, removes and revives nothing, and reassigns no Actual id |
| Protocol.StepIsLocal | apps/server/src/services/sync/sync-engine.ts:57-58 | a step leaves the rows of all accounts it does not work on alone |
| Protocol.RunIsSound | apps/server/prisma/schema.prisma:114-145 | in every run the unique constraints hold, every soft-deleted row is PENDING, and Actual has at most one transaction per local id |
| Protocol.HistoryIsSafe | apps/server/src/services/sync/transaction-store.ts:76-80 | between any two moments of a run no row is lost or loses its bank identity, and a soft-deleted row is frozen |
| Protocol.RunIsCoherent | apps/server/src/integrations/actual/export-service.ts:44-54 | over every run with arbitrary failures, a live row the export would pass over is the last payload Actual accepted for its id |
| MirrorContents.ActualShowsTheLedger | apps/server/src/integrations/actual/export-service.ts:16-30 | in every run with timely stamps Actual holds each clean live row column by column: amount, status, the day of the booked date or else of the timestamp, payee, notes, its own id, in the account its own is linked to |
| MirrorContents.MoneyIsConserved | apps/server/src/integrations/actual/export-service.ts:16-54 | when all live rows of an account are clean, their amounts in Actual sum to the ledger, and all that Actual holds for the account is the ledger and what soft-deleted rows left there |
| Protocol.HighWaterMark | apps/server/src/services/sync/normalize.ts:43-56 | the stored occurrences of a fingerprint reach the largest count of one completed batch and never exceed the largest count of any batch |
| Protocol.MarksAgree | apps/server/src/services/sync/normalize.ts:43-56 | when no ingest was cut short the two marks agree, so the stored occurrences are exactly 0 to m - 1 |
| Protocol.SurviveTogetherExactlyWhen | apps/server/src/services/sync/normalize.ts:43-56 | when no ingest was cut short, the row with number o of a fingerprint is stored if and only if some batch reported more than o such rows at once |
| Protocol.StoredOnce | apps/server/prisma/schema.prisma:141-142 | each identity is stored once |
| Mapper.PenceAreExact | apps/server/src/providers/truelayer/mapper.ts:29-32 | for every integer k below 2^51 in magnitude, the double nearest to k / 100 maps to k |
| Mapper.PenceAreExactExactlyUpTo | apps/server/src/providers/truelayer/mapper.ts:29-32 | the double nearest to k / 100, multiplied by 100 to the nearest double and rounded, is k for every integer k up to a bound in magnitude, if and only if the bound is at most 100 * 2^45 + 1 |
| Mapper.PenceGoWrongBeyond | apps/server/src/providers/truelayer/mapper.ts:29-32 | the doubles of the next penny, which come back as a penny more |
| Mapper.CanonicalAmountIsSigned | apps/server/src/providers/truelayer/mapper.ts:66-73 | DEBIT is never positive, CREDIT never negative, anything else keeps its sign, and the magnitude is kept |
| Mapper.BoundaryGuarantees | apps/server/src/providers/truelayer/mapper.ts:81-105 | what a report becomes, column by column: the amount to the penny, negative for DEBIT, positive for CREDIT and as reported otherwise; the running balance to the penny; id, merchant, type and description without the empty ones; a booked date that is the UTC day of the timestamp; the status of its list |
| Mapper.JoinedPartsJoin | apps/server/src/providers/truelayer/mapper.ts:98-100 | the classification is joined by a separator between its parts |
| CsvExport.RoundTripExactlyWhenPlain | apps/server/src/routes/status.ts:91-110 | the reader recovers header, every row and every value from the file, for arbitrary names, merchants, descriptions and categories, if and only if the unescaped columns hold no comma, quote or line break |
| CsvExport.FileHoldsTheRows | apps/server/src/routes/status.ts:83-110 | the file read back: the header, and for each row in order the account, the day, the amount in pence, currency, merchant, description, category, status, provider and id of that row, each in its column |
| CsvExport.FieldIsRead | apps/server/src/routes/status.ts:9-11 | an escaped field is read back as it was, whatever it contains |
| CsvExport.RawColumnRoundTripsExactlyWhenPlain | apps/server/src/routes/status.ts:96-104 | an unescaped column, ended by a comma or, the last one, by a line break, is read back if and only if it is plain |
| CsvExport.AmountRoundTrip | apps/server/src/routes/status.ts:13-20 | the printed amount reads back as the amount, for every integer |
| Connections.SessionsAreSingleUse | apps/server/src/services/connections/connection-service.ts:203-214 | in every interleaving of callbacks a state passes consumption at most once, and connection rows are exactly those created by sessions without a target |
| Connections.NoDoubleSuccess | apps/server/src/services/connections/connection-service.ts:64-93 | two callbacks for one state never both succeed |
| Connections.ReauthAddsNoRow | apps/server/src/services/connections/connection-service.ts:73-78 | a reauthorisation adds no row and lands on the one its session named |
| Connections.CallbackLandsWhereItsSessionSaid | apps/server/src/services/connections/connection-service.ts:64-93 | in every interleaving a callback that succeeded has exactly one session of its state, deleted at most ten minutes after its creation; when the session named a connection the callback wrote to that one, otherwise it created one |
| Connections.CreatedIsNew | apps/server/src/services/connections/connection-service.ts:79-89 | a created connection has a number no earlier callback was given, and is one more |
| Connections.ConsumedExactlyWhenFresh | apps/server/src/services/connections/connection-service.ts:203-214 | a callback gets past its session if and only if the setting is still there and at most ten minutes old, and the setting is gone afterwards |
| Connections.FinishedForGood | apps/server/src/services/connections/connection-service.ts:68-93 | a callback ends with its exchange: a failed one stays refused, one that went through has succeeded for good |
| Connections.AccountTables.DiscoverAccounts | apps/server/src/services/connections/connection-service.ts:128-177 | one upsert and one appended balance per account reached, each balance pointing at the row of its account; an exception between the two leaves the upsert without its balance |
| Connections.DiscoveriesKeepOneRowEach | apps/server/src/services/connections/connection-service.ts:143-152 | over every sequence of account reports and cursor moves, discoveries and syncs interleaved in any way, from an empty table: one row per connection and provider account, exactly for the accounts ever reported, showing the last report |
| Connections.DiscoveriesMoveNoCursor | apps/server/src/services/connections/connection-service.ts:165-167 | between any two moments no row is lost or changes its account, only a sync moves a cursor, and a new row has none |
| Connections.CursorIsTheLastMove | apps/server/src/services/connections/connection-service.ts:165-167 | the cursor of an account is where its last sync moved it, whatever was discovered since |
| Connections.DiscoveryIsReports | apps/server/src/services/connections/connection-service.ts:133-152 | an uninterrupted discovery is the sequence of its reports |

## Left out

- Routes, bearer token, HTML page, configuration and start-up: plumbing without a property of this kind.
- HTTP calls to TrueLayer and the real Actual API: any answer and any failure; the gateway's dedup is that of
  the repository's own test double, not Actual's fuzzy merge.
- AES-GCM, SHA-256 and random states: an inverse pair that no property needs, an injective function, fresh values.
- Retries of provider calls and token refresh: a provider call ends in a value or an error.
- `raw_payload`, log texts and the `/status` JSON: no state that the properties depend on.
- Names in account linking: whether an open account has the name of a local one is a parameter.
- The `updated_at` of connections, `created_at` of rows, institution names and masked numbers.
- Invalid dates, on which `toISOString` throws, and the years 0 to 99, to which `Date.UTC` adds 1900.
- Amounts beyond 2^53 pence, which the narrowing to a number before an import would round, and beyond the
  64 bits of the amount column.
- Export.FindPendingRows: the order of accounts is left open, because it is the database's collation of ids and no
  property depends on it.
- Numbering.Sort: specified as the library sort, not as the engine's algorithm.
- Gateway.FakeActualGateway.ImportTransactions: generalises the double's all-or-nothing failure flag to a throw
  after any number of payloads.
- Protocol.RunIsCoherent: assumes each ingest's writes are stamped later than the account's imports, because the
  code's strict comparison needs it; MirrorCoherence.UpdateNeedsLaterStamp is the exact condition.
- Mapper.PenceAreExact: binary64 enters as its relative error bound; `Mapper.PenceAreExactExactlyUpTo` has the doubles
  themselves, without the limits of their exponents.
- Pairing.FirstFitIsOptimal: its two conditions are sufficient and each is shown to be needed by an example; an
  exact characterisation of the inputs on which first fit happens to be optimal is not given.
- SyncLock.MutualExclusion: models the lock and not what runs inside it; the run itself is `SyncEngine.RunSync`.
- Protocol.StepIsLocal: concurrent runs of different connections are interleaved as whole steps; that finer
  interleavings of steps on disjoint rows come to the same is argued from this lemma and not proved.
- SyncEngine.RunSync: the status of the connection (ACTIVE before, REAUTH_REQUIRED after an expired consent) and the
  rows of `sync_runs` and `sync_errors` enter as the fields of the run's record, and the failure of a write to them as
  the place where the run breaks off.
- SyncHistory.EngineMissesNothing: says that the rows are there; when they are live is said of the run, by
  Completeness.LookalikesAreNeverMissed. Between two calls the protocol runs on in any way, within a call it does not.
- Convergence.SecondCallIsNoOp: for names that are not comparable or dates that fall, only the sufficient condition of
  `Convergence.OneCallIsEnough` is given.
- Connections.DiscoveriesKeepOneRowEach: an account write is atomic; a conflict that the database refuses ends that
  discovery and writes nothing.

# Verification of etcd-fsm

A Dafny 4.11 model of two parts of etcd-fsm, with proofs about them.

**The in-memory backend** (`etcd_fsm/_fake_backend.py`) is a multi-version key-value store: a chain of
versions per key, one revision counter, compare-and-branch transactions, revision-pinned pages,
compaction, leases on a virtual clock, and watches fed from a backlog and a live queue. No block under its
lock awaits anything, so each public operation is one atomic step. `Store.dfy` says what each step does to
a value `State`. `FakeBackend.dfy` holds the class `FakeEtcdBackend` with the fields of the original,
updated in place, every method proved against the step of the same name. The properties are then proved
of the steps and of every run of them (`Runs.dfy`).

**The graph compiler** (`etcd_fsm/processor.py` with `schema.py` and `_graph.py`) compiles registered
functions from their resolved signatures, composes processors, derives the edges of the state graph and
puts them in a canonical order. `Composer.dfy` holds the class `FSMProcessor` and `ComposeProcessors`.

The rules for object keys (`etcd_fsm/base.py`) and for byte prefixes (`etcd_fsm/_backend.py`) are modelled
beside them, in `Keys.dfy`, `ByteStrings.dfy` and `Ranges.dfy`.

## How the store is specified

The reference for the store is a plain map from keys to records, changed by one batch of events per
revision. `Logs.dfy` defines it: `At(log, r)` replays the first `r` batches of the full log, which
compaction does not shorten. `Refinement.RunRefines` states the result once for all calls: every run whose
transactions are all or nothing shows as a run of a small machine without history, events or watchers. The invariant `Inv(s, log)` says that

- the retained batches are the log from the compacted revision on, one non-empty batch per revision,
  each with distinct keys that all carry its revision, each a legal step of the map before it;
- every version chain ascends strictly in revision, up to the current one;
- at every revision from the compacted to the current one, the chains show exactly `At(log, r)`.

It holds in every state of every run whose transactions are all or nothing (`Runs.RunKeepsInvariant`).
A run is a list of `Call`s, one constructor per operation that can change the backend.

## What holds only under a condition

- *Atomicity.* The interface promises that a transaction evaluates and executes atomically
  (`etcd_fsm/_backend.py:162-169`). A GetRange that raises in the middle of the loop leaves the versions of
  earlier operations in the history, without a new revision or an event. `Runs.AtomicityCondition`: a
  failed transaction changes nothing if and only if no data-changing operation stands before the first
  GetRange that raises. `PlainMap.ReadsAllowedExactly` says when none raises: no read names a revision, all
  limits are positive or absent, and the compacted revision is below the current one or both are 0.
  The same condition is exact for snapshot plus watch (`Torn.SnapshotCondition`): the view at a readable
  revision plus the retained events gives the current view in every clean continuation of a call if and
  only if the call is all or nothing. Otherwise each version left behind becomes visible when a put of
  another key commits (`Torn.LeftoverSurfaces`); `Torn.TornTransactionSurfaces` is a concrete input. Lease
  safety fails as well if a version left behind names a lease that did not hold its key before
  (`Torn.LeftoverOutlivesLease`). Theorems over runs require every transaction to satisfy the condition at
  its turn (`Clean`), and nothing else; runs whose transactions hold no GetRange always do
  (`Runs.ReadFreeIsClean`).
- *Watch start.* Publishing does not look at a watcher's start revision. `Reconcile.StartRevisionCondition`:
  a watch honours its start in every clean continuation if and only if the start is at most the next
  revision or no key fits its range. What is delivered otherwise is stated too (`Streams.RunKeepsStreams`).
- *Overlap.* A put of the empty key, or a delete of the empty key alone, has the effective end `b"\0"`, which
  the overlap test takes for "unbounded"; and an empty deletion range is compared like any other. The test
  never misses a shared key, and `Acceptance.OverlapVerdict` says for every two writes when it reports one
  that does not exist; `Acceptance.AcceptedExactly` does so for whole transactions.
  `Acceptance.EmptyKeyPutIsRefused` (a put), `Ranges.SingleEmptyKeyIsRefused` (a delete) and
  `Ranges.EmptyRangeOverlaps` (empty ranges) are the failing inputs.
- *Reads at the compacted revision* are refused although the data is still stored; the views there are
  covered by the theorems, the refusal by `RangeError` in `Store.dfy`.

## Files

| file | holds |
|---|---|
| ByteStrings, Sorting, Dicts, Wrappers | byte order, sorted lists, insertion-ordered dictionaries, Option and Result |
| Backend, Ranges | values crossing the interface, key ranges, the overlap test |
| Store, FakeBackend | the steps of the store, and the class that performs them in place |
| Views, Logs, Commits, Compaction, Runs | views, the log, the invariant and what keeps it |
| PlainMap, Acceptance, Order | transactions as steps of a plain map; what is accepted; order of operations |
| Refinement | every clean run as a run of a plain map with counter, lease table and clock |
| Snapshots, Streams, Deliveries, Reconcile | replaying events, what watches deliver, snapshot then watch |
| Records, Leases, Time, Torn | compare-and-swap, leases, time, torn transactions |
| Pagination, Bootstrap | pages; listing in pages, then watching |
| Schemas, Processors, Composer | registries, compiling functions, composing processors |
| Finalization, Composition, Producers, Edges | pairwise acceptance, soundness and number of edges |
| Declarations, DeclaredGraph | compiling, composing and edges, said of the registered functions alone |
| Graphs, Labels, Keys | rendering order and nodes, label escapes, object keys |

## Model

| member | source | states |
|---|---|---|
| ByteStrings.SuccessorIsImmediate | etcd_fsm/_fake_backend.py:296 | no byte string lies strictly between a key and the key followed by a zero byte |
| ByteStrings.PrefixSpanExact | etcd_fsm/_backend.py:198-207 | for every prefix, empty and all-0xFF ones included, a key is in the prefix's range exactly when it starts with the prefix |
| ByteStrings.PrefixEndUnbounded | etcd_fsm/_backend.py:198-207 | the computed end is the unbounded marker exactly when no byte of the prefix can grow |
| ByteStrings.PrefixRangeEnd | etcd_fsm/_backend.py:198-207 | the backward scan that increments a copy in place computes that end |
| Ranges.PrefixRange | etcd_fsm/_backend.py:210-218 | the request built for a prefix selects exactly the keys under it, with revision and limit passed on |
| Ranges.NonEmptyHoldsStart | etcd_fsm/_fake_backend.py:481-486 | a range holds some key exactly when it holds its own start |
| Ranges.OverlapSymmetric | etcd_fsm/_fake_backend.py:489-501 | the overlap test does not depend on the order of its arguments |
| Ranges.SharedKeyOverlaps | etcd_fsm/_fake_backend.py:489-501 | ranges that share a key are always reported to overlap |
| Ranges.OverlapExactness | etcd_fsm/_fake_backend.py:489-501 | between non-empty ranges the test agrees with sharing a key if and only if a single empty key meets only a range starting at the empty key |
| Ranges.EmptyRangeOverlaps | etcd_fsm/_fake_backend.py:489-501 | when exactly an empty range, which shares no key, is reported to overlap another |
| Ranges.SingleEmptyKeyIsRefused | etcd_fsm/_fake_backend.py:497-500 | a concrete pair without a common key that is reported to overlap |
| Views.ListingEnumerates | etcd_fsm/_fake_backend.py:286-291 | a listing enumerates in ascending key order exactly the live records of the range at a revision |
| Views.EnumerationUnique | etcd_fsm/_fake_backend.py:286-291 | a range of a map has only one such enumeration |
| Views.PageShows | etcd_fsm/_fake_backend.py:286-302 | a page of a listing shows the first records of the view in the range, at most the limit, and where the next begin |
| Views.LaterWritesInvisible | etcd_fsm/_fake_backend.py:424-436 | versions of a later revision never show in an earlier read, so a transaction does not see its own writes |
| Views.NoChangeNoWrites | etcd_fsm/_fake_backend.py:345-357 | the change test is true exactly when the operations append some version |
| FakeBackend.FakeEtcdBackend.Range | etcd_fsm/_fake_backend.py:83-86 | a read succeeds exactly when the backend is open, the limit positive or absent and an explicit revision readable; then the page is an initial part of the one ascending enumeration of the view at that revision, cut at the limit, with `more` and the next key telling what is left |
| FakeBackend.FakeEtcdBackend.RangeUnlocked | etcd_fsm/_fake_backend.py:271-302 | the checks in order, the pass over the sorted keys and the cut give the specified page or refusal |
| FakeBackend.FakeEtcdBackend.ListUnlocked | etcd_fsm/_fake_backend.py:286-291 | one pass over the sorted keys collects the listing |
| FakeBackend.FakeEtcdBackend.ValidateTransaction | etcd_fsm/_fake_backend.py:326-343 | the loop that records write ranges finds the first missing lease or overlap |
| FakeBackend.FakeEtcdBackend.TransactionChangesData | etcd_fsm/_fake_backend.py:345-357 | the loop decides whether any operation would change data |
| FakeBackend.FakeEtcdBackend.PutUnlocked | etcd_fsm/_fake_backend.py:359-371 | a put appends one version that continues the record current before the transaction |
| FakeBackend.FakeEtcdBackend.DeleteUnlocked | etcd_fsm/_fake_backend.py:373-404 | a delete appends one tombstone for each record listed before the transaction and reports them in order |
| FakeBackend.FakeEtcdBackend.PublishUnlocked | etcd_fsm/_fake_backend.py:450-462 | a non-empty batch is retained and queued, filtered, for every registered watcher |
| FakeBackend.FakeEtcdBackend.Transaction | etcd_fsm/_fake_backend.py:88-140 | the whole call in place: comparisons, branch, validation, loop with its mid-loop errors, commit and publication |
| FakeBackend.FakeEtcdBackend.ExecuteUnlocked | etcd_fsm/_fake_backend.py:101-140 | the loop over the current history does what the operations would do to the state before the transaction |
| FakeBackend.FakeEtcdBackend.GrantLease | etcd_fsm/_fake_backend.py:155-167 | a grant enters a fresh identifier with its deadline and returns it, or refuses a ttl that is not positive, or a closed backend |
| FakeBackend.FakeEtcdBackend.KeepAlive | etcd_fsm/_fake_backend.py:169-176 | a known lease gets a full new time to live, which is returned; which error is raised otherwise |
| FakeBackend.FakeEtcdBackend.LeaseTimeToLive | etcd_fsm/_fake_backend.py:211-217 | for an existing lease, the least whole number of seconds not below the time to its deadline, or 0 past it |
| FakeBackend.FakeEtcdBackend.ExpireLeaseKeysUnlocked | etcd_fsm/_fake_backend.py:406-422 | the keys found attached are deleted one by one in one revision and one batch |
| FakeBackend.FakeEtcdBackend.RevokeLease | etcd_fsm/_fake_backend.py:178-184 | a known lease leaves the table and its keys are deleted; which error is raised otherwise |
| FakeBackend.FakeEtcdBackend.AdvanceTime | etcd_fsm/_fake_backend.py:195-209 | the clock moves and due leases are dropped in table order; a negative step is refused first, then a closed backend |
| FakeBackend.FakeEtcdBackend.Compact | etcd_fsm/_fake_backend.py:219-232 | every chain and the retained batches are cut at the bound; a bound past the current revision is refused, one at or below the compacted one changes nothing |
| FakeBackend.FakeEtcdBackend.Watch | etcd_fsm/_fake_backend.py:241-257 | registration takes the filtered backlog and enters the watcher exactly when the backend is open and the start is above a non-zero compacted revision; which error is raised otherwise |
| FakeBackend.FakeEtcdBackend.Next | etcd_fsm/_fake_backend.py:259-269 | a watch hands over its backlog, then its queue, and ends at the stop marker |
| FakeBackend.FakeEtcdBackend.Cancel | etcd_fsm/_fake_backend.py:267-269 | an abandoned watch is no longer registered |
| FakeBackend.FakeEtcdBackend.Close | etcd_fsm/_fake_backend.py:186-193 | closing queues the stop marker once for every registered watcher |
| Logs.CommitKeepsInvariant | etcd_fsm/_fake_backend.py:132-134 | publishing fit writes with the next revision keeps chains, log and views in step |
| Commits.AcceptedIsDisjoint | etcd_fsm/_fake_backend.py:326-343 | after validation no key lies in the write ranges of two operations |
| Commits.WritesFit | etcd_fsm/_fake_backend.py:359-404 | disjoint operations write each key at most once, each on top of the current map |
| Commits.ExecuteKeepsInvariant | etcd_fsm/_fake_backend.py:101-134 | a completed transaction publishes exactly one legal batch if it changes data and changes nothing otherwise |
| Commits.ExpireKeepsInvariant | etcd_fsm/_fake_backend.py:406-422 | an expiry publishes exactly one legal batch if any key is attached and changes nothing otherwise |
| Compaction.CompactReads | etcd_fsm/_fake_backend.py:229-232 | every read from the bound on finds the same version, tombstones included |
| Compaction.OneBaseline | etcd_fsm/_fake_backend.py:229-232 | at most one version per key remains at or below the bound |
| Compaction.RetainedRevisions | etcd_fsm/_fake_backend.py:227-228 | the retained batches carry exactly the revisions after the compacted one, without a gap |
| Compaction.CompactKeepsInvariant | etcd_fsm/_fake_backend.py:219-232 | compaction keeps the invariant against the same full log |
| Compaction.CompactionComposes | etcd_fsm/_fake_backend.py:219-232 | compacting to a and then to b, for a at most b, is compacting to b, on the whole state |
| Runs.AtomicityCondition | etcd_fsm/_fake_backend.py:101-140 | a failed transaction leaves the state as it was if and only if nothing before the raising read would change data |
| Runs.ReadFreeIsClean | etcd_fsm/_fake_backend.py:106-130 | transactions without GetRange are all or nothing at every turn of every run |
| Runs.StepKeepsInvariant | etcd_fsm/_fake_backend.py:83-269 | every operation keeps the invariant, whatever its arguments and outcome |
| Runs.RunKeepsInvariant | etcd_fsm/_fake_backend.py:57-269 | every state of every clean run satisfies the invariant |
| Runs.LogGrows | etcd_fsm/_fake_backend.py:450-462 | a run only appends to the log |
| Runs.PastViewsStay | etcd_fsm/_fake_backend.py:424-436 | what a readable revision showed it shows after any further clean run |
| PlainMap.CompareMeets | etcd_fsm/_fake_backend.py:304-324 | a comparison is answered with its relation between record and operand, stated per target and operator on the map, and raises exactly when bytes meet a number |
| PlainMap.ComparisonLaws | etcd_fsm/_fake_backend.py:517-542 | exactly one of less, equal and greater holds, not-equal is the complement of equal, and greater is monotone in the operand |
| PlainMap.CompareReadsMap | etcd_fsm/_fake_backend.py:97 | the comparisons of a transaction read the map before it, in order, up to the first whose relation does not hold or whose operand is ill-typed |
| PlainMap.ReadsAllowedExactly | etcd_fsm/_fake_backend.py:115-130 | exactly when none of the reads of a transaction raises |
| PlainMap.ChangesAgree | etcd_fsm/_fake_backend.py:345-357 | the change test is true exactly when the plain map has something to put or delete |
| PlainMap.BatchEffect | etcd_fsm/_fake_backend.py:359-404 | replaying an accepted transaction's batch gives each key the record its operations call for |
| PlainMap.TransactionRefines | etcd_fsm/_fake_backend.py:101-140 | an accepted transaction is one atomic step of the plain map: answers from before, all writes together, counter up by one exactly on change |
| PlainMap.WholeTransactionRefines | etcd_fsm/_fake_backend.py:88-140 | the whole call, for every all-or-nothing transaction: it fails and nothing changes, or the branch its comparisons choose is one step of the plain map, with responses, writes and counter |
| Acceptance.OverlapVerdict | etcd_fsm/_fake_backend.py:489-501 | two writes are reported to overlap exactly when some key may be written by both or they are misjudged: one is a put or delete of the empty key alone and the other starts elsewhere, or one is an empty deletion range that starts inside the other and ends after its start |
| Acceptance.AcceptedExactly | etcd_fsm/_fake_backend.py:326-343 | a transaction is accepted exactly when every named lease exists, no key may be written by two operations and no two writes are misjudged |
| Acceptance.EmptyKeyPutIsRefused | etcd_fsm/_fake_backend.py:335 | a concrete transaction that puts the empty key and another, shares no key and is refused |
| Order.AnsweredExactly | etcd_fsm/_fake_backend.py:88-140 | a transaction returns a result if and only if the backend is open, the first comparison that does not hold is well-typed, and the chosen branch names existing leases, writes no key twice, has no two writes misjudged and makes no read that raises |
| Acceptance.RefusedFor | etcd_fsm/_fake_backend.py:326-343 | the first operation that may not follow those before it decides between the unknown lease it names and an overlap |
| Order.RefusedWith | etcd_fsm/_fake_backend.py:88-140 | which error a failed transaction raises: closed, ill-typed comparison, validation, or that of the first read that raises |
| Order.AcceptedAnyOrder | etcd_fsm/_fake_backend.py:326-343 | acceptance does not depend on the order of the operations |
| Order.EventsAnyOrder | etcd_fsm/_fake_backend.py:103-134 | permuted operations publish a permutation of the events |
| Order.TransactionAnyOrder | etcd_fsm/_fake_backend.py:98-140 | permuted operations give the same acceptance, views, counter and responses, and the same batch up to order |
| Refinement.StepRefines | etcd_fsm/_fake_backend.py:83-269 | every operation shows as one step of a machine of a plain map, a counter, a lease table and a clock |
| Refinement.RunRefines | etcd_fsm/_fake_backend.py:57-269 | every clean run shows, call by call, as the same run of that machine |
| Refinement.RunsFromTheStart | etcd_fsm/_fake_backend.py:60-70 | from the empty backend, every clean run is a run of the empty machine |
| Snapshots.ReplayRestricts | etcd_fsm/_fake_backend.py:504-514 | replaying commutes with restricting map and batches to any key range |
| Snapshots.LogCatchUp | etcd_fsm/_fake_backend.py:450-462 | on the full log, a restricted view brought up to date by the filtered batches after it is the last restricted view |
| Snapshots.SnapshotPlusEvents | etcd_fsm/_fake_backend.py:132-134 | the view at any readable revision plus the retained batches after it is the current view |
| Snapshots.RestrictedSnapshotPlusEvents | etcd_fsm/_fake_backend.py:251-256 | the same inside any key range, with snapshot and batches both restricted first |
| Streams.BacklogIsDue | etcd_fsm/_fake_backend.py:246-257 | the backlog of a registration is what the full log offers from its start, whatever was compacted before |
| Streams.WatchRefusedExactly | etcd_fsm/_fake_backend.py:244-250 | a watch is refused exactly when the backend is closed or the log holds a batch from the start on that is no longer retained |
| Streams.PublishKeepsStreams | etcd_fsm/_fake_backend.py:450-462 | one published batch reaches each registered stream once, filtered, and no other |
| Streams.NextStreamOk | etcd_fsm/_fake_backend.py:259-269 | handing over moves a batch inside the stream, and the stop marker ends it with nothing left |
| Streams.NextAnswers | etcd_fsm/_fake_backend.py:259-266 | resuming a stream yields exactly the next batch due, waits exactly when all is handed over and the watch is registered, stops otherwise, and touches no other stream |
| Streams.CloseKeepsStreams | etcd_fsm/_fake_backend.py:186-193 | closing ends every registered stream with the stop marker after what was due |
| Streams.CancelKeepsStreams | etcd_fsm/_fake_backend.py:267-269 | abandoning a watch leaves it with an initial part of what was due and touches no other stream |
| Streams.StepKeepsStreams | etcd_fsm/_fake_backend.py:83-269 | every operation keeps each stream that is not abandoned at exactly what is due |
| Streams.RunKeepsStreams | etcd_fsm/_fake_backend.py:234-269 | over every clean run each stream has yielded or still holds exactly the filtered log from the earlier of its start and its registration |
| Deliveries.FilteredDelivers | etcd_fsm/_fake_backend.py:504-514 | said of the log: one batch per revision from the start on that concerns the range, ascending, with that revision and exactly its events inside the range, in their order |
| Deliveries.DeliveryIsUnique | etcd_fsm/_fake_backend.py:504-514 | only one sequence of batches is such a delivery |
| Deliveries.StreamDelivers | etcd_fsm/_fake_backend.py:234-269 | in every state of a clean run a stream has handed over or holds such a delivery; an abandoned one has handed over its first batches |
| Reconcile.WatchIsExact | etcd_fsm/_fake_backend.py:234-269 | over every clean run, yielded plus backlog plus queue is the delivery of the log to the range from the start on, and the stop marker comes last after closing |
| Reconcile.AbandonedWatch | etcd_fsm/_fake_backend.py:259-269 | what an abandoned watch had handed over begins that delivery |
| Reconcile.StartRevisionCondition | etcd_fsm/_fake_backend.py:459-462 | a watch honours its start in every continuation if and only if the start is at most the next revision or no key fits its range |
| Reconcile.SnapshotThenWatch | etcd_fsm/_fake_backend.py:244-269 | list, watch from the next revision while the backend is open and that revision is not compacted, and after any further clean run the snapshot plus what the watch holds is the current range |
| Records.RecordStandsSince | etcd_fsm/_fake_backend.py:359-371 | a record has been the same, untouched, at every revision since its mod revision, where a put event announced it |
| Records.RecordCountsPuts | etcd_fsm/_fake_backend.py:359-371 | a record's version counts the puts since its creation on an absent key, with the key present ever since |
| Records.LiveRecords | etcd_fsm/_fake_backend.py:304-315 | both hold of every stored record at every readable revision, and each counter compares as 0 for an absent key only |
| Records.ComparisonsTell | etcd_fsm/_fake_backend.py:304-315 | VERSION greater than 0 tells presence, each counter equal to 0 absence, LEASE equal to an identifier attachment, VALUE equal to non-empty bytes the value |
| Records.CompareModRevision | etcd_fsm/_fake_backend.py:310-311 | no ABA: a transaction that went through on MOD_REVISION = m > 0 found a record untouched since m |
| Records.SwapsWhatWasRead | etcd_fsm/_fake_backend.py:310-311 | so the record it replaces is the one read at any earlier revision with that mod revision |
| Records.NoDoubleClaim | etcd_fsm/_fake_backend.py:308-309 | between two successful put-if-absent transactions on a key the log holds a delete of it |
| Pagination.RestOfRange | etcd_fsm/_fake_backend.py:293-296 | what a full page leaves out is exactly the range from its next key on |
| Pagination.ContinuesExactly | etcd_fsm/_fake_backend.py:83-86 | pages read at one revision between other calls return a prefix of the range, and all of it within as many turns as it has keys |
| Pagination.PaginationIsExact | etcd_fsm/_fake_backend.py:83-86 | from any first page on, every record live at its revision is returned once, in ascending order, while other calls run, as long as compaction stays below and the backend is open at each page |
| Bootstrap.PagesThenWatch | etcd_fsm/_fake_backend.py:83-86 | list a range page by page while calls run, watch from the next revision, and after any further clean run the paged records plus what the watch handed over or holds are the current range |
| Leases.DropLeaseExactly | etcd_fsm/_fake_backend.py:406-422 | dropping a lease deletes exactly the keys whose current record names it, in one revision and one batch, or in none |
| Leases.AttachedInOrder | etcd_fsm/_fake_backend.py:407-412 | attached keys are deleted in the order of the history |
| Leases.ExpiredInOrder | etcd_fsm/_fake_backend.py:202-206 | due leases are dropped in the order of the table |
| Leases.DropLeasesExactly | etcd_fsm/_fake_backend.py:207-209 | dropping several deletes the keys of all of them and uses one revision for each that holds any |
| Leases.DropLeasesTable | etcd_fsm/_fake_backend.py:207-209 | and takes exactly them from the lease table, in order, leaving the rest |
| Time.AdvanceExactly | etcd_fsm/_fake_backend.py:195-209 | advancing time drops exactly the leases due by then, and nothing else |
| Time.TimeSplits | etcd_fsm/_fake_backend.py:195-209 | advancing by a and then by b reaches the view, lease table, clock and counter of advancing by a + b |
| Time.RunKeepsLeases | etcd_fsm/_fake_backend.py:155-209 | over every clean run each live record's lease exists and each lease is ahead of the clock by at most its time to live |
| Time.ReportedTimeToLive | etcd_fsm/_fake_backend.py:211-217 | so a reported time to live is between 1 and the granted one |
| Time.GrantedLeaseLives | etcd_fsm/_fake_backend.py:155-167 | a granted lease reports its whole time to live and is gone exactly once that has passed |
| Time.RenewedLeaseLives | etcd_fsm/_fake_backend.py:169-176 | so does a lease kept alive, however little was left of it |
| Time.IdsAreNotReused | etcd_fsm/_fake_backend.py:161-162 | no run grants one lease identifier twice |
| Torn.LeftBehindExactly | etcd_fsm/_fake_backend.py:106-130 | a transaction leaves versions behind if and only if it is not all or nothing, and then they are all that changed |
| Torn.LeftoverSurfaces | etcd_fsm/_fake_backend.py:106-134 | from every state of the invariant, each version left behind shows as soon as a put of any other key commits, and the one batch published by then does not touch its key |
| Torn.LeftoverOutlivesLease | etcd_fsm/_fake_backend.py:106-134 | each version left behind under a lease that did not hold its key before shows under that lease after the lease is revoked and another key is put |
| Torn.SnapshotCondition | etcd_fsm/_fake_backend.py:106-134 | snapshot plus retained events gives the current view in every clean continuation of a call if and only if the call is all or nothing |
| Torn.TornLeavesVersion | etcd_fsm/_fake_backend.py:106-120 | a concrete transaction that raises and leaves a version behind |
| Torn.TornTransactionSurfaces | etcd_fsm/_fake_backend.py:106-134 | that version becomes visible when another key is put, although no event announced it |
| Schemas.CompileStates | etcd_fsm/schema.py:120-163 | states are registered exactly when the models are usable and stand one to one for all members |
| Schemas.CompileCommands | etcd_fsm/schema.py:165-228 | the same for commands and their result types; without a command enumeration none are taken |
| Schemas.CompiledIsBijective | etcd_fsm/schema.py:120-163 | the registry maps the members of the enumeration one to one onto the registered models |
| Schemas.CompileSchema | etcd_fsm/schema.py:45-52 | a schema exists exactly when every model is usable and each member of each enumeration is the literal of exactly one; then it answers every state and command model as offered and no other |
| Schemas.CommandForExactly | etcd_fsm/schema.py:70-76 | the definition found for a command model is the one registered for it, and there is none for others |
| Schemas.FindCommandFinds | etcd_fsm/schema.py:70-76 | a command definition is found exactly under its own model |
| Processors.ExpandStateAnnotation | etcd_fsm/processor.py:521-556 | an annotation is accepted exactly when it has members and each is a state model that covers some registered one, itself or under SUBCLASSES what derives from it; its sources are exactly the models covered |
| Processors.ReactionReturn | etcd_fsm/processor.py:586-621 | a reaction return is accepted exactly when it is non-empty and all members are outcomes or registered models; targets and flags are those it names |
| Processors.CommandReturn | etcd_fsm/processor.py:655-714 | a command function returns the declared result plus optional Retry, whose members give targets and flags |
| Processors.ValidateTransitioningReactions | etcd_fsm/processor.py:769-785 | the owner pass accepts exactly when no state is the source of two transitioning reactions |
| Composer.FSMProcessor.Append | etcd_fsm/processor.py:307-316 | a decorator obtained earlier still appends; a finalized processor keeps what it compiled |
| Composer.FSMProcessor.Decorate | etcd_fsm/processor.py:302-320 | a decorator applied at once registers its function, or is refused and changes nothing once the processor is finalized |
| Composer.FSMProcessor.Finalize | etcd_fsm/processor.py:247-292 | finalizing stores once what all registrations compile to, or fails and leaves the processor as it was |
| Composer.ValidateCommands | etcd_fsm/processor.py:454-463 | the owner pass over commands and initializers accepts exactly when no command model occurs twice |
| Composer.ValidateComposition | etcd_fsm/processor.py:444-463 | the checks in sequence accept exactly the composable lists |
| Composer.CollectEdges | etcd_fsm/processor.py:465-467 | the edge set is the union over the processors |
| Composer.FinalizeAll | etcd_fsm/processor.py:441-442 | all processors are finalized, in order, unless one cannot be |
| Composer.ComposeProcessors | etcd_fsm/processor.py:437-473 | a graph results exactly when all finalize and the list is composable, with the union of their edges |
| Finalization.FinalizedExactly | etcd_fsm/processor.py:247-292 | a processor finalizes exactly when each function compiles and every two agree on names, commands and transitions |
| Finalization.RegisterAllExactly | etcd_fsm/processor.py:256-285 | what the registration loop has noted after any number of functions |
| DeclaredGraph.FinalizesAsDeclared | etcd_fsm/processor.py:247-292 | said of names and signatures: a processor finalizes exactly when every function compiles and no two share a name, implement one command or leave one state |
| DeclaredGraph.DefinitionsDeclared | etcd_fsm/processor.py:322-430 | for each registered function the reaction, handler or initializer its signature declares is stored, with sources, targets, flags and command |
| DeclaredGraph.NothingElseStored | etcd_fsm/processor.py:322-430 | and nothing else is |
| Declarations.ReactionDeclared | etcd_fsm/processor.py:322-354 | a reaction compiles exactly when it takes one state annotation and returns outcomes; what is compiled is what the signature names |
| Declarations.CommandDeclared | etcd_fsm/processor.py:356-389 | a command function compiles exactly when it takes one registered command and one state annotation, in either order, and returns the declared result plus optional Retry |
| Declarations.InitializerDeclared | etcd_fsm/processor.py:391-430 | an initializer compiles exactly when it takes one registered command, returns its result, can create a state and cannot delete |
| Producers.RegisteredDefsOk | etcd_fsm/processor.py:322-430 | compiled functions use registered states only, have distinct names, and initializers create and never delete |
| Composition.CompositionIsPairwise | etcd_fsm/processor.py:437-463 | a list composes exactly when each member composes alone and every two positions compose together |
| Composition.SelectionComposes | etcd_fsm/processor.py:437-463 | every non-empty selection from an accepted list, in any order, is accepted, with no new edges |
| Composition.OrderIsImmaterial | etcd_fsm/processor.py:437-473 | reordering changes neither acceptance nor the edge set |
| DeclaredGraph.ComposesAsDeclared | etcd_fsm/processor.py:437-463 | finalized processors compose exactly when there is one, they share a schema, names differ, and no two functions of different processors implement one command or leave one state |
| Edges.FinalizedComposesAlone | etcd_fsm/processor.py:287-292 | a finalized processor always composes alone |
| Edges.GraphFromProducers | etcd_fsm/processor.py:717-766 | the edge set is the union of what each function contributes |
| DeclaredGraph.ProcessorEdgesDeclared | etcd_fsm/processor.py:717-766 | the edges of a processor are exactly those a signature declares: from a model an annotation covers, or from nothing for an initializer, to a model returned, or to deletion |
| DeclaredGraph.GraphDeclared | etcd_fsm/processor.py:465-473 | the edges of a composed graph are exactly those some function of some processor declares |
| Edges.EdgesAreSound | etcd_fsm/processor.py:717-766 | endpoints are registered; the source is absent exactly for initializers, the target exactly for deletes |
| Edges.OneReactionPerSource | etcd_fsm/processor.py:769-785 | reaction edges with one source share processor and function |
| Edges.EdgesAreConserved | etcd_fsm/processor.py:465-473 | the graph has one edge per source and target, per source and delete, and per created target of each function: the union merges none |
| Graphs.SortKeyInjective | etcd_fsm/_graph.py:286-299 | edges with registered endpoints and equal sort keys are equal |
| Graphs.RenderingIsCanonical | etcd_fsm/_graph.py:282-300 | any two enumerations of a composed graph's edges sort to one sequence, strictly ascending, each edge once |
| Graphs.RenderingOrder | etcd_fsm/_graph.py:286-299 | edges are rendered by source in schema order, creation first, then by target, deletion last, then by processor and function text and by kind |
| Graphs.NodesAreDistinct | etcd_fsm/_graph.py:256-280 | node ids differ between models and between rendered schemas, and from the two end nodes |
| Graphs.DecimalReads | etcd_fsm/_graph.py:263 | the index in a node id is its decimal numeral |
| Graphs.EndpointsAreDeclared | etcd_fsm/_graph.py:229-254 | every rendered edge runs between the nodes of its own source and target, or the creation and deletion nodes, and the same rendering declares them |
| Labels.DotTextIsEscape | etcd_fsm/_graph.py:318-319 | the three replacements are one escape per character |
| Labels.LabelReadsBack | etcd_fsm/_graph.py:318-319 | a quoted label ends at its own closing quote, stays on one line and gives back the text |
| Keys.SplitExactly | etcd_fsm/base.py:47 | splitting and joining at slashes are inverse, and no segment holds a slash |
| Keys.ValidKeys | etcd_fsm/base.py:39-56 | a key is valid exactly when it has no NUL and no empty or reserved segment, and is returned unchanged |
| Keys.KeyComplaints | etcd_fsm/base.py:39-56 | which complaint an invalid key draws, in order |
| Keys.SlotIsNoKey | etcd_fsm/base.py:51-54 | no valid key is the command slot of another key or lies below it |
| Keys.EncodePrefix | etcd_fsm/_backend.py:198-218 | in UTF-8 one key's bytes are a prefix of another's exactly when the strings are |
| Keys.EncodedReadsBack | etcd_fsm/_backend.py:198-218 | keys are stored in UTF-8 as section 3 of RFC 3629 defines it |
| Keys.KeysStayApart | etcd_fsm/base.py:51-54 | as stored bytes, a valid key is neither a command slot nor in the prefix range below one |

## Left out

- `etcd_fsm/_aetcd_backend.py`: the etcd client and its error translation rest on a library that cannot be seen.
- asyncio: blocks under the lock are atomic steps, queues are sequences, consuming a watch is a `Next` step that may find nothing; tasks and scheduling are not modelled.
- Rounding of the floating-point clock: clock, deadlines and seconds are reals.
- FakeBackend.FakeEtcdBackend.Watch: watchers are numbered instead of being queue objects, and registration and the first `Next` are two steps, where the generator registers when it is first awaited.
- FakeBackend.FakeEtcdBackend.Next: what was yielded is recorded in the stream for the proofs; the original does not keep it.
- Error texts: each error is modelled by its class and the revisions or lease it names; all definition errors of schemas and processors are one error.
- Reflection: signatures, type hints, pydantic generics and union flattening come in resolved; subclassing and enum binding are sets held by the schema; whether a model class meets its contract is a flag of its `Offer`.
- Schema names, namespaces, enum aliases and the validation of state and command values.
- Processors hold no Python functions; a function is its name and resolved signature, and schema identity is an identifier field.
- Graphs.NodesAreDistinct: node labels (enum texts and qualified names) are left out; only ids are modelled.
- Importing modules and files, the command line, and Mermaid text, which rests on `html.escape`.
- Edge labels in rendered text may coincide for different edges when names contain the separators; only the order and the endpoints are stated.
- Keys.ValidKeys: arguments that are not strings, and strings with unpaired surrogates, cannot be expressed.
- The FSM runtime described in `docs/` is not implemented in the repository; the store properties it depends on are proved.
- Whether a real etcd server behaves like the in-memory backend.

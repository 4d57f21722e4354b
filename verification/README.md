# ADE verification

ADE processes documents: an API lists and searches them, workers execute runs on them and
publish configurations. This project models the parts where that is hardest to get right and
proves what they are for.

- **Run queue and leases** (`RunQueue`, `WorkerSession`, `LeaseProtocol`, `LeaseSafety`,
  `LeaseFencing`, `LeaseTimes`, `Settlement`, `WorkerLoop`, `Supervision`). The tables are a state; every transaction is one
  atomic step that commits, or on an exception leaves the state as it was
  (`backend/src/ade_db/engine.py:131-144`). Any number of workers take steps in any order.
  `WorkerSession.Session` and `WorkerLoop.Worker` are the imperative code, each method proved
  against the function the protocol takes its steps by.
- **Listings** (`Listing`, `ListingOrder`, `Pagination`, `Traversal`, `MultiKeySort`, `CursorPager`,
  `CursorToken`). One comparison is the reference for the in-memory walk, the SQL keyset
  predicate in three-valued logic, offset pages, repeated stable sorts and the client's pager.
- **Event log tailing** (`EventTail`). Splitting at line feeds is the reference for the
  incremental reader.
- **Free-text search** (`FreeText`). Containing every token is the reference for `LIKE` patterns
  and for the in-memory matcher.
- **Stateful arithmetic** (`Uuid7`, `RateLimiting`, `Calendar`).

`Wrappers` and `Arithmetic` hold what several of them share.

## What is false of the code, and when exactly

- A worker that claims a run again while its own earlier claim of it is still in flight can
  strand the run: the retry is decided by the attempt number of the old claim, and the guard
  checks only the worker. `LeaseFencing` gives a history that does it, shows that a step loses
  the consistency of claims and rows exactly when it is such a self-reclaim, and proves that
  nothing is ever stuck without one.
- A publish run marked as a dry run succeeds without a publication, since that branch comes
  before the operation is looked at (`LeaseSafety.DryPublishActivatesNothing`). The API does not
  enqueue such runs.
- The lease margin of the supervision loop is the interval, one turn and two heartbeat
  latencies, not the interval and one turn: the time of the first heartbeat is read after the
  call (`Supervision.KeptIffFits`). With no latency it is the simple bound.
- The SQL sweep and `backoff_seconds` disagree for a negative maximum, which the settings do
  not admit (`RunQueue.BackoffFormsAgree`).
- A bare carriage return makes the tailer drop bytes it has read: a log of complete lines is sent
  in full by every history that writes it if and only if it has none (`EventTail.SendsReferenceIff`).
- `matches_tokens` refuses an empty value for an empty token and SQL accepts it
  (`FreeText.FormsAgreeIff`); `parse_q` gives no empty tokens.
- The keyset predicate misses a row whose null comes where the cursor has a value, and SQL puts
  nulls first in a descending column (`Listing.KeysetAgreesIff`, `Listing.OrdersAgreeIff`);
  nulls-last pairs exclude both.
- Beyond the last page the pager shows some existing page (`CursorPager.PagerAgreesIff`), and
  `collectAllPages` marks a cut-off result as complete (`CursorPager.CollectAllPages`).
- `last_year` raises on 29 February, and ranges that touch the end of the calendar raise
  (`Calendar.NamedRangeMeans`).
- Identifiers strictly increase from the start of the process if and only if the first call reads
  a time since 1970, or no call does and the random value never wraps (`Uuid7.IncreaseIff`).
- The limiter reads the clock before it takes the lock, so times can go back. By how much they do,
  how long a window is and how the two must fit in the configured window for the limit to hold is
  exact in `RateLimiting.WindowsHoldIff`; when all answers are those of a limiter that remembers
  everything, in `RateLimiting.NaiveIffInOrder`.

## Inputs that stand for something else

Clocks, random bits, new identifiers, results of subprocesses, files and blob storage are
parameters of the step or method. JSON, UTF-8 and datetime text appear as functions with the
round trip assumed where a lemma says so; white space and the case fold of the search as
functions of a character. Column values are integers or null.

## Model

| member | source | states |
|---|---|---|
| LeaseSafety.InvAlways | backend/src/ade_worker/db.py:26-118 | Over every interleaving of every transaction by any number of workers: running rows are exactly those with a claimant and an expiry, attempts never pass the limit, versions of a file are 1..n with the last one current, no run has two versions, one active configuration per workspace at most, every published run has left its configuration with its digest |
| LeaseSafety.InvStep | backend/src/ade_worker/worker.py:1936-1978 | Each single transaction keeps all of that |
| LeaseSafety.TerminalForever | backend/src/ade_worker/db.py:49-83 | A succeeded or failed row never changes again in any column |
| LeaseSafety.AcknowledgedOnce | backend/src/ade_worker/db.py:49-58 | Committed success acknowledgements of a run: exactly one if it ends up succeeded, else none |
| LeaseSafety.OneOutputPerRun | backend/src/ade_worker/worker.py:1936-1978 | However often a run is executed, at most one file version carries it, and only if it succeeded |
| LeaseSafety.AttemptsCountClaims | backend/src/ade_worker/db.py:26-47 | `attempt_count` grows by exactly the number of claims of the run, which stay within `max_attempts` |
| LeaseSafety.ChangesAreBounded | backend/src/ade_worker/db.py:26-118 | Row-changing steps other than heartbeats are bounded: each lowers 2*(max - attempts) + 1 while running, by at least one |
| LeaseSafety.VersionsUpload | backend/src/ade_worker/db.py:329-367 | Storing an output in the success transaction keeps numbering, currency and one version per run |
| LeaseSafety.NewlyPublished | backend/src/ade_worker/worker.py:1583-1680 | A publish run that is no dry run turns succeeded only in the transaction that activates its draft, with the digest that matched its snapshot |
| LeaseSafety.PublishAllOrNothing | backend/src/ade_worker/db.py:391-422 | A publish settlement changes nothing at all, or acknowledges the run, makes its draft the one active configuration of the workspace with the matched digest and archives the previous one |
| LeaseSafety.PublishHistory | backend/src/ade_worker/worker.py:1583-1680 | After any history a succeeded publish run has published, unless it was a dry run |
| LeaseSafety.DryPublishActivatesNothing | backend/src/ade_worker/worker.py:1583-1680 | Exact condition: success of a publish run publishes if and only if the run is not a dry run |
| LeaseSafety.EmptyWorldOk | backend/src/ade_worker/db.py:26-118 | The invariant holds of the empty database, so it holds of every reachable one |
| LeaseProtocol.RowStep | backend/src/ade_worker/db.py:26-118 | Any transaction leaves a given row as it is, extends its lease, claims it, or settles or requeues it, with the columns that go with that move and no others |
| LeaseProtocol.MaxNoIsCount | backend/src/ade_worker/db.py:341-344 | `max(version_no)` of a file numbered 1..n is n, so the next number is n + 1 |
| LeaseFencing.CanFinishIffNotStranded | backend/src/ade_worker/db.py:26-118 | A run can still reach a final status, by some continuation, if and only if it is not queued with all its attempts used |
| LeaseFencing.StrandedForever | backend/src/ade_worker/db.py:26-36 | Such a row is never touched again by any step |
| LeaseFencing.FailureStrandsIff | backend/src/ade_worker/worker.py:986-990 | The failure transaction strands its run if and only if it matches the row, the row has no attempts left and the claim it was handed had some |
| LeaseFencing.FenceKeptIffNoSelfReclaim | backend/src/ade_worker/db.py:85-91 | A step keeps claims in flight consistent with their rows if and only if no worker claims a run it still has in flight |
| LeaseFencing.NeverStuck | backend/src/ade_worker/db.py:26-118 | Without self-reclaim every run can at every point still finish, by steps that are again without self-reclaim |
| LeaseFencing.GuardsRefineFencing | backend/src/ade_worker/db.py:49-91 | Without self-reclaim the guard `claimed_by = worker` is equivalent, state for state over whole histories, to a guard with the attempt number: lost claims have no effect |
| LeaseFencing.SelfReclaimStrands | backend/src/ade_worker/worker.py:2049-2059 | Witness: a history from the empty database with one self-reclaim leaves a run that can never finish |
| WorkerSession.Session.ClaimRuns | backend/src/ade_worker/db.py:132-155 | Claims an eligible batch of rows nobody else has locked, earliest first, of at most `limit`; returns exactly the claimed rows with their new attempt numbers; no other row changes |
| WorkerSession.Session.EarliestEligible | backend/src/ade_worker/db.py:28-34 | The scan finds an eligible row that no other eligible one precedes |
| WorkerSession.Session.HeartbeatRun | backend/src/ade_worker/db.py:158-173 | Extends the lease of a held row, no other column or row, and answers whether it was held; else changes nothing |
| WorkerSession.Session.AckRunSuccess | backend/src/ade_worker/db.py:176-185 | Settles and releases a held row and keeps every other column and row; else changes nothing and answers false |
| WorkerSession.Session.AckRunFailure | backend/src/ade_worker/db.py:188-215 | Fails or requeues and releases a held row as `retry_at` says, and keeps every other column and row; else changes nothing and answers false |
| WorkerSession.Session.ExpireRunLeases | backend/src/ade_worker/db.py:218-237 | By their columns: every running row whose lease is over is failed or goes back into the queue for its backoff, by its attempts left; no other row changes; their number is returned and none is left to settle |
| WorkerSession.Session.NextRunDueAt | backend/src/ade_worker/db.py:240-252 | The least future availability of a row that can be claimed, none if there is none |
| WorkerSession.Session.EnsureOutputFile | backend/src/ade_worker/db.py:277-326 | A file of that workspace and name that is not deleted: the one there is, else a new empty one |
| WorkerSession.Session.CreateOutputFileVersion | backend/src/ade_worker/db.py:329-367 | Appends a version of the file with a number above all of its others and makes it current |
| WorkerSession.Session.RecordRunResult | backend/src/ade_worker/db.py:370-388 | Writes the four result columns of one row, whoever holds it, and keeps every other column and row |
| WorkerSession.Session.ActivateConfigurationPublish | backend/src/ade_worker/db.py:391-422 | Archives the other active configurations of the workspace and activates the draft with its digest, answering whether there was one; every other configuration stays |
| WorkerSession.Session.HandleRunFailure | backend/src/ade_worker/worker.py:2037-2081 | The failure transaction as one step of the protocol |
| WorkerSession.Session.HandleRunSuccess | backend/src/ade_worker/worker.py:1936-1978 | The success transaction as one step of the protocol |
| WorkerSession.Session.HandlePublish | backend/src/ade_worker/worker.py:1583-1680 | The publish transaction, rolled back as a whole when the activation finds no draft |
| RunQueue.BackoffFormsAgree | backend/src/ade_worker/settings.py:87-90 | The delay in Python and in the sweep agree for all attempts if and only if the maximum is not negative |
| RunQueue.BackoffMonotoneBounded | backend/src/ade_worker/settings.py:87-90 | It never falls with the attempts and never passes the maximum |
| RunQueue.BackoffDoubles | backend/src/ade_worker/settings.py:87-90 | The first delay is the base and each further one twice the one before, up to the maximum |
| LeaseTimes.LeaseIsExact | backend/src/ade_worker/db.py:85-118 | After a claim or heartbeat for so many seconds, over any history in which that worker does nothing more to the run, a sweep leaves the run as it is up to the last microsecond of the lease and settles it from the next one on |
| LeaseTimes.BatchByColumns | backend/src/ade_worker/db.py:26-35 | A claim takes queued rows that are available and have attempts left, unlocked, by availability and then age, and no fewer than there are up to the limit |
| LeaseTimes.ClaimedRow | backend/src/ade_worker/db.py:36-46 | What a claim writes to every column of a row |
| LeaseTimes.QueuedUntilDue | backend/src/ade_worker/db.py:28-31 | Whatever happens, a queued row stays as it is until a claim at its time or later |
| LeaseTimes.BackoffIsWaited | backend/src/ade_worker/worker.py:986-990 | A run requeued by a sweep or a failure is not claimed before its backoff has passed, over any history |
| LeaseTimes.SurvivesOnTable | backend/src/ade_worker/worker.py:360-384 | The supervision loop keeps its lease exactly when the heartbeats and sweeps, as transactions on the table, leave the row with its worker |
| Settlement.SettleOutcome | backend/src/ade_worker/worker.py:1286-2035 | From the row and what was observed alone: a held run succeeds, with exit code 0 and its output, exactly when everything its operation needs went well; which observations fail it and with which exit code; which leave the row alone |
| Settlement.ExactlyOne | backend/src/ade_worker/worker.py:1286-2035 | These three exclude each other and leave nothing out, and the exit code is one |
| Settlement.ProcessRunOutcome | backend/src/ade_worker/worker.py:1583-1700 | So it is for `process_run` as a whole, where a publication that was rolled back then fails the run with exit code 2 |
| WorkerLoop.Worker.Drain | backend/src/ade_worker/worker.py:2211-2245 | Batches of at most five together claim exactly what one claim with the whole capacity would; in-flight work stays within the concurrency; with capacity left nothing eligible remains |
| WorkerLoop.PartialExtends | backend/src/ade_worker/worker.py:2223-2243 | A batch claimed after others extends them to one larger claim |
| WorkerLoop.WaitIsExact | backend/src/ade_worker/worker.py:2164-2171 | The wait is within both timeouts; during it no row becomes eligible, and if it is shorter than both one does when it ends |
| WorkerLoop.Worker.Turn | backend/src/ade_worker/worker.py:2140-2187 | One turn of the loop: sweep, claim, and a wait during which nothing becomes eligible |
| WorkerLoop.ProcessRunIsSteps | backend/src/ade_worker/worker.py:1286-2035 | Running a claim to its end is one or two steps of the protocol and ends its flight |
| WorkerLoop.Worker.ProcessRun | backend/src/ade_worker/worker.py:1286-2035 | The method leaves the row of a held run exactly so, and changes nothing for a run that is not held |
| Supervision.Supervise | backend/src/ade_worker/worker.py:348-384 | Over a timed run of the loop with sweeps anywhere in it, the answer is whether no sweep finds the lease expired |
| Supervision.KeptIffFits | backend/src/ade_worker/worker.py:360-384 | Under all timings with turns of at most d and heartbeat latency of at most h no sweep takes the lease, if and only if interval + d + 2h fits in the lease |
| Supervision.LeaseLost | backend/src/ade_worker/worker.py:360-384 | Otherwise there is a timing in which it is taken |
| Supervision.WorkerLeaseKeptIff | backend/src/ade_worker/worker.py:1473-1474 | With the interval max(1, lease / 3): from three seconds on d + 2h must fit in two thirds of the lease; with two seconds in one second; one second is never safe |
| Listing.ResolveCursorSort | backend/src/ade_api/common/cursor_listing.py:309-369 | Tokens resolve to fields, directions and normalised tokens, with the source's three errors |
| Listing.ResolvedHasId | backend/src/ade_api/common/cursor_listing.py:353-367 | Every resolved sort orders by id somewhere |
| ListingOrder.ResolveMeans | backend/src/ade_api/common/cursor_listing.py:309-369 | Each token is its field's name, with a minus for descending; an id field nobody asked for is added last, in the direction of the first token |
| ListingOrder.CmpIsColumnOrder | backend/src/ade_api/common/cursor_listing.py:603-641 | The comparison of keys is the order of the columns: fields in turn, values in the direction of the field, nulls last in either |
| ListingOrder.SortedByFirst | backend/src/ade_api/common/cursor_listing.py:698-708 | In a sorted listing no row without a value of the first field precedes one with a value, and values follow its direction |
| Listing.CompareSequenceKeys | backend/src/ade_api/common/cursor_listing.py:624-641 | The loop computes the comparison |
| Listing.CompareOpposite | backend/src/ade_api/common/cursor_listing.py:624-641 | Swapping the keys swaps the answer |
| Listing.CompareTransitive | backend/src/ade_api/common/cursor_listing.py:624-641 | The comparison is transitive, nulls and mixed directions included |
| Listing.BuildCursorPredicate | backend/src/ade_api/common/cursor_listing.py:435-462 | The loop builds one condition per non-null value |
| Listing.CompareByPosition | backend/src/ade_api/common/cursor_listing.py:450-462 | A key compares as later exactly when some position decides it, all earlier ones being equal, or a null of its own does |
| Listing.KeysetAgreesIff | backend/src/ade_api/common/cursor_listing.py:415-462 | In three-valued logic the predicate is TRUE exactly when the comparison says later, if and only if the first difference is not a null of the row |
| Listing.KeysetIsComparison | backend/src/ade_api/common/cursor_listing.py:755-781 | For listed rows, with plain fields non-null and nulls-last pairs in any mix, it always is; what the comparison means in columns is `ListingOrder.CmpIsColumnOrder` |
| Listing.OrdersAgreeIff | backend/src/ade_api/common/cursor_listing.py:505-537 | SQL's ordering and the comparison order two keys alike if and only if no null decides in a descending column |
| Listing.RowsOrderedAlike | backend/src/ade_api/common/cursor_listing.py:755-781 | So SQL orders listed rows as the comparison does, which `ListingOrder.CmpIsColumnOrder` states in columns |
| Pagination.KeyTellsApart | backend/src/ade_api/common/cursor_listing.py:353-367 | With an id in the key only rows of the same id compare equal |
| Pagination.SortIsStrict | backend/src/ade_api/common/cursor_listing.py:698-708 | Sorting a table gives a strictly increasing permutation of it |
| Pagination.StrictOrderUnique | backend/src/ade_api/common/cursor_listing.py:698-708 | There is only one such permutation |
| Pagination.ResolveSequenceStartIndex | backend/src/ade_api/common/cursor_listing.py:663-674 | The loop finds the first row after the cursor |
| Pagination.ParseOwnKey | backend/src/ade_api/common/cursor_listing.py:465-492 | The cursor of a row parses back to its key |
| ListingOrder.CursorTakenIff | backend/src/ade_api/common/cursor_listing.py:465-492 | A cursor is taken as it is exactly when its sort is the requested one, it has as many values as that and every null rank is 0 or 1; else the stated error |
| ListingOrder.OtherSortRefused | backend/src/ade_api/common/cursor_listing.py:711-713 | The cursor of another sort is refused, unless there is nothing to page through |
| Pagination.SelectedIsTail | backend/src/ade_api/common/cursor_listing.py:523-529 | The rows the keyset predicate selects, in order, are the tail the in-memory walk cuts off |
| Pagination.QueryPageIsSequencePage | backend/src/ade_api/common/cursor_listing.py:505-556 | The SQL page behind a cursor is the in-memory page |
| Pagination.FirstQueryPageIsSequencePage | backend/src/ade_api/common/cursor_listing.py:677-740 | So is the first one |
| Pagination.CursorPageIsOffsetPage | backend/src/ade_api/common/cursor_listing.py:559-600 | On unchanged data the page behind the k-th cursor is the k-th offset page and hands out the true next cursor |
| Pagination.OffsetPageIsSlice | backend/src/ade_api/common/cursor_listing.py:572-587 | The k-th offset page is the slice (k-1)*limit to k*limit, with more to come exactly when page k+1 exists |
| Pagination.TotalChangesNothing | backend/src/ade_api/common/cursor_listing.py:586-589 | Counting the total gives the same answer about further pages |
| Traversal.TraversalSkipsAndRepeatsNothing | backend/src/ade_api/common/cursor_listing.py:677-740 | Whatever changes between pages, a walk returns strictly increasing rows, none twice, and if it completes every key present at each page exactly once |
| Traversal.StaticWalk | backend/src/ade_api/common/cursor_listing.py:677-740 | On unchanged data the pages of a walk put together are the sorted listing |
| MultiKeySort.PassExtendsSort | backend/src/ade_api/common/sorting.py:167-170 | A stable sort by one key after a sort by the later keys is the sort by all of them |
| MultiKeySort.SortByPasses | backend/src/ade_api/common/sorting.py:167-170 | One pass per key from the last to the first gives the single stable sort by the whole comparison |
| MultiKeySort.SortSequence | backend/src/ade_api/common/sorting.py:133-170 | With the errors for no and for unknown tokens, and id added in the first direction |
| MultiKeySort.SortSequenceIsListingOrder | backend/src/ade_api/common/sorting.py:145-170 | For the same tokens the result is the one strictly increasing order the cursor walk follows |
| MultiKeySort.DedupePreserveOrder | backend/src/ade_api/common/sorting.py:15-22 | Each token once, in the order of first occurrence |
| CursorPager.Pager.FetchCurrentPage | frontend/src/hooks/use-cursor-pager.ts:37-86 | From any cache earlier requests left: a page that exists is returned as it is, after no more fetches than its distance from any known page; the cache keeps mapping existing pages to their true cursors |
| CursorPager.NearestKnown | frontend/src/hooks/use-cursor-pager.ts:58-62 | The largest known page before the target |
| CursorPager.ListingServes | backend/src/ade_api/common/cursor_listing.py:677-740 | An unchanged listing meets what the pager expects of its server |
| CursorPager.PagerAgreesIff | frontend/src/hooks/use-cursor-pager.ts:65-79 | The returned rows are those of the offset page if and only if that page exists or the listing is empty |
| CursorPager.CollectAllPages | frontend/src/api/pagination.ts:28-65 | The rows of the first `maxPages` pages, always marked complete; nothing without a page |
| CursorPager.CollectedAllIff | frontend/src/api/pagination.ts:37-64 | They are the whole listing if and only if it has no more than `maxPages` pages |
| CursorPager.FlattenPages | frontend/src/api/pagination.ts:71-100 | Over all pages in order: each key once, where it first occurred, with the last item that has it |
| EventTail.Tail | backend/src/ade_api/common/sse.py:86-159 | The generator computes the specified state for every interleaving of appends, reads of any size and reopenings, whatever bytes are written |
| EventTail.TailIsExact | backend/src/ade_api/common/sse.py:86-159 | For every such interleaving of a log without a bare carriage return: exactly the events of the complete lines read so far, in order, each with the offset of its line end, up to the first stop event |
| EventTail.SendsReferenceIff | backend/src/ade_api/common/sse.py:119-136 | A log of complete lines is sent so by every history that writes it, for every parser and stop events, if and only if it has no bare carriage return |
| EventTail.FeedIsReference | backend/src/ade_api/common/sse.py:119-136 | Without a bare carriage return the line loop does what splitting at line feeds does |
| EventTail.Feed | backend/src/ade_api/common/sse.py:122-136 | The loop over the lines of one buffer computes its specification |
| EventTail.PositionKeptIff | backend/src/ade_api/common/sse.py:119-127 | Cursor and buffer account for the handle's position if and only if the buffer has no bare carriage return; otherwise bytes already read are dropped |
| EventTail.KeptPosition | backend/src/ade_api/common/sse.py:113-128 | The handle stands `len(buffer)` bytes behind the cursor, and the buffer is those bytes of the file |
| EventTail.LinesOfAppend | backend/src/ade_api/common/sse.py:119-121 | Later bytes complete the pending line and nothing else |
| EventTail.ResumeIsSuffix | backend/src/ade_api/common/sse.py:98-114 | Starting again from the id of any event sent yields exactly the events after it |
| EventTail.WrittenIsRead | backend/src/ade_worker/worker.py:223-235 | A log of whole JSON records is read as one event per record that has one, under its name or as `message`, identified by the length of the log after it, with nothing pending |
| EventTail.LineEndIsStripped | backend/src/ade_api/common/sse.py:129-134 | A line is sent without its end, a line feed or both characters, and with nothing else taken off |
| EventTail.WrittenHasNoCr | backend/src/ade_worker/worker.py:223-235 | Such a log has no bare carriage return |
| EventTail.EventLog.Append | backend/src/ade_worker/worker.py:223-235 | Appends the record and a line feed |
| FreeText.EscapeLikeIsOnePass | backend/src/ade_api/common/search.py:73-79 | The three replacements, in that order, escape every special character once |
| FreeText.PatternMeansContains | backend/src/ade_api/common/search.py:82-88 | `LIKE '%escaped%' ESCAPE '\'` accepts a string if and only if it contains the token, for all tokens |
| FreeText.IlikeMeansContains | backend/src/ade_api/common/search.py:86 | And without regard to case, for a fold that keeps special characters |
| FreeText.PredicateMeansAllFound | backend/src/ade_api/common/search.py:108-112 | The AND of ORs is TRUE in three-valued logic exactly when each token is in some value |
| FreeText.MatchesTokens | backend/src/ade_api/common/search.py:120-128 | The loops with early exit decide that every token is in some value that is not empty |
| FreeText.BuildQPredicate | backend/src/ade_api/common/search.py:91-112 | Parse errors, no predicate without tokens, an error without fields, else one alternative per field for each token |
| FreeText.QueryMeansMatches | backend/src/ade_api/common/search.py:108-128 | For every query and every row the SQL predicate is TRUE if and only if the in-memory matcher accepts |
| FreeText.FormsAgreeIff | backend/src/ade_api/common/search.py:120-128 | For tokens handed over directly they agree on all rows if and only if there is no token or one that is not empty |
| FreeText.SplitOfJoin | backend/src/ade_api/common/search.py:42-46 | Splitting undoes joining |
| FreeText.ParseSeesWords | backend/src/ade_api/common/search.py:42-70 | Only the words of a query count: more than 200 characters or 8 words of at least 2 are an error, and those words are the tokens |
| FreeText.LongEnoughKeepsOrder | backend/src/ade_api/common/search.py:53-54 | Tokens are the words of two characters or more, in their order |
| FreeText.ReparseIsSame | backend/src/ade_api/common/search.py:57-70 | Parsing the normalized form gives the same result |
| Uuid7.Assemble | backend/src/ade_api/common/ids.py:68-75 | The shifts and bitwise ors put the five fields side by side |
| Uuid7.OrOfApart | backend/src/ade_api/common/ids.py:71-75 | Bits that are apart are added by a bitwise or |
| Uuid7.FieldsOfIdentifier | backend/src/ade_api/common/ids.py:68-77 | Every value has 128 bits, version 7, variant 10, and gives back timestamp and random bits (section 5.7 of RFC 9562) |
| Uuid7.OrderOfIdentifiers | backend/src/ade_api/common/ids.py:71-75 | Values are ordered as timestamp and then random bits |
| Uuid7.Generator.Generate | backend/src/ade_api/common/ids.py:41-77 | By the fields of the value returned: after a new reading that time and the bits drawn, after none the last time and one more, after a wrap a later reading and the bits drawn then |
| Uuid7.AdvanceMovesOn | backend/src/ade_api/common/ids.py:50-66 | Each call has a later timestamp, or the same and one more random value; without a wrap the timestamp is the largest reading so far |
| Uuid7.RandomIsDrawn | backend/src/ade_api/common/ids.py:51-66 | The 74 random bits of an identifier are those drawn, or one more than the last |
| Uuid7.SameIdentifierIff | backend/src/ade_api/common/ids.py:51-54 | Two processes whose clocks read the same new millisecond give the same identifier if and only if they draw the same 74 bits |
| Uuid7.IdentifiersIncrease | backend/src/ade_api/common/ids.py:41-77 | Over any number of calls once a time since 1970 was read, with a clock that may stall, go back or jump below 2^48 and any random bits, identifiers strictly increase |
| Uuid7.IncreaseIff | backend/src/ade_api/common/ids.py:26-77 | From the start of the process, with readings below 2^48 - 1, they strictly increase if and only if the first call reads a time since 1970, or none does and there are fewer than 2^74 calls |
| Uuid7.FirstCallBefore1970 | backend/src/ade_api/common/ids.py:27-57 | Witness: a first call before 1970 breaks the order |
| RateLimiting.InMemoryRateLimiter.Allow | backend/src/ade_api/common/rate_limit.py:25-37 | At any time, also before that of the last call: the answer and the deque of the key are what all its requests so far determine; other keys keep theirs |
| RateLimiting.PrunedSplits | backend/src/ade_api/common/rate_limit.py:30-31 | Only a front of the deque goes, all of it before the window, and what stays begins within it |
| RateLimiting.Serve | backend/src/ade_api/common/rate_limit.py:25-37 | Over any sequence of requests of any keys at any times: each answer is determined by the requests of its own key |
| RateLimiting.WindowsHoldIff | backend/src/ade_api/common/rate_limit.py:25-37 | Over all requests whose times go back by at most s: every closed window of length L holds at most `max_requests` allowed requests if and only if L + s fits in the configured window; for one request, if and only if L does; for none, always |
| RateLimiting.WindowsHoldAtMost | backend/src/ade_api/common/rate_limit.py:33-37 | With times in order every closed window of the configured length is safe |
| RateLimiting.InOrderIsNaive | backend/src/ade_api/common/rate_limit.py:30-37 | In order the pruned deque has as many entries as the window that ends now has allowed requests, so the answer is that of a limiter that remembers everything |
| RateLimiting.NaiveIffInOrder | backend/src/ade_api/common/rate_limit.py:26-37 | Over all requests whose times go back by at most s every answer is so if and only if no request can be allowed at all, s is zero, or the window is negative by more than s |
| RateLimiting.TimesMustNotGoBack | backend/src/ade_api/common/rate_limit.py:26-37 | Witness: a run of four requests, all allowed under two in ten seconds, with three within ten seconds |
| Calendar.NamedRangeMeans | backend/src/ade_api/common/list_filters.py:202-226 | Each named range raises in exactly the stated cases, `last_year` on every 29 February among them, and else covers whole days of the named unit |
| Calendar.ThisUnit | backend/src/ade_api/common/list_filters.py:211-222 | The text `this_` and a unit word: exactly the moments of the current week, month or year, or an error in the stated cases |
| Calendar.LastUnit | backend/src/ade_api/common/list_filters.py:213-225 | The text `last_` and a unit word: exactly the moments of the one before, or an error in the stated cases |
| Calendar.DayWord | backend/src/ade_api/common/list_filters.py:203-210 | `today`, `yesterday` and `tomorrow`: exactly the moments of that day, or an error at the ends of the calendar |
| Calendar.NoOtherText | backend/src/ade_api/common/list_filters.py:202-226 | No other text names a range here |
| Calendar.NamedRangeContains | backend/src/ade_api/common/list_filters.py:202-226 | A moment is in a range if and only if its day, week, month or year is the named one |
| Calendar.NamedRangesTile | backend/src/ade_api/common/list_filters.py:202-226 | Successive ranges of one unit meet: the next starts one microsecond after the end |
| Calendar.RangeOfUnit | backend/src/ade_api/common/list_filters.py:109-143 | Start and end of the day, Monday week, month or year of a moment; when the end raises |
| Calendar.RelativeRangeMeans | backend/src/ade_api/common/list_filters.py:229-248 | `past_N`, `last_N` and `next_N_days` are exactly N whole days with today first or last, or raise outside the calendar |
| Calendar.AddDaysMoves | backend/src/ade_api/common/list_filters.py:117-143 | Adding days moves the day number by as much under Gregorian leap rules, and overflows exactly outside years 1 to 9999 |
| Calendar.OrdOrder | backend/src/ade_api/common/list_filters.py:109-143 | Day numbers order dates as year, month, day |
| CursorToken.BytesSurvive | backend/src/ade_api/common/cursor_listing.py:378-386 | For every length: encode, strip the padding, pad by `-len % 4`, decode gives the bytes back (sections 3.2 and 5 of RFC 4648) |
| CursorToken.PaddingIsRestored | backend/src/ade_api/common/cursor_listing.py:380-384 | The stripped padding is restored from the length alone |
| CursorToken.RefusedIffOneOver | backend/src/ade_api/common/cursor_listing.py:383-392 | A token of digits is refused as base64 if and only if its length is one over a multiple of four |
| CursorToken.CursorSurvives | backend/src/ade_api/common/cursor_listing.py:372-402 | A cursor handed out decodes to the same sort and values, if JSON reads back what it wrote |
| CursorToken.PayloadOutcome | backend/src/ade_api/common/cursor_listing.py:383-402 | What becomes of any JSON value sent as a cursor: no object, another version, missing lists, or its sort and values |
| CursorToken.CursorIsUrlSafe | backend/src/ade_api/common/cursor_listing.py:379-380 | A cursor has letters, digits, hyphens and underscores only |
| CursorToken.PageCursorSurvives | backend/src/ade_api/common/cursor_listing.py:727-729 | So the cursor a page gives out comes back as the one the next request resumes from |

## Left out

- Run creation, cancellation and configuration edits by the API: fresh rows appear with no attempts, and no step cancels one.
- The unique indexes on active runs, and PostgreSQL's isolation anomalies: each transaction is atomic, and `SKIP LOCKED` means that a claim skips a given set of rows.
- Values of `operation` other than process and publish, and the checks on inputs and paths that precede execution: their outcome is part of what a worker observes, and each failing one is a failure settlement.
- `replace_run_metrics`, `replace_run_fields`, `replace_run_table_columns` and result parsing: plain column copies in a nested transaction whose errors are swallowed.
- Deletion of files, comments and tags on them, and names other than the key of an output file.
- `_ensure_local_venv`: its lock lives in the directory it deletes, so mutual exclusion is not a property it keeps.
- LISTEN/NOTIFY and its jitter: the wait is proved sufficient without them.
- RunQueue.BackoffSeconds: does not model the overflow of a double in `POWER(2, n)` past attempt 1024, where SQL raises.
- RunQueue.MaxNo: a maximum below one counts as none; `version_no` starts at one, so no other arises.
- Supervision.Supervise: the wall clock of the database and the monotonic clock of the loop advance together; the timeout of the subprocess only ends the loop earlier.
- WorkerLoop.Worker.Drain: the in-flight claims are a sequence where the source has a set of futures; reaping is any removal between turns.
- WorkerLoop.Worker.ProcessRun: staging, the engine and the upload are observations made before the settlement, so other workers' steps come before or after it, not within; the protocol itself interleaves freely.
- Pagination.PaginateSequence: the SQL query of a cursor page is any result in the order SQL promises; facets, mappers, `changes_cursor` and statement timeouts are not modelled.
- Listing.ResolveCursorSort: the arity checks between cursor fields and order columns are met by construction, as is the removal of repeated order columns.
- MultiKeySort.SortSequence: keys are present and comparable; Python raises on a mix of `None` and values.
- CursorPager.Pager.FetchCurrentPage: one request at a time; concurrent awaits over the same cache, aborts and the reset on a new key or limit are not modelled.
- `clampPageSize`, and parsing of sort and filter query parameters: plain code with easy claims.
- EventTail.Tail: a log that only grows, or is briefly missing; truncation in place and replacement by a new file, pings and the wait before the file exists are not modelled, and text is bytes.
- EventTail.EventLog.Append: each write is whole; JSON text escapes line breaks.
- FreeText.MatchesTokens: one fold of single characters stands for `lower()` in Python and in SQL.
- FreeText.BuildQPredicate: the registry is the number of fields of each resource; a field reads a column or related rows.
- Uuid7.Generator.Generate: the wait for a later millisecond is assumed to end; the lock makes calls atomic and `now` is read before it, so it is any reading.
- RateLimiting.InMemoryRateLimiter.Allow: times are real numbers, not floats; keys that go idle keep their deque, as in the source.
- Calendar.ResolveRelative: the pattern of the token is taken as matched, with direction and count; epoch and ISO dates of the filter are not modelled.
- CursorToken.DecodeCursor: JSON values that no check looks into are not told apart.
- Filters of listings, ETags, OpenAPI, the CLI, the Azure adapter, engine setup and all components of the frontend.

# dirsearch, verified

A Dafny model of the parts of dirsearch that must not lose, repeat or corrupt
anything: the scan protocol between the Rust workers and the Python loop, the
dictionary and its checkpoints, the report journal, the HTTP body decoder, and
smaller algorithms with exact laws. `dafny verify dfyconfig.toml` checks it.

- `Chunks`, `ScanWorkers`, `ScanReach`: one native scan. The chunk buffer is a class
  as in the source; the scan is a state machine in which every task moves in atomic
  steps and every interleaving is covered. `ScanReach` says what a running scan can
  still deliver, also after its cancellation was taken back.
- `Dictionary`, `ChunkLoop`, `NativeFuzzer`, `HandOrder`, `EarlyPlay`, `PauseAnswer`:
  the Python side. The dictionary is a class proved against value operations; the
  chunk loop is proved equal to a simple loop over all results of a scan, however
  they are split into chunks; `NativeFuzzer` composes dictionary, Python loop, native
  scan and controller into one machine. `HandOrder` adds the order of its runs,
  `EarlyPlay` which plays are safe, and `PauseAnswer` that a pause is answered.
- `Journal`: structured reports on a disk where every write can fail or be the
  last one before the process dies.
- `HttpFraming`, `HttpHeaders`: fixed, close-delimited and chunked bodies (section 7.1 of RFC
  9112) over a reader that delivers pieces of any size, and which of them the
  header fields ask for (section 6.3).
- `SqliteExport`, `FuzzerPause`: the threaded fuzzer, its pause, the SQLite report
  and the saving of a session, as one machine over all schedules.
- `Base64`, `JsonLines`, `ResponseStore`: the JSONL response store, whose writes and
  truncations can fail at any byte.
- `RateLimiter`, `ExtensionRegex`, `NtlmToken`, `RequestTarget`, `WildcardScan`: the
  smaller cores. `Wrappers` and `ByteStrings` hold the shared types.

What is external is a parameter or a free choice: request results, when a stop
check sees a pause, whether a callback raises, how many bytes a read or write
moves, whether a disk write fails, the clock, and the HMAC.

Some promises of the code hold only under a condition. Where a condition is called
exact below, it is proved both ways; the failing runs are exhibited as lemmas or
methods.

- Saving a session from the menu. It never runs ahead of the durable report rows on
  any schedule exactly if the batch size is one or no thread can still scan
  (`SqliteExport.SavesSafelyExactly`); a timed-out pause gives a run that loses a row
  (`SqliteExport.TimedOutPauseLosesRow`).
- The threaded `pause`. An acknowledged pause stops all scanning on every schedule
  exactly if the state it starts in does not leak (`FuzzerPause.PauseStopsExactly`):
  there are no more permits than parked threads, and no thread that can fail meets
  both another one that scans on and a permit to answer for it. The failing runs are
  a permit left by a timed-out pause (`SqliteExport.StalePermitAcknowledges`) and a
  callback that raises during the pause (`SqliteExport.FailedCallbackAcknowledges`).
- A play of the native fuzzer before its pause was acknowledged, which is possible
  when the pause timed out. It clears the cancel flag and then sets the play event. In
  every state of every run with the flag cleared, setting the event keeps the promise
  on all schedules from there (paths in queue order, the rest pending, queued again
  wherever the loop needs it) exactly if it strands nothing
  (`EarlyPlay.PlaysSafelyExactly`). It strands claims if the scan has returned with
  paths unreleased, or is past a chunk that was cut short and can still deliver more.
  The state that counts is the one in which the event is set: a chunk that Python
  drops between the two stores can make the difference
  (`EarlyPlay.DroppedChunkStrands`). After the scan has returned and with
  everything claimed, the fuzzer then ends normally with the unreleased paths of a
  list pending (`EarlyPlay.EarlyPlayEndsShort`, and a full run in
  `EarlyPlay.EarlyPlayLosesPath`); with a range, the next claim raises
  (`EarlyPlay.EarlyPlayRefused`). A safe play can still make the scan raise its
  shortfall error, because play clears the flag that a worker has already acted on;
  nothing is lost then (`EarlyPlay.EarlyPlayCanFail`).
- A single claim keeps the pending list exactly if it does not take a corpus path
  while a native range is outstanding (`Dictionary.ClaimOneKeepsPending`); such a path
  is repeated after a requeue (`Dictionary.OrdinaryClaimDuringNativeClaimRepeats`).
- A response record becomes one line of its own exactly if the separator flag tells
  whether the file lacks a final newline (`JsonLines.SeparatorDecides`). The flag goes
  wrong only if a write and the truncation that should undo it both fail. Over any run
  the lines are the initial ones and one per successful save exactly if no such failure
  left bytes behind, apart from a needed newline before the first record
  (`ResponseStore.LinesOfRun`). Otherwise the next record is glued to a fragment
  (`ResponseStore.GluedRun`), or a blank line is written, which reopening refuses at
  lib/report/jsonl_response_store.py:52-55 (`ResponseStore.BlankLineRun`).
- The two extension recognisers differ exactly on recognised paths with a newline
  appended (`ExtensionRegex.BackendsAgree`).
- The wildcard scan accepts exactly if the patterns are a subsequence of the words or,
  from twenty on, are one without the first miss (`WildcardScan.ScanPatterns`); a
  response that lacks a single pattern can be rejected (`WildcardScan.MovedPatternRejects`).
- A rate-limit delay is exact for a constant limit (`RateLimiter.RetryAfterDelay`) and
  can be too short after the limit was lowered (`RateLimiter.DelayCanBeTooShort`); when
  a retry succeeds for any limits is exact too (`RateLimiter.RetryGranted`).

## Model

| member | source | states |
|---|---|---|
| Chunks.OrderedChunkBuffer.Push | native/src/chunks.rs:30-43 | a completion and its result are recorded once |
| Chunks.OrderedChunkBuffer.RefreshReady | native/src/chunks.rs:81-105 | the frontier moves to the first incomplete index and the queue holds the uncollected actionable results below it |
| Chunks.OrderedChunkBuffer.TakeReady | native/src/chunks.rs:107-130 | a chunk starts where the last one ended, is non-empty, no longer than the size, holds exactly the actionable results of its range, and comes exactly when something is ready and the chunk is full or forced |
| Chunks.OrderedChunkBuffer.DeliveredCount | native/src/chunks.rs:132-134 | the number of paths handed over, every one of them completed |
| Chunks.ActionableOrdered | native/src/chunks.rs:107-130 | the results of a range are strictly ordered by index and lie in it |
| Chunks.ActionableMembers | native/src/chunks.rs:30-43 | exactly the results published with an index in a range are in its results |
| ScanWorkers.StepKeepsInv | native/src/scan.rs:306-411 | every atomic step of a worker or the coordinator keeps the protocol invariant, with the insertion of a result and the raising of its flag as two steps: a raised flag means the result is recorded |
| ScanWorkers.StepKeepsSafe | native/src/scan.rs:306-411 | the part of the invariant that survives a cancellation taken back while the scan runs |
| ScanWorkers.DeliveryIsOrderedPrefix | native/src/chunks.rs:81-134 | at every moment of every run the results handed over are exactly the results decided in the run below the delivered count that are unfiltered, failed or of status 407, once each in index order |
| ScanWorkers.DeliveryIsContiguous | native/src/chunks.rs:81-134 | the chunks handed over are non-empty ranges from 0 on, each starting where the last ended and within the size, and everything below their end is completed |
| ScanWorkers.OutcomesAreDecided | native/src/scan.rs:393-408 | what a worker decides is recorded for its index in the rest of every run, without its result exactly if it is filtered, not failed and not of status 407 |
| ScanWorkers.CutIsTake | native/src/chunks.rs:107-130 | in the machine as in the buffer a chunk is due exactly when something is ready and it is forced or full, and is then the next range, within the size, with its results |
| ScanWorkers.CompletedOnce | native/src/scan.rs:306-411 | over any run an index is completed by one publication or by none |
| ScanWorkers.UncancelledScanDeliversAll | native/src/scan.rs:225-289 | a scan that returns uncancelled has delivered every path, so the shortfall error cannot be raised |
| ScanWorkers.WorkersTerminate | native/src/scan.rs:306-411 | the shared counter exceeds the path count by at most one claim per worker, which bounds the worker steps of every run |
| ScanWorkers.WorkerCanMove | native/src/scan.rs:306-411 | a worker that has not finished always has an enabled step |
| ScanWorkers.CoordinatorCanMove | native/src/scan.rs:225-289 | when all workers are done the coordinator has an enabled step until it returned or failed |
| ScanWorkers.ScanEnds | native/src/scan.rs:240-289 | in every run the coordinator makes at most 7 * pathCount + 16 steps and 8 more for each turn of its loop over tasks that passes the cancel flag, and once the workers are done it can move until the scan has returned or failed |
| ScanReach.SpentStays | native/src/scan.rs:306-411 | once the next index has lost its worker, the scan never delivers again and cannot return on its own |
| ScanReach.ReachesNext | native/src/scan.rs:225-289 | any other running scan that is not cancelled has a schedule to its next chunk, or to its return when everything is delivered |
| Dictionary.ClaimOneKeepsPending | lib/core/dictionary.py:94-108 | a single claim keeps the pending list exactly when it does not take a corpus path during a native claim |
| Dictionary.ClaimEachIsAdvance | lib/core/dictionary.py:110-138 | claiming many is repeated single claims |
| Dictionary.ClaimEachTakesPrefix | lib/core/dictionary.py:110-138 | a bulk claim takes the first paths of the queue, extras before corpus |
| Dictionary.ClaimNativeKeepsPending | lib/core/dictionary.py:140-194 | a native claim takes pending paths only and no more than the maximum, all of them outstanding, and is empty only when nothing is queued |
| Dictionary.ClaimNativeTakesPrefix | lib/core/dictionary.py:140-194 | a native claim of a positive maximum takes the first of the unclaimed extras of a Rust-owned corpus, else the first of everything unclaimed, as many as the maximum or all there are; a range starts at the index and keeps the base path |
| Dictionary.ReleaseSpanKeepsRest | lib/core/dictionary.py:196-247 | releasing the next part of a claim removes just those paths from the pending list |
| Dictionary.SieveIsRemoveEach | lib/core/dictionary.py:219-247 | the counting pass leaves what releasing path by path leaves |
| Dictionary.SieveDecides | lib/core/dictionary.py:219-247 | the counting pass succeeds exactly on a sub-multiset of the claims |
| Dictionary.RemoveEachPrefix | lib/core/dictionary.py:219-247 | both prefix shortcuts leave what releasing path by path leaves |
| Dictionary.RequeueKeepsPending | lib/core/dictionary.py:249-263 | a requeue keeps the pending order and makes all of it claimable; the snapshot before and after is the same |
| Dictionary.RestoreKeepsPending | lib/core/dictionary.py:268-293 | a restored snapshot serves the same unreleased paths in the same order and decides the same on every later extra |
| Dictionary.AddExtraQueues | lib/core/dictionary.py:328-349 | an extra joins the pending paths exactly when it is valid and new, and the same extra is then refused |
| Dictionary.AddExtraGoesLast | lib/core/dictionary.py:328-349 | an accepted extra is served after the other extras and before the corpus; a refused one changes nothing |
| Dictionary.OrdinaryClaimDuringNativeClaimRepeats | lib/core/dictionary.py:249-263 | why an ordinary corpus claim must not overlap a native one: the requeue serves that path again |
| Dictionary.PathDictionary.ClaimNext | lib/core/dictionary.py:94-108 | the next extra, else the next line, and the cursor past it, or nothing when both are used up |
| Dictionary.PathDictionary.ClaimMany | lib/core/dictionary.py:110-138 | the first paths unclaimed, as many as the maximum or all there are, as repeated single claims |
| Dictionary.PathDictionary.ClaimNativeMany | lib/core/dictionary.py:140-194 | the unclaimed extras of a Rust-owned corpus first, else a range from the index or the first of the queue, as many as the maximum or all there are, with the fields that follow; an error exactly while a range is outstanding |
| Dictionary.PathDictionary.ReleaseNativeClaims | lib/core/dictionary.py:196-213 | an ordered prefix of the outstanding range is released and the claim ends with its last path, anything else changes nothing |
| Dictionary.PathDictionary.ReleaseClaim | lib/core/dictionary.py:215-217 | the first occurrence is removed, or nothing when there is none |
| Dictionary.PathDictionary.ReleaseClaims | lib/core/dictionary.py:219-247 | all requested paths are released as if one by one, a prefix of the claims at once, or the list is unchanged |
| Dictionary.PathDictionary.RequeueClaims | lib/core/dictionary.py:249-263 | every outstanding claim goes back before the unclaimed extras, and the index to the first unreleased line |
| Dictionary.PathDictionary.GetState | lib/core/dictionary.py:268-283 | the saved state is the state after a requeue, and the dictionary is unchanged |
| Dictionary.PathDictionary.Restored | lib/core/dictionary.py:285-293 | the dictionary a saved session starts with |
| Dictionary.PathDictionary.AddExtraPath | lib/core/dictionary.py:328-349 | queues the path exactly when it is valid, not a line of the corpus and not queued before |
| Dictionary.PathDictionary.Reset | lib/core/dictionary.py:351-357 | nothing claimed, no extras, both cursors at the start |
| ChunkLoop.CompactingKeepsEvents | native/src/scan.rs:393-408 | omitting filtered misses on the native side leaves the same events |
| ChunkLoop.ChunkIsCompacted | native/src/scan.rs:393-408 | the results of a chunk of the buffer are the compacted results of its range |
| ChunkLoop.SentMembers | native/src/scan.rs:393-408 | the native side sends exactly the results that are unfiltered, failed or of status 407 |
| ChunkLoop.HandledMembers | lib/connection/native.py:308-312 | the simple loop handles exactly the results that are unfiltered, or of status 407 behind a proxy |
| ChunkLoop.MissesAreTheOthers | lib/core/fuzzer.py:634-663 | every other result counts as one miss |
| ChunkLoop.NextEvent | lib/core/fuzzer.py:599-632 | the next event is the first result kept after the ones handled |
| ChunkLoop.GapProgress | lib/core/fuzzer.py:634-663 | one callback for a gap counts what one callback per miss would |
| ChunkLoop.NativeLoop.ProcessEvent | lib/core/fuzzer.py:599-632 | one turn of the loop: one miss call for a gap, a second stop check, one call for the event, each released even when a callback raised; a stop between the two leaves the event alone |
| ChunkLoop.NativeLoop.ProcessNativeChunk | lib/core/fuzzer.py:599-632 | wherever processing of a chunk ends, callbacks, miss count and released prefix are those of a simple loop over every result up to there; a chunk after a stop does nothing |
| ChunkLoop.SliceContinues | lib/core/fuzzer.py:599-632 | the simple loop over one part of the results continues the loop over the part before it |
| ChunkLoop.NativeLoop.ProcessScan | lib/core/fuzzer.py:580-632 | for any split of a scan into chunks and any filtered gaps, wherever it ends at upTo: exactly the unfiltered results below upTo, and those of status 407 behind a proxy, are handled, once each in order; the others are counted as misses; everything below upTo is released and nothing else; without a stop or exception upTo is the end of the chunks |
| NativeFuzzer.StepKeepsInv | lib/core/fuzzer.py:548-632 | every step of Python, workers, coordinator or controller keeps the composed invariant |
| NativeFuzzer.ScanStartsBounded | lib/core/fuzzer.py:561-582 | a claim starts a scan of the first unclaimed paths, at most the configured maximum |
| NativeFuzzer.TotalOfStep | lib/core/dictionary.py:328-349 | the whole set grows by every discovery that is valid, not in the corpus and not queued before, and by no other step |
| NativeFuzzer.EveryPathHandedOnce | lib/core/fuzzer.py:548-663 | in every run handed plus pending is the whole set, nothing is handed twice, the rest is queued at the head of the loop, a normal end leaves nothing pending and a failure exactly the rest; plays come at any moment that strands nothing |
| NativeFuzzer.NoClaimRefused | lib/core/dictionary.py:150-151 | the error for a claim while a range is outstanding is never raised in these runs |
| NativeFuzzer.Checkpoint | lib/core/dictionary.py:268-283 | at any moment what was handed out and what a session saved now resumes with are the whole set, with only the paths in the hands of a callback in both |
| NativeFuzzer.EventsOrdered | lib/core/fuzzer.py:599-632 | events keep the order and range of the chunk |
| HandOrder.UnhandledSuffixIsPending | lib/core/fuzzer.py:548-663 | in every run without discoveries paths are handed out in queue order and the pending list is exactly the suffix not handed out and settled, all of it claimable after a failure |
| EarlyPlay.PlaysSafelyExactly | lib/core/fuzzer.py:709-717 | in every state of every run with the cancel flag cleared, setting the play event keeps order, pending suffix and queue on all schedules exactly if it strands nothing |
| EarlyPlay.DroppedChunkStrands | lib/core/fuzzer.py:709-717 | a chunk dropped between the two stores of play turns a state that strands nothing into one that does |
| EarlyPlay.SafePlayKeeps | lib/core/fuzzer.py:709-717 | a play that strands nothing keeps the promise in every continuation |
| EarlyPlay.StrandedPlayFails | lib/core/fuzzer.py:709-717 | from every state in which a play strands claims, scans still running included, some schedule breaks the promise |
| EarlyPlay.EarlyPlayEndsShort | lib/core/fuzzer.py:561-597 | after the scan of a list has returned and with everything claimed, a play ends the fuzzer normally; what was not released stays pending, nothing exactly if all was released |
| EarlyPlay.EarlyPlayRefused | lib/core/dictionary.py:140-194 | after the scan of a range has returned with paths unreleased, a play makes the next claim raise and the rest is not queued again |
| EarlyPlay.EarlyPlayLosesPath | lib/core/fuzzer.py:709-737 | a run of one path that an early play ends with the path pending and never handed out |
| EarlyPlay.EarlyPlayCanFail | native/src/engine.rs:122-128 | a run in which a worker stops, a play clears the flag, and the scan raises its shortfall error with the path queued again |
| PauseAnswer.CanAnswer | lib/core/fuzzer.py:719-730 | a fuzzer that was asked to pause can always move towards the acknowledgement, taking the chunks that are due before the flag is read |
| PauseAnswer.PauseIsAnswered | lib/core/fuzzer.py:719-730 | in every run without a play or a quit, at most 28 such steps per claimed path and 69 more lead to the acknowledgement or the end |
| Journal.ReadJournal | lib/report/factory.py:191-255 | told of the records alone: fails exactly if the header is missing, of another format or version, a record is neither a result nor a commit of at most the results before it, or the base is not the report and no commit names the report |
| Journal.RecoveryRefuses | lib/report/factory.py:191-245 | the same of the state recovered from report and journal |
| Journal.RecoveryYields | lib/report/factory.py:236-255 | otherwise all results are listed in order, none is applied if the base is the report, else the largest count committed for it, and the rest is appended to the report |
| Journal.LastCommitIsApplied | lib/report/factory.py:191-255 | the commits that match the report on disk are those of its own entry count |
| Journal.FittingJournalRecovers | lib/report/factory.py:191-255 | a journal that fits its report always recovers base plus log |
| Journal.AppendEntryFits | lib/report/factory.py:178-189 | appending a result record saves exactly its entry |
| Journal.AppendCommitFits | lib/report/factory.py:303-346 | a commit record names the state the report is about to become |
| Journal.StructuredReport.EnsureJournal | lib/report/factory.py:164-176 | creating the journal writes its header and changes nothing that is recovered, whatever fails |
| Journal.StructuredReport.SaveEntry | lib/report/factory.py:290-301 | the entry is recovered exactly if its record was appended to the journal, which is created first if there is none: always when the call returns, never when it raises |
| Journal.StructuredReport.Compact | lib/report/factory.py:303-346 | saved entries survive every outcome; without a fault the report holds them all and the journal is gone |
| Journal.StructuredReport.Initiate | lib/report/factory.py:257-288 | reopening recovers what is on disk, drops a journal that lists nothing new, creates a missing report and refuses a foreign file |
| Journal.StructuredReport.ReopenAndFlush | lib/report/factory.py:348-361 | from every reachable disk one reopening and one flush fold everything in, and a second flush changes nothing |
| Journal.RunAll | lib/report/factory.py:257-361 | over any sequence of saves, flushes, reopenings and deaths with any faults the disk recovers to the first report, or the one an opening created, followed by every saved entry once and in order |
| Journal.SavedPlace | lib/report/factory.py:290-301 | among the saved entries every appended one stands behind those appended before it |
| HttpFraming.FragmentedReader.ReadCrlfLine | native/src/raw_http.rs:392-412 | one line within the limit, whatever the pieces, or an error |
| HttpFraming.FragmentedReader.ReadTrailers | native/src/raw_http.rs:367-390 | consumes exactly the trailer section, or fails exactly when it is malformed or too long |
| HttpFraming.BodyReader.Read | native/src/raw_http.rs:277-365 | every piece is the next part of the owed body; an empty piece means complete, with the input just after it; broken framing is never reported as complete |
| HttpFraming.BodyReader.CollectBody | native/src/raw_http.rs:221-239 | the first bytes up to the limit and the full length of the body, independent of the pieces; a fixed body is its length of input or an error, a close-delimited one is all the input, and no body reads nothing |
| HttpFraming.ParseDataSplit | native/src/raw_http.rs:277-365 | taking part of a chunk leaves the rest of the parse as it was |
| HttpFraming.EncodingRoundTrip | native/src/raw_http.rs:277-412 | every valid chunked encoding parses to its body and ends after its trailers |
| HttpFraming.ParseIsEncoding | native/src/raw_http.rs:277-412 | whatever is accepted is a valid chunked encoding of the body returned |
| HttpFraming.RfcSizeLine | native/src/raw_http.rs:277-365 | a size line of digits, blanks and an extension states the number of its digits, unless it does not fit in 64 bits |
| HttpFraming.ChunkSizeOfHex | native/src/raw_http.rs:306-329 | a size written to base sixteen in the sixteen digits of either case, with leading zeros, blanks and any extension, is read as that size, up to 64 bits |
| HttpFraming.AcceptedSizeLine | native/src/raw_http.rs:306-329 | every accepted size line is blanks, an optional plus sign, hexadecimal digits, blanks and an extension |
| HttpFraming.SizeLineAccepted | native/src/raw_http.rs:306-329 | and every such line is accepted with the number of its digits, unless that does not fit in 64 bits |
| HttpFraming.SizeLineLimit | native/src/raw_http.rs:306-308 | a size line of more than 8190 bytes before its CRLF is refused, any other is followed by its data |
| HttpFraming.TrailerLimit | native/src/raw_http.rs:367-390 | field lines and the empty line are skipped exactly if they are at most 64 KiB |
| HttpFraming.ReadWire | native/src/raw_http.rs:277-365 | a body sent in chunks with their sizes in hexadecimal of either case is read back whole over any fragmentation |
| ByteStrings.HexDigits | native/src/request_target.rs:3 | exactly the sixteen digits of either case have a value, their place in the table |
| HttpFraming.ReadEncodedBody | native/src/raw_http.rs:221-239 | reading any valid encoding, its size lines being those of AcceptedSizeLine, over any fragmentation gives the body's first bytes and full length and stops after the final trailer line |
| HttpHeaders.ContentLength | native/src/raw_http.rs:185-205 | a length only when all list members of all fields state it; an error exactly when no length is stated by all |
| HttpHeaders.SelectFraming | native/src/raw_http.rs:89-116 | the framing of section 6.3 of RFC 9112: no body by status, both fields or an unsupported coding refused, then chunked, fixed or close-delimited |
| HttpHeaders.FramingTable | native/src/raw_http.rs:89-116 | status 101, 204 or 304 has no body; else no fields close-delimit, one chunked coding alone is chunked, any other coding or both fields are refused, and lengths that agree fix the body |
| HttpHeaders.HeadWithoutFields | native/src/raw_http.rs:89-100 | the same of a whole head: without the two fields the body ends with the connection, except for the three statuses |
| HttpHeaders.ChunkedName | native/src/raw_http.rs:108 | the one coding accepted is spelled chunked in letters of either case |
| HttpHeaders.ContentLengthName | native/src/raw_http.rs:212-213 | so is the name of the length field |
| HttpHeaders.TransferEncodingName | native/src/raw_http.rs:212-213 | and that of the coding field |
| HttpHeaders.ValuesJoin | native/src/raw_http.rs:207-219 | the members of a list are those before a comma and those after it |
| HttpHeaders.OneMember | native/src/raw_http.rs:207-219 | a value without a comma is one member without the blanks around it, or none when it is blank |
| HttpHeaders.LengthText | native/src/raw_http.rs:185-205 | a length is its decimal digits, behind an optional plus sign and leading zeros, up to 64 bits |
| HttpHeaders.FinalHead | native/src/raw_http.rs:78-87 | the first head outside 100 to 199 or of status 101, after at most eight others that could be read; an error exactly if there is none |
| HttpHeaders.ReadBody | native/src/raw_http.rs:89-130 | framing and decoding composed: the owed body's first bytes and full length, the rest of the input untouched |
| HttpHeaders.JoinedFieldsMeanTheSame | native/src/raw_http.rs:207-219 | a field sent twice reads like one field with both values and a comma |
| HttpHeaders.OrderOfNamesIsFree | native/src/raw_http.rs:207-219 | fields of different names read the same in either order |
| HttpHeaders.LengthFramesBody | native/src/raw_http.rs:185-205 | among unrelated fields and under any case of the name, a body sent with its decimal length is read back whole and the next response left unread |
| HttpHeaders.ChunksFrameBody | native/src/raw_http.rs:97-116 | so is a body sent in any valid chunked encoding |
| RateLimiter.RequestRateLimiter.DiscardExpired | lib/connection/rate_limiter.py:54-57 | the loop drops exactly the timestamps at the front that are a second old or older |
| RateLimiter.RequestRateLimiter.Reserve | lib/connection/rate_limiter.py:41-52 | drops the timestamps at the front that are a second old or older, grants exactly when there is no limit or fewer are left, and otherwise returns the time until the oldest is a second old |
| RateLimiter.RequestRateLimiter.Rate | lib/connection/rate_limiter.py:35-39 | the number of live timestamps |
| RateLimiter.RunLimiter | lib/connection/rate_limiter.py:35-57 | a run of the limiter keeps the timestamps and grants the reservations that the laws below are about |
| RateLimiter.RateIsWindowCount | lib/connection/rate_limiter.py:35-57 | on a non-decreasing clock the limiter decides and reports by counting all reservations of the run in the last second |
| RateLimiter.GrantsAreSpaced | lib/connection/rate_limiter.py:41-57 | with limits of at most r, any r + 1 consecutive grants span a whole second |
| RateLimiter.RateIsLimited | lib/connection/rate_limiter.py:35-39 | the reported rate never exceeds the limit |
| RateLimiter.RetryGranted | lib/connection/rate_limiter.py:41-52 | when a refused caller may succeed, for any limits |
| RateLimiter.RetryAfterDelay | lib/connection/rate_limiter.py:41-52 | with a constant limit a retry succeeds exactly from the returned delay on |
| RateLimiter.DelayCanBeTooShort | lib/connection/rate_limiter.py:48-52 | the delay is too short after the limit was lowered |
| RateLimiter.RustAgrees | native/src/pacing.rs:28-60 | the Rust limiter decides the same and returns the same delay unless the clock went back |
| ExtensionRegex.HasExtensionRecognitionMatch | native/src/wordlist.rs:391-414 | the loop accepts exactly when some tail splits into a word and one to three extensions |
| ExtensionRegex.RecognisedParts | native/src/wordlist.rs:391-414 | a recognised path is any text, a word of letters, digits and underscores, one to three extensions of two to five letters and digits after a dot each, and perhaps a tilde |
| ExtensionRegex.PartsRecognised | native/src/wordlist.rs:391-414 | and every such path is recognised |
| ExtensionRegex.TailIsMatch | native/src/wordlist.rs:391-410 | splitting a tail at its dots decides membership in the expression |
| ExtensionRegex.SearchIsRecogniser | lib/core/settings.py:169 | the expression is found exactly when the recogniser accepts the path, with or without a final newline |
| ExtensionRegex.BackendsAgree | lib/core/settings.py:169 | the two backends differ exactly on recognised paths with a newline appended |
| ExtensionRegex.AgreeWithoutNewline | native/src/wordlist.rs:391-414 | on ASCII paths without a newline both accept the same |
| NtlmToken.TokenBuffer.AdjustPayloadOffsets | native/src/ntlm.rs:236-254 | all six offsets move and nothing else changes; an error exactly when a field is cut off or leaves 32 bits |
| NtlmToken.TokenBuffer.MakeRoom | native/src/ntlm.rs:200-222 | the version field is kept or removed and a zeroed code field opened, with offsets to match |
| NtlmToken.AddMessageIntegrityCode | native/src/ntlm.rs:200-234 | fails exactly on a token under 72 bytes or an offset that leaves 32 bits; otherwise the version field stays or goes, sixteen code bytes follow the header, the six offsets grow by 16 or 8, all else is as it was, and the code is that of the token with its sixteen bytes zeroed |
| NtlmToken.PayloadsUnchanged | native/src/ntlm.rs:200-254 | every payload at or after byte 72 reads the same at its new offset, with offset and length read from the token bytes |
| NtlmToken.LittleEndianRoundTrip | native/src/ntlm.rs:236-254 | writing an offset and reading it back |
| NtlmToken.LittleEndianBytes | native/src/ntlm.rs:236-254 | four bytes are written and read with the least significant one first |
| Base64.RoundTrip | lib/report/jsonl_response_store.py:108-137 | decoding gives back every body (section 4 of RFC 4648) |
| Base64.Alphabet | lib/report/jsonl_response_store.py:115-117 | the digits are A to Z, a to z, 0 to 9, plus and slash (section 4 of RFC 4648) |
| Base64.GroupDigits | lib/report/jsonl_response_store.py:115-117 | three bytes are one number, written as four digits to base 64, most significant first |
| Base64.EncodeMeans | lib/report/jsonl_response_store.py:115-117 | an encoding is its groups in order, with one or two padding characters for two or one bytes at the end |
| Base64.EncodeConcat | lib/report/jsonl_response_store.py:14-16 | chunks of whole groups encode independently |
| Base64.ChunkExtends | lib/report/jsonl_response_store.py:108-137 | the chunk size keeps separately encoded chunks concatenable |
| ResponseStore.JsonlResponseStore.WriteAll | lib/report/jsonl_response_store.py:131-137 | writes everything, or stops inside the data at an error or a zero-length write |
| ResponseStore.JsonlResponseStore.WriteBody | lib/report/jsonl_response_store.py:108-118 | streaming the chunks writes the Base64 of the whole body |
| ResponseStore.ChunkCount | lib/report/jsonl_response_store.py:14-16 | a body goes out in pieces of 57 KiB, the last one perhaps shorter |
| ResponseStore.JsonlResponseStore.Save | lib/report/jsonl_response_store.py:108-129 | in every state, also after a failed truncation, the file, flag and outcome are those of this attempt with its writes and truncation failing or not; a successful save appends a newline if the flag asks for it, the metadata, the Base64 of the body, the closing quote and brace and a newline |
| ResponseStore.DeliverAllUses | lib/report/jsonl_response_store.py:131-137 | a record is written whole unless a write raises or writes nothing, and nothing is tried after that |
| ResponseStore.CleanRun | lib/report/jsonl_response_store.py:108-129 | while every failed save was undone the file is the initial content and exactly the records of the successful saves |
| ResponseStore.ReopenedRun | lib/report/jsonl_response_store.py:70-75 | such runs before and after a reopening lay the file out like one run |
| ResponseStore.Reopen | lib/report/jsonl_response_store.py:139-147 | a store opened on the file of a closed one starts from what that run left, with the flag read from the last byte |
| ResponseStore.LinesOfRun | lib/report/jsonl_response_store.py:108-129 | over any run the file has one line per successful save after the initial lines exactly if nothing wrong was left behind |
| ResponseStore.GluedRun | lib/report/jsonl_response_store.py:121-128 | a run whose first write and truncation fail, so that the next record is glued to a fragment |
| ResponseStore.BlankLineRun | lib/report/jsonl_response_store.py:121-129 | a run that fails after the separator, so that the next save writes a blank line |
| JsonLines.LinesOfLayout | lib/report/jsonl_response_store.py:77-129 | one line per saved record after the lines that were there |
| JsonLines.FirstLine | lib/report/jsonl_response_store.py:45-51 | the lines of a file are its first up to a newline and those of the rest |
| JsonLines.LastLine | lib/report/jsonl_response_store.py:45-51 | and text without a newline is one line, or none when empty |
| JsonLines.SeparatorDecides | lib/report/jsonl_response_store.py:108-129 | a record becomes a line of its own exactly if a separator is written when the file lacks a final newline and only then |
| JsonLines.LayoutReopened | lib/report/jsonl_response_store.py:70-75 | closing and reopening between saves leaves no trace |
| JsonLines.BodyReadsBack | lib/report/jsonl_response_store.py:77-129 | the line of a record gives back its whole body |
| JsonLines.FragmentSwallowsRecord | lib/report/jsonl_response_store.py:121-128 | without a separator an unterminated last line swallows the next record |
| RequestTarget.Target.AppendQueryString | native/src/request_target.rs:36-50 | the in-place insertion is Python's append_query_string: a question mark and the query go before the first hash or to the end, and nothing changes without a query or with a question mark in the path |
| RequestTarget.QueryBeforeFragment | lib/parse/url.py:94-104 | the same of Python's partition at the first hash |
| RequestTarget.Target.PrepareRequestTarget | native/src/request_target.rs:11-34 | the in-place preparation is Python's append-query followed by quote; the target is printable and decodes to what the path with the query before its fragment decodes to |
| RequestTarget.QuoteByte | native/src/request_target.rs:23-33 | printable ASCII stays, any other byte is a percent sign and its two upper-case digits |
| RequestTarget.UnquoteMeans | lib/utils/common.py:44-45 | an escape in digits of either case decodes to the byte it names |
| RequestTarget.PlainTargetIsRead | native/src/request_target.rs:11-50 | a path and query without a percent sign are read as path, question mark, query and fragment |
| RequestTarget.PrepareRequestTargets | native/src/request_target.rs:5-9 | every path of the list is prepared, its query included |
| RequestTarget.SafeIsPrintable | lib/utils/common.py:44-45 | quote's safe set is the printable range the Rust code tests |
| RequestTarget.PrepareIdempotent | native/src/request_target.rs:11-34 | preparing twice is preparing once, and only printable ASCII remains |
| RequestTarget.QuoteKeepsMeaning | lib/utils/common.py:44-45 | quoting keeps what the target decodes to |
| WildcardScan.GreedyDecides | lib/utils/diff.py:130-142 | the left-to-right search finds a prefix of the patterns exactly when it is a subsequence |
| WildcardScan.ScanPatterns | lib/utils/diff.py:130-142 | accepts exactly when the patterns are a subsequence or, from twenty on, when the first one that cannot be found is missing and all the others are a subsequence without it |
| WildcardScan.CompareTo | lib/utils/diff.py:110-147 | a static wildcard needs equal pages; any other the patterns and, for a page with more words and fewer than twenty patterns, a similarity above 0.75 |
| WildcardScan.WordsAreText | lib/utils/diff.py:131 | splitting keeps every character but white space, in order, and makes no empty word |
| WildcardScan.WordsJoin | lib/utils/diff.py:131 | a character of white space separates the words before it from those after it |
| WildcardScan.OneWord | lib/utils/diff.py:131 | text without white space is one word, so that the words are the maximal runs |
| WildcardScan.AcceptanceMeans | lib/utils/diff.py:130-142 | the same of the declarative acceptance; in any case at most one pattern is missing |
| WildcardScan.SubsequencePlaces | lib/utils/diff.py:130-142 | a subsequence has a place for every pattern, each after the one before |
| WildcardScan.PlacesAreSubsequence | lib/utils/diff.py:130-142 | and such places make it one |
| WildcardScan.MovedPatternRejects | lib/utils/diff.py:130-142 | the converse fails when a pattern moved to the end |
| SqliteExport.SQLiteReport.Open | lib/report/sqlite_report.py:31-39 | a batch size below one is refused; an opened report has nothing pending |
| SqliteExport.SQLiteReport.Save | lib/report/sqlite_report.py:41-48 | every row joins the open transaction, which becomes durable with the row that fills the batch |
| SqliteExport.SQLiteReport.Flush | lib/report/factory.py:455-458 | every saved row is durable |
| SqliteExport.SQLiteReport.Crash | lib/report/sqlite_report.py:41-48 | a crash loses fewer than a batch of the newest rows |
| SqliteExport.StepKeepsInv | lib/core/fuzzer.py:479-511 | in every step no path is lost or duplicated, and an open row belongs to a claimed path or one released since the flush |
| SqliteExport.StepKeepsPause | lib/core/fuzzer.py:430-442 | every step of an orderly run keeps the pause accounts |
| SqliteExport.AcknowledgedIsQuiescent | lib/core/fuzzer.py:430-442 | when a permit was taken for every living thread, every thread is parked |
| SqliteExport.ExportIsDurable | lib/controller/controller.py:316-327 | with the workers paused at the flush, whatever happened before, a saved session has all rows durable, and what is not pending was released |
| SqliteExport.LateScanLosesRow | lib/controller/controller.py:316-327 | with a batch of two or more and a thread that can still scan, some schedule loses a row |
| SqliteExport.SavesSafelyExactly | lib/controller/controller.py:316-327 | saving from a menu loses no row on any schedule exactly if the batch is one or no thread can still scan |
| SqliteExport.AcknowledgedPauseStops | lib/core/fuzzer.py:430-442 | a pause from any state with no more permits than parked threads, once acknowledged and with no callback failing, stops every worker and leaves no permit |
| FuzzerPause.NoLeakStops | lib/core/fuzzer.py:430-442 | from a state that does not leak, an acknowledged pause stops all scanning, failing callbacks included |
| FuzzerPause.LeakIsReached | lib/core/fuzzer.py:430-442 | from a state that leaks, a schedule leads to an acknowledgement with a thread scanning on |
| FuzzerPause.PauseStopsExactly | lib/core/fuzzer.py:430-442 | an acknowledged pause stops all scanning on every schedule exactly if the state it starts in does not leak |
| SqliteExport.RowsMissFewerThanBatch | lib/report/sqlite_report.py:41-48 | in every run the durable rows are a prefix missing fewer than a batch, and each missing row is accounted for |
| SqliteExport.SavedOfRun | lib/report/factory.py:432-453 | the rows saved in a run carry the statuses of its saves, in order |
| SqliteExport.TimedOutPauseLosesRow | lib/controller/controller.py:316-327 | saving after a timed-out pause can lose a row for good |
| SqliteExport.StalePermitAcknowledges | lib/core/fuzzer.py:430-442 | a timed-out pause lets the next one succeed while a thread scans |
| SqliteExport.FailedCallbackAcknowledges | lib/core/fuzzer.py:463-467 | a callback that raises during a pause does too |

## Left out

- Sockets, TLS, DNS, proxies, cookies and authentication exchanges: a request is an arbitrary result.
- Content encodings, digests, JSON, XML and HTML serialisers: bodies use the identity coding, the report's state hash is injective, and parsing what was written gives back the hashed state.
- File semantics below an append that happens or is rolled back, an atomic replacement and an unlink that may fail; a half-written journal line is rejected by the code and is not a state of the model.
- Parsing a head line by line (native/src/raw_http.rs:132-183): heads are given as parsed. The reader never raises an I/O error of its own; the deadline reader is not modelled.
- White space beyond ASCII around chunk sizes and header list members.
- SqliteExport.SavesSafelyExactly: the paths are distinct, as the dictionary keeps them.
- HandOrder.UnhandledSuffixIsPending: an extra discovered during a scan is queued in front of the corpus, so with discoveries only the multisets of NativeFuzzer.EveryPathHandedOnce hold.
- NativeFuzzer.EveryPathHandedOnce: multisets only, the order being in UnhandledSuffixIsPending; no path is claimed outside the fuzzer (see OrdinaryClaimDuringNativeClaimRepeats), and plays that strand claims are in EarlyPlay.
- EarlyPlay.PlaysSafelyExactly: the queued paths are distinct, as the dictionary keeps them, and the continuations are without discoveries; later plays in them strand nothing.
- PauseAnswer.PauseIsAnswered: from when the cancel flag is up; the timeout of the caller and the time a callback takes are not modelled.
- ScanWorkers.ScanEnds: how many turns the loop over tasks makes depends on its timers and is not bounded.
- Dictionary.AddExtraQueues: multisets only; the order is in AddExtraGoesLast.
- HttpHeaders.ReadBody: content codings other than identity are not modelled.
- ExtensionRegex.SearchIsRecogniser: ASCII only, because the two backends use different Unicode classes.
- Journal.StructuredReport.Initiate: the disk a run starts on has no journal; one of another report is refused by ReadJournal.
- Journal.StructuredReport.Compact: one report at a time; the loop over several files in flush is not modelled.
- Dictionary.PathDictionary.ClaimNativeMany: the length of the base path and the prefix stripping of native paths are not modelled.
- Which list of callbacks takes a handled result, errors, filtered ones and the rest (lib/core/fuzzer.py:665-682): all of them are the one call Handled.
- Restarting a fuzzer after quit, the asyncio fuzzer, dictionary iteration, lock and thread scheduling details: steps are atomic where the source holds a lock or touches one atomic.
- Waiting and sleeping: the clock is a real argument, floating-point rounding and the polling loop of the limiter are not modelled.
- Validation of existing JSONL records, lone surrogates in record metadata and request targets.
- WildcardScan.CompareTo: the normalisation and the similarity ratio are given functions, the static patterns are given, and white space is ASCII.
- Wordlist generation, option parsing, response filters, crawling, terminal output and packaging: easy members or no hard property.

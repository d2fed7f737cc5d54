# Verified model of nginx-clickhouse

nginx-clickhouse reads NGINX access-log lines into a buffer, and flushes the buffer into a ClickHouse
table. A reader, a periodic flusher and a shutdown flusher share the buffer, a circuit breaker and a
retrying client. This project models that delivery path and proves what it keeps.

| file | part |
|---|---|
| `Prelude.dfy` | bytes, lines, entries, 64-bit wrap-around, order-preserving filter |
| `SegmentNames.dfy` | names of buffer segments: printing, sorting, parsing, listing a directory |
| `LineFraming.dfy` | newline framing and the 64 KiB line scanner |
| `SegmentLog.dfy`, `SegmentLogRuns.dfy`, `SegmentLogLimits.dfy`, `SegmentLogBounds.dfy` | the disk buffer as a value; runs with crashes; rotation, long lines, re-buffering; how big segments get |
| `DiskBuffer.dfy`, `Buffer.dfy` | the disk and memory buffers as classes, and their common interface |
| `CircuitBreaker.dfy`, `Retry.dfy`, `Client.dfy` | breaker, backoff and retries, inserting client |
| `FilterChain.dfy`, `RuleParser.dfy` | filter rules and the compact `FILTER_RULES` syntax |
| `Delivery.dfy` | the protocol: a reader and flushers interleaved at every mutex-protected operation, and conservation |
| `DeliverySchedules.dfy`, `DeliverySave.dfy`, `DeliveryDisk.dfy` | one goroutine's steps among the others'; its attempts are those of the client; its disk buffer is the segmented log |
| `DeliveryGuarantees.dfy`, `DeliveryReads.dfy`, `DeliveryTable.dfy` | one place per line, the memory bound, the replay; the reader and re-buffering; what the table owes |
| `DeliveryBreaker.dfy`, `DeliveryRecords.dfy`, `DeliveryOutage.dfy` | admission; what flushes record; insert attempts in an outage |
| `DeliveryLosses.dfy`, `DeliveryShutdown.dfy`, `DeliveryRuns.dfy` | exactly when a run and a shutdown lose lines; concrete runs |
| `Shipper.dfy` | the read loop and flush over real objects, one goroutine at a time |

Code that changes state in the program is a class or a method with the same loops and branches here. Each is
proved against a function on values, and the promises are proved about that function. The concurrent
protocol is a state machine: `Delivery.Exec` runs any list of actions, so a statement about all lists is a
statement about all interleavings, process ends and restarts included.

The outside world is a parameter: clock readings, random draws, the outcome of each insert attempt, the
line parser, expression evaluation and number parsing. A process end is a step that keeps the directory and
forgets everything else; a write it interrupts leaves any prefix of its bytes.

## Where the code and its documentation differ

The model follows the code. Each difference is a lemma.

- The disk buffer is documented as at-least-once and its segments as deleted after a successful flush. The code
  deletes them before the save: `DeliveryRuns.CrashLosesDrainedBatch`. Exactly when a run, with any number of
  process ends and restarts, loses nothing is `DeliveryLosses.NothingLostExactly`.
- A replayed batch that cannot be saved is not written back: `DeliveryRuns.FailedReplayLosesBatch`.
- A re-buffer write can be refused when new lines took the room: `DeliveryRuns.RefusedRebufferDropsLine`.
- Shutdown is documented to lose nothing. With the circuit open it skips the flush:
  `DeliveryRuns.RefusedShutdownLosesBuffer`. With the server well it stops nobody, so a line read while a signal's
  shutdown saves is accepted and lost: `DeliveryRuns.SignalShutdownLosesLine`, and over a memory buffer that can
  happen from every state: `DeliveryShutdown.SignalShutdownIsNeverSafe`. Exactly when a shutdown loses nothing,
  whatever the others do meanwhile, is `DeliveryShutdown.ShutdownLosesNothingExactly`.
- A row that cannot be appended is logged and left out, and the batch still counts as saved:
  `DeliveryRuns.AcknowledgedWithoutRow`. Exactly when the table is the settled lines is
  `DeliveryTable.TruthfulRunsAreExactlyOnce`, for one Save `Clients.SaveMeans`.
- Half-open is documented as one probe; the code lets every caller in until an outcome is recorded:
  `CircuitBreakers.HalfOpenAdmitsEveryone`.
- A line of 65536 bytes or more is accepted by the disk buffer and then every later drain fails:
  `SegmentLogLimits.WriteKeepsIntactExactly`, `SegmentLogLimits.UnreadableForever`.
- Segment names are padded to six digits. A restart with segment 1000000 alive can truncate it:
  `SegmentLog.RestartIsSafeExactly`, `SegmentLog.MillionthSegmentIsLost`.
- The backoff range is documented without its condition `initial <= maxDelay`: `Retry.RangeExactly`.
- An empty column map, a negative retry count, or the largest 64-bit one makes Save report success without an
  attempt, so the batch is settled and never stored: `Clients.SilentSuccessExactly`.

## Model

| member | source | states |
|---|---|---|
| SegmentNames.ParseInvertsPrint | buffer/disk.go:72-81 | parsing a segment name gives back the number it was printed from, for every number |
| SegmentNames.NamesPrinted | buffer/disk.go:188-191 | a name is the prefix, at least six zero-padded digits and the suffix, as in segment-000042.log |
| SegmentNames.NameInjective | buffer/disk.go:189-191 | different segment numbers never share a name |
| SegmentNames.RangeSortedExactly | buffer/disk.go:189-232 | name order is creation order for a run of segments if and only if its first and last names have one width |
| SegmentNames.HighestIsLastExactly | buffer/disk.go:72-77 | the highest-numbered segment has the last name if and only if the range keeps to one width or ends in the last ten numbers of its width |
| SegmentNames.SortedUnique | buffer/disk.go:226-242 | a set of names has one sorted listing, so what is read depends on the directory alone |
| LineFraming.VerbatimExactly | buffer/disk.go:140-143 | a framed line is read back verbatim if and only if it has no newline, no trailing carriage return and at most 65535 bytes |
| LineFraming.OneReturnIsDropped | buffer/disk.go:140-143 | of the carriage returns a line ends with, reading drops exactly one |
| LineFraming.ScanInvertsEncode | buffer/disk.go:92-110 | reading back any list of clean lines is the inverse of writing them |
| LineFraming.ScanConcat | buffer/disk.go:140-147 | what follows terminated content is read independently of it, so lines are never glued together |
| LineFraming.ScanTorn | buffer/disk.go:57-65 | the torn tail of a segment reads back as at most one line, a prefix of the one written |
| LineFraming.ReencodeExactly | main.go:416-421 | writing back what was read from terminated content gives the same bytes if no line ended with a carriage return, and fewer if one did |
| SegmentLog.NextSegmentIsFresh | buffer/disk.go:195-209 | opening a segment never truncates a live one, whatever its number |
| SegmentLog.ListingOrderExactly | buffer/disk.go:126-149 | a drain reads the segments in creation order if and only if the live names have one width |
| SegmentLog.WriteAppends | buffer/disk.go:88-112 | an accepted line is appended behind all pending ones, and the byte and line counters stay the true totals |
| SegmentLog.WriteOnlyAppends | buffer/disk.go:98-110 | no write changes bytes already in any segment |
| SegmentLog.AppendAdds | buffer/disk.go:105-108 | a write cut after any number of bytes adds nothing or one prefix of its line |
| SegmentLog.DrainReturnsPending | buffer/disk.go:116-161 | a drain returns exactly the pending lines in write order and empties the directory, or fails and deletes nothing |
| SegmentLog.ReopenKeeps | buffer/disk.go:34-84 | a new process on a run of segments has the same pending lines, true counters, and a counter above every live number |
| SegmentLog.RestartIsSafeExactly | buffer/disk.go:72-81 | after a restart the next segment name is fresh if and only if the live numbers have one width or end in the last ten of their width |
| SegmentLog.UnnumberedLast | buffer/disk.go:77-81 | with a last name that has no number, the next segment's number is the number of files |
| SegmentLog.MillionthSegmentIsLost | buffer/disk.go:195-205 | segments 999999 and 1000000 are read out of order and the write after a restart truncates the second |
| SegmentLogRuns.RunIsFifo | buffer/disk.go:34-186 | for every sequence of writes, drains, closes, restarts and crashes: lines taken off, then lines still on disk, are the lines put on, in order |
| SegmentLogRuns.CrashInWriteIsFifo | buffer/disk.go:98-111 | a crash in a write leaves at most one more line, a prefix of it, in a segment that is never written again, and exactly the bytes that got written |
| SegmentLogRuns.CrashInReadIsFifo | buffer/disk.go:152-154 | a crash after k deletions loses the lines of those k segments and keeps all other segments' lines in order |
| SegmentLogLimits.SegmentsBoundBytes | buffer/disk.go:98-103 | k segments opened without a break hold more than floor(k/2) full segments of bytes |
| SegmentLogLimits.WriteIsNextFit | buffer/disk.go:211-222 | rotation leaves a segment only when the next line would not have fitted |
| SegmentLogBounds.SegmentsAreBounded | buffer/disk.go:98-103 | in every run, with restarts and crashes anywhere, a segment has at most 10485760 bytes or holds a single write; an accepted line opens a new segment if and only if none is open or it would take the open one past that |
| SegmentLogLimits.SteadySessionIsFifo | buffer/disk.go:88-161 | with a cap of up to 500000 segments' bytes, or uncapped while it writes no more than that, every session of writes and drains is FIFO and stays below segment 1000000 |
| SegmentLogLimits.WriteKeepsIntactExactly | buffer/disk.go:140-147 | an accepted line leaves the buffer readable if and only if it has at most 65535 bytes |
| SegmentLogLimits.UnreadableForever | buffer/disk.go:144-147 | once unreadable, every later drain fails and takes nothing, whatever is written, drained or closed, and across restarts and crashes while numbers have six digits |
| SegmentLogLimits.DrainedFitsAgain | main.go:416-421 | the lines of a drain take no more bytes than they occupied, so re-buffering stays within the cap, and just as many if and only if none was written with a trailing carriage return |
| DiskBuffers.ReadLines | buffer/disk.go:140-147 | the scanning loop returns what the scanner specification says, stopping at a line that is too long |
| DiskBuffers.ListSegments | buffer/disk.go:226-242 | the sorted names of all segments in the directory |
| DiskBuffers.DiskBuffer.constructor | buffer/disk.go:34-84 | opening a directory gives the reopened log of its files |
| DiskBuffers.DiskBuffer.Write | buffer/disk.go:88-112 | refuses a line exactly when it passes the byte cap; otherwise the whole new state is the written log, whose rotation SegmentsAreBounded and WriteIsNextFit fix from both sides |
| DiskBuffers.DiskBuffer.ReadAll | buffer/disk.go:116-161 | result and whole new state are those of a drain of the log |
| DiskBuffers.DiskBuffer.Close | buffer/disk.go:177-186 | closing changes nothing but the open segment |
| DiskBuffers.DiskBuffer.Len | buffer/disk.go:170-174 | the length is the number of pending lines of a readable log |
| DiskBuffers.DiskBuffer.OpenSegment | buffer/disk.go:195-209 | creates the next segment, empty, and makes it the open one |
| Buffers.MemoryBuffer.Write | buffer/buffer.go:44-52 | appends, or refuses exactly at capacity |
| Buffers.MemoryBuffer.ReadAll | buffer/buffer.go:55-61 | returns all lines in order and leaves none |
| Buffers.LineBuffer.Write | buffer/buffer.go:15-25 | either buffer refuses a line exactly when it costs more than the room left, and else appends it to the queue |
| Buffers.LineBuffer.ReadAll | buffer/buffer.go:18-19 | either buffer hands over its queue in order and then has room for it again |
| Buffers.LineBuffer.WriteBack | main.go:416-421 | re-buffering a batch there is room for refuses nothing and restores the same sequence |
| CircuitBreakers.CircuitBreaker.Allow | circuitbreaker/circuitbreaker.go:44-62 | answers by state and cooldown and moves an open circuit past its cooldown to half-open |
| CircuitBreakers.CircuitBreaker.RecordFailure | circuitbreaker/circuitbreaker.go:75-84 | counts the failure and opens the circuit at the threshold |
| CircuitBreakers.BreakerIsItsHistory | circuitbreaker/circuitbreaker.go:44-84 | for every history of calls the state is a function of the failure streak, the last failure and whether a call came after its cooldown |
| CircuitBreakers.RefusedExactly | circuitbreaker/circuitbreaker.go:44-62 | with a monotone clock a call is refused if and only if the streak reached the threshold and the last failure is within the cooldown |
| CircuitBreakers.ThresholdExactly | circuitbreaker/circuitbreaker.go:80-83 | closed is streak-below-threshold on all histories if and only if the threshold is positive |
| CircuitBreakers.ProbeRate | circuitbreaker/circuitbreaker.go:51-83 | in an outage the k-th grant comes no sooner than k cooldowns after opening |
| CircuitBreakers.ProbesBounded | circuitbreaker/circuitbreaker.go:51-83 | within T of opening an outage grants at most floor(T/cooldown) calls |
| CircuitBreakers.HalfOpenAdmitsEveryone | circuitbreaker/circuitbreaker.go:57-58 | any number of calls are all granted while half-open |
| Retry.DoublingOverflows | retry/retry.go:20-21 | a doubled 64-bit delay is non-positive exactly when it overflowed |
| Retry.Backoff | retry/retry.go:13-36 | for a positive initial delay the wrapping loop returns what the unbounded formula gives, never less than initial, and at most min(initial*2^attempt, maxDelay) when initial <= maxDelay; for zero and moderately negative ones the draw modulo the cap, or initial |
| Retry.RangeExactly | retry/retry.go:9-12 | the documented range holds for all draws if and only if initial <= maxDelay |
| Retry.RangeIsReached | retry/retry.go:31-35 | for 0 < initial <= maxDelay every delay from initial to below min(initial*2^attempt, maxDelay) is the result of the draw of that size, smaller draws give initial, larger ones wrap around |
| Retry.TotalSleepBound | retry/retry.go:48-50 | the delays of at most n retries sum to at most min(initial*(2^n - 1), n*maxDelay) |
| Retry.CallsStopAtSuccess | retry/retry.go:43-47 | calls go on exactly until the first success or the last attempt allowed |
| Retry.Do | retry/retry.go:41-53 | returns the last call's result after one sleep fewer than calls, each the backoff value, and makes no call exactly when the attempt count wraps or is not positive |
| Clients.Client.Insert | clickhouse/clickhouse.go:134-183 | one attempt adds exactly what it stored to the table, and leaves no connection when it failed |
| Clients.AttemptMeans | clickhouse/clickhouse.go:134-183 | an attempt succeeds if and only if there is or can be a connection and preparing and sending end well, and stores, in order, exactly the rows that could be appended, or nothing when the batch was not sent |
| Clients.Client.Save | clickhouse/clickhouse.go:116-184 | the number of attempts, the sleeps between them, the answer, the connection and the rows gained, for every behaviour of the outside world; an error only after maxRetries+1 attempts, 4 by default |
| Clients.DelaysAre | clickhouse/clickhouse.go:125-132 | delays are the configured seconds in nanoseconds, 1 and 30 seconds when they are 0 |
| Clients.DefaultSaveIsBounded | clickhouse/clickhouse.go:121-132 | with default settings at most 4 attempts, the k-th sleep from 1 to 2^k seconds, at most 7 seconds in all |
| Clients.SaveMeans | clickhouse/clickhouse.go:113-184 | success means 1 to n+1 copies of the batch in the table, an error 0 to n+1, less the rows that failed to append; the copies are whole if and only if no stored attempt missed a row |
| Clients.TruthfulSaveIsExact | clickhouse/clickhouse.go:170-182 | if no failed send stored its batch, an error leaves nothing and success exactly the appendable rows, the whole batch if and only if every row could be appended |
| Clients.SilentSuccessExactly | clickhouse/clickhouse.go:116-124 | for a batch with entries, success without any attempt happens exactly for an empty column map and for negative and maximal retry counts |
| FilterChain.ApplyRule | filter/filter.go:104-148 | without sampling a drop rule keeps exactly the entries its expression is not true of, a keep rule those it is not false of, in order and without a draw; with sampling a match is affected exactly when its own draw is below the rate; an entry that cannot be evaluated stays |
| FilterChain.Apply | filter/filter.go:91-101 | the rules applied in order, each to what the one before kept |
| FilterChain.ChainSplits | filter/filter.go:91-101 | applying two lists of rules one after the other is applying them joined, with the draws going on where the first stopped |
| FilterChain.DeterministicChainFuses | filter/filter.go:91-148 | without sampling a chain is one order-preserving filter by the conjunction of its rules; entries that cannot be evaluated stay |
| FilterChain.DeterministicChainPicks | filter/filter.go:91-148 | without sampling a chain keeps exactly the entries that no drop rule is true of and no keep rule is false of, in order |
| FilterChain.RuleOrderIsIrrelevant | filter/filter.go:86-90 | without sampling, reordering or repeating rules changes nothing |
| FilterChain.SamplingSandwich | filter/filter.go:131-139 | for every sequence of draws a sampled chain lies, as a subsequence, between its strict and generous chains |
| FilterChain.SampledChainIsBetweenFilters | filter/filter.go:131-139 | those bounds are plain filters |
| FilterChain.BuildEnv | filter/filter.go:169-206 | the loop builds the environment that rules evaluate their expressions in |
| FilterChain.BuildEnvSample | filter/filter.go:152-165 | the loop builds the zero values of the right types that expressions are checked against |
| FilterChain.EnvIsAsChecked | filter/filter.go:149-166 | every entry's environment has the fields and types that expressions were checked against |
| FilterChain.NumericFields | filter/filter.go:32-48 | exactly these seven fields are integers and these five are floats |
| FilterChain.ShownValues | filter/filter.go:169-206 | numeric fields read as their number, or zero when missing or malformed; others as their text, or empty |
| RuleParser.Config.SetFilterRules | config/config.go:280-307 | a non-empty variable replaces the rules by the parsed ones |
| RuleParser.SemicolonSeparates | config/config.go:282-305 | the two sides of any semicolon are parsed independently: a bad entry affects no neighbour |
| RuleParser.RulesRoundTrip | config/config.go:280-307 | printing any list of rules and parsing it gives the list back |
| RuleParser.RuleRoundTripsExactly | config/config.go:280-307 | a rule printed without a rate parses back to itself if and only if its parts are trimmed and hold no colon or semicolon and its rate is zero |
| RuleParser.RateDecides | config/config.go:292-304 | an entry of plain parts with a rate gives one rule with that rate if its trimmed rate is a number, and no rule otherwise |
| RuleParser.NoColonNoRule | config/config.go:283-291 | an entry without a colon, blank or not, gives no rule |
| Delivery.EveryRunConserves | main.go:258-270 | in every interleaving the accepted lines are exactly those buffered, in flight, settled, dropped by a refused re-buffer write, lost at a process end or lost in a replay |
| DeliveryGuarantees.EveryLineIsInOnePlace | main.go:354-434 | each accepted line is in exactly one of these places, and no other line is in any |
| DeliveryGuarantees.ReplayComesFirst | main.go:177-258 | in every interleaving, while recovered lines are replayed no line is read and no flush is under way |
| DeliveryGuarantees.MemoryIsBounded | buffer/buffer.go:44-61 | with a reader and F more flushers, buffered and in-flight lines together never exceed (1+F) times the buffer size |
| DeliveryRuns.MemoryFillsUp | buffer/buffer.go:44-61 | that bound is reached, for every buffer size and every number of flushers |
| DeliveryReads.NoReadIsRefused | main.go:258-270 | over a memory buffer at least as large as the flush size, in every interleaving in which no flush fails or is turned away, no line is refused and the buffer never passes the flush size |
| DeliveryReads.FlushStartsExactly | main.go:261-269 | after an accepted line, whatever others do meanwhile, the reader starts a flush if and only if the buffer has reached the flush size |
| DeliveryReads.BatchIsRestored | main.go:416-421 | a failed batch there is room for is written back whole and in order behind what is buffered by then |
| DeliverySave.SaveIsItsSteps | clickhouse/clickhouse.go:116-184 | with any steps of other goroutines between them, the attempts a flush makes for a batch are those of the client's Save: its share of the table is the rows Save inserts, and the batch is settled or given up by Save's answer |
| DeliverySave.TableIsShares | clickhouse/clickhouse.go:140-183 | in every run the table is what it was and the shares of all goroutines |
| DeliveryDisk.DiskRunsAreReal | buffer/disk.go:88-161 | when buffer steps end as on a segmented log, with process ends, torn writes and partial deletions anywhere, the buffered lines are at every point the pending lines of that log, in order |
| DeliveryDisk.DiskAnswers | buffer/disk.go:88-161 | every write, read and process end has such an outcome, a read never fails, and the protocol allows it |
| DeliveryTable.SettledLinesAreInTheTable | main.go:402-431 | in every interleaving table + rows left out + entries never sent == entries of the settled lines + what failed attempts stored, so the table covers the settled lines if and only if failed attempts stored all that is missing |
| DeliveryTable.TruthfulRunsAreExactlyOnce | main.go:354-434 | with truthful errors, under every interleaving, the table is the entries of the settled batches once each if and only if every acknowledged attempt appended all its rows |
| DeliveryBreaker.FlushAdmittedExactly | main.go:355-360 | in every reachable state a flush is admitted unless the recorded failures reached the threshold and the last is within the cooldown; which calls are recorded is EverySaveIsRecorded |
| DeliveryBreaker.CooldownReopens | circuitbreaker/circuitbreaker.go:44-62 | from every reachable state a flush that waits first goes on to drain if and only if by then the streak or the cooldown admit it, always after a whole cooldown; one turned away leaves buffer and ledger alone |
| DeliveryRecords.EverySaveIsRecorded | main.go:354-434 | in every interleaving, since the process began, the breaker was asked once by each flush; recorded successes and those about to be recorded are the flush saves acknowledged or made without an attempt, recorded failures and those about to be are the flush saves that used up their attempts |
| DeliveryRecords.NothingToSaveRecordsNothing | main.go:362-405 | a flush that cannot read, finds no line or is left with no entry ends there, with breaker and calls as asking left them |
| DeliveryBreaker.EveryAttemptIsGranted | main.go:355-414 | in every interleaving flushes make at most one save's attempts for each granted call |
| DeliveryBreaker.OutageAttemptsBounded | retry/retry.go:41-53 | in an outage in which probes do not overlap, flushes make at most floor(T/cooldown) saves' attempts within T of opening, besides what was under way |
| DeliveryOutage.EachGoroutineIsBounded | circuitbreaker/circuitbreaker.go:51-83 | however probes overlap while half-open admits everyone, each goroutine makes at most floor(T/cooldown) saves' attempts within T of opening, besides what it had left |
| DeliveryOutage.OverlappingAttemptsBounded | main.go:355-414 | so N goroutines make at most N times that, besides what was under way |
| DeliveryLosses.NothingLostExactly | main.go:177-434 | over any process ends and restarts no line is lost if and only if no process ends with a batch in flight, lines in memory or segments deleted, no replay runs out of attempts, and no re-buffer write is refused |
| DeliveryLosses.AcceptedLinesAreSafeExactly | main.go:416-431 | exactly then every accepted line and torn fragment is buffered, in flight or settled |
| DeliveryShutdown.ExitLosesNothingExactly | main.go:237-247 | whatever steps anybody makes before the process ends, it loses nothing if and only if every step is harmless, nobody holds a batch at the end and a memory buffer is empty |
| DeliveryShutdown.ShutdownLosesNothingExactly | main.go:237-247 | a shutdown that finds the server well, with any steps of others between its own, loses nothing if and only if those are harmless, nobody holds a batch at the end and, in memory, its flush was let in or found nothing or another flush emptied the buffer since, and no line came in after it |
| DeliveryShutdown.SignalShutdownIsNeverSafe | main.go:237-270 | from every reachable state a signal's shutdown over a memory buffer has a schedule that loses an accepted line, with the server well and the flush let in |
| DeliveryShutdown.EndOfInputLosesNothingExactly | main.go:258-274 | at the end of the input, with nobody else holding or draining a batch, a shutdown loses nothing if and only if the buffer is on disk, the flush is let in, or nothing is buffered |
| DeliveryShutdown.UndisturbedShutdownExactly | main.go:237-247 | if nobody else makes a step meanwhile, a shutdown loses nothing if and only if nobody holds a batch and, in memory, nothing is buffered or the breaker's streak and cooldown admit the flush |
| DeliveryRuns.CrashLosesDrainedBatch | main.go:362-407 | a reachable run in disk mode where a crash loses an accepted line |
| DeliveryRuns.FailedReplayLosesBatch | main.go:177-193 | a reachable run where a failed replay loses a line and the process goes on |
| DeliveryRuns.RefusedShutdownLosesBuffer | main.go:237-247 | a reachable run where a shutdown flush the breaker refuses loses the memory buffer |
| DeliveryRuns.SignalShutdownLosesLine | main.go:237-270 | a reachable run where the flush of a shutdown is saved and a line accepted meanwhile is lost |
| DeliveryRuns.RefusedRebufferDropsLine | main.go:416-421 | a reachable run where a line that came in during a save makes the re-buffer write of an older one fail |
| DeliveryRuns.AcknowledgedWithoutRow | clickhouse/clickhouse.go:170-174 | a reachable run where a line is settled and its entry is nowhere in the table |
| Shippers.ParseJSONLogs | nginx/json.go:29-50 | one entry for every line that parses, that line's, at the number of parsing lines before it |
| Shippers.Shipper.Flush | main.go:354-434 | how it ends is fixed by breaker, buffer and world; whatever the outcome the table stays what the first k accepted lines come to and the buffer the rest; k moves to the end exactly when the batch was saved or had no entry left; a failed or refused flush leaves lines and room; the breaker has exactly the calls of its outcome |
| Shippers.Shipper.Accept | main.go:258-270 | a line is dropped exactly when there is no room for it; otherwise a flush happens if and only if the queue has reached the flush size, and ends as foreseen; without one table, breaker and settled lines are unchanged |
| Shippers.Drive | main.go:258-270 | for every sequence of reads and timed flushes the table has one row for each of the first k accepted lines that parses and passes every rule, in order, and the buffer holds the lines after them |
| Shippers.Handle | main.go:344-352 | a timer sets off a flush and a line one exactly at the flush size; each flush ends as foreseen and records what that outcome records |

## Left out

- SegmentLogRuns.RunIsFifo: holds while segment numbers print with six digits; beyond them the order is that of SegmentLog.ListingOrderExactly, and SteadySessionIsFifo shows when they are never left.
- SegmentLogLimits.UnreadableForever: what a restart past segment 1000000 truncates is in RestartIsSafeExactly.
- Shippers.Shipper.Flush: asks for six-digit segment numbers on disk, truthful insert errors and appendable rows, without which delivery is not exactly once; what holds without them is in DeliveryTable and Clients.
- Shippers.Drive: on disk it covers sessions begun on an empty directory while the cap, or else the lines of the run, is at most 500000 segments' bytes; memory buffers are covered without condition.
- Retry.Backoff: for an initial delay below -2^62 and a positive attempt only the lower bound is stated, because doubling may wrap to any value.
- Delivery.EveryRunConserves: a disk buffer may refuse writes or fail reads at will there; that the runs of a real one are among them is DeliveryDisk.DiskRunsAreReal, for clean lines and six-digit segment numbers.
- DeliveryShutdown.ShutdownLosesNothingExactly: about a flush whose first attempt is acknowledged; one that fails is in ExitLosesNothingExactly.
- The reader may go on reading after its end-of-input flush in Delivery, and a signal's shutdown flush is one more flusher; both only add runs.
- Retry and Client: Save runs its own copy of the retry loop, because a closure that changes the connection and the table is not a Dafny function; both loops are proved to make the same number of calls.
- Text log format: its parser is a library whose result order is not assumed; ordered statements are for JSON lines, multiset statements for both.
- Short writes, failing deletes, creates and stats, foreign files in the buffer directory (but for UnnumberedLast), and loss of written bytes in a kernel crash.
- File tailing, stdin, signals, metrics, logging, health checks, `-check`, TLS, and the ClickHouse protocol.
- Column mapping and enrichment of rows, the expression language, YAML and the other environment overrides.
- Rule validation in `NewChain`: rules here are already a drop or keep action with a rate.
- Probabilities of sampling: statements are for all draws.

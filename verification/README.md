# Verified model of the market-data backend

This project models the parts of the repository that keep promises over whole runs, and proves
those promises for every input, every run or every reachable state.

- **XTP sidecar protocol.** The sidecar (`SidecarState`, `SidecarRuntime`) hands out sequence
  numbers and keeps a bounded, de-duplicating event log; the client (`SidecarClient`) checks each
  page and moves its cursor. `RuntimeInvariants` balances the sidecar's books after any calls
  whatever. `EventDelivery` says what a cursor means in an ordered log. `DeliveryRuns` lets any
  number of producers submit any built events, again if they like, and interleave with a polling
  client: delivery is ordered, exactly once, and every loss is reported as long as no append takes
  the regression branch, which a single producer never does. `RacingProducers` shows what that
  branch costs, and `SilentLosses`, over all ways to place polls between the producers' steps
  (`Schedules`), exactly when an event can be lost without report; `SampleRuns` has such runs from
  the library up. `DrainRuns` counts the polls a client needs to catch up. `RuntimeReports` says
  what the runtime reports after any calls, `Percentiles` covers the metrics exchange.
- **Event envelopes and canonical JSON.** `CanonicalJson` prints and strictly reads JSON;
  `JsonTheorems` proves the two inverse and the canonical text injective, `JsonSpacing` that white
  space changes nothing and what either reader makes of repeated keys and of constants such as NaN;
  `Envelopes` proves that `create`, `as_dict`, `from_dict` and the hash checks fit together,
  `PayloadLimits` says what they allow, and `SampleLibrary` that what they assume of the library can
  be had.
- **Token bucket** (`RateLimiter`), over real numbers, with its exact bound.
- **Remote audit log** (`AuditRecords`, `AuditFields`, `AuditLog`): bounded records, which value they
  hold under which key, and a rotation that keeps a suffix of the history at every single rename.
- **US/Eastern fallback** (`Timezones`): both rules are those of the second Sunday of March and the
  first of November in every year, and they are inverse.
- **SSE fan-out** (`SseHub`), **timing recorder** (`TimingRecorder`), whose verdict `TimingRuns` ties
  to what unittest reported.
- **Bar parsers** (`BarParsers`, `SortedBarParsers`, `DateDigits`), from the bytes of a response
  on (`Utf8`, `JsonReaders`), with what each row and document means (`RowMeanings`) and with
  printers they are inverse to (`DatePrinting`, `BarPrinting`), and **canonical decimal text** (`CanonicalDecimal`).

State that the source changes in place is a class here (`Runtime`, `Limiter`, `Logger`,
`ClientQueue`, `SSEHub`, `TimingResult`), and its loops are loops; each method is proved against a
function on values, and the theorems are about those functions.

## What the proofs found

- `cursor_lost` reports every real loss, but it also fires when the numbers just above the cursor
  were never used. If the first number is wasted, a client that starts at cursor 0 is told on every
  poll of an ordered run that its cursor is lost and receives nothing, although nothing may have
  been evicted (`DeliveryRuns.FirstNumberWasted`). `EventDelivery.CursorLostExact` says exactly when it fires.
- Delivery is exact, for any number of producers, while `out_of_order_count` takes no callback
  regression (`DeliveryRuns.DeliveryExact`). Racing producers can lose an event without a word, in
  two ways. In a history that starts at number 1, a client that polled after every step never gets
  the first event accepted through the regression branch (`RacingProducers.RegressionLosesEvent`).
  In one that starts later, every page says `cursor_lost` until a number 1 is the oldest event in
  the buffer; what was evicted before it is then lost to a client that polls for the first time,
  which is not told (`SilentLosses.LateFirstLosesEvents`). Two producers that race at start-up get
  there: number 2 is appended before number 1, and `max_events - 1` more events follow
  (`SampleRuns.StartupRaceLoses`).
- These are all the ways: while no event is accepted twice, which proper producers guarantee, some
  schedule of polls loses an event silently if and only if a regression was accepted and a number 1
  came to be the oldest event in the buffer (`SilentLosses.LossExact`); once a bufferful of later
  events has followed, that is, if and only if a regression was accepted and number 1 was
  (`SilentLosses.LossBeforeRisingEvents`). That both are necessary needs no assumption
  (`SilentLosses.LossNeeds`). If the inversion lies inside one page the client answers `NotOrdered`
  and stays where it is (`RacingProducers.InversionStops`).
- The textbook bound capacity + rate * T fails for the rate limiter, because a sleep is credited
  again as refill. A call keeps it exactly when it was affordable when made
  (`RateLimiter.TextbookBoundExact`); for a bucket that never ran over, a call that has to wait
  keeps it exactly when `hits` was 0 (`RateLimiter.FirstWaitOnly`). capacity + 2 * rate * T always
  holds and is attained.
- A date text in full-width digits and the same date in ASCII are two accepted texts with one
  timestamp (`DateDigits.FullWidthDuplicate`), so a duplicate timestamp means the same digit
  values, not the same text.
- The tolerant mode of the Tencent and Eastmoney parsers skips bad rows, but a Tencent cell that is
  an integer beyond the float range, or a volume that overflows when it is scaled, makes it raise
  OverflowError and lose the whole document (`BarParsers.TolerantExact`,
  `BarParsers.HugePriceRaises`).
- Skipped class or module fixtures are counted against the tests, so a run whose only test failed
  as expected becomes NOT_VALIDATED when a fixture elsewhere is skipped
  (`TimingRecorder.SkippedFixtureMasksExpectedFailure`); `TimingRecorder.VerdictExact` gives the
  exact condition for OK.
- A wall clock in the hour the March transition skips does not survive the round trip through UTC;
  every other reading does (`Timezones.LocalRoundTrip`).

## Model

| member | source | states |
|---|---|---|
| DeliveryRuns.DeliveryExact | stock_tracker/collector/xtp_sidecar.py:688-741 | in every state that any producers, submitting any built events as often as they like, and a client that feeds its cursor back from 0 can reach, while no append took the regression branch, the client has received exactly the accepted events up to its cursor, once, in order, whatever was evicted |
| DeliveryRuns.SingleProducer | sidecars/xtp/official.py:240-253 | a producer that takes one number at a time, and sends an event again only while it is buffered, never takes the regression branch |
| DeliveryRuns.NumbersOnce | sidecars/xtp/runtime.py:99-102 | producers that submit only under numbers they hold, racing or not, never have one number accepted twice |
| DeliveryRuns.NoRegressionOrdered | sidecars/xtp/runtime.py:125-129 | no regression was counted exactly when the history is strictly ordered |
| DeliveryRuns.StepInv | sidecars/xtp/runtime.py:99-177 | allocating, submitting any event, abandoning a number, reconnecting and polling all keep the protocol invariant |
| DeliveryRuns.SubmitInv | sidecars/xtp/runtime.py:110-155 | submitting any built event, under any number and a second time too, keeps it, whether the event is stored, a duplicate or refused |
| DeliveryRuns.NoSilentLoss | sidecars/xtp/runtime.py:157-177 | without a regression, if an evicted event lies above the cursor the page says `cursor_lost`; otherwise the page continues the delivered events without a hole |
| DeliveryRuns.FlagExactWhenNothingWasted | sidecars/xtp/runtime.py:162-176 | while no number below the largest accepted one is missing, `cursor_lost` is set exactly when an event above the cursor was evicted |
| DeliveryRuns.FirstNumberWasted | sidecars/xtp/runtime.py:162-176 | once the first number was wasted, a client at cursor 0 gets `cursor_lost` on every poll and nothing else |
| RacingProducers.KeepsUp | sidecars/xtp/runtime.py:99-177 | with a poll after each step the producers run as before, and the client has everything at any time |
| RacingProducers.RegressionLosesEvent | sidecars/xtp/runtime.py:125-177 | whatever steps led to an ordered history from number 1 on: if a new event below its end is then accepted, the client that polled after each step has accepted every page, finds nothing pending and no `cursor_lost`, and no continuation delivers the event |
| RacingProducers.ResentEvent | sidecars/xtp/runtime.py:117-129 | an accepted event sent again is a duplicate while it is buffered, and after its eviction it takes the regression branch |
| RacingProducers.RacingProducersLoseSilently | sidecars/xtp/runtime.py:99-155 | such a run exists for any three events with the first three numbers |
| RacingProducers.PassedForEver | stock_tracker/collector/xtp_sidecar.py:712-741 | an event at or below the cursor is in no later page the client accepts |
| RacingProducers.InversionStops | stock_tracker/collector/xtp_sidecar.py:721-734 | an inversion inside one page leaves the client where it is, whatever it expects |
| RacingProducers.InversionReported | stock_tracker/collector/xtp_sidecar.py:688-741 | for a fitting client nothing else is wrong with such a page, so its answer is `NotOrdered` |
| SilentLosses.LossExact | sidecars/xtp/runtime.py:125-177 | for any producers that have no event accepted twice: some way to place polls between a part of their steps loses an event silently, if and only if a regression was accepted and a number 1 was at some time the oldest event in the buffer |
| SilentLosses.LossNeeds | sidecars/xtp/runtime.py:125-177 | in every reachable state, whatever was sent again, a silent loss needs both |
| SilentLosses.LossBeforeRisingEvents | sidecars/xtp/runtime.py:140-177 | when a bufferful of events in rising order follows a history, a silent loss is possible if and only if a regression was accepted in it and number 1 was |
| SilentLosses.NothingBeforeFirst | sidecars/xtp/runtime.py:162-177 | until a number 1 is the oldest in the buffer, so always if it was never accepted, the client stands at 0 with nothing, and as soon as anything was accepted every page says `cursor_lost`, in whatever order events arrive |
| SilentLosses.GoneForEver | stock_tracker/collector/xtp_sidecar.py:712-741 | an accepted event that the client lacks and that is evicted or below its cursor is never delivered, unless it is sent again |
| SilentLosses.LateFirstLosesEvents | sidecars/xtp/runtime.py:140-177 | after any steps, if events were evicted and a number 1 is the oldest left, a first poll is not told of the loss, accepts that event, and no continuation delivers what was evicted |
| Schedules.PollsApart | sidecars/xtp/runtime.py:157-177 | wherever polls are placed, runtime and history are those of the producers alone |
| SampleRuns.StartupRaceLoses | sidecars/xtp/runtime.py:99-177 | two proper producers race for number 1 and a bufferful follows: the event with number 2 is lost silently to a client that starts then |
| SampleRuns.StartupRaceHappens | sidecars/xtp/runtime.py:36-75 | there are a library, a runtime and events for that race |
| SampleRuns.RaceHappens | sidecars/xtp/runtime.py:36-75 | and for the race of three |
| DrainRuns.DrainRun | stock_tracker/collector/xtp_sidecar.py:688-741 | max(1, ceil(k/limit)) polls of a ready client deliver all k pending events through its own checks and leave `has_more` false |
| DrainRuns.ReachableDrain | stock_tracker/collector/xtp_sidecar.py:688-741 | the same from every reachable state without a regression |
| EventDelivery.CursorLostExact | sidecars/xtp/runtime.py:140-176 | for an ordered history `cursor_lost` holds exactly on a real loss or a skipped stretch of numbers right above the cursor |
| EventDelivery.CursorLostContiguous | sidecars/xtp/runtime.py:140-176 | with contiguous numbers the flag is exact |
| EventDelivery.PageContinues | sidecars/xtp/runtime.py:157-177 | a page that is not lost is the slice of the whole history that starts right after the cursor, and its next cursor stands at the slice's end |
| EventDelivery.HonestPageAccepted | stock_tracker/collector/xtp_sidecar.py:688-741 | the client accepts the runtime's own page exactly when nothing is lost, its clock is not behind the events, and mode and symbols are the expected ones; it then decodes to the page's events |
| EventDelivery.DrainExact | sidecars/xtp/runtime.py:157-177 | polling until `has_more` is false reads all k pending events once, in order, in max(1, ceil(k/limit)) polls |
| SidecarClient.CheckEvents | stock_tracker/collector/xtp_sidecar.py:712-734 | the checking loop passes exactly when session, mode and symbol fit every event and the numbers rise strictly from the cursor, and says `NotOrdered` when only the order is wrong |
| SidecarClient.Events | stock_tracker/collector/xtp_sidecar.py:633-741 | a response is accepted exactly when its arguments, header, events and cursors are in order, and yields those events; a lost cursor and a mere disorder are reported as such |
| SidecarClient.DecodeHonest | stock_tracker/collector/xtp_sidecar.py:709-711 | a page of built envelopes decodes to those envelopes, unless one lies in the client's future |
| RuntimeInvariants.BooksBalance | sidecars/xtp/runtime.py:110-155 | after any calls: callbacks = duplicates + evicted + buffered, the buffer is the end of the history with exactly its ids and within its bound, gaps telescope, regressions are counted |
| RuntimeInvariants.AppendInv | sidecars/xtp/runtime.py:110-155 | one append keeps all books balanced, in whatever order numbers arrive |
| RuntimeInvariants.StoreKeeps | sidecars/xtp/runtime.py:140-146 | evicting and appending keep the buffer the end of the history with exactly its distinct ids |
| RuntimeInvariants.SkippedStep | sidecars/xtp/runtime.py:125-139 | what one number adds to the gap and regression counts |
| RuntimeInvariants.CountsStep | sidecars/xtp/runtime.py:125-139 | callback and per-symbol provider accounting agree with the history after one more event |
| RuntimeInvariants.ConfigFixed | sidecars/xtp/runtime.py:36-75 | no call changes session, symbols or bound |
| RuntimeReports.ReceiptsExact | sidecars/xtp/runtime.py:146-155 | after any calls the latency samples are those of the last 4096 accepted events with an exchange or provider time, in order, each the milliseconds from that time to receipt and never negative, and `last_event_at` is the receipt of the last accepted event |
| RuntimeReports.LinkExact | sidecars/xtp/runtime.py:77-97 | after any calls the feed mode is that of the last accepted connect, the state that of the last change, the error that of the last disconnect, and both counters count |
| RuntimeReports.MetricsExact | sidecars/xtp/runtime.py:227-247 | every metric after any calls by what happened: appends not refused, duplicates, numbers skipped, regressions, reconnects, disconnects, evictions |
| RuntimeReports.AppendOutcome | sidecars/xtp/runtime.py:110-124 | an append is refused exactly for a future time, another session, another mode or a symbol not subscribed, and a duplicate exactly when its id is buffered |
| RuntimeReports.AddedFits | sidecars/xtp/runtime.py:110-124 | what enters the log was sent in the session, for a subscribed symbol, in the mode set before it |
| RuntimeReports.StartExact | sidecars/xtp/runtime.py:36-75 | a runtime starts exactly with 1 to 20 different symbols, a known backend and room for 100 events |
| RuntimeReports.ReadExact | sidecars/xtp/runtime.py:157-177 | a read is refused exactly for a negative cursor or a limit outside 1 to 500; otherwise the page is the first `limit` buffered events above the cursor in buffer order, whatever that order, with the lost-cursor flag, the next cursor and whether more lie above it |
| RuntimeReports.SubscriberServed | stock_tracker/collector/xtp_sidecar.py:633-741 | after any calls a client that asks for the session, all its symbols and a mode accepts a page of an ordered history exactly when nothing was lost, its clock is not behind the events and they are of that mode |
| SidecarRuntime.Runtime.constructor | sidecars/xtp/runtime.py:36-75 | a new runtime has an empty log and zero counters |
| SidecarRuntime.Runtime.MarkConnected | sidecars/xtp/runtime.py:77-84 | connecting sets the mode, or refuses an unknown one and changes nothing |
| SidecarRuntime.Runtime.MarkDisconnected | sidecars/xtp/runtime.py:86-92 | disconnecting counts and records a safe error code |
| SidecarRuntime.Runtime.MarkReconnecting | sidecars/xtp/runtime.py:94-97 | reconnecting counts |
| SidecarRuntime.Runtime.TakeCallbackSeq | sidecars/xtp/runtime.py:99-102 | the next callback number, taken |
| SidecarRuntime.Runtime.TakeProviderSeq | sidecars/xtp/runtime.py:104-108 | the next number of one symbol, taken |
| SidecarRuntime.Runtime.AppendEvent | sidecars/xtp/runtime.py:110-155 | the whole new state and outcome of an append: refused, duplicate or stored |
| SidecarRuntime.Runtime.CountCallbackSeq | sidecars/xtp/runtime.py:125-129 | the callback half of the gap accounting, and nothing else changes |
| SidecarRuntime.Runtime.CountProviderSeq | sidecars/xtp/runtime.py:130-139 | the provider half, and nothing else changes |
| SidecarRuntime.Runtime.StoreEvent | sidecars/xtp/runtime.py:140-145 | the deque drops its head with its id when full |
| SidecarRuntime.Runtime.RecordReceipt | sidecars/xtp/runtime.py:146-154 | the latency sample, when the event carries a source time |
| SidecarRuntime.Runtime.ReadEvents | sidecars/xtp/runtime.py:157-177 | a page read changes nothing and is the page of the log's value |
| Percentiles.PercentileMonotone | sidecars/xtp/runtime.py:179-190 | rounded minimum <= percentile(p) <= percentile(q) <= rounded maximum for p <= q |
| Percentiles.PercentileAtRank | sidecars/xtp/runtime.py:179-190 | at the ranks the percentile is the rounded order statistic |
| Percentiles.PercentileBetween | sidecars/xtp/runtime.py:179-190 | between two ranks it is rounded from the straight line between their order statistics |
| Percentiles.HonestMetricsAccepted | stock_tracker/collector/xtp_sidecar.py:582-631 | the client accepts the metrics of a runtime after any calls since its start, unless its clock is behind the last error |
| CanonicalJson.ParseEmitted | sidecars/xtp/contracts.py:58-97 | the reader undoes the printer on every value, whatever follows |
| CanonicalJson.ScanEscaped | sidecars/xtp/contracts.py:58-97 | every string, escapes and surrogate-free text included, is read back from its quoted form |
| JsonSpacing.SpacedLoads | sidecars/xtp/contracts.py:58-86 | a document with any white space before, after and between its tokens: the strict reader answers the value exactly when no key is repeated at any level and no constant such as NaN stands in it; the plain one always answers, constants kept and each key with its last value |
| JsonSpacing.WhiteExact | sidecars/xtp/contracts.py:58-86 | exactly blank, tab, line feed and carriage return are white space |
| JsonTheorems.RoundTrip | sidecars/xtp/contracts.py:58-97 | `strict_json_loads` of the canonical text is the value with its keys sorted |
| JsonTheorems.CanonicalRoundTrip | sidecars/xtp/contracts.py:58-144 | a value has canonical bytes exactly when it is valid; then they are read back as an equal, valid value |
| JsonTheorems.CanonicalInjective | sidecars/xtp/contracts.py:89-97 | two values have one canonical text exactly when they are equal up to key order |
| JsonTheorems.NormalizeKeeps | sidecars/xtp/contracts.py:106-144 | sorting keys keeps a validated payload valid |
| JsonTheorems.NormalizedSorted | sidecars/xtp/contracts.py:89-97 | canonical objects list their keys strictly sorted |
| JsonReaders.StrictLoadsValue | sidecars/xtp/contracts.py:58-86 | whatever the text, what `strict_json_loads` returns has each key once at every level and well-formed float tokens |
| SampleLibrary.CountingOk | sidecars/xtp/contracts.py:203-231 | a library that keeps every promise the envelope theorems assume |
| SampleLibrary.EnvelopeExists | sidecars/xtp/contracts.py:350-401 | with any such library every number, session, symbol and instant with a trading day has an envelope |
| SampleLibrary.EnvelopesWith | sidecars/xtp/contracts.py:350-401 | for any different numbers there are a library and built envelopes with these numbers, no two with one id |
| Envelopes.PostInitExact | sidecars/xtp/contracts.py:268-348 | construction succeeds exactly on good fields, times, trading day and both hashes, and stores the normalized payload |
| Envelopes.CreateExact | sidecars/xtp/contracts.py:350-401 | `create` succeeds exactly on valid inputs: its own hashes never fail, and the payload is kept up to key order |
| PayloadLimits.ValidExact | sidecars/xtp/contracts.py:106-144 | the recursive check passes exactly when every value reached by going down lies at most eight levels deep and keeps the limits on integers, texts, keys and lengths |
| PayloadLimits.TimesExact | sidecars/xtp/contracts.py:292-316 | the times pass exactly when the latest of them is at most two minutes after the clock and after receipt |
| Envelopes.WireRoundTrip | sidecars/xtp/contracts.py:403-481 | `from_dict(as_dict(e))` is `e`, or a future-time error when the clock went back; so the re-validation in `append` is the identity |
| Envelopes.IdDeterminesEnvelope | sidecars/xtp/contracts.py:459-475 | equal event ids mean equal envelopes unless SHA-256 collides on their texts |
| RateLimiter.Limiter.constructor | stock_tracker/collector/provider.py:29-35 | a new limiter is a full bucket |
| RateLimiter.Limiter.AcquireToken | stock_tracker/collector/provider.py:37-52 | the whole new bucket and the wait of one call |
| RateLimiter.AcquireExact | stock_tracker/collector/provider.py:40-52 | with a token in hand or refilled no call waits, a full bucket keeps no more than its capacity, and a wait refills exactly what is missing of one token |
| RateLimiter.SpilledExact | stock_tracker/collector/provider.py:41-43 | a call loses exactly the refill above the capacity |
| RateLimiter.IdleBurstExact | stock_tracker/collector/provider.py:29-52 | after any sequential run, a caller idle for capacity / rate seconds is served at once, without a wait, exactly as often as the capacity has whole tokens |
| RateLimiter.CallBalanced | stock_tracker/collector/provider.py:37-52 | tokens granted, left and spilled balance fill, elapsed refill and refill credited for sleeps; 0 <= tokens <= capacity |
| RateLimiter.GrantBound | stock_tracker/collector/provider.py:29-52 | sequential calls completed by T number at most capacity + 2 * rate * T |
| RateLimiter.WindowBound | stock_tracker/collector/provider.py:29-52 | the same between any two returns of a sequential run |
| RateLimiter.ClosedWindowBound | stock_tracker/collector/provider.py:29-52 | with both end points counted the bound is max(2, capacity) + 2 * rate * T |
| RateLimiter.CallKeepsTextbook | stock_tracker/collector/provider.py:40-51 | a call meets capacity + rate * T on return exactly when, before it, the sleeps taken were paid by tokens in hand or refill turned away; a call that must wait has no token in hand |
| RateLimiter.TextbookBoundExact | stock_tracker/collector/provider.py:29-52 | a run meets the textbook bound at every return exactly when every call passed that test |
| RateLimiter.TextbookWithoutWaiting | stock_tracker/collector/provider.py:45-50 | a run that never waited meets it |
| RateLimiter.FirstWaitOnly | stock_tracker/collector/provider.py:45-50 | for a bucket that never ran over, a call that has to wait meets it exactly when `hits` was 0 |
| RateLimiter.GrantBoundAttained | stock_tracker/collector/provider.py:45-51 | for every whole rate m and every k, m + 2k calls finish within k/m seconds: the bound is attained |
| AuditRecords.RouteIsFixed | stock_tracker/api/audit.py:80-94 | only a fixed list of route texts is ever recorded |
| AuditFields.RouteExact | stock_tracker/api/audit.py:80-94 | which text: query and fragment are dropped, one-segment routes become their template, known routes stand, the rest goes by the verb, and long or control texts are invalid |
| AuditFields.RecordReadsBack | stock_tracker/api/audit.py:199-230 | the line is read back as an object of exactly the eleven keys, each with its own cleaned value |
| AuditFields.BoundedTextExact | stock_tracker/api/audit.py:101-105 | the printable part without its outer blanks, or the default, cut at the maximum |
| AuditRecords.BoundedTextFits | stock_tracker/api/audit.py:101-105 | a bounded text is visible ASCII within its maximum |
| AuditRecords.RecordBounded | stock_tracker/api/audit.py:199-230 | no caller makes a record line longer than 64 KiB |
| AuditLog.Logger.constructor | stock_tracker/api/audit.py:117-135 | a new log starts in an empty directory |
| AuditLog.Logger.Replace | stock_tracker/api/audit.py:162-169 | one rename, after which the directory is again good |
| AuditLog.Logger.ShiftBackups | stock_tracker/api/audit.py:162-168 | the descending loop moves every backup up by one, through good directories only |
| AuditLog.Logger.Rotate | stock_tracker/api/audit.py:146-173 | a line that does not fit retires the live file; otherwise nothing moves |
| AuditLog.Logger.EnsureReady | stock_tracker/api/audit.py:175-190 | an enabled log gets its live file, nothing is lost |
| AuditLog.Logger.Record | stock_tracker/api/audit.py:199-246 | one record is appended after the rotation it needs, or nothing happens on a disabled log |
| AuditLog.RotatingContents | stock_tracker/api/audit.py:146-173 | every intermediate directory of a rotation lists the same lines in the same order, the oldest backup aside |
| AuditLog.RotatingGood | stock_tracker/api/audit.py:146-173 | every intermediate directory holds a suffix of the history in bounded files |
| AuditLog.LogIsASuffix | stock_tracker/api/audit.py:146-246 | after any records the backups and the live file are the last records, in order, newest included, in at most backup_count + 1 files of at most max_bytes |
| Timezones.YearUnique | stock_tracker/core/timezones.py:32-72 | every day lies in one year |
| Timezones.FirstWeekdayIsFirst | stock_tracker/core/timezones.py:21-23 | the date is the first such weekday of its month |
| Timezones.SummerTimeByUtc | stock_tracker/core/timezones.py:26-72 | in every year the offset is -4 from 7:00 UTC on the Sunday among 8 to 14 March to 6:00 UTC on the Sunday among 1 to 7 November, and -5 otherwise |
| Timezones.SummerTimeByLocal | stock_tracker/core/timezones.py:26-52 | on the wall clock from 2:00 to 2:00 of the same days, the hour from 1:00 in November by its fold |
| Timezones.KnownDays | stock_tracker/core/timezones.py:21-23 | the calendar puts 1 January 1970 on a Thursday and 29 February 2000 on a Tuesday |
| Timezones.MonthsByRule | stock_tracker/core/timezones.py:21-29 | the days before a month follow the arithmetic rule without a table |
| Timezones.UtcRoundTrip | stock_tracker/core/timezones.py:32-72 | from UTC to the wall clock and back, with fold set exactly in the second pass of the repeated hour, in every year |
| Timezones.LocalRoundTrip | stock_tracker/core/timezones.py:95-134 | from the wall clock to UTC and back, exactly outside the hour that March skips |
| SseHub.StepInv | stock_tracker/api/sse.py:41-70 | every queue operation of a publish, every dequeue, add and remove keeps each client's books |
| SseHub.GapFree | stock_tracker/api/sse.py:41-70 | a client on the list has got or will get exactly the forwarded events since it joined, in order; during a publish at most the event in progress is missing |
| SseHub.OverflowIsFinal | stock_tracker/api/sse.py:46-60 | a client that overflowed got the events up to the overflow with at most one dropped, then the marker, wherever its dequeues fell between put, get and put |
| SseHub.RetryNeverNeeded | stock_tracker/api/sse.py:55-59 | the queue is not full when the marker comes, so the second retry is never taken |
| SseHub.SinceJoined | stock_tracker/api/sse.py:64-66 | only coming onto the list anew resets what a client is due; adding a listed client again changes nothing |
| SseHub.StaysAway | stock_tracker/api/sse.py:41-70 | a client off the list receives nothing more until it is added again |
| SseHub.PutUninterrupted | stock_tracker/api/sse.py:48-59 | without a dequeue in between, the three queue operations are the atomic `Put` of the hub object |
| SseHub.ClientQueue.PutNowait | stock_tracker/api/sse.py:48-59 | a bounded queue takes an item or is full and unchanged |
| SseHub.ClientQueue.DropOldest | stock_tracker/api/sse.py:51-54 | the hub discards one head |
| SseHub.SSEHub.OnEvent | stock_tracker/api/sse.py:41-62 | every registered queue gets the event or the marker, and exactly the overflowed ones leave |
| SseHub.SSEHub.AddClient | stock_tracker/api/sse.py:64-66 | adds one queue |
| SseHub.SSEHub.RemoveClient | stock_tracker/api/sse.py:68-70 | removes one queue, if it is there |
| TimingRecorder.RunSound | qa/wb2/wb2_timed.py:98-281 | over every well-bracketed run: one row a test, success exactly without a FAIL, ERROR or UNEXPECTED_SUCCESS row, and every row and subcase points at its own full record |
| TimingRuns.RowsFollowCallbacks | qa/wb2/wb2_timed.py:98-281 | over every bracketed run the rows are those of its tests and fixtures, in order, each with the outcome its callbacks amount to, worst first, and with its subtests |
| TimingRuns.VerdictOfRun | qa/wb2/wb2_timed.py:284-300 | FAILED exactly when some test or fixture erred, failed or succeeded unexpectedly; OK exactly when none did and a test passed, or more failed as expected than fixtures were skipped |
| TimingRuns.OkMeansValidated | qa/wb2/wb2_timed.py:400-419 | OK means a test that was not skipped, in which nothing went wrong, and that failed as expected or had no subtests or one not skipped |
| TimingRuns.SkippedRunNotValidated | qa/wb2/wb2_timed.py:284-300 | a run of skipped tests and fixtures only is NOT_VALIDATED |
| TimingRuns.TotalsExact | qa/wb2/wb2_timed.py:198-258 | unittest's counters count every start, failure, error and unexpected success once |
| TimingRuns.BracketedExact | qa/wb2/wb2_timed.py:198-258 | which callback sequences the run theorems are about, by the sequence alone: tests do not nest, and what belongs to a test comes inside one |
| TimingRecorder.VerdictExact | qa/wb2/wb2_timed.py:284-300 | the same by the rows: FAILED exactly on a bad row; OK exactly without one and with a PASS, or with more expected failures than skipped fixtures |
| TimingRecorder.OkValidatesSomething | qa/wb2/wb2_timed.py:400-419 | OK means some test passed or failed as expected |
| TimingRecorder.SkippedFixtureMasksExpectedFailure | qa/wb2/wb2_timed.py:400-419 | the converse fails: a run that validated something and had no bad row can be NOT_VALIDATED |
| TimingRecorder.HandleCounted | qa/wb2/wb2_timed.py:198-258 | every callback keeps rows, counters and pending outcomes in step |
| TimingRecorder.HandleIndexed | qa/wb2/wb2_timed.py:112-281 | every callback keeps the traceback indices right |
| TimingRecorder.TimingResult.OnStartTest | qa/wb2/wb2_timed.py:98-110 | starts a case and counts it |
| TimingRecorder.TimingResult.OnStopTest | qa/wb2/wb2_timed.py:139-209 | emits the row of the running case |
| TimingRecorder.TimingResult.EmitScope | qa/wb2/wb2_timed.py:112-137 | emits the row of a fixture |
| TimingRecorder.TimingResult.OnFailure | qa/wb2/wb2_timed.py:212-217 | a failure of the case or of a fixture |
| TimingRecorder.TimingResult.OnError | qa/wb2/wb2_timed.py:219-224 | an error of the case or of a fixture |
| TimingRecorder.TimingResult.OnSkip | qa/wb2/wb2_timed.py:226-236 | a skip of the case or of a fixture |
| TimingRecorder.TimingResult.OnSubTest | qa/wb2/wb2_timed.py:246-258 | a subtest marks its parent and is recorded |
| TimingRecorder.TimingResult.RecordSub | qa/wb2/wb2_timed.py:260-281 | a subcase and its full record |
| BarParsers.ParseRows | stock_tracker/collector/tencent.py:328-383 | the loop with `bars`, `seen` and `previous` keeps exactly the rows whose bar is later than every earlier bar; it raises at the first row that overflows, and strict mode stops at the first row that is not kept |
| BarParsers.ParseBars | stock_tracker/collector/eastmoney.py:119-221 | decoding, reading, the document checks and the loop together, from the bytes on |
| BarParsers.RecordsExact | stock_tracker/collector/eastmoney.py:148-221 | the answer is a strictly chronological subsequence of the rows, each kept row once |
| BarParsers.DroppedRow | stock_tracker/collector/tencent.py:328-383 | a timestamp that is not later than all before it follows a kept row that is not earlier: the selection is greedy |
| BarParsers.StrictExact | stock_tracker/collector/tencent.py:328-383 | strict mode succeeds exactly when every row makes a bar and the dates rise strictly |
| BarParsers.AllKept | stock_tracker/collector/tencent.py:328-383 | when every row is kept the answer holds the bar of every row, in order |
| BarParsers.StrictRefinesTolerant | stock_tracker/collector/tencent.py:264-383 | a list from strict mode is the list from tolerant mode, for any response bytes |
| JsonReaders.SamePayload | stock_tracker/collector/tencent.py:280-283 | bytes the strict mode can read are the same document to the tolerant mode |
| JsonReaders.PayloadReadsBack | stock_tracker/collector/tencent.py:26-52 | the UTF-8 bytes of a printed value are read back as it, in either mode |
| JsonReaders.StrictIsTolerant | stock_tracker/collector/tencent.py:26-52 | a text the hooked reader accepts is read identically by plain `json.loads`, where the last of repeated keys wins and NaN is a number |
| Utf8.DecodeAgrees | stock_tracker/collector/eastmoney.py:133-137 | bytes that decode strictly decode the same with errors ignored |
| Utf8.DecodeEncode | stock_tracker/collector/eastmoney.py:41-48 | every text is read back from its UTF-8 bytes |
| Utf8.DecodeExact | stock_tracker/collector/eastmoney.py:133-137 | strict decoding takes the encodings of texts and no other bytes |
| Utf8.BrokenVanishes | stock_tracker/collector/eastmoney.py:133-137 | with errors ignored a stray or cut-short piece between two texts vanishes and nothing else does |
| BarParsers.TencentLevels | stock_tracker/collector/tencent.py:284-313 | level by level: a non-zero status, missing or null data, a missing or null node, missing rows, or the rows |
| BarParsers.EastmoneyLevels | stock_tracker/collector/eastmoney.py:138-146 | the same for Eastmoney, whose bad status is an empty answer in both modes |
| BarParsers.RefusedAnswer | stock_tracker/collector/tencent.py:286-289 | a non-zero integer status loses the answer whatever else there is: an error for Tencent strictly, an empty list otherwise |
| BarParsers.TolerantExact | stock_tracker/collector/tencent.py:280-383 | tolerant mode fails exactly on a document of the wrong shape and on a row that raises OverflowError, which its `except` does not catch; its answers are chronological and consistent |
| BarParsers.HugePriceRaises | stock_tracker/collector/tencent.py:314-383 | a price beyond the float range raises at its row, in both modes, unless an earlier row ended the parse |
| BarParsers.SeenImpliedByPrevious | stock_tracker/collector/eastmoney.py:195-198 | the `seen` test rejects nothing that the `previous` test would let through |
| BarParsers.TestsDecide | stock_tracker/collector/tencent.py:357-360 | the two tests together decide exactly whether a timestamp is later than all before it |
| BarParsers.SplitJoin | stock_tracker/collector/eastmoney.py:157-160 | splitting at commas undoes joining |
| RowMeanings.TencentRowExact | stock_tracker/collector/tencent.py:328-383 | exactly which list is which bar: the columns, the scaled volume, the optional amount |
| RowMeanings.TencentRaisesExact | stock_tracker/collector/tencent.py:314-383 | exactly which list raises: a price, volume or amount beyond the float range, the cells before it having passed their tests |
| RowMeanings.EastmoneyRowExact | stock_tracker/collector/eastmoney.py:157-213 | exactly which line is which bar |
| BarPrinting.DocumentReadsBack | stock_tracker/collector/tencent.py:264-383 | a document printed from any rising list of bars, with a zero status or none and any other members around each level, is read back as that list, in both modes and both formats |
| BarPrinting.BytesReadBack | stock_tracker/collector/tencent.py:264-383 | the same from the UTF-8 bytes of the document on |
| SortedBarParsers.ArrangedExact | stock_tracker/collector/free_stockdb.py:448-505 | parsing answers a list exactly when it is the strictly rising arrangement of the bars of all rows, which is unique |
| SortedBarParsers.ArrangedFails | stock_tracker/collector/hithink_finance.py:452-519 | parsing fails exactly on a rejected row or a repeated timestamp |
| SortedBarParsers.ArrangedPermutes | stock_tracker/collector/hithink_finance.py:452-519 | row order never matters |
| SortedBarParsers.CountDistinct | stock_tracker/collector/free_stockdb.py:501-503 | comparing the number of distinct timestamps finds every duplicate |
| SortedBarParsers.ParseFree | stock_tracker/collector/free_stockdb.py:433-505 | free-stockdb's parser, from the bytes on: collecting, counting distinct timestamps and sorting give the specified answer |
| SortedBarParsers.FreeBarsExact | stock_tracker/collector/free_stockdb.py:448-505 | one bar a row, strictly rising, consistent, inside the requested range |
| SortedBarParsers.FreeRowOrder | stock_tracker/collector/free_stockdb.py:433-505 | permuting the rows of a document changes nothing |
| SortedBarParsers.FreeShapes | stock_tracker/collector/free_stockdb.py:170-186 | a keyed document means the list of its values, a single row the list of itself |
| RowMeanings.FreeRowExact | stock_tracker/collector/free_stockdb.py:448-500 | exactly which object is which bar: the requested code, a date in the requested range, the numbers, a whole volume |
| RowMeanings.RowsExact | stock_tracker/collector/free_stockdb.py:170-186 | exactly which documents hold which rows |
| RowMeanings.HithinkRowExact | stock_tracker/collector/hithink_finance.py:452-519 | exactly which object of an envelope is which bar |
| RowMeanings.EnvelopeExact | stock_tracker/collector/hithink_finance.py:418-451 | exactly which envelopes are a success, with which limit and rows |
| BarPrinting.FreeDocumentReadsBack | stock_tracker/collector/free_stockdb.py:433-505 | a document with the printed rows of a rising list of bars, in any order, is read back as that list |
| BarPrinting.FreeBytesReadBack | stock_tracker/collector/free_stockdb.py:93-505 | the same from the UTF-8 bytes of the document on |
| DatePrinting.StampReadsBack | stock_tracker/collector/free_stockdb.py:153-167 | every timestamp of years 1 to 9999, at 15:00 for a daily bar, has date digits that read back as it |
| DatePrinting.StampPrintable | stock_tracker/collector/free_stockdb.py:141-167 | and the accepted ASCII texts are exactly those |
| SortedBarParsers.ParseHithink | stock_tracker/collector/hithink_finance.py:406-519 | HiThink's parser, from the bytes on, whose `seen` set rejects duplicates while reading |
| SortedBarParsers.HithinkRowOrder | stock_tracker/collector/hithink_finance.py:452-519 | permuting the rows of an envelope changes nothing |
| BarPrinting.HithinkDocumentReadsBack | stock_tracker/collector/hithink_finance.py:452-519 | the same for an envelope of HiThink Finance |
| BarPrinting.HithinkBytesReadBack | stock_tracker/collector/hithink_finance.py:58-519 | and from its bytes on |
| DateDigits.StampsAscend | stock_tracker/collector/free_stockdb.py:141-167 | in decimal digits of any script, timestamps are ordered as the numbers the texts stand for, and equal exactly when the digit values are |
| DateDigits.StampInjective | stock_tracker/collector/free_stockdb.py:141-167 | a duplicate timestamp shows the same digit values, and in ASCII it is a duplicate text |
| DateDigits.FullWidthDuplicate | stock_tracker/collector/free_stockdb.py:141-167 | across scripts it is not: full-width digits give a second text for every accepted date |
| CanonicalDecimal.AcceptedExactly | scripts/materialize_adjusted_market_data.py:144-163 | every finite decimal has exactly one accepted text, its canonical one |
| CanonicalDecimal.AcceptedForm | scripts/materialize_adjusted_market_data.py:144-163 | accepted are exactly the texts with an optional minus, no leading zero, no trailing fraction zero and no negative zero |
| CanonicalDecimal.SameValueSameText | scripts/reconcile_a_share_corporate_actions.py:200-221 | equal values have one canonical text, whatever their exponents |
| CanonicalDecimal.CanonicalReadsBack | scripts/reconcile_a_share_corporate_actions.py:200-221 | the canonical text is read back as the same value |

## Left out

- HTTP servers and handlers, TLS, bearer checks, threads and locks: every locked block is one atomic step.
- Feed-mode switches with older events still buffered: the model keeps them and the client's expectation decides, as `EventDelivery.HonestPageAccepted` states.
- The simulator's prices and its thread, and `health` and `session` payloads: no property that spans calls.
- SHA-256 and the ISO and trading-day texts are functions given as a parameter (`Envelopes.Lib`), the latter on the instants a `datetime` can hold; collisions are excluded only where `IdDeterminesEnvelope` says so.
- A dict that must have exactly given keys is a record; a float is the text it prints as; characters are Unicode scalar values, so lone surrogates are not modelled, nor is Python's recursion limit; the sidecar's own JSON is taken as text.
- Floating point: latencies, tokens, prices and volumes are real numbers. `float(text)`, `strptime`, the digits that are not ASCII and the magnitude from which a number has no float are a parameter (`Bars.Reading`), and so is the Shanghai date of an epoch millisecond.
- Symbol and market checks before a bar response is read, and the constant columns of a bar.
- `decimal` underscores, non-ASCII digits, infinities and exponents beyond the context limits: never accepted by the check, so they are not parsed.
- The rate limiter has one caller at a time; concurrent sleepers can all wake together.
- Audit: symbolic links, fsync and operating-system errors. A directory is a map from index to lines, and one rename or removal is one step. The sizes and counts that the constructor refuses with ValueError are its precondition.
- Time zones: the system zone database and the local clock; days before 0001-01-01 05:00 UTC.
- SSE: `client_count`, and the HTTP handler that waits for the next item.
- Timing recorder: clock values, tracebacks and output files.
- Scoring and routing of providers, decision, planning and monitor logic, configuration, user interface and capture tools: no hard property of their own in the files at hand.

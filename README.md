# HLS view counter — verified model of the counting engine

This project models the viewer-counting engine of `counter.go` in Dafny and
proves properties about it. The engine counts the viewers of each stream from
two sources:

- **The access log.** Every request for an HLS segment (`/hls/<stream>-<n>.ts`)
  marks its client as watching that stream at the time the line is processed.
- **The RTMP server's statistics report.** This is optional. Its `<nclients>`
  values, minus one for the publishing connection, count the viewers that are
  not on HLS.

On every tick the engine does three things:

1. It publishes the report's counts plus the number of clients recorded for each
   stream.
2. It stamps the time of the tick.
3. It evicts every client not seen for `viewerLifetime` (10) seconds.

Modules, in dependency order:

| file | module | models |
|---|---|---|
| `wrappers.dfy` | `Wrappers` | `Option` |
| `text.dfy` | `Text` | Go's `strings.Split` (on one character), `strings.Join` and `strings.Contains` |
| `pattern.dfy` | `Pattern` | the three fixed regular expressions, as `prefix(.*)terminator` shapes with Go's leftmost-first, greedy semantics |
| `decimal.dfy` | `Decimal` | `strconv.ParseInt(s, 10, 32)` |
| `log_line.dfy` | `LogLine` | the extraction part of `processLine` |
| `registry.dfy` | `Registry` | the presence registry: recording a sighting, `removeExpired`, and the merge of a tick |
| `stats_report.dfy` | `StatsReport` | the scanning loop of `getRTMPStreamData` |
| `counter.dfy` | `Counter` | the `viewCounter` object: `newViewCounter`, `processLine`, `getRTMPStreamData` and the ticker branch of `countViews` |

Conventions:

- The clock is an integer parameter `now`, in whole seconds.
- The HTTP response body is a parameter `response`, which is `None` when the
  request fails.
- Pure parts are functions with lemmas about them.
- The parts that change state in place form the class `Counter.ViewCounter`.
  Its methods are proved against those functions: `ProcessLine`, `Tick`, and the
  loops `AddBucketSizes` and `StatsReport.ParseReport`.

### Behaviour worth knowing

- **Counts are taken before eviction.** A tick counts each stream's bucket as it
  stands and evicts afterwards (counter.go:183-193). So the first tick at or
  after `t0 + 10` still counts a viewer last seen at `t0`
  (`Registry.ExpiredViewerLingers`).
- **Empty buckets are kept.** `removeExpired` creates a bucket for every stream
  before it filters the clients (counter.go:205-211). A stream whose clients
  have all expired stays in the registry with an empty bucket, and every later
  tick exports it with 0.
- **An unparsable count becomes 0.** A `<name>` line stores 0 for its stream
  (counter.go:146). When the following `<nclients>` text does not parse, that 0
  stays (counter.go:155-158).
- **Parsing works line by line.** The line that holds `<live>` is skipped whole
  (counter.go:132-136). So a report with the start marker, the names and the
  counts all on one line yields no counts (`StatsReport.OneLineReport`). A
  report laid out one tag per line yields `n - 1`
  (`StatsReport.SingleStreamReport`).

## Model

| member | source | states |
|---|---|---|
| Text.Split | counter.go:82 | the pieces number one more than the separators, and no piece holds a separator |
| Text.JoinSplit | counter.go:82 | joining the pieces of a split with the separator gives back the line |
| Text.SplitJoin | counter.go:82 | splitting a join of separator-free fields gives back the fields, so a line of n fields has n tokens |
| Text.Contains | counter.go:133 | `strings.Contains`: true exactly when the marker occurs at some position |
| Pattern.TerminatesAtSpec | counter.go:19 | the executable terminator test agrees with the reference one (`-`, one or more digits, `.ts`) |
| Pattern.LastTerminator | counter.go:19 | returns the largest terminator position in the range, and `None` only when the range has none |
| Pattern.FindSpec | counter.go:90-94 | `Find`, the `FindStringSubmatch` search used here and at counter.go:143 and 152, is `None` exactly when no match exists anywhere; otherwise it is the capture of the leftmost start with the longest newline-free `.*` |
| Pattern.FindPreferred | counter.go:19 | a match that no earlier start and no longer capture beats is the one reported |
| Pattern.FindEnclosed | counter.go:110-111 | a line that is exactly `<tag>x</tag>`, with no newline in x, captures x |
| Pattern.FindNeedsPrefix | counter.go:143-144 | a line without the pattern's literal prefix has no match |
| Decimal.ParseInt32 | counter.go:155 | a text is accepted exactly when it is an optional sign followed by one or more ASCII digits whose signed value lies in the 32-bit range, and the result is that value |
| Decimal.PlusAndZerosAccepted | counter.go:155 | a leading `+` and leading zeros are accepted: `+7` and `007` both give 7 |
| Decimal.ParseFormat | counter.go:155-159 | the decimal text of n parses back to n exactly when n fits in 32 bits, and is rejected otherwise |
| LogLine.ParseLineSpec | counter.go:81-94 | `ParseLine` drops a line exactly when it has fewer than 6 spaces or its token 6 matches nowhere; otherwise its client is token 0 and the stream is the preferred capture |
| LogLine.SegmentUrlStream | counter.go:19 | in `lead/hls/<name>-<digits>.ts<trail>`, where `lead` holds no `/`, `trail` holds no `-` and `<name>` holds no newline, the stream is exactly `<name>`, even when the name holds `-`, `/` or `-<digits>.ts` |
| LogLine.ParseSegmentRequest | counter.go:82-94 | a line of at least seven space-free fields whose seventh is a segment URL records its first field as the client on that URL's stream |
| LogLine.ParseAccessLogExample | counter.go:81-94 | a typical access-log line records client `1.2.3.4` on stream `alpha` |
| Registry.Record | counter.go:99-104 | the stream's bucket exists, and the client has exactly one entry, set to now; every other stream and every other client of the stream is unchanged |
| Registry.Evict | counter.go:207-211 | a bucket keeps an entry exactly when its time is strictly after now - 10, with its time unchanged |
| Registry.RemoveExpired | counter.go:201-215 | the stream set is preserved exactly, including streams whose bucket becomes empty, and each bucket is evicted |
| Registry.EvictTwice | counter.go:201-212 | evicting a bucket at t1 and then at t2 >= t1 equals evicting it once at t2 |
| Registry.RemoveExpiredTwice | counter.go:201-215 | evicting the registry at t1 and then at t2 >= t1 equals evicting it once at t2 |
| Registry.RemoveExpiredIdempotent | counter.go:201-215 | eviction at a fixed time is idempotent |
| Registry.SightingLifetime | counter.go:17 | a sighting at t survives eviction at now exactly when now < t + 10, and its stream survives either way |
| Registry.Counts | counter.go:183-185 | `len(hlsViewers)` for every stream, and no other keys |
| Registry.MergeViews | counter.go:182-189 | the export view's keys are the union of the external and registry streams; each value is the sum, the bucket size alone (0 for an empty bucket), or the external value alone |
| Registry.MergeDisjoint | counter.go:182-189 | with disjoint stream sets the export view is the plain union of the two count maps |
| Registry.RecordAllEntries | counter.go:99-104 | replaying sightings adds exactly the streams and the (stream, client) pairs sighted, one entry per pair |
| Registry.RecordAllUntouched | counter.go:99-104 | an entry no later sighting touches keeps its time |
| Registry.RecordAllLatest | counter.go:104 | the time kept for a pair is that of its last sighting |
| Registry.CountIsDistinctClients | counter.go:183-188 | starting from an empty registry, a stream's count at the tick is the number of distinct clients sighted on it |
| Registry.TwoSightingsExample | counter.go:99-104 | two sightings on one stream export 2 for two different clients, and 1 for the same client twice |
| Registry.ExpiredViewerLingers | counter.go:182-193 | a viewer last seen at t0 is still counted by a tick at or after t0 + 10; that tick leaves the stream with an empty bucket, which is later exported as 0 |
| StatsReport.ParseReport | counter.go:129-168 | the scanning loop computes exactly `ReportData` of the body's lines, including its early return at the end marker; `ReportData` skips to the first `<live>` line, and `SectionData` folds `ScanLine` (one loop iteration) over the lines after it up to the first `</live>` |
| StatsReport.NoStreamList | counter.go:129-136 | a report without a `<live>` line yields no counts |
| StatsReport.StreamListStart | counter.go:132-136 | every line up to and including the first `<live>` line is ignored |
| StatsReport.StreamListEnd | counter.go:137-141 | the first later `</live>` line ends the scan, and nothing from it on has any effect |
| StatsReport.SectionStreams | counter.go:143-149 | without an end marker, the streams reported are exactly those named by `<name>` lines |
| StatsReport.CountSettled | counter.go:143-163 | a stored count is final once its stream is no longer pending and no later line names it again |
| StatsReport.QuietLines | counter.go:143-164 | lines that hold no name, no count and no end marker leave `SectionData` unchanged; each is a `ScanLine` step that keeps the whole state, pending name included |
| StatsReport.NameThenCount | counter.go:143-162 | in `SectionData`, a name line for x, then quiet lines, then a count line gives x -> N - 1 when N is a 32-bit decimal, and x -> 0 when it is not, provided no later line names x again |
| StatsReport.UnclaimedCount | counter.go:151-164 | a count line with no pending name is ignored |
| StatsReport.OneLineReport | counter.go:131-136 | a one-line report yields no counts |
| StatsReport.SingleStreamReport | counter.go:129-168 | `<live>`, `<name>x</name>`, `<nclients>n</nclients>`, `</live>` on four lines yields exactly x -> n - 1 |
| Counter.AddBucketSizes | counter.go:183-189 | the merge loop produces `MergeViews` of the fetched counts and the registry |
| Counter.StatsData | counter.go:113-127 | no counts without a stats URL or when the request fails; otherwise the counts of the body's lines |
| Counter.ViewCounter.constructor | counter.go:33-49 | the configuration is stored, and both maps start empty |
| Counter.ViewCounter.ProcessLine | counter.go:81-105 | a dropped line changes nothing; a recorded sighting updates the registry by `Record` at now; the export state is unchanged |
| Counter.ViewCounter.GetStatsData | counter.go:113-168 | returns `StatsData` for the configured URL and the response, through the scanning loop |
| Counter.ViewCounter.Tick | counter.go:181-194 | the export view is `MergeViews` of the fetched counts and the registry before eviction; the tick time is now; the registry becomes `RemoveExpired` of the old one at now |

## Left out

- Log tailing (`readLines`, counter.go:61-79). This is file I/O through the `nxadm/tail` library, including reattaching after rotation. Lines reach `ProcessLine` as arguments.
- Creating the HTTP client, the GET request, its one-second timeout and reading the body (counter.go:42-46, 119-127). These are network I/O. The body, or a failed request, is the `response` argument. The status code is not checked in the source either.
- The error from reading the body is ignored in the source (counter.go:127). The model takes the body as given.
- The goroutine, the line channel, the ticker, `select` and the mutex (counter.go:96-97, 172-181, 192-194). All registry updates run in one goroutine, so the class is sequential.
- The ticker's period. The source builds the ticker from the package-level `interval` (counter.go:176) and never reads the `interval` field. The field is stored and not used further.
- `addExporter`, `updateExporters` and the sinks of exporter.go (counter.go:51-59, 196). They only output the view, and exporter.go is not part of this model.
- main.go is not part of this model. As written it does not build against counter.go: it declares `streamNameRegex` a second time, and it calls `newViewCounter` with two arguments instead of three. The model follows counter.go's definitions.
- `time.Time` and `time.Now`. Times are whole seconds. The source calls `time.Now` separately for the tick stamp and for the eviction; the model uses one `now` for both.
- General regular expressions. Only the three fixed patterns are modelled. The text is a sequence of characters, with no UTF-8 decoding.
- Go's integer widths. `int` and `int64` are unbounded here. With Go's 64-bit `int`, the stored count `int(viewers) - 1` (counter.go:160) and the sum `exportViews[streamName] += len(hlsViewers)` (counter.go:185) cannot overflow. On a 32-bit target, `int` is 32 bits wide: `viewers == -2147483648` then wraps to 2147483647, and the sum can wrap as well. This wrap-around is not modelled.
- Map aliasing. In Go, a bucket is updated in place through a map reference. In the model, maps are values that the methods reassign.

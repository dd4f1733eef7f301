/**
 The `viewCounter` state and the three steps that change it: recording one
 access-log line, fetching the external per-stream counts, and the periodic
 tick that publishes the merged counts and evicts stale viewers. The clock is
 the `now` argument (whole seconds); the fetched report body is the
 `response` argument (`None` when the request fails).
 */
module Counter {
  import opened Wrappers
  import opened Text
  import opened LogLine
  import opened Registry
  import opened StatsReport

  /** The counts `getRTMPStreamData` returns for the stats URL and the fetched body. */
  function StatsData(xmlStatsURL: string, response: Option<string>): (data: map<string, int>)
    ensures xmlStatsURL == "" || response.None? ==> data == map[]
    ensures xmlStatsURL != "" && response.Some? ==> data == ReportData(Split(response.value, '\n'))
  {
    if xmlStatsURL == "" then map[]
    else match response
      case None => map[]
      case Some(body) => ReportData(Split(body, '\n'))
  }

  /** Once nothing is pending, every key has been handled. */
  lemma NoneLeft(keys: set<string>, pending: set<string>)
    requires pending == {}
    ensures keys - pending == keys
  {
  }

  /**
   The merge loop of a tick: each registry stream's bucket size is added to its
   external count, or becomes its count when the stream has none.
   */
  method AddBucketSizes(external: map<string, int>, viewers: Registry) returns (views: map<string, int>)
    ensures views == MergeViews(external, viewers)
  {
    views := external;
    ghost var added: map<string, int> := map[];
    var pending := viewers.Keys;
    while pending != {}
      invariant pending <= viewers.Keys
      invariant added.Keys == viewers.Keys - pending
      invariant BucketSizes(added, viewers)
      invariant views == Merge(external, added)
      decreases pending
    {
      var streamName :| streamName in pending;
      var hlsViewers := viewers[streamName];
      ghost var added' := added[streamName := |hlsViewers|];
      assert BucketSizes(added', viewers) by {
        BucketSizesOneMore(added, viewers, streamName);
      }
      assert (streamName in views ==> views[streamName := views[streamName] + |hlsViewers|] == Merge(external, added'))
          && (streamName !in views ==> views[streamName := |hlsViewers|] == Merge(external, added')) by {
        MergeOneMore(views, external, added, streamName, |hlsViewers|);
      }
      if streamName in views {
        views := views[streamName := views[streamName] + |hlsViewers|];
      } else {
        views := views[streamName := |hlsViewers|];
      }
      added := added[streamName := |hlsViewers|];
      pending := pending - {streamName};
    }
    NoneLeft(viewers.Keys, pending);
    MergeAll(views, external, added, viewers);
  }

  class ViewCounter {
    const logFile: string
    const interval: int
    const xmlStatsURL: string

    /** stream -> client -> last time a segment request of the client was seen */
    var streamViewers: Registry
    /** The counts published by the last tick. */
    var exportViews: map<string, int>
    /** The time of the last tick (0 before the first). */
    var exportUpdatedAt: int

    /** `newViewCounter`: both maps start empty. */
    constructor(logFile: string, interval: int, xmlStatsURL: string)
      ensures this.logFile == logFile && this.interval == interval && this.xmlStatsURL == xmlStatsURL
      ensures streamViewers == map[] && exportViews == map[] && exportUpdatedAt == 0
    {
      this.logFile := logFile;
      this.interval := interval;
      this.xmlStatsURL := xmlStatsURL;
      streamViewers := map[];
      exportViews := map[];
      exportUpdatedAt := 0;
    }

    /**
     `processLine` at time `now`: a dropped line changes nothing; otherwise the
     sighting is recorded in its stream's bucket, which is created if missing.
     */
    method ProcessLine(line: string, now: int)
      modifies this
      ensures ParseLine(line).None? ==> streamViewers == old(streamViewers)
      ensures ParseLine(line).Some? ==>
                var v := ParseLine(line).value;
                streamViewers == Record(old(streamViewers), v.stream, v.client, now)
      ensures exportViews == old(exportViews) && exportUpdatedAt == old(exportUpdatedAt)
    {
      var sighting := ParseLine(line);
      if sighting.None? {
        return;
      }
      var streamName, ip := sighting.value.stream, sighting.value.client;
      var perStream: Bucket;
      if streamName in streamViewers {
        perStream := streamViewers[streamName];
      } else {
        perStream := map[];
        streamViewers := streamViewers[streamName := perStream];
      }
      streamViewers := streamViewers[streamName := perStream[ip := now]];
    }

    /**
     `getRTMPStreamData`: no counts without a stats URL or when the request
     fails; otherwise the counts of the body's stream list.
     */
    method GetStatsData(response: Option<string>) returns (data: map<string, int>)
      ensures data == StatsData(xmlStatsURL, response)
    {
      if xmlStatsURL == "" || response.None? {
        return map[];
      }
      data := ParseReport(Split(response.value, '\n'));
    }

    /**
     One tick at time `now`: the export view becomes the fetched counts plus
     the size of every registry bucket, taken before eviction; the tick time
     is stamped; then expired viewers are evicted.
     */
    method Tick(now: int, response: Option<string>)
      modifies this
      ensures exportViews == MergeViews(StatsData(xmlStatsURL, response), old(streamViewers))
      ensures exportUpdatedAt == now
      ensures streamViewers == RemoveExpired(old(streamViewers), now)
    {
      var external := GetStatsData(response);
      exportViews := AddBucketSizes(external, streamViewers);
      exportUpdatedAt := now;
      streamViewers := RemoveExpired(streamViewers, now);
    }
  }

}

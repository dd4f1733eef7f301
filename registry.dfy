/**
 The presence registry `streamViewers` (stream -> client -> last seen), its
 eviction `removeExpired`, and the per-tick merge of the registry's bucket
 sizes into the external stream counts. Times are whole seconds.
 */
module Registry {
  import opened LogLine

  /** Last-seen time of each client of one stream. */
  type Bucket = map<string, int>

  /** stream name -> bucket */
  type Registry = map<string, Bucket>

  /** `viewerLifetime`, in seconds. */
  const ViewerLifetime: int := 10

  /**
   The registry after a sighting of `client` on `stream` at `now`: the bucket
   is created if missing, and the client's single entry is set to `now`.
   */
  function Record(reg: Registry, stream: string, client: string, now: int): (r: Registry)
    ensures r.Keys == reg.Keys + {stream}
    ensures r[stream].Keys == (if stream in reg then reg[stream].Keys else {}) + {client}
    ensures r[stream][client] == now
    ensures forall c :: c in r[stream] && c != client ==> r[stream][c] == reg[stream][c]
    ensures forall s :: s in reg && s != stream ==> r[s] == reg[s]
  {
    var bucket := if stream in reg then reg[stream] else map[];
    reg[stream := bucket[client := now]]
  }

  /**
   The entries of one bucket that `removeExpired` keeps at `now`: exactly those
   younger than the lifetime (an entry exactly `ViewerLifetime` old is
   removed), with their times unchanged.
   */
  function Evict(bucket: Bucket, now: int): (r: Bucket)
    ensures forall c :: c in r <==> c in bucket && bucket[c] > now - ViewerLifetime
    ensures forall c :: c in r ==> r[c] == bucket[c]
  {
    map c | c in bucket && bucket[c] > now - ViewerLifetime :: bucket[c]
  }

  /**
   `removeExpired`: every stream is kept, possibly with an empty bucket, and
   each bucket keeps exactly its entries younger than the lifetime.
   */
  function RemoveExpired(reg: Registry, now: int): (r: Registry)
    ensures r.Keys == reg.Keys
    ensures forall s :: s in r ==> r[s] == Evict(reg[s], now)
  {
    map s | s in reg :: Evict(reg[s], now)
  }

  /** Evicting a bucket at `t1` and then at a later `t2` is the same as evicting once at `t2`. */
  lemma EvictTwice(bucket: Bucket, t1: int, t2: int)
    requires t1 <= t2
    ensures Evict(Evict(bucket, t1), t2) == Evict(bucket, t2)
  {
    assert Evict(Evict(bucket, t1), t2).Keys == Evict(bucket, t2).Keys;
  }

  /** Evicting at `t1` and then at a later `t2` is the same as evicting once at `t2`. */
  lemma RemoveExpiredTwice(reg: Registry, t1: int, t2: int)
    requires t1 <= t2
    ensures RemoveExpired(RemoveExpired(reg, t1), t2) == RemoveExpired(reg, t2)
  {
    forall s | s in reg ensures RemoveExpired(RemoveExpired(reg, t1), t2)[s] == RemoveExpired(reg, t2)[s] {
      EvictTwice(reg[s], t1, t2);
    }
  }

  /** Eviction is idempotent for a fixed `now`. */
  lemma RemoveExpiredIdempotent(reg: Registry, now: int)
    ensures RemoveExpired(RemoveExpired(reg, now), now) == RemoveExpired(reg, now)
  {
    RemoveExpiredTwice(reg, now, now);
  }

  /**
   A sighting at `t` survives an eviction at `now` exactly when `now` is less
   than `ViewerLifetime` seconds after `t`; its stream survives in any case.
   */
  lemma SightingLifetime(reg: Registry, stream: string, client: string, t: int, now: int)
    ensures stream in RemoveExpired(Record(reg, stream, client, t), now)
    ensures client in RemoveExpired(Record(reg, stream, client, t), now)[stream] <==> now < t + ViewerLifetime
  {
  }

  /** `len(hlsViewers)` for every stream of the registry. */
  function Counts(reg: Registry): (counts: map<string, int>)
    ensures counts.Keys == reg.Keys
    ensures forall s :: s in reg ==> counts[s] == |reg[s]|
  {
    map s | s in reg :: |reg[s]|
  }

  /** `counts` gives some streams of the registry their bucket sizes. */
  ghost predicate BucketSizes(counts: map<string, int>, reg: Registry)
  {
    forall s :: s in counts ==> s in reg && counts[s] == |reg[s]|
  }

  lemma BucketSizesOneMore(counts: map<string, int>, reg: Registry, s: string)
    requires BucketSizes(counts, reg) && s in reg
    ensures BucketSizes(counts[s := |reg[s]|], reg)
  {
  }

  /**
   Adding per-stream counts to external ones: every stream of either map; a
   stream in both gets the sum, a stream in one of them keeps that one's value.
   */
  function Merge(external: map<string, int>, counts: map<string, int>): (view: map<string, int>)
  {
    map s | s in external.Keys + counts.Keys ::
      (if s in external then external[s] else 0) + (if s in counts then counts[s] else 0)
  }

  /**
   Merging one more count `n` for a stream `s` into a merge `view`: it is
   added to the stream's value, or becomes its value when it has none yet.
   */
  lemma MergeOneMore(view: map<string, int>, external: map<string, int>, counts: map<string, int>, s: string, n: int)
    requires view == Merge(external, counts) && s !in counts
    ensures s in view ==> view[s := view[s] + n] == Merge(external, counts[s := n])
    ensures s !in view ==> view[s := n] == Merge(external, counts[s := n])
  {
    var expected := view[s := (if s in view then view[s] else 0) + n];
    assert Merge(external, counts[s := n]).Keys == expected.Keys;
  }

  /**
   Once no stream is pending, a merge of the bucket sizes of the streams done
   is the export view.
   */
  lemma MergeAll(view: map<string, int>, external: map<string, int>, counts: map<string, int>, reg: Registry)
    requires view == Merge(external, counts) && BucketSizes(counts, reg) && counts.Keys == reg.Keys
    ensures view == MergeViews(external, reg)
  {
    assert counts == Counts(reg);
  }

  /**
   The export view of one tick: the external counts merged with the bucket
   sizes of the registry (a registry stream with an empty bucket gets 0).
   */
  function MergeViews(external: map<string, int>, reg: Registry): (view: map<string, int>)
    ensures view.Keys == external.Keys + reg.Keys
    ensures forall s :: s in external && s in reg ==> view[s] == external[s] + |reg[s]|
    ensures forall s :: s in reg && s !in external ==> view[s] == |reg[s]|
    ensures forall s :: s in external && s !in reg ==> view[s] == external[s]
  {
    Merge(external, Counts(reg))
  }

  /** With disjoint stream sets the merge is the plain union of the two count maps. */
  lemma MergeDisjoint(external: map<string, int>, reg: Registry)
    requires external.Keys !! reg.Keys
    ensures MergeViews(external, reg) == external + Counts(reg)
  {
  }

  // ---------------------------------------------------------------------
  // Replaying a sequence of sightings
  // ---------------------------------------------------------------------

  /** One processed log line: a sighting and the time it was processed. */
  datatype Visit = Visit(sighting: Sighting, time: int)

  /** The registry after recording `visits` in order. */
  function RecordAll(reg: Registry, visits: seq<Visit>): Registry
    decreases |visits|
  {
    if visits == [] then reg
    else
      var v := visits[0];
      RecordAll(Record(reg, v.sighting.stream, v.sighting.client, v.time), visits[1..])
  }

  ghost function StreamsSeen(visits: seq<Visit>): set<string>
  {
    set k | 0 <= k < |visits| :: visits[k].sighting.stream
  }

  ghost function ClientsSeen(visits: seq<Visit>, stream: string): set<string>
  {
    set k | 0 <= k < |visits| && visits[k].sighting.stream == stream :: visits[k].sighting.client
  }

  /**
   Replaying sightings adds exactly the streams and clients sighted: one entry
   per (stream, client) pair, however often it was sighted.
   */
  lemma RecordAllEntries(reg: Registry, visits: seq<Visit>)
    ensures RecordAll(reg, visits).Keys == reg.Keys + StreamsSeen(visits)
    ensures forall s :: s in RecordAll(reg, visits) ==>
              RecordAll(reg, visits)[s].Keys == (if s in reg then reg[s].Keys else {}) + ClientsSeen(visits, s)
  {
    RecordAllStreams(reg, visits);
    forall s | s in RecordAll(reg, visits)
      ensures RecordAll(reg, visits)[s].Keys == (if s in reg then reg[s].Keys else {}) + ClientsSeen(visits, s)
    {
      RecordAllClients(reg, visits, s);
    }
  }

  lemma {:induction false} RecordAllStreams(reg: Registry, visits: seq<Visit>)
    ensures RecordAll(reg, visits).Keys == reg.Keys + StreamsSeen(visits)
    decreases |visits|
  {
    if visits != [] {
      var v := visits[0];
      RecordAllStreams(Record(reg, v.sighting.stream, v.sighting.client, v.time), visits[1..]);
      StreamsSeenCons(visits);
    }
  }

  /** The clients of stream `s` after a replay: those it had and those sighted on it. */
  ghost function ClientsAfter(reg: Registry, visits: seq<Visit>, s: string): set<string>
  {
    var r := RecordAll(reg, visits);
    if s in r then r[s].Keys else {}
  }

  lemma {:induction false} RecordAllClients(reg: Registry, visits: seq<Visit>, s: string)
    ensures ClientsAfter(reg, visits, s) == (if s in reg then reg[s].Keys else {}) + ClientsSeen(visits, s)
    decreases |visits|
  {
    if visits != [] {
      var v := visits[0];
      RecordAllClients(Record(reg, v.sighting.stream, v.sighting.client, v.time), visits[1..], s);
      ClientsSeenCons(visits, s);
      RecordClients(reg, v, s);
    }
  }

  /** The clients one sighting leaves in the bucket of stream `s`. */
  lemma RecordClients(reg: Registry, v: Visit, s: string)
    ensures var reg' := Record(reg, v.sighting.stream, v.sighting.client, v.time);
            (if s in reg' then reg'[s].Keys else {})
            == (if s in reg then reg[s].Keys else {}) + (if v.sighting.stream == s then {v.sighting.client} else {})
  {
  }

  lemma StreamsSeenCons(visits: seq<Visit>)
    requires visits != []
    ensures StreamsSeen(visits) == {visits[0].sighting.stream} + StreamsSeen(visits[1..])
  {
    var rest := visits[1..];
    forall x | x in StreamsSeen(visits) ensures x in {visits[0].sighting.stream} + StreamsSeen(rest) {
      var k :| 0 <= k < |visits| && visits[k].sighting.stream == x;
      if k > 0 { assert rest[k - 1] == visits[k]; }
    }
    forall x | x in StreamsSeen(rest) ensures x in StreamsSeen(visits) {
      var k :| 0 <= k < |rest| && rest[k].sighting.stream == x;
      assert visits[k + 1] == rest[k];
    }
  }

  lemma ClientsSeenCons(visits: seq<Visit>, s: string)
    requires visits != []
    ensures ClientsSeen(visits, s) ==
            (if visits[0].sighting.stream == s then {visits[0].sighting.client} else {}) + ClientsSeen(visits[1..], s)
  {
    var rest := visits[1..];
    forall x | x in ClientsSeen(visits, s)
      ensures x in (if visits[0].sighting.stream == s then {visits[0].sighting.client} else {}) + ClientsSeen(rest, s)
    {
      var k :| 0 <= k < |visits| && visits[k].sighting.stream == s && visits[k].sighting.client == x;
      if k > 0 { assert rest[k - 1] == visits[k]; }
    }
    forall x | x in ClientsSeen(rest, s) ensures x in ClientsSeen(visits, s) {
      var k :| 0 <= k < |rest| && rest[k].sighting.stream == s && rest[k].sighting.client == x;
      assert visits[k + 1] == rest[k];
    }
  }

  /** An entry no later visit touches keeps its time. */
  lemma {:induction false} RecordAllUntouched(reg: Registry, visits: seq<Visit>, s: string, c: string)
    requires s in reg && c in reg[s]
    requires forall k :: 0 <= k < |visits| ==> visits[k].sighting != Sighting(c, s)
    ensures s in RecordAll(reg, visits) && c in RecordAll(reg, visits)[s]
    ensures RecordAll(reg, visits)[s][c] == reg[s][c]
    decreases |visits|
  {
    if visits != [] {
      var v := visits[0];
      assert v.sighting != Sighting(c, s);
      var reg' := Record(reg, v.sighting.stream, v.sighting.client, v.time);
      assert forall k :: 0 <= k < |visits| - 1 ==> visits[1..][k] == visits[k + 1];
      RecordAllUntouched(reg', visits[1..], s, c);
    }
  }

  /** The time kept for a (stream, client) pair is that of its last sighting. */
  lemma {:induction false} RecordAllLatest(reg: Registry, visits: seq<Visit>, k: nat)
    requires k < |visits|
    requires forall k' :: k < k' < |visits| ==> visits[k'].sighting != visits[k].sighting
    ensures var v := visits[k].sighting;
            v.stream in RecordAll(reg, visits) && v.client in RecordAll(reg, visits)[v.stream]
            && RecordAll(reg, visits)[v.stream][v.client] == visits[k].time
    decreases |visits|
  {
    var v := visits[0];
    var reg' := Record(reg, v.sighting.stream, v.sighting.client, v.time);
    var rest := visits[1..];
    assert forall k' :: 0 <= k' < |rest| ==> rest[k'] == visits[k' + 1];
    if k == 0 {
      RecordAllUntouched(reg', rest, v.sighting.stream, v.sighting.client);
    } else {
      RecordAllLatest(reg', rest, k - 1);
    }
  }

  /**
   The count a tick takes for a stream of a fresh registry is the number of
   distinct clients sighted on it.
   */
  lemma CountIsDistinctClients(visits: seq<Visit>, s: string)
    requires s in StreamsSeen(visits)
    ensures s in Counts(RecordAll(map[], visits))
    ensures Counts(RecordAll(map[], visits))[s] == |ClientsSeen(visits, s)|
  {
    RecordAllEntries(map[], visits);
  }

  // ---------------------------------------------------------------------
  // Scenarios
  // ---------------------------------------------------------------------

  /**
   Two sightings on one stream, no external counts: the tick exports 2 for two
   different clients, and 1 when the same client was sighted twice.
   */
  lemma TwoSightingsExample(stream: string, c1: string, c2: string, t1: int, t2: int)
    ensures MergeViews(map[], Record(Record(map[], stream, c1, t1), stream, c2, t2))
            == map[stream := if c1 == c2 then 1 else 2]
  {
    var reg := Record(Record(map[], stream, c1, t1), stream, c2, t2);
    if c1 == c2 {
      assert reg[stream] == map[c1 := t2];
    } else {
      assert reg[stream] == map[c1 := t1, c2 := t2];
      assert |reg[stream]| == 2;
    }
  }

  /**
   A viewer last sighted at `t0` is still counted by the first tick at or after
   `t0 + ViewerLifetime` (counts are taken before eviction); that tick empties
   the stream's bucket but keeps the stream, so later ticks export it with 0.
   */
  lemma ExpiredViewerLingers(stream: string, client: string, t0: int, now: int)
    requires now >= t0 + ViewerLifetime
    ensures MergeViews(map[], Record(map[], stream, client, t0)) == map[stream := 1]
    ensures RemoveExpired(Record(map[], stream, client, t0), now) == map[stream := map[]]
    ensures MergeViews(map[], RemoveExpired(Record(map[], stream, client, t0), now)) == map[stream := 0]
  {
    var reg := Record(map[], stream, client, t0);
    assert reg[stream].Keys == {client};
    assert RemoveExpired(reg, now)[stream] == map[];
  }

}

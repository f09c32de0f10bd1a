/** The persistent release buffer and the per-tracker feed state (server/release-buffer.ts). */
module ReleaseBuffer {
  import opened Wrappers
  import MTF = MoveToFront

  type TrackerKey = nat
  type TopicId = MTF.TopicId

  const RETENTION_MS := 14 * 24 * 60 * 60 * 1000

  datatype Release = Release(
    tracker: TrackerKey, id: TopicId, title: string, url: string, magnet: Option<string>,
    torrentUrl: Option<string>, published: Option<int>)

  datatype Row = Row(
    title: string, url: string, magnet: Option<string>, torrentUrl: Option<string>,
    published: Option<int>, firstSeen: int, lastSeen: int)

  type RowKey = (TrackerKey, TopicId)

  datatype Batch = Batch(releases: seq<Release>, oldestObservedAt: Option<int>, cursor: Option<int>)

  /** `id@time`, or the bare topic id that older versions stored. */
  datatype FeedKey = Legacy(id: TopicId) | Stamped(id: TopicId, published: Option<int>)

  datatype Coverage = Baseline | Continuous | Gap | Recovered

  datatype FeedState = FeedState(
    fetchedAt: int, entryCount: nat, oldestEntryAt: Option<int>, newestEntryAt: Option<int>,
    previousKeys: seq<FeedKey>, overlapCount: Option<nat>, newEntryCount: int, coverage: Coverage,
    lastContinuousAt: Option<int>, unresolvedGapSince: Option<int>, lastGapAt: Option<int>,
    recoveredAt: Option<int>, lastRecoveryAttemptAt: Option<int>, continuousSince: Option<int>)

  datatype Tables = Tables(buffer: map<RowKey, Row>, feed: map<TrackerKey, FeedState>)

  datatype RollingFeed = RollingFeed(
    fetchedAt: int, overlapCount: Option<nat>, newEntryCount: int, coverage: Coverage,
    gapDetected: bool, unresolvedGapSince: Option<int>, lastGapAt: Option<int>,
    continuousSince: Option<int>, bufferedCount: nat)

  // ----- Upsert

  function RowOf(release: Release): RowKey {
    (release.tracker, release.id)
  }

  function Upserted(buffer: map<RowKey, Row>, release: Release, observedAt: int): map<RowKey, Row> {
    var key := RowOf(release);
    var prior := if key in buffer then Some(buffer[key]) else None;
    buffer[key := Row(
      release.title, release.url,
      if prior.Some? then release.magnet.Or(prior.value.magnet) else release.magnet,
      if prior.Some? then release.torrentUrl.Or(prior.value.torrentUrl) else release.torrentUrl,
      if prior.Some? then release.published.Or(prior.value.published) else release.published,
      if prior.Some? then prior.value.firstSeen else observedAt, observedAt)]
  }

  function Buffered(buffer: map<RowKey, Row>, releases: seq<Release>, observedAt: int): map<RowKey, Row> {
    if releases == [] then buffer
    else Upserted(Buffered(buffer, releases[..|releases| - 1], observedAt), releases[|releases| - 1], observedAt)
  }

  /** The last release given of a topic. */
  function Latest(releases: seq<Release>, key: RowKey): (r: Option<Release>)
    ensures r.Some? <==> exists x :: x in releases && RowOf(x) == key
    ensures r.Some? ==> r.value in releases && RowOf(r.value) == key
  {
    if releases == [] then None
    else
      var last := releases[|releases| - 1];
      assert releases == releases[..|releases| - 1] + [last];
      if RowOf(last) == key then Some(last) else Latest(releases[..|releases| - 1], key)
  }

  /** The last date given of a topic. */
  function LastPublished(releases: seq<Release>, key: RowKey): (r: Option<int>)
    ensures r.Some? ==> exists x :: x in releases && RowOf(x) == key && x.published == r
    ensures r.None? ==> forall x | x in releases && RowOf(x) == key :: x.published.None?
  {
    if releases == [] then None
    else
      var last := releases[|releases| - 1];
      assert releases == releases[..|releases| - 1] + [last];
      if RowOf(last) == key && last.published.Some? then last.published else LastPublished(releases[..|releases| - 1], key)
  }

  function LastMagnet(releases: seq<Release>, key: RowKey): Option<string> {
    if releases == [] then None
    else
      var last := releases[|releases| - 1];
      if RowOf(last) == key && last.magnet.Some? then last.magnet else LastMagnet(releases[..|releases| - 1], key)
  }

  function LastTorrentUrl(releases: seq<Release>, key: RowKey): Option<string> {
    if releases == [] then None
    else
      var last := releases[|releases| - 1];
      if RowOf(last) == key && last.torrentUrl.Some? then last.torrentUrl else LastTorrentUrl(releases[..|releases| - 1], key)
  }

  /** What the releases make of a topic's row, if they give the topic at all. */
  function TopicRow(prior: Option<Row>, releases: seq<Release>, observedAt: int, key: RowKey): Option<Row> {
    var latest := Latest(releases, key);
    if latest.None? then prior
    else Some(Row(
      latest.value.title, latest.value.url,
      LastMagnet(releases, key).Or(if prior.Some? then prior.value.magnet else None),
      LastTorrentUrl(releases, key).Or(if prior.Some? then prior.value.torrentUrl else None),
      LastPublished(releases, key).Or(if prior.Some? then prior.value.published else None),
      if prior.Some? then prior.value.firstSeen else observedAt, observedAt))
  }

  function Get(buffer: map<RowKey, Row>, key: RowKey): Option<Row> {
    if key in buffer then Some(buffer[key]) else None
  }

  /**
   * A row after the upserts. If its topic was not given it is untouched. If it was, title and address are
   * those of its last release, magnet, torrent address and date the last ones given, or the old ones if none
   * was, and it was first seen when it was first buffered and last seen now.
   */
  lemma {:induction false} BufferedRow(buffer: map<RowKey, Row>, releases: seq<Release>, observedAt: int, key: RowKey)
    ensures Get(Buffered(buffer, releases, observedAt), key) == TopicRow(Get(buffer, key), releases, observedAt, key)
  {
    if releases != [] {
      BufferedRow(buffer, releases[..|releases| - 1], observedAt, key);
      NoneGiven(releases[..|releases| - 1], key);
    }
  }

  lemma {:induction false} NoneGiven(releases: seq<Release>, key: RowKey)
    ensures Latest(releases, key).None? ==>
              LastPublished(releases, key) == None && LastMagnet(releases, key) == None && LastTorrentUrl(releases, key) == None
  {
    if releases != [] {
      NoneGiven(releases[..|releases| - 1], key);
    }
  }

  // ----- Comparing consecutive batches

  function KeyOf(release: Release): FeedKey {
    Stamped(release.id, release.published)
  }

  /** `[...new Set(keys)]`: first occurrences, in order. */
  function Unique<T(==)>(s: seq<T>): (r: seq<T>)
    ensures s != [] ==> r != []
  {
    if s == [] then []
    else
      var init := Unique(s[..|s| - 1]);
      if s[|s| - 1] in init then init else init + [s[|s| - 1]]
  }

  lemma {:induction false} UniqueElements<T>(s: seq<T>, x: T)
    ensures x in Unique(s) <==> x in s
  {
    if s != [] {
      UniqueElements(s[..|s| - 1], x);
      assert s == s[..|s| - 1] + [s[|s| - 1]];
    }
  }

  predicate Distinct<T(==)>(s: seq<T>) {
    forall i, j | 0 <= i < j < |s| :: s[i] != s[j]
  }

  lemma DistinctWith<T>(s: seq<T>, x: T)
    requires Distinct(s) && x !in s
    ensures Distinct(s + [x])
  {
    var r := s + [x];
    forall i, j | 0 <= i < j < |r| ensures r[i] != r[j] {
      assert j == |s| ==> r[i] in s;
    }
  }

  lemma {:induction false} UniqueIsDistinct<T>(s: seq<T>)
    ensures Distinct(Unique(s))
  {
    if s != [] {
      var init := Unique(s[..|s| - 1]);
      UniqueIsDistinct(s[..|s| - 1]);
      if s[|s| - 1] !in init {
        DistinctWith(init, s[|s| - 1]);
      }
    }
  }

  lemma {:induction false} UniqueOfDistinct<T>(s: seq<T>)
    requires forall i, j | 0 <= i < j < |s| :: s[i] != s[j]
    ensures Unique(s) == s
  {
    if s != [] {
      UniqueOfDistinct(s[..|s| - 1]);
      assert s == s[..|s| - 1] + [s[|s| - 1]];
    }
  }

  function Keys(releases: seq<Release>): seq<FeedKey> {
    seq(|releases|, i requires 0 <= i < |releases| => KeyOf(releases[i]))
  }

  predicate Overlaps(previous: seq<FeedKey>, key: FeedKey) {
    key in previous || (key.Stamped? && Legacy(key.id) in previous)
  }

  function CountOverlap(previous: seq<FeedKey>, current: seq<FeedKey>): (n: nat)
    ensures n <= |current|
    ensures n == 0 <==> forall i | 0 <= i < |current| :: !Overlaps(previous, current[i])
  {
    if current == [] then 0
    else
      var last := |current| - 1;
      CountOverlap(previous, current[..last]) + if Overlaps(previous, current[last]) then 1 else 0
  }

  /** It counts the entries that were there before. */
  lemma {:induction false} OverlapIsCounted(previous: seq<FeedKey>, current: seq<FeedKey>)
    ensures CountOverlap(previous, current) == |set i | 0 <= i < |current| && Overlaps(previous, current[i])|
  {
    var shared := set i | 0 <= i < |current| && Overlaps(previous, current[i]);
    if current != [] {
      var last := |current| - 1;
      OverlapIsCounted(previous, current[..last]);
      var before := set i | 0 <= i < last && Overlaps(previous, current[..last][i]);
      assert shared == before + if Overlaps(previous, current[last]) then {last} else {};
    }
  }

  // ----- Time stamps of a batch

  function Stamps(releases: seq<Release>): (r: seq<int>)
    ensures forall t :: t in r <==> exists x :: x in releases && x.published == Some(t)
  {
    if releases == [] then []
    else
      var last := releases[|releases| - 1];
      assert releases == releases[..|releases| - 1] + [last];
      Stamps(releases[..|releases| - 1]) + if last.published.Some? then [last.published.value] else []
  }

  /** First of the sorted stamps. */
  function Least(s: seq<int>): (r: Option<int>)
    ensures s == [] <==> r.None?
    ensures r.Some? ==> r.value in s && forall t | t in s :: r.value <= t
  {
    if s == [] then None
    else
      var rest := Least(s[1..]);
      assert s == [s[0]] + s[1..];
      if rest.Some? && rest.value < s[0] then rest else Some(s[0])
  }

  function Greatest(s: seq<int>): (r: Option<int>)
    ensures s == [] <==> r.None?
    ensures r.Some? ==> r.value in s && forall t | t in s :: t <= r.value
  {
    if s == [] then None
    else
      var rest := Greatest(s[1..]);
      assert s == [s[0]] + s[1..];
      if rest.Some? && rest.value > s[0] then rest else Some(s[0])
  }

  // ----- One ingest

  function Pruned(buffer: map<RowKey, Row>, now: int): map<RowKey, Row> {
    map key | key in buffer && !(buffer[key].lastSeen < now - RETENTION_MS) :: buffer[key]
  }

  function Oldest(batch: Batch): Option<int> {
    batch.oldestObservedAt.Or(Least(Stamps(batch.releases)))
  }

  predicate GapDetected(previous: Option<FeedState>, currentKeys: seq<FeedKey>) {
    && previous.Some? && previous.value.previousKeys != [] && currentKeys != []
    && CountOverlap(previous.value.previousKeys, currentKeys) == 0
  }

  /** A gap is two feeds, neither empty, of which the later lists no entry of the one before under its date, or under its bare id. */
  lemma GapIsFoundExactly(previous: Option<FeedState>, currentKeys: seq<FeedKey>)
    ensures GapDetected(previous, currentKeys) <==>
            && previous.Some? && previous.value.previousKeys != [] && currentKeys != []
            && forall key | key in currentKeys ::
                 key !in previous.value.previousKeys && (key.Stamped? ==> Legacy(key.id) !in previous.value.previousKeys)
  {
    if previous.Some? {
      assert forall key | key in currentKeys :: exists i :: 0 <= i < |currentKeys| && currentKeys[i] == key;
    }
  }

  function NextState(previous: Option<FeedState>, batch: Batch, fetchedAt: int): FeedState {
    var keys := Unique(Keys(batch.releases));
    var gap := GapDetected(previous, keys);
    var overlap: Option<nat> := if previous.Some? then Some(CountOverlap(previous.value.previousKeys, keys)) else None;
    var unresolved :=
      if previous.None? then None
      else previous.value.unresolvedGapSince.Or(if gap then Some(previous.value.fetchedAt) else None);
    FeedState(
      fetchedAt, |keys|, Oldest(batch), batch.cursor.Or(Greatest(Stamps(batch.releases))), keys, overlap,
      if overlap.Some? then |keys| - overlap.value else |keys|,
      if unresolved.Some? then Gap else if previous.Some? then Continuous else Baseline,
      if gap then previous.value.lastContinuousAt.Or(Some(previous.value.fetchedAt)) else Some(fetchedAt),
      unresolved,
      if gap then Some(fetchedAt) else if previous.Some? then previous.value.lastGapAt else None,
      if previous.Some? then previous.value.recoveredAt else None,
      if previous.Some? then previous.value.lastRecoveryAttemptAt else None,
      if previous.None? || gap || previous.value.continuousSince.None? then Oldest(batch)
      else previous.value.continuousSince)
  }

  /**
   * What an ingest reports of its feed: how many entries it lists, how many of them the feed before listed, from
   * when to when they are dated, and whether its coverage is a first one, continuous, or has an open gap.
   */
  lemma NextStateReports(previous: Option<FeedState>, batch: Batch, fetchedAt: int)
    ensures var s := NextState(previous, batch, fetchedAt);
            && s.fetchedAt == fetchedAt && s.entryCount == |s.previousKeys|
            && (forall key :: key in s.previousKeys <==> exists r :: r in batch.releases && key == KeyOf(r))
            && Distinct(s.previousKeys)
            && (if previous.None? then s.overlapCount.None? && s.newEntryCount == s.entryCount
                else
                  && s.overlapCount == Some(|set i | 0 <= i < |s.previousKeys| && Overlaps(previous.value.previousKeys, s.previousKeys[i])|)
                  && s.newEntryCount == |set i | 0 <= i < |s.previousKeys| && !Overlaps(previous.value.previousKeys, s.previousKeys[i])|)
            && (s.coverage == Baseline <==> previous.None?)
            && (s.coverage == Gap <==> s.unresolvedGapSince.Some?)
            && (s.coverage == Continuous <==> previous.Some? && s.unresolvedGapSince.None?)
            && s.oldestEntryAt == (if batch.oldestObservedAt.Some? then batch.oldestObservedAt else Least(Stamps(batch.releases)))
            && s.newestEntryAt == (if batch.cursor.Some? then batch.cursor else Greatest(Stamps(batch.releases)))
  {
    var keys, all := Unique(Keys(batch.releases)), Keys(batch.releases);
    forall key ensures key in keys <==> exists r :: r in batch.releases && key == KeyOf(r) {
      UniqueElements(all, key);
      if r :| r in batch.releases && key == KeyOf(r) {
        var i :| 0 <= i < |batch.releases| && batch.releases[i] == r;
        assert all[i] == key;
      }
      if key in all {
        var i :| 0 <= i < |all| && all[i] == key;
        assert batch.releases[i] in batch.releases;
      }
    }
    UniqueIsDistinct(all);
    if previous.Some? {
      OverlapIsCounted(previous.value.previousKeys, keys);
      RestIsCounted(previous.value.previousKeys, keys);
    }
  }

  lemma {:induction false} RestIsCounted(previous: seq<FeedKey>, current: seq<FeedKey>)
    ensures |set i | 0 <= i < |current| && !Overlaps(previous, current[i])| == |current| - CountOverlap(previous, current)
  {
    var rest := set i | 0 <= i < |current| && !Overlaps(previous, current[i]);
    if current != [] {
      var last := |current| - 1;
      RestIsCounted(previous, current[..last]);
      var before := set i | 0 <= i < last && !Overlaps(previous, current[..last][i]);
      assert rest == before + if Overlaps(previous, current[last]) then {} else {last};
    }
  }

  /**
   * The dates that an ingest leaves: a gap found begins with the feed before unless one is open, a feed that finds
   * none continues until now, and a recovery and its last attempt are remembered.
   */
  lemma NextStateDates(previous: Option<FeedState>, batch: Batch, fetchedAt: int)
    ensures var s := NextState(previous, batch, fetchedAt);
            var p, gap := previous, GapDetected(previous, s.previousKeys);
            && s.lastContinuousAt == (if !gap then Some(fetchedAt) else if p.value.lastContinuousAt.Some? then p.value.lastContinuousAt
                                      else Some(p.value.fetchedAt))
            && s.lastGapAt == (if gap then Some(fetchedAt) else if p.Some? then p.value.lastGapAt else None)
            && (p.None? ==> s.unresolvedGapSince.None? && s.recoveredAt.None? && s.lastRecoveryAttemptAt.None?)
            && (p.Some? ==>
                  && s.recoveredAt == p.value.recoveredAt && s.lastRecoveryAttemptAt == p.value.lastRecoveryAttemptAt
                  && (p.value.unresolvedGapSince.Some? ==> s.unresolvedGapSince == p.value.unresolvedGapSince)
                  && (p.value.unresolvedGapSince.None? ==> s.unresolvedGapSince == if gap then Some(p.value.fetchedAt) else None))
  {
  }

  function StateOf(t: Tables, tracker: TrackerKey): Option<FeedState> {
    if tracker in t.feed then Some(t.feed[tracker]) else None
  }

  function Ingested(t: Tables, tracker: TrackerKey, batch: Batch, fetchedAt: int): Tables {
    Tables(
      Pruned(Buffered(t.buffer, batch.releases, fetchedAt), fetchedAt),
      t.feed[tracker := NextState(StateOf(t, tracker), batch, fetchedAt)])
  }

  function Marked(t: Tables, tracker: TrackerKey, complete: bool, attemptedAt: int): Tables {
    if tracker !in t.feed then t
    else
      var s := t.feed[tracker].(lastRecoveryAttemptAt := Some(attemptedAt));
      t.(feed := t.feed[tracker :=
        if complete then
          s.(coverage := Recovered, unresolvedGapSince := None, recoveredAt := Some(attemptedAt), lastContinuousAt := Some(attemptedAt))
        else s.(coverage := Gap)])
  }

  /** What the next poll compares with and what the checks rely on. */
  predicate SameFollowing(s: FeedState, s': FeedState) {
    && s'.previousKeys == s.previousKeys && s'.continuousSince == s.continuousSince && s'.fetchedAt == s.fetchedAt
    && s'.lastGapAt == s.lastGapAt && s'.entryCount == s.entryCount
    && s'.oldestEntryAt == s.oldestEntryAt && s'.newestEntryAt == s.newestEntryAt
  }

  /** The tracker's rows by topic, which is what a poll's view of the buffer looks topics up in. */
  function ViewOf(buffer: map<RowKey, Row>, tracker: TrackerKey): map<TopicId, Row> {
    map key | key in buffer && key.0 == tracker :: key.1 := buffer[key]
  }

  // ----- The tables, updated in place

  class ReleaseTables {
    var buffer: map<RowKey, Row>
    var feed: map<TrackerKey, FeedState>

    ghost function Value(): Tables
      reads this
    {
      Tables(buffer, feed)
    }

    constructor (t: Tables)
      ensures Value() == t
    {
      buffer, feed := t.buffer, t.feed;
    }

    method BufferReleases(releases: seq<Release>, observedAt: int)
      modifies this`buffer
      ensures buffer == Buffered(old(buffer), releases, observedAt)
    {
      for i := 0 to |releases|
        invariant buffer == Buffered(old(buffer), releases[..i], observedAt)
      {
        assert releases[..i + 1][..i] == releases[..i];
        buffer := Upserted(buffer, releases[i], observedAt);
      }
      assert releases[..|releases|] == releases;
    }

    /** Rows seen within the retention survive as they are, and no others. */
    method PruneReleaseBuffer(now: int)
      modifies this`buffer
      ensures forall key :: key in buffer <==> key in old(buffer) && old(buffer)[key].lastSeen >= now - 1_209_600_000
      ensures forall key | key in buffer :: buffer[key] == old(buffer)[key]
      ensures buffer == Pruned(old(buffer), now)
    {
      buffer := buffer - set key | key in buffer && buffer[key].lastSeen < now - RETENTION_MS;
    }

    method IngestRollingFeedBatch(tracker: TrackerKey, batch: Batch, fetchedAt: int) returns (r: RollingFeed)
      modifies this
      ensures Value() == Ingested(old(Value()), tracker, batch, fetchedAt)
      ensures var s := feed[tracker];
              && r.continuousSince == s.continuousSince && r.unresolvedGapSince == s.unresolvedGapSince
              && r.lastGapAt == s.lastGapAt && r.fetchedAt == fetchedAt && r.coverage == s.coverage
              && r.overlapCount == s.overlapCount && r.newEntryCount == s.newEntryCount
              && r.gapDetected == GapDetected(old(StateOf(Value(), tracker)), s.previousKeys)
              && r.bufferedCount == |set key | key in buffer && key.0 == tracker|
    {
      var previous := if tracker in feed then Some(feed[tracker]) else None;
      var next := NextState(previous, batch, fetchedAt);
      BufferReleases(batch.releases, fetchedAt);
      feed := feed[tracker := next];
      PruneReleaseBuffer(fetchedAt);
      r := RollingFeed(
        fetchedAt, next.overlapCount, next.newEntryCount, next.coverage, GapDetected(previous, next.previousKeys),
        next.unresolvedGapSince, next.lastGapAt, next.continuousSince, |set key | key in buffer && key.0 == tracker|);
    }

    /**
     * The gap closes exactly if the attempt was complete. What the next poll compares with, the start of
     * continuity and the latest detection stay, and so does every other tracker.
     */
    method MarkFeedRecovery(tracker: TrackerKey, complete: bool, attemptedAt: int)
      modifies this`feed
      ensures feed.Keys == old(feed).Keys && forall other | other in feed && other != tracker :: feed[other] == old(feed)[other]
      ensures tracker in feed ==>
                var s, s' := old(feed)[tracker], feed[tracker];
                && s'.unresolvedGapSince == (if complete then None else s.unresolvedGapSince)
                && s'.recoveredAt == (if complete then Some(attemptedAt) else s.recoveredAt)
                && s'.lastRecoveryAttemptAt == Some(attemptedAt)
                && s'.coverage == (if complete then Recovered else Gap)
                && s'.lastContinuousAt == (if complete then Some(attemptedAt) else s.lastContinuousAt)
                && SameFollowing(s, s') && s'.overlapCount == s.overlapCount && s'.newEntryCount == s.newEntryCount
      ensures Value() == Marked(old(Value()), tracker, complete, attemptedAt)
    {
      if tracker in feed {
        var s := feed[tracker].(lastRecoveryAttemptAt := Some(attemptedAt));
        feed := feed[tracker :=
          if complete then
            s.(coverage := Recovered, unresolvedGapSince := None, recoveredAt := Some(attemptedAt), lastContinuousAt := Some(attemptedAt))
          else s.(coverage := Gap)];
      }
    }
  }

  // ----- A poll's view of the buffer

  datatype Prepared = Prepared(releases: map<TopicId, Row>)

  /** Read once per poll; each mirror's copy is prepared the first time a rule on that mirror needs it. */
  class ReleaseBufferView {
    const table: ReleaseTables
    const tracker: TrackerKey
    const onMirror: (Row, string) -> Row
    var byExternalId: map<TopicId, Row>
    var mirrors: map<string, Prepared>

    function OnMirror(baseUrl: string): Prepared
      reads this
    {
      Prepared(map id | id in byExternalId :: onMirror(byExternalId[id], baseUrl))
    }

    /** No prepared copy outlives the rows it was made from. */
    ghost predicate Valid()
      reads this
    {
      forall baseUrl | baseUrl in mirrors :: mirrors[baseUrl] == OnMirror(baseUrl)
    }

    constructor (table: ReleaseTables, tracker: TrackerKey, onMirror: (Row, string) -> Row)
      ensures Valid() && this.table == table && this.tracker == tracker && this.onMirror == onMirror
      ensures byExternalId == ViewOf(table.buffer, tracker)
    {
      this.table, this.tracker, this.onMirror := table, tracker, onMirror;
      byExternalId := ViewOf(table.buffer, tracker);
      mirrors := map[];
    }

    method Reload()
      modifies this
      ensures Valid() && byExternalId == ViewOf(table.buffer, tracker)
    {
      byExternalId := ViewOf(table.buffer, tracker);
      mirrors := map[];
    }

    method ForMirror(baseUrl: string) returns (p: Prepared)
      requires Valid()
      modifies this`mirrors
      ensures Valid() && p == OnMirror(baseUrl)
    {
      if baseUrl !in mirrors {
        mirrors := mirrors[baseUrl := OnMirror(baseUrl)];
      }
      p := mirrors[baseUrl];
    }
  }
}

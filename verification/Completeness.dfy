/**
 * What a catch-up search brings back of the updates that a feed gap lost: the search (SearchRecovery) and the
 * buffer (FeedFollowing) joined, and an update that is lost.
 */
module Completeness {
  import opened Wrappers
  import MTF = MoveToFront
  import RB = ReleaseBuffer
  import FF = FeedFollowing
  import SR = SearchRecovery

  type TopicId = MTF.TopicId

  // ----- What a search can find

  /** The results list the newest update of each topic that the search terms find, as the tracker dated it at some moment. */
  ghost predicate ResultsShow(site: SR.Site, log: MTF.Log, seen: nat, finds: TopicId -> bool) {
    && seen <= |log|
    && (forall r | r in site.results :: exists i: nat :: MTF.IsLatest(log, seen, i) && finds(log[i].topic) && r == ResultOf(log, i))
    && (forall i: nat | MTF.IsLatest(log, seen, i) && finds(log[i].topic) :: ResultOf(log, i) in site.results)
  }

  function ResultOf(log: MTF.Log, i: nat): SR.Release
    requires i < |log|
  {
    SR.Release(log[i].topic, Some(log[i].stamp))
  }

  /** The releases that are buffered are those the search brought back. */
  predicate Carries(releases: seq<RB.Release>, t: RB.TrackerKey, found: seq<SR.Release>) {
    && |releases| == |found|
    && forall k | 0 <= k < |found| ::
         releases[k].tracker == t && releases[k].id == found[k].id && releases[k].published == found[k].published
  }

  /** A search from `since` on, complete or not, of the tracker as it was at some moment after the feed last ingested. */
  ghost predicate Searched(
    w: FF.World, t: RB.TrackerKey, site: SR.Site, seen: nat, finds: TopicId -> bool, since: int, b: SR.Recovery,
    releases: seq<RB.Release>)
  {
    && w.FollowedTo(t) <= seen && ResultsShow(site, w.Log(t), seen, finds)
    && SR.IsRecovery(site, since, b) && Carries(releases, t, b.releases)
  }

  /** A complete one. */
  ghost predicate SearchedWhole(
    w: FF.World, t: RB.TrackerKey, site: SR.Site, seen: nat, finds: TopicId -> bool, since: int, b: SR.Recovery,
    releases: seq<RB.Release>)
  {
    Searched(w, t, site, seen, finds, since, b, releases) && b.complete
  }

  predicate BufferedAs(w: FF.World, t: RB.TrackerKey, u: MTF.Update) {
    (t, u.topic) in w.tables.buffer && w.tables.buffer[(t, u.topic)].published == Some(u.stamp)
  }

  lemma FoundIsLatest(
    w: FF.World, t: RB.TrackerKey, site: SR.Site, seen: nat, finds: TopicId -> bool, since: int, b: SR.Recovery, releases: seq<RB.Release>,
    r: RB.Release) returns (i: nat)
    requires Searched(w, t, site, seen, finds, since, b, releases) && r in releases
    ensures MTF.IsLatest(w.Log(t), seen, i) && r.tracker == t && r.id == w.Log(t)[i].topic
    ensures r.published == Some(w.Log(t)[i].stamp) && w.Log(t)[i].stamp >= since
  {
    var k :| 0 <= k < |releases| && releases[k] == r;
    var x := b.releases[k];
    assert x in b.releases;
    assert x in site.results[..b.readTo];
    assert x in site.results;
    i :| MTF.IsLatest(w.Log(t), seen, i) && finds(w.Log(t)[i].topic) && x == ResultOf(w.Log(t), i);
  }

  /** What a search brings back, complete or not, carries true stamps, so the feed goes on being followed. */
  lemma SearchIsTrue(
    w: FF.World, t: RB.TrackerKey, site: SR.Site, seen: nat, finds: TopicId -> bool, since: int, b: SR.Recovery, releases: seq<RB.Release>)
    requires Searched(w, t, site, seen, finds, since, b, releases)
    ensures FF.Enabled(w, FF.CaughtUp(t, releases))
  {
    forall r | r in releases ensures r.tracker == t && FF.TrueStamp(w.Log(t), w.FollowedTo(t), r) {
      var i := FoundIsLatest(w, t, site, seen, finds, since, b, releases, r);
    }
  }

  lemma FoundIfRecent(
    w: FF.World, t: RB.TrackerKey, site: SR.Site, seen: nat, finds: TopicId -> bool, since: int, b: SR.Recovery, releases: seq<RB.Release>, i: nat)
    requires SearchedWhole(w, t, site, seen, finds, since, b, releases)
    requires MTF.IsLatest(w.Log(t), seen, i) && finds(w.Log(t)[i].topic) && w.Log(t)[i].stamp >= since
    ensures exists r :: r in releases && RB.RowOf(r) == (t, w.Log(t)[i].topic)
  {
    var x := ResultOf(w.Log(t), i);
    assert x in site.results && x in b.releases;
    var k :| 0 <= k < |b.releases| && b.releases[k] == x;
    assert releases[k] in releases && RB.RowOf(releases[k]) == (t, w.Log(t)[i].topic);
  }

  /**
   * Exactly what catching up brings. Of the topics that the terms find, the newest update is buffered after a
   * complete search if and only if the tracker dated it at or after `since`, or it was buffered before.
   */
  lemma CatchUpBringsExactly(
    w: FF.World, t: RB.TrackerKey, site: SR.Site, seen: nat, finds: TopicId -> bool, since: int, b: SR.Recovery, releases: seq<RB.Release>, i: nat)
    requires SearchedWhole(w, t, site, seen, finds, since, b, releases)
    requires MTF.IsLatest(w.Log(t), seen, i) && finds(w.Log(t)[i].topic)
    ensures FF.Enabled(w, FF.CaughtUp(t, releases))
    ensures BufferedAs(FF.After(w, FF.CaughtUp(t, releases)), t, w.Log(t)[i]) <==>
            w.Log(t)[i].stamp >= since || BufferedAs(w, t, w.Log(t)[i])
  {
    SearchIsTrue(w, t, site, seen, finds, since, b, releases);
    var u := w.Log(t)[i];
    var key := (t, u.topic);
    RB.BufferedRow(w.tables.buffer, releases, w.now, key);
    forall r | r in releases && RB.RowOf(r) == key ensures r.published == Some(u.stamp) && u.stamp >= since {
      var j := FoundIsLatest(w, t, site, seen, finds, since, b, releases, r);
      assert j == i;
    }
    if u.stamp >= since {
      FoundIfRecent(w, t, site, seen, finds, since, b, releases, i);
    }
  }

  /** Ten minutes after the previous poll nothing can be dated before it any more. */
  lemma LateUpdatesAreDatedAfter(start: FF.World, steps: seq<FF.Step>, t: RB.TrackerKey, since: int, i: nat)
    requires FF.Start(start) && FF.Admissible(start, steps)
    requires var w := FF.Run(start, steps); i < |w.Log(t)| && w.Log(t)[i].at >= since + FF.SKEW
    ensures FF.Run(start, steps).Log(t)[i].stamp > since
  {
    FF.RunIsGenuine(start, steps, t);
  }

  /**
   * Catching up after a gap. In any run with an open gap, a complete search from the start of the gap buffers
   * the newest update of every topic that its terms find and that the tracker dated from then on, which is
   * every update made ten minutes after the poll before the gap; and of the updates the feed lost no others.
   */
  lemma GapIsMadeUpExactly(
    start: FF.World, steps: seq<FF.Step>, t: RB.TrackerKey, site: SR.Site, seen: nat, finds: TopicId -> bool, b: SR.Recovery,
    releases: seq<RB.Release>, i: nat)
    requires FF.Start(start) && FF.Admissible(start, steps)
    requires var w := FF.Run(start, steps);
             && t in w.tables.feed && w.tables.feed[t].unresolvedGapSince.Some?
             && SearchedWhole(w, t, site, seen, finds, w.tables.feed[t].unresolvedGapSince.value, b, releases)
             && MTF.IsLatest(w.Log(t), seen, i) && finds(w.Log(t)[i].topic) && !BufferedAs(w, t, w.Log(t)[i])
    ensures var w := FF.Run(start, steps);
            var u, since := w.Log(t)[i], w.tables.feed[t].unresolvedGapSince.value;
            && FF.Enabled(w, FF.CaughtUp(t, releases))
            && (BufferedAs(FF.After(w, FF.CaughtUp(t, releases)), t, u) <==> u.stamp >= since)
            && (u.at >= since + FF.SKEW ==> BufferedAs(FF.After(w, FF.CaughtUp(t, releases)), t, u))
  {
    var w := FF.Run(start, steps);
    var since := w.tables.feed[t].unresolvedGapSince.value;
    CatchUpBringsExactly(w, t, site, seen, finds, since, b, releases, i);
    if w.Log(t)[i].at >= since + FF.SKEW {
      LateUpdatesAreDatedAfter(start, steps, t, since, i);
    }
  }

  // ----- How long the date lasts

  /** The topic is buffered with the date of the update, or a later one. */
  predicate DatedFrom(w: FF.World, t: RB.TrackerKey, i: nat) {
    && i < |w.Log(t)|
    && var u := w.Log(t)[i];
       (t, u.topic) in w.tables.buffer
       && var row := w.tables.buffer[(t, u.topic)]; row.published.Some? && row.published.value >= u.stamp
  }

  predicate IsListed(log: MTF.Log, s: MTF.Snapshot, topic: TopicId)
    requires MTF.ValidSnapshot(log, s)
  {
    exists k | k in MTF.Window(log, s) :: k < |log| && log[k].topic == topic
  }

  predicate RecentlySeen(w: FF.World, t: RB.TrackerKey, topic: TopicId) {
    (t, topic) in w.tables.buffer && w.tables.buffer[(t, topic)].lastSeen >= w.now - RB.RETENTION_MS
  }

  lemma LatestStamp(log: MTF.Log, n: nat, k: nat, i: nat)
    requires MTF.Genuine(log, FF.SKEW) && MTF.IsLatest(log, n, k) && i < |log| && log[k].topic == log[i].topic
    ensures log[k].stamp >= log[i].stamp <==> i < n
  {
  }

  lemma ListedRowAfter(w: FF.World, t: RB.TrackerKey, batch: RB.Batch, topic: TopicId) returns (k: nat)
    requires FF.Enabled(w, FF.Polled(t, batch)) && FF.TrackerInv(w, t) && IsListed(w.Log(t), w.fetches[t], topic)
    ensures MTF.IsLatest(w.Log(t), w.fetches[t].time, k) && w.Log(t)[k].topic == topic
    ensures var buffer := FF.After(w, FF.Polled(t, batch)).tables.buffer;
            (t, topic) in buffer && buffer[(t, topic)].published == Some(w.Log(t)[k].stamp)
  {
    var log, fetch := w.Log(t), w.fetches[t];
    k :| k in MTF.Window(log, fetch) && k < |log| && log[k].topic == topic;
    MTF.WindowEntries(log, fetch);
    assert MTF.IsLatest(log, fetch.time, k);
    FF.ListedRow(log, fetch, t, batch, w.now, w.tables.buffer, k);
  }

  /** A topic that the poll's feed lists gets the date it had when the feed was fetched. */
  lemma ListedIsDated(w: FF.World, t: RB.TrackerKey, batch: RB.Batch, i: nat)
    requires FF.Enabled(w, FF.Polled(t, batch)) && FF.TrackerInv(w, t) && i < |w.Log(t)|
    requires IsListed(w.Log(t), w.fetches[t], w.Log(t)[i].topic)
    ensures DatedFrom(FF.After(w, FF.Polled(t, batch)), t, i) <==> i < w.fetches[t].time
  {
    var k := ListedRowAfter(w, t, batch, w.Log(t)[i].topic);
    LatestStamp(w.Log(t), w.fetches[t].time, k, i);
    assert FF.After(w, FF.Polled(t, batch)).Log(t) == w.Log(t);
  }

  /** One that it does not list keeps its row. */
  lemma UnlistedIsKept(w: FF.World, t: RB.TrackerKey, batch: RB.Batch, topic: TopicId)
    requires FF.Enabled(w, FF.Polled(t, batch)) && FF.TrackerInv(w, t) && RecentlySeen(w, t, topic)
    requires !IsListed(w.Log(t), w.fetches[t], topic)
    ensures var buffer := FF.After(w, FF.Polled(t, batch)).tables.buffer;
            (t, topic) in buffer && buffer[(t, topic)] == w.tables.buffer[(t, topic)]
  {
    FF.UnlistedRow(w.Log(t), w.fetches[t], t, batch, w.now, w.tables.buffer, (t, topic));
  }

  /**
   * Exactly when a poll puts back a date that catching up gave: if its feed lists the topic and was fetched before
   * the update, as one may be that was fetched before the search.
   */
  lemma DateIsPutBackExactly(w: FF.World, t: RB.TrackerKey, batch: RB.Batch, i: nat)
    requires FF.Enabled(w, FF.Polled(t, batch)) && FF.TrackerInv(w, t)
    requires DatedFrom(w, t, i) && RecentlySeen(w, t, w.Log(t)[i].topic)
    ensures DatedFrom(FF.After(w, FF.Polled(t, batch)), t, i) <==>
            !(IsListed(w.Log(t), w.fetches[t], w.Log(t)[i].topic) && w.fetches[t].time <= i)
  {
    if IsListed(w.Log(t), w.fetches[t], w.Log(t)[i].topic) {
      ListedIsDated(w, t, batch, i);
    } else {
      UnlistedIsKept(w, t, batch, w.Log(t)[i].topic);
    }
  }

  /** While no gap is found, a topic updated between the feed last ingested and this one is listed by this one. */
  lemma UpdatedSinceIsListed(w: FF.World, t: RB.TrackerKey, batch: RB.Batch, i: nat)
    requires FF.Enabled(w, FF.Polled(t, batch)) && FF.TrackerInv(w, t) && t in w.followed
    requires !RB.GapDetected(RB.StateOf(w.tables, t), RB.Unique(RB.Keys(batch.releases)))
    requires w.FollowedTo(t) <= i < w.fetches[t].time
    ensures IsListed(w.Log(t), w.fetches[t], w.Log(t)[i].topic)
  {
    var log, first, fetch := w.Log(t), w.followed[t].snapshot, w.fetches[t];
    FF.NoGapSharesKey(log, first, fetch, t, batch, w.now, w.tables.feed[t]);
    var j := FF.NewestOf(log, fetch.time, i);
    MTF.OverlapMissesNothing(log, FF.SKEW, first, fetch, j);
  }

  /**
   * So what the feed last ingested could list keeps its date: a poll that finds no gap leaves every update it could
   * list, by then, dated, if those its predecessor could list were.
   */
  lemma PollKeepsDates(w: FF.World, t: RB.TrackerKey, batch: RB.Batch, i: nat)
    requires FF.Enabled(w, FF.Polled(t, batch)) && FF.TrackerInv(w, t) && t in w.followed
    requires !RB.GapDetected(RB.StateOf(w.tables, t), RB.Unique(RB.Keys(batch.releases)))
    requires i < w.fetches[t].time && RecentlySeen(w, t, w.Log(t)[i].topic) && (i < w.FollowedTo(t) ==> DatedFrom(w, t, i))
    ensures DatedFrom(FF.After(w, FF.Polled(t, batch)), t, i)
  {
    if w.FollowedTo(t) <= i {
      UpdatedSinceIsListed(w, t, batch, i);
    }
    if IsListed(w.Log(t), w.fetches[t], w.Log(t)[i].topic) {
      ListedIsDated(w, t, batch, i);
    } else {
      UnlistedIsKept(w, t, batch, w.Log(t)[i].topic);
    }
  }

  lemma OtherPollKeepsDates(w: FF.World, other: RB.TrackerKey, batch: RB.Batch, t: RB.TrackerKey, i: nat)
    requires FF.Enabled(w, FF.Polled(other, batch)) && other != t && DatedFrom(w, t, i) && RecentlySeen(w, t, w.Log(t)[i].topic)
    ensures DatedFrom(FF.After(w, FF.Polled(other, batch)), t, i)
  {
    var key := (t, w.Log(t)[i].topic);
    forall r | r in batch.releases ensures RB.RowOf(r) != key {
      var k :| 0 <= k < |batch.releases| && batch.releases[k] == r;
    }
    RB.BufferedRow(w.tables.buffer, batch.releases, w.now, key);
  }

  lemma TrueStampIsNoEarlier(log: MTF.Log, followedTo: nat, r: RB.Release, i: nat)
    requires MTF.Genuine(log, FF.SKEW) && FF.TrueStamp(log, followedTo, r)
    requires i < followedTo && i < |log| && log[i].topic == r.id && r.published.Some?
    ensures r.published.value >= log[i].stamp
  {
    var j :| 0 <= j < |log| && log[j].topic == r.id && log[j].stamp == r.published.value
             && forall k | 0 <= k < followedTo && k < |log| && log[k].topic == r.id :: k <= j;
  }

  /** A later search dates a topic no earlier than the feed could show it. */
  lemma CatchUpKeepsDates(w: FF.World, tracker: RB.TrackerKey, releases: seq<RB.Release>, t: RB.TrackerKey, i: nat)
    requires FF.Enabled(w, FF.CaughtUp(tracker, releases)) && FF.TrackerInv(w, t) && DatedFrom(w, t, i) && i < w.FollowedTo(t)
    ensures DatedFrom(FF.After(w, FF.CaughtUp(tracker, releases)), t, i)
  {
    var log, key := w.Log(t), (t, w.Log(t)[i].topic);
    RB.BufferedRow(w.tables.buffer, releases, w.now, key);
    forall r | r in releases && RB.RowOf(r) == key && r.published.Some? ensures r.published.value >= log[i].stamp {
      TrueStampIsNoEarlier(log, w.FollowedTo(t), r, i);
    }
  }

  // ----- An update that is lost

  lemma {:induction false} RunInTwo(w: FF.World, first: seq<FF.Step>, second: seq<FF.Step>)
    requires FF.Admissible(w, first) && FF.Admissible(FF.Run(w, first), second)
    ensures FF.Admissible(w, first + second) && FF.Run(w, first + second) == FF.Run(FF.Run(w, first), second)
    decreases |first|
  {
    if first == [] {
      assert first + second == second;
    } else {
      assert (first + second)[0] == first[0] && (first + second)[1..] == first[1..] + second;
      RunInTwo(FF.After(w, first[0]), first[1..], second);
    }
  }

  lemma Append(w: FF.World, steps: seq<FF.Step>, step: FF.Step)
    requires FF.Admissible(w, steps) && FF.Enabled(FF.Run(w, steps), step)
    ensures FF.Admissible(w, steps + [step]) && FF.Run(w, steps + [step]) == FF.After(FF.Run(w, steps), step)
  {
    assert [step][1..] == [];
    RunInTwo(w, steps, [step]);
  }

  /** A fetch of one entry lists the newest update. */
  lemma NewestOnly(log: MTF.Log, n: nat)
    requires 0 < n <= |log|
    ensures MTF.ValidSnapshot(log, MTF.Snapshot(n, 1)) && MTF.Window(log, MTF.Snapshot(n, 1)) == [n - 1]
  {
  }

  function BatchOf(u: MTF.Update): RB.Batch {
    RB.Batch([RB.Release(0, u.topic, "", "", None, None, Some(u.stamp))], Some(u.stamp), Some(u.stamp))
  }

  lemma BatchLists(log: MTF.Log, n: nat)
    requires 0 < n <= |log|
    ensures MTF.ValidSnapshot(log, MTF.Snapshot(n, 1)) && FF.Lists(BatchOf(log[n - 1]), 0, log, MTF.Snapshot(n, 1))
  {
    NewestOnly(log, n);
    var releases := BatchOf(log[n - 1]).releases;
    assert releases[..0] == [];
    assert RB.Stamps(releases) == [log[n - 1].stamp];
    assert [log[n - 1].stamp][1..] == [];
  }

  lemma OneKey(u: MTF.Update)
    ensures RB.Unique(RB.Keys(BatchOf(u).releases)) == [RB.Stamped(u.topic, Some(u.stamp))]
  {
    var keys := RB.Keys(BatchOf(u).releases);
    assert keys == [RB.Stamped(u.topic, Some(u.stamp))];
    assert keys[..0] == [];
  }

  const FIRST := MTF.Update(1, 0, 0)
  /** Made twenty seconds after a fetch that is ingested thirty seconds later. */
  const LOST := MTF.Update(2, 20_000, 20_000)
  const LAST := MTF.Update(3, 60_000, 60_000)

  /** One poll of one entry: what it compares with next, and that no other topic is buffered by it. */
  lemma OneEntryPolled(previous: Option<RB.FeedState>, buffer: map<RB.RowKey, RB.Row>, u: MTF.Update, now: int, other: TopicId)
    requires (0, other) !in buffer && other != u.topic
    ensures var s := RB.NextState(previous, BatchOf(u), now);
            s.fetchedAt == now && s.previousKeys == [RB.Stamped(u.topic, Some(u.stamp))]
    ensures (0, other) !in RB.Pruned(RB.Buffered(buffer, BatchOf(u).releases, now), now)
  {
    OneKey(u);
    RB.BufferedRow(buffer, BatchOf(u).releases, now, (0, other));
    assert RB.Latest(BatchOf(u).releases, (0, other)).None?;
  }

  /** A new key is a gap unless it was there before, and an open one begins with the poll before. */
  lemma OneEntryGap(previous: RB.FeedState, u: MTF.Update, now: int)
    requires previous.previousKeys != [] && RB.Stamped(u.topic, Some(u.stamp)) !in previous.previousKeys
    requires RB.Legacy(u.topic) !in previous.previousKeys && previous.unresolvedGapSince == None
    ensures RB.NextState(Some(previous), BatchOf(u), now).unresolvedGapSince == Some(previous.fetchedAt)
  {
    OneKey(u);
    var keys := [RB.Stamped(u.topic, Some(u.stamp))];
    assert keys[..0] == [];
    assert RB.CountOverlap(previous.previousKeys, keys) == 0;
  }

  lemma PollOfOneEntry(w: FF.World, log: MTF.Log, n: nat, u: MTF.Update, other: TopicId)
    requires w.logs == map[0 := log] && w.fetches == map[0 := MTF.Snapshot(n, 1)] && 0 < n <= |log| && log[n - 1] == u
    requires (0, other) !in w.tables.buffer && other != u.topic
    ensures FF.Enabled(w, FF.Polled(0, BatchOf(u)))
    ensures var w' := FF.After(w, FF.Polled(0, BatchOf(u)));
            && w'.now == w.now && w'.logs == w.logs && w'.fetches == w.fetches && (0, other) !in w'.tables.buffer
            && w'.tables.feed == w.tables.feed[0 := RB.NextState(RB.StateOf(w.tables, 0), BatchOf(u), w.now)]
            && w'.tables.feed[0].fetchedAt == w.now && w'.tables.feed[0].previousKeys == [RB.Stamped(u.topic, Some(u.stamp))]
  {
    BatchLists(log, n);
    OneEntryPolled(RB.StateOf(w.tables, 0), w.tables.buffer, u, w.now, other);
  }

  /** The first poll ingests a feed fetched before the lost update, the second one lists neither. */
  lemma PollsOfTheLostUpdate(w: FF.World)
    requires w.now == 50_000 && w.tables.feed == map[] && w.tables.buffer == map[]
    requires w.fetches == map[0 := MTF.Snapshot(1, 1)] && w.logs == map[0 := [FIRST, LOST]]
    ensures FF.Enabled(w, FF.Polled(0, BatchOf(FIRST)))
    ensures var w' := FF.After(w, FF.Polled(0, BatchOf(FIRST)));
            && w'.now == w.now && w'.logs == w.logs && w'.fetches == w.fetches && (0, 2) !in w'.tables.buffer
            && w'.tables.feed.Keys == {0}
            && var s := w'.tables.feed[0];
               s.fetchedAt == 50_000 && s.previousKeys == [RB.Stamped(1, Some(0))] && s.unresolvedGapSince == None
  {
    PollOfOneEntry(w, [FIRST, LOST], 1, FIRST, 2);
  }

  lemma GapOfTheLostUpdate(w: FF.World)
    requires w.now == 60_000 && w.fetches == map[0 := MTF.Snapshot(3, 1)] && w.logs == map[0 := [FIRST, LOST, LAST]]
    requires w.tables.feed.Keys == {0} && (0, 2) !in w.tables.buffer
    requires var s := w.tables.feed[0];
             s.fetchedAt == 50_000 && s.previousKeys == [RB.Stamped(1, Some(0))] && s.unresolvedGapSince == None
    ensures FF.Enabled(w, FF.Polled(0, BatchOf(LAST)))
    ensures var w' := FF.After(w, FF.Polled(0, BatchOf(LAST)));
            && w'.logs == w.logs && (0, 2) !in w'.tables.buffer
            && 0 in w'.tables.feed && w'.tables.feed[0].unresolvedGapSince == Some(50_000)
  {
    PollOfOneEntry(w, [FIRST, LOST, LAST], 3, LAST, 2);
    OneEntryGap(w.tables.feed[0], LAST, 60_000);
  }

  function LosingStart(): FF.World {
    FF.World(0, map[0 := [FIRST]], map[], RB.Tables(map[], map[]), map[], map[], map[], map[])
  }

  lemma LosingStartAt(t: RB.TrackerKey)
    ensures var w := LosingStart();
            && MTF.Genuine(w.Log(t), FF.SKEW) && (forall i | 0 <= i < |w.Log(t)| :: w.Log(t)[i].at <= w.now)
            && FF.Truthful(w.Log(t), RB.ViewOf(w.tables.buffer, t))
  {
    var log := LosingStart().Log(t);
    assert log == if t == 0 then [FIRST] else [];
    assert RB.ViewOf(map[], t) == map[];
  }

  lemma LosingStartIsAStart()
    ensures FF.Start(LosingStart())
  {
    forall t: RB.TrackerKey
      ensures var w := LosingStart();
              && MTF.Genuine(w.Log(t), FF.SKEW) && (forall i | 0 <= i < |w.Log(t)| :: w.Log(t)[i].at <= w.now)
              && FF.Truthful(w.Log(t), RB.ViewOf(w.tables.buffer, t))
    {
      LosingStartAt(t);
    }
  }

  /** From a world onwards, the steps that lead to another. */
  ghost predicate Leads(w: FF.World, steps: seq<FF.Step>, w': FF.World) {
    FF.Admissible(w, steps) && FF.Run(w, steps) == w'
  }

  lemma Next(start: FF.World, steps: seq<FF.Step>, w: FF.World, step: FF.Step)
    requires Leads(start, steps, w) && FF.Enabled(w, step)
    ensures Leads(start, steps + [step], FF.After(w, step))
  {
    Append(start, steps, step);
  }

  /** The fetch, and the update that comes twenty seconds after it. */
  lemma UpdateAfterTheFetch(w: FF.World) returns (steps: seq<FF.Step>, w': FF.World)
    requires w == LosingStart()
    ensures Leads(w, steps, w')
    ensures w' == w.(now := 50_000, logs := map[0 := [FIRST, LOST]], fetches := map[0 := MTF.Snapshot(1, 1)])
  {
    NewestOnly([FIRST], 1);
    steps, w' := [FF.FeedFetched(0, 1)], FF.After(w, FF.FeedFetched(0, 1));
    assert steps[1..] == [];
    assert Leads(w, steps, w');
    Next(w, steps, w', FF.Wait(20_000));
    steps, w' := steps + [FF.Wait(20_000)], FF.After(w', FF.Wait(20_000));
    Next(w, steps, w', FF.TopicUpdated(0, 2, 20_000));
    steps, w' := steps + [FF.TopicUpdated(0, 2, 20_000)], FF.After(w', FF.TopicUpdated(0, 2, 20_000));
    Next(w, steps, w', FF.Wait(30_000));
    steps, w' := steps + [FF.Wait(30_000)], FF.After(w', FF.Wait(30_000));
    assert [FIRST] + [LOST] == [FIRST, LOST];
  }

  lemma TwoMore(start: FF.World, steps: seq<FF.Step>, w: FF.World, x: FF.Step, y: FF.Step)
    requires Leads(start, steps, w) && FF.Enabled(w, x) && FF.Enabled(FF.After(w, x), y)
    ensures Leads(start, steps + [x] + [y], FF.After(FF.After(w, x), y))
  {
    Next(start, steps, w, x);
    Next(start, steps + [x], FF.After(w, x), y);
  }

  lemma LastUpdate(w: FF.World)
    requires w.now == 50_000 && w.logs == map[0 := [FIRST, LOST]]
    ensures FF.Enabled(w, FF.Wait(10_000)) && FF.Enabled(FF.After(w, FF.Wait(10_000)), FF.TopicUpdated(0, 3, 60_000))
    ensures var w' := FF.After(FF.After(w, FF.Wait(10_000)), FF.TopicUpdated(0, 3, 60_000));
            w' == w.(now := 60_000, logs := map[0 := [FIRST, LOST, LAST]])
  {
    assert [FIRST, LOST] + [LAST] == [FIRST, LOST, LAST];
  }

  lemma LastFetch(start: FF.World, before: seq<FF.Step>, w: FF.World) returns (steps: seq<FF.Step>, w': FF.World)
    requires Leads(start, before, w) && w.now == 50_000 && w.logs == map[0 := [FIRST, LOST]] && w.fetches == map[0 := MTF.Snapshot(1, 1)]
    ensures Leads(start, steps, w')
    ensures w' == w.(now := 60_000, logs := map[0 := [FIRST, LOST, LAST]], fetches := map[0 := MTF.Snapshot(3, 1)])
  {
    LastUpdate(w);
    TwoMore(start, before, w, FF.Wait(10_000), FF.TopicUpdated(0, 3, 60_000));
    w' := FF.After(FF.After(w, FF.Wait(10_000)), FF.TopicUpdated(0, 3, 60_000));
    NewestOnly([FIRST, LOST, LAST], 3);
    assert FF.Enabled(w', FF.FeedFetched(0, 1));
    steps := before + [FF.Wait(10_000)] + [FF.TopicUpdated(0, 3, 60_000)];
    Next(start, steps, w', FF.FeedFetched(0, 1));
    steps, w' := steps + [FF.FeedFetched(0, 1)], FF.After(w', FF.FeedFetched(0, 1));
  }

  /**
   * A run in which an update is lost. The feed fetched before it is ingested half a minute later, and the gap
   * that swallows it is taken to begin with the ingest.
   */
  lemma AnUpdateIsLost() returns (start: FF.World, steps: seq<FF.Step>)
    ensures FF.Start(start) && FF.Admissible(start, steps)
    ensures var w := FF.Run(start, steps);
            && w.Log(0) == [FIRST, LOST, LAST] && MTF.IsLatest(w.Log(0), 3, 1) && !BufferedAs(w, 0, LOST)
            && 0 in w.tables.feed && w.tables.feed[0].unresolvedGapSince == Some(50_000)
  {
    start := LosingStart();
    LosingStartIsAStart();
    var w;
    steps, w := UpdateAfterTheFetch(start);
    PollsOfTheLostUpdate(w);
    Next(start, steps, w, FF.Polled(0, BatchOf(FIRST)));
    steps, w := steps + [FF.Polled(0, BatchOf(FIRST))], FF.After(w, FF.Polled(0, BatchOf(FIRST)));
    steps, w := LastFetch(start, steps, w);
    GapOfTheLostUpdate(w);
    Next(start, steps, w, FF.Polled(0, BatchOf(LAST)));
    steps, w := steps + [FF.Polled(0, BatchOf(LAST))], FF.After(w, FF.Polled(0, BatchOf(LAST)));
  }

  /** No complete search from the start of that gap brings it back, whatever its terms find. */
  lemma TheLostUpdateStaysLost(
    start: FF.World, steps: seq<FF.Step>, site: SR.Site, seen: nat, finds: TopicId -> bool, b: SR.Recovery,
    releases: seq<RB.Release>)
    requires FF.Start(start) && FF.Admissible(start, steps)
    requires var w := FF.Run(start, steps);
             && w.Log(0) == [FIRST, LOST, LAST] && MTF.IsLatest(w.Log(0), 3, 1) && !BufferedAs(w, 0, LOST)
             && 0 in w.tables.feed && w.tables.feed[0].unresolvedGapSince == Some(50_000)
             && finds(2) && seen >= 2 && SearchedWhole(w, 0, site, seen, finds, 50_000, b, releases)
    ensures var w := FF.Run(start, steps);
            FF.Enabled(w, FF.CaughtUp(0, releases)) && !BufferedAs(FF.After(w, FF.CaughtUp(0, releases)), 0, LOST)
  {
    assert MTF.IsLatest(FF.Run(start, steps).Log(0), seen, 1);
    GapIsMadeUpExactly(start, steps, 0, site, seen, finds, b, releases, 1);
  }

  function LosingResults(): seq<SR.Release> {
    [SR.Release(3, Some(60_000)), SR.Release(2, Some(20_000)), SR.Release(1, Some(0))]
  }

  lemma LosingResultsShow(site: SR.Site, log: MTF.Log)
    requires log == [FIRST, LOST, LAST] && site.results == LosingResults()
    ensures ResultsShow(site, log, 3, (topic: TopicId) => true)
  {
    var results := LosingResults();
    assert forall i: nat :: MTF.IsLatest(log, 3, i) <==> i < 3;
    assert ResultOf(log, 2) == results[0] && ResultOf(log, 1) == results[1] && ResultOf(log, 0) == results[2];
  }

  /** There is such a search: one page of all three topics, newest first. */
  lemma SearchOfTheLostUpdate(w: FF.World) returns (site: SR.Site, b: SR.Recovery, releases: seq<RB.Release>)
    requires w.Log(0) == [FIRST, LOST, LAST] && w.FollowedTo(0) <= 3
    ensures site.NewestFirst() && site.Linked()
    ensures SearchedWhole(w, 0, site, 3, (topic: TopicId) => true, 50_000, b, releases)
  {
    var results := LosingResults();
    site := SR.Site(0, results, (s: nat) => 3, (s: nat) => [], (s: nat) => false);
    LosingResultsShow(site, w.Log(0));
    assert results[..3] == results;
    b := SR.Recovery(SR.Recent(results, 50_000), true, 1, 3);
    releases := seq(|b.releases|, k requires 0 <= k < |b.releases| =>
      RB.Release(0, b.releases[k].id, "", "", None, None, b.releases[k].published));
  }
}

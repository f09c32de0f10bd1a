/**
 * Following a rolling feed. A world holds the trackers' histories, what the server fetched, its
 * tables and the pages it loaded; a run is any interleaving of updates, fetches, polls, catch-up
 * searches, page loads, clock ticks and restarts. The main theorem: a page load is skipped only if
 * the saved page already shows every update that the feed used for the decision could list.
 */
module FeedFollowing {
  import opened Wrappers
  import opened ReleaseBuffer
  import FeedAssist
  import MTF = MoveToFront
  import Feed = RutrackerFeed

  const SKEW := FeedAssist.CLOCK_SKEW_MS

  /** A watched topic of one subscription. */
  datatype Watch = Watch(subscription: string, tracker: TrackerKey, topic: TopicId)

  /** A page load under way: its start, and how many updates the tracker had made when the page was read. */
  datatype Load = Load(startedAt: int, seen: Option<nat>)

  /** The stored page: `detail_verified_at`, and how many updates the tracker had made when it was read. */
  datatype Page = Page(verifiedAt: int, seen: nat)

  /** What a lane keeps from its feed poll for the direct checks that follow. */
  datatype Poll = Poll(continuousSince: Option<int>, view: map<TopicId, Row>)

  /** Auxiliary: the fetch last ingested, and the moment from which its tracker has been followed. */
  datatype Follow = Follow(snapshot: MTF.Snapshot, horizon: int)

  datatype World = World(
    now: int,
    logs: map<TrackerKey, MTF.Log>,
    fetches: map<TrackerKey, MTF.Snapshot>,
    tables: Tables,
    polls: map<TrackerKey, Poll>,
    loads: map<Watch, Load>,
    pages: map<Watch, Page>,
    followed: map<TrackerKey, Follow>)
  {
    function Log(tracker: TrackerKey): MTF.Log {
      if tracker in logs then logs[tracker] else []
    }

    /** How many updates the last ingested feed of the tracker reflects. */
    function FollowedTo(tracker: TrackerKey): nat {
      if tracker in followed then followed[tracker].snapshot.time else 0
    }
  }

  datatype Step =
    | Wait(ms: nat)
    | TopicUpdated(tracker: TrackerKey, topic: TopicId, stamp: int)
    | FeedFetched(tracker: TrackerKey, size: nat)
    | Polled(tracker: TrackerKey, batch: Batch)
    | CaughtUp(tracker: TrackerKey, releases: seq<Release>)
    | GapMarked(tracker: TrackerKey, complete: bool)
    | LoadStarted(watch: Watch)
    | PageRead(watch: Watch)
    | PageStored(watch: Watch)
    | LoadDropped(watch: Watch)
    | Restarted

  // ----- The feed source

  /** The batch lists exactly the entries of the fetched window, dated as the tracker dated them. */
  predicate Lists(batch: Batch, tracker: TrackerKey, log: MTF.Log, s: MTF.Snapshot)
    requires MTF.ValidSnapshot(log, s)
  {
    var w := MTF.Window(log, s);
    && |batch.releases| == |w|
    && (forall i | 0 <= i < |w| ::
          && w[i] < |log|
          && var r := batch.releases[i];
             r.tracker == tracker && r.id == log[w[i]].topic && r.published == Some(log[w[i]].stamp))
    && batch.oldestObservedAt == Least(Stamps(batch.releases))
  }

  predicate EntriesShow(entries: seq<Feed.FeedEntry>, log: MTF.Log, s: MTF.Snapshot)
    requires MTF.ValidSnapshot(log, s)
  {
    var w := MTF.Window(log, s);
    && |entries| == |w|
    && forall i | 0 <= i < |w| :: w[i] < |log| && entries[i].id == log[w[i]].topic && entries[i].updated == Some(log[w[i]].stamp)
  }

  lemma EntriesAreDistinct(
    tracker: TrackerKey, entries: seq<Feed.FeedEntry>, origin: string, log: MTF.Log, s: MTF.Snapshot, i: nat, j: nat)
    requires MTF.ValidSnapshot(log, s) && EntriesShow(entries, log, s) && i < j < |entries|
    ensures var releases := Feed.FromEntries(tracker, entries, origin); RowOf(releases[i]) != RowOf(releases[j])
  {
    MTF.WindowEntries(log, s);
    var w := MTF.Window(log, s);
    assert w[i] in w && w[j] in w && w[i] > w[j];
    assert MTF.IsLatest(log, s.time, w[i]) && MTF.IsLatest(log, s.time, w[j]);
  }

  lemma EntriesList(tracker: TrackerKey, entries: seq<Feed.FeedEntry>, origin: string, log: MTF.Log, s: MTF.Snapshot, batch: Batch)
    requires MTF.ValidSnapshot(log, s) && EntriesShow(entries, log, s)
    requires batch.releases == Feed.FromEntries(tracker, entries, origin)
    requires batch.oldestObservedAt == Least(Stamps(batch.releases))
    ensures Lists(batch, tracker, log, s)
  {
  }

  /** Discovery turns the entries of a fetched window into a batch that lists that window. */
  lemma DiscoverListsTheWindow(
    tracker: TrackerKey, entries: seq<Feed.FeedEntry>, origin: string, log: MTF.Log, s: MTF.Snapshot)
    requires MTF.ValidSnapshot(log, s) && EntriesShow(entries, log, s)
    ensures var r := Feed.Discover(tracker, entries, origin); r.Ok? && Lists(r.value, tracker, log, s)
  {
    var releases := Feed.FromEntries(tracker, entries, origin);
    forall i, j | 0 <= i < j < |releases| ensures RowOf(releases[i]) != RowOf(releases[j]) {
      EntriesAreDistinct(tracker, entries, origin, log, s, i, j);
    }
    Feed.UniqueReleasesOfDistinct(releases);
    EntriesList(tracker, entries, origin, log, s, Feed.Discover(tracker, entries, origin).value);
  }

  // ----- Steps

  /** A catch-up search reports the topic's stamp as it was at some moment not before the feed last ingested. */
  predicate TrueStamp(log: MTF.Log, followedTo: nat, r: Release) {
    r.published.Some? ==>
      exists j :: 0 <= j < |log| && log[j].topic == r.id && log[j].stamp == r.published.value
                  && forall i | 0 <= i < followedTo && i < |log| && log[i].topic == r.id :: i <= j
  }

  predicate Enabled(w: World, step: Step) {
    match step
    case Wait(_) => true
    case TopicUpdated(t, topic, stamp) =>
      && stamp > w.now - SKEW
      && forall i | 0 <= i < |w.Log(t)| && w.Log(t)[i].topic == topic :: w.Log(t)[i].stamp < stamp
    case FeedFetched(t, size) =>
      MTF.ValidSnapshot(w.Log(t), MTF.Snapshot(|w.Log(t)|, size))
    case Polled(t, batch) =>
      && t in w.fetches && MTF.ValidSnapshot(w.Log(t), w.fetches[t]) && Lists(batch, t, w.Log(t), w.fetches[t])
    case CaughtUp(t, releases) =>
      forall r | r in releases :: r.tracker == t && TrueStamp(w.Log(t), w.FollowedTo(t), r)
    case GapMarked(_, _) => true
    case LoadStarted(watch) => watch !in w.loads
    case PageRead(watch) => watch in w.loads && w.loads[watch].seen.None?
    case PageStored(watch) => watch in w.loads && w.loads[watch].seen.Some?
    case LoadDropped(watch) => true
    case Restarted => true
  }

  /** The poll starts following afresh: first poll, gap, or state saved before continuity was kept. */
  predicate StartsAfresh(w: World, tracker: TrackerKey, batch: Batch) {
    var previous := StateOf(w.tables, tracker);
    previous.None? || GapDetected(previous, Unique(Keys(batch.releases))) || previous.value.continuousSince.None?
  }

  function After(w: World, step: Step): World
    requires Enabled(w, step)
  {
    match step
    case Wait(ms) => w.(now := w.now + ms)
    case TopicUpdated(t, topic, stamp) =>
      w.(logs := w.logs[t := w.Log(t) + [MTF.Update(topic, stamp, w.now)]])
    case FeedFetched(t, size) =>
      w.(fetches := w.fetches[t := MTF.Snapshot(|w.Log(t)|, size)])
    case Polled(t, batch) =>
      var tables := Ingested(w.tables, t, batch, w.now);
      var horizon :=
        if StartsAfresh(w, t, batch) || t !in w.followed then
          var oldest := MTF.OldestTick(w.Log(t), w.fetches[t]);
          if oldest < |w.Log(t)| then w.Log(t)[oldest].at else w.now
        else w.followed[t].horizon;
      w.(tables := tables,
         polls := w.polls[t := Poll(tables.feed[t].continuousSince, ViewOf(tables.buffer, t))],
         followed := w.followed[t := Follow(w.fetches[t], horizon)])
    case CaughtUp(t, releases) =>
      var buffer := Buffered(w.tables.buffer, releases, w.now);
      w.(tables := w.tables.(buffer := buffer),
         polls := if t in w.polls then w.polls[t := w.polls[t].(view := ViewOf(buffer, t))] else w.polls)
    case GapMarked(t, complete) => w.(tables := Marked(w.tables, t, complete, w.now))
    case LoadStarted(watch) => w.(loads := w.loads[watch := Load(w.now, None)])
    case PageRead(watch) => w.(loads := w.loads[watch := w.loads[watch].(seen := Some(|w.Log(watch.tracker)|))])
    case PageStored(watch) =>
      var load := w.loads[watch];
      w.(loads := w.loads - {watch}, pages := w.pages[watch := Page(load.startedAt, load.seen.value)])
    case LoadDropped(watch) => w.(loads := w.loads - {watch})
    case Restarted => w.(fetches := map[], polls := map[], loads := map[])
  }

  predicate Admissible(w: World, steps: seq<Step>)
    decreases |steps|
  {
    steps == [] || (Enabled(w, steps[0]) && Admissible(After(w, steps[0]), steps[1..]))
  }

  function Run(w: World, steps: seq<Step>): World
    requires Admissible(w, steps)
    decreases |steps|
  {
    if steps == [] then w else Run(After(w, steps[0]), steps[1..])
  }

  // ----- The invariant

  predicate Reported(log: MTF.Log, topic: TopicId, stamp: int) {
    exists j :: 0 <= j < |log| && log[j].topic == topic && log[j].stamp == stamp
  }

  /** Every date in the view is one the tracker gave that topic. */
  predicate Truthful(log: MTF.Log, view: map<TopicId, Row>) {
    forall id | id in view && view[id].published.Some? :: Reported(log, id, view[id].published.value)
  }

  /** The view shows a topic updated at log position `i`, or the update is older than the retention. */
  predicate Shown(log: MTF.Log, i: nat, view: map<TopicId, Row>, now: int)
    requires i < |log|
  {
    var u := log[i];
    || (u.topic in view && view[u.topic].published.Some? && view[u.topic].published.value >= u.stamp && view[u.topic].lastSeen >= u.at)
    || u.at < now - RETENTION_MS
  }

  /** Every topic whose newest update, as of the fetch, came after the horizon is shown with that stamp or a later one. */
  predicate Covered(log: MTF.Log, f: Follow, view: map<TopicId, Row>, now: int) {
    forall i {:trigger MTF.IsLatest(log, f.snapshot.time, i)} |
      0 <= i < |log| && MTF.IsLatest(log, f.snapshot.time, i) && log[i].at > f.horizon :: Shown(log, i, view, now)
  }

  predicate KeysList(log: MTF.Log, s: MTF.Snapshot, keys: seq<FeedKey>)
    requires MTF.ValidSnapshot(log, s)
  {
    && keys != []
    && (forall key | key in keys ::
          exists i :: i in MTF.Window(log, s) && i < |log| && key == Stamped(log[i].topic, Some(log[i].stamp)))
    && forall i | i in MTF.Window(log, s) && i < |log| :: Stamped(log[i].topic, Some(log[i].stamp)) in keys
  }

  predicate GoodFollow(log: MTF.Log, f: Follow, continuousSince: Option<int>, view: map<TopicId, Row>, now: int) {
    && MTF.ValidSnapshot(log, f.snapshot)
    && continuousSince.Some? && continuousSince.value > f.horizon - SKEW
    && Covered(log, f, view, now)
  }

  /** One tracker's part of a world. */
  datatype Lane = Lane(
    now: int, log: MTF.Log, fetch: Option<MTF.Snapshot>, state: Option<FeedState>,
    view: map<TopicId, Row>, poll: Option<Poll>, followed: Option<Follow>)

  function LaneOf(w: World, t: TrackerKey): Lane {
    Lane(
      w.now, w.Log(t), if t in w.fetches then Some(w.fetches[t]) else None, StateOf(w.tables, t),
      ViewOf(w.tables.buffer, t), if t in w.polls then Some(w.polls[t]) else None,
      if t in w.followed then Some(w.followed[t]) else None)
  }

  predicate History(log: MTF.Log, now: int) {
    MTF.Genuine(log, SKEW) && forall i | 0 <= i < |log| :: log[i].at <= now
  }

  predicate LaneInv(l: Lane) {
    && History(l.log, l.now)
    && Truthful(l.log, l.view)
    && (l.poll.Some? ==> Truthful(l.log, l.poll.value.view))
    && (l.fetch.Some? ==>
          MTF.ValidSnapshot(l.log, l.fetch.value) && (l.followed.Some? ==> l.followed.value.snapshot.time <= l.fetch.value.time))
    && (l.followed.None? ==> l.poll.None? && (l.state.Some? ==> l.state.value.continuousSince.None?))
    && (l.followed.Some? ==>
          && l.state.Some?
          && GoodFollow(l.log, l.followed.value, l.state.value.continuousSince, l.view, l.now)
          && KeysList(l.log, l.followed.value.snapshot, l.state.value.previousKeys)
          && (l.poll.Some? ==> GoodFollow(l.log, l.followed.value, l.poll.value.continuousSince, l.poll.value.view, l.now)))
  }

  predicate TrackerInv(w: World, t: TrackerKey) {
    LaneInv(LaneOf(w, t))
  }

  /** Updates made after the page was read happened after the load started. */
  predicate LoadedAfter(log: MTF.Log, startedAt: int, seen: nat) {
    seen <= |log| && forall i | seen <= i < |log| :: log[i].at >= startedAt
  }

  predicate WatchInv(w: World, watch: Watch) {
    var log := w.Log(watch.tracker);
    && (watch in w.loads ==>
          && w.loads[watch].startedAt <= w.now
          && (w.loads[watch].seen.Some? ==> LoadedAfter(log, w.loads[watch].startedAt, w.loads[watch].seen.value)))
    && (watch in w.pages ==>
          && w.pages[watch].verifiedAt <= w.now
          && LoadedAfter(log, w.pages[watch].verifiedAt, w.pages[watch].seen))
  }

  ghost predicate Inv(w: World) {
    (forall t :: TrackerInv(w, t)) && forall watch :: WatchInv(w, watch)
  }

  /**
   * Where a run may start: any feed state comes from a version that did not keep a start of
   * continuity (it compared bare topic ids), and buffered dates are ones the tracker gave.
   */
  ghost predicate Start(w: World) {
    && w.fetches == map[] && w.polls == map[] && w.loads == map[] && w.pages == map[] && w.followed == map[]
    && forall t ::
        && MTF.Genuine(w.Log(t), SKEW)
        && (forall i | 0 <= i < |w.Log(t)| :: w.Log(t)[i].at <= w.now)
        && (t in w.tables.feed ==> w.tables.feed[t].continuousSince.None?)
        && Truthful(w.Log(t), ViewOf(w.tables.buffer, t))
  }

  // ----- More updates do not disturb what was fetched

  lemma {:induction false} ListingOfLonger(log: MTF.Log, u: MTF.Update, n: nat)
    requires n <= |log|
    ensures MTF.Listing(log + [u], n) == MTF.Listing(log, n)
  {
    if n > 0 {
      ListingOfLonger(log, u, n - 1);
      MTF.ListingIsLatestFirst(log, n - 1);
      var older := MTF.Listing(log, n - 1);
      forall i | 0 <= i < |older| ensures older[i] < |log| {
        assert older[i] in older;
      }
      WithoutOfLonger(log, u, older, log[n - 1].topic);
    }
  }

  lemma {:induction false} WithoutOfLonger(log: MTF.Log, u: MTF.Update, ticks: seq<nat>, topic: TopicId)
    requires forall i | 0 <= i < |ticks| :: ticks[i] < |log|
    ensures MTF.Without(log + [u], ticks, topic) == MTF.Without(log, ticks, topic)
  {
    if ticks != [] {
      WithoutOfLonger(log, u, ticks[1..], topic);
    }
  }

  lemma CoveredOfLonger(log: MTF.Log, longer: MTF.Log, f: Follow, view: map<TopicId, Row>, now: int)
    requires Covered(log, f, view, now) && f.snapshot.time <= |log| && log <= longer
    ensures Covered(longer, f, view, now)
  {
    forall i | 0 <= i < |longer| && MTF.IsLatest(longer, f.snapshot.time, i) && longer[i].at > f.horizon
      ensures Shown(longer, i, view, now)
    {
      assert longer[i] == log[i];
      assert MTF.IsLatest(log, f.snapshot.time, i) by {
        assert forall j | i < j < f.snapshot.time :: longer[j] == log[j];
      }
      assert Shown(log, i, view, now);
    }
  }

  lemma FollowOfLonger(log: MTF.Log, u: MTF.Update, f: Follow, continuousSince: Option<int>, view: map<TopicId, Row>, now: int)
    requires GoodFollow(log, f, continuousSince, view, now)
    ensures GoodFollow(log + [u], f, continuousSince, view, now)
  {
    ListingOfLonger(log, u, f.snapshot.time);
    CoveredOfLonger(log, log + [u], f, view, now);
  }

  lemma HistoryOfLonger(log: MTF.Log, u: MTF.Update, now: int)
    requires History(log, now) && u.at == now && u.stamp > now - SKEW
    requires forall i | 0 <= i < |log| && log[i].topic == u.topic :: log[i].stamp < u.stamp
    ensures History(log + [u], now)
  {
  }

  lemma UpdatedKeepsLane(l: Lane, u: MTF.Update)
    requires LaneInv(l) && u.at == l.now && u.stamp > l.now - SKEW
    requires forall i | 0 <= i < |l.log| && l.log[i].topic == u.topic :: l.log[i].stamp < u.stamp
    ensures LaneInv(l.(log := l.log + [u]))
  {
    HistoryOfLonger(l.log, u, l.now);
    TruthfulOfLonger(l.log, u, l.view);
    if l.poll.Some? {
      TruthfulOfLonger(l.log, u, l.poll.value.view);
    }
    if l.fetch.Some? {
      ListingOfLonger(l.log, u, l.fetch.value.time);
    }
    if l.followed.Some? {
      var f := l.followed.value;
      ListingOfLonger(l.log, u, f.snapshot.time);
      FollowOfLonger(l.log, u, f, l.state.value.continuousSince, l.view, l.now);
      KeysOfLonger(l.log, u, f.snapshot, l.state.value.previousKeys);
      if l.poll.Some? {
        FollowOfLonger(l.log, u, f, l.poll.value.continuousSince, l.poll.value.view, l.now);
      }
    }
  }

  lemma KeysOfLonger(log: MTF.Log, u: MTF.Update, s: MTF.Snapshot, keys: seq<FeedKey>)
    requires MTF.ValidSnapshot(log, s) && KeysList(log, s, keys)
    ensures MTF.ValidSnapshot(log + [u], s) && KeysList(log + [u], s, keys)
  {
    ListingOfLonger(log, u, s.time);
    forall key | key in keys
      ensures exists i :: i in MTF.Window(log + [u], s) && i < |log + [u]| && key == Stamped((log + [u])[i].topic, Some((log + [u])[i].stamp))
    {
      var i :| i in MTF.Window(log, s) && i < |log| && key == Stamped(log[i].topic, Some(log[i].stamp));
      assert (log + [u])[i] == log[i];
    }
    MTF.WindowEntries(log, s);
    forall i | i in MTF.Window(log + [u], s) && i < |log + [u]|
      ensures Stamped((log + [u])[i].topic, Some((log + [u])[i].stamp)) in keys
    {
      assert MTF.IsLatest(log, s.time, i);
    }
  }

  lemma TruthfulOfLonger(log: MTF.Log, u: MTF.Update, view: map<TopicId, Row>)
    requires Truthful(log, view)
    ensures Truthful(log + [u], view)
  {
    forall id | id in view && view[id].published.Some? ensures Reported(log + [u], id, view[id].published.value) {
      var j :| 0 <= j < |log| && log[j].topic == id && log[j].stamp == view[id].published.value;
      assert (log + [u])[j] == log[j];
    }
  }

  // ----- A poll

  predicate Ingesting(log: MTF.Log, s: MTF.Snapshot, tracker: TrackerKey, batch: Batch, now: int) {
    && MTF.ValidSnapshot(log, s) && Lists(batch, tracker, log, s)
    && forall i | 0 <= i < |log| :: log[i].at <= now
  }

  function Stored(buffer: map<RowKey, Row>, batch: Batch, now: int): map<RowKey, Row> {
    Pruned(Buffered(buffer, batch.releases, now), now)
  }

  /** A release of the batch is the newest update of its topic, and no other release has that topic. */
  lemma BatchRelease(log: MTF.Log, s: MTF.Snapshot, tracker: TrackerKey, batch: Batch, now: int, r: Release)
    returns (t: nat)
    requires Ingesting(log, s, tracker, batch, now) && r in batch.releases
    ensures t in MTF.Window(log, s) && MTF.IsLatest(log, s.time, t)
    ensures RowOf(r) == (tracker, log[t].topic) && r.published == Some(log[t].stamp)
    ensures forall other | other in batch.releases && RowOf(other) == RowOf(r) :: other == r
  {
    MTF.WindowEntries(log, s);
    var w := MTF.Window(log, s);
    var i :| 0 <= i < |batch.releases| && batch.releases[i] == r;
    t := w[i];
    assert t in w;
    forall other | other in batch.releases && RowOf(other) == RowOf(r) ensures other == r {
      var j :| 0 <= j < |batch.releases| && batch.releases[j] == other;
      TopicListedOnce(log, s, i, j);
    }
  }

  lemma TopicListedOnce(log: MTF.Log, s: MTF.Snapshot, i: nat, j: nat)
    requires MTF.ValidSnapshot(log, s) && i < s.size && j < s.size
    requires var w := MTF.Window(log, s); w[i] < |log| && w[j] < |log| && log[w[i]].topic == log[w[j]].topic
    ensures i == j
  {
    MTF.WindowEntries(log, s);
    var w := MTF.Window(log, s);
    assert w[i] in w && w[j] in w;
  }

  lemma ListedRow(
    log: MTF.Log, s: MTF.Snapshot, tracker: TrackerKey, batch: Batch, now: int, buffer: map<RowKey, Row>, t: nat)
    requires Ingesting(log, s, tracker, batch, now) && t in MTF.Window(log, s) && t < |log|
    ensures var view := ViewOf(Stored(buffer, batch, now), tracker);
            log[t].topic in view && view[log[t].topic].published == Some(log[t].stamp) && view[log[t].topic].lastSeen == now
  {
    MTF.WindowEntries(log, s);
    var w := MTF.Window(log, s);
    var k :| 0 <= k < |w| && w[k] == t;
    var key := (tracker, log[t].topic);
    assert batch.releases[k] in batch.releases && RowOf(batch.releases[k]) == key;
    BufferedRow(buffer, batch.releases, now, key);
    forall r | r in batch.releases && RowOf(r) == key ensures r.published == Some(log[t].stamp) {
      var t' := BatchRelease(log, s, tracker, batch, now, r);
      assert t' == t;
    }
  }

  /** And a poll of what discovery made of the feed buffers each entry under its own title, magnet link and address. */
  lemma DiscoveredRow(
    tracker: TrackerKey, entries: seq<Feed.FeedEntry>, origin: string, log: MTF.Log, s: MTF.Snapshot, now: int,
    buffer: map<RowKey, Row>, k: nat)
    requires MTF.ValidSnapshot(log, s) && EntriesShow(entries, log, s) && k < |entries|
    requires forall i | 0 <= i < |log| :: log[i].at <= now
    ensures Feed.Discover(tracker, entries, origin).Ok?
    ensures var batch := Feed.Discover(tracker, entries, origin).value;
            var key := (tracker, entries[k].id);
            var stored := Stored(buffer, batch, now);
            && key in stored
            && var row := stored[key];
               && row.title == entries[k].title && row.url == Feed.TopicUrl(origin, entries[k].id)
               && row.magnet == entries[k].magnet.Or(if key in buffer then buffer[key].magnet else None)
               && row.torrentUrl == (if key in buffer then buffer[key].torrentUrl else None)
               && row.published == entries[k].updated && row.lastSeen == now
               && row.firstSeen == if key in buffer then buffer[key].firstSeen else now
  {
    DiscoverListsTheWindow(tracker, entries, origin, log, s);
    var releases := Feed.FromEntries(tracker, entries, origin);
    forall i, j | 0 <= i < j < |releases| ensures RowOf(releases[i]) != RowOf(releases[j]) {
      EntriesAreDistinct(tracker, entries, origin, log, s, i, j);
    }
    Feed.UniqueReleasesOfDistinct(releases);
    OnlyReleaseGiven(releases, k);
    BufferedRow(buffer, releases, now, (tracker, entries[k].id));
  }

  /** Of releases of distinct topics, what is given for one of them is what its release says. */
  lemma {:induction false} OnlyReleaseGiven(releases: seq<Release>, k: nat)
    requires k < |releases| && forall i, j | 0 <= i < j < |releases| :: RowOf(releases[i]) != RowOf(releases[j])
    ensures var key := RowOf(releases[k]);
            && Latest(releases, key) == Some(releases[k]) && LastMagnet(releases, key) == releases[k].magnet
            && LastTorrentUrl(releases, key) == releases[k].torrentUrl && LastPublished(releases, key) == releases[k].published
  {
    var last, key := |releases| - 1, RowOf(releases[k]);
    if k < last {
      OnlyReleaseGiven(releases[..last], k);
    } else {
      NotGiven(releases[..last], key);
    }
  }

  lemma NotGiven(releases: seq<Release>, key: RowKey)
    requires forall r | r in releases :: RowOf(r) != key
    ensures LastMagnet(releases, key) == None && LastTorrentUrl(releases, key) == None && LastPublished(releases, key) == None
  {
    NoneGiven(releases, key);
  }

  lemma UnlistedRow(
    log: MTF.Log, s: MTF.Snapshot, tracker: TrackerKey, batch: Batch, now: int, buffer: map<RowKey, Row>, key: RowKey)
    requires Ingesting(log, s, tracker, batch, now)
    requires key.0 != tracker || forall t: nat | t in MTF.Window(log, s) && t < |log| :: log[t].topic != key.1
    ensures key in Stored(buffer, batch, now) <==> key in buffer && !(buffer[key].lastSeen < now - RETENTION_MS)
    ensures key in Stored(buffer, batch, now) ==> Stored(buffer, batch, now)[key] == buffer[key]
  {
    forall r | r in batch.releases ensures RowOf(r) != key {
      var _ := BatchRelease(log, s, tracker, batch, now, r);
    }
    BufferedRow(buffer, batch.releases, now, key);
  }

  lemma TopicNotListed(log: MTF.Log, s: MTF.Snapshot, i: nat)
    requires MTF.ValidSnapshot(log, s) && MTF.IsLatest(log, s.time, i) && i !in MTF.Window(log, s)
    ensures forall t: nat | t in MTF.Window(log, s) && t < |log| :: log[t].topic != log[i].topic
  {
    MTF.WindowEntries(log, s);
    forall t: nat | t in MTF.Window(log, s) && t < |log| ensures log[t].topic != log[i].topic {
      assert MTF.IsLatest(log, s.time, t);
    }
  }

  /** An update that was shown before a poll, and is still its topic's newest as of the fetch, is shown after it. */
  lemma StaysShown(
    log: MTF.Log, s: MTF.Snapshot, tracker: TrackerKey, batch: Batch, now: int, buffer: map<RowKey, Row>, i: nat)
    requires Ingesting(log, s, tracker, batch, now) && MTF.IsLatest(log, s.time, i)
    requires i in MTF.Window(log, s) || Shown(log, i, ViewOf(buffer, tracker), now)
    ensures Shown(log, i, ViewOf(Stored(buffer, batch, now), tracker), now)
  {
    if i in MTF.Window(log, s) {
      ListedRow(log, s, tracker, batch, now, buffer, i);
    } else {
      TopicNotListed(log, s, i);
      UnlistedRow(log, s, tracker, batch, now, buffer, (tracker, log[i].topic));
    }
  }

  lemma StaysTruthful(
    log: MTF.Log, s: MTF.Snapshot, tracker: TrackerKey, batch: Batch, now: int, buffer: map<RowKey, Row>)
    requires Ingesting(log, s, tracker, batch, now) && Truthful(log, ViewOf(buffer, tracker))
    ensures Truthful(log, ViewOf(Stored(buffer, batch, now), tracker))
  {
    var view := ViewOf(Stored(buffer, batch, now), tracker);
    forall id | id in view && view[id].published.Some? ensures Reported(log, id, view[id].published.value) {
      if t: nat :| t in MTF.Window(log, s) && t < |log| && log[t].topic == id {
        ListedRow(log, s, tracker, batch, now, buffer, t);
      } else {
        UnlistedRow(log, s, tracker, batch, now, buffer, (tracker, id));
        assert ViewOf(buffer, tracker)[id] == view[id];
      }
    }
  }

  lemma NewKeysList(log: MTF.Log, s: MTF.Snapshot, tracker: TrackerKey, batch: Batch, now: int)
    requires Ingesting(log, s, tracker, batch, now)
    ensures KeysList(log, s, Unique(Keys(batch.releases)))
  {
    var keys := Keys(batch.releases);
    forall key | key in Unique(keys)
      ensures exists i :: i in MTF.Window(log, s) && i < |log| && key == Stamped(log[i].topic, Some(log[i].stamp))
    {
      UniqueElements(keys, key);
      var k :| 0 <= k < |keys| && keys[k] == key;
      var t := BatchRelease(log, s, tracker, batch, now, batch.releases[k]);
    }
    forall i | i in MTF.Window(log, s) && i < |log| ensures Stamped(log[i].topic, Some(log[i].stamp)) in Unique(keys) {
      var k :| 0 <= k < |MTF.Window(log, s)| && MTF.Window(log, s)[k] == i;
      assert keys[k] == Stamped(log[i].topic, Some(log[i].stamp));
      UniqueElements(keys, keys[k]);
    }
  }

  /** Starting afresh at this batch: everything updated after its oldest entry is in it. */
  lemma FreshFollow(log: MTF.Log, s: MTF.Snapshot, tracker: TrackerKey, batch: Batch, now: int, buffer: map<RowKey, Row>)
    requires MTF.Genuine(log, SKEW)
    requires Ingesting(log, s, tracker, batch, now)
    ensures MTF.OldestTick(log, s) < |log|
    ensures GoodFollow(log, Follow(s, log[MTF.OldestTick(log, s)].at), Oldest(batch), ViewOf(Stored(buffer, batch, now), tracker), now)
  {
    MTF.WindowEntries(log, s);
    var oldest := MTF.OldestTick(log, s);
    assert MTF.IsLatest(log, s.time, oldest);
    var stamps := Stamps(batch.releases);
    assert batch.releases[0] in batch.releases && batch.releases[0].published.value in stamps;
    var least := Least(stamps).value;
    var r :| r in batch.releases && r.published == Some(least);
    var t := BatchRelease(log, s, tracker, batch, now, r);
    assert oldest <= t && log[oldest].at <= log[t].at;
    forall i | 0 <= i < |log| && MTF.IsLatest(log, s.time, i) && log[i].at > log[oldest].at
      ensures Shown(log, i, ViewOf(Stored(buffer, batch, now), tracker), now)
    {
      MTF.WindowReachesBack(log, s, i);
      StaysShown(log, s, tracker, batch, now, buffer, i);
    }
  }

  /** Some key of the new batch was in the previous one. */
  lemma OverlapSharesKey(log: MTF.Log, first: MTF.Snapshot, s: MTF.Snapshot, previousKeys: seq<FeedKey>, currentKeys: seq<FeedKey>)
    requires MTF.ValidSnapshot(log, first) && MTF.ValidSnapshot(log, s)
    requires KeysList(log, first, previousKeys) && KeysList(log, s, currentKeys)
    requires CountOverlap(previousKeys, currentKeys) != 0
    ensures MTF.SharesKey(log, first, s)
  {
    var k :| 0 <= k < |currentKeys| && Overlaps(previousKeys, currentKeys[k]);
    var key := currentKeys[k];
    assert key in currentKeys;
    var j :| j in MTF.Window(log, s) && j < |log| && key == Stamped(log[j].topic, Some(log[j].stamp));
    assert key in previousKeys;
    var i :| i in MTF.Window(log, first) && i < |log| && key == Stamped(log[i].topic, Some(log[i].stamp));
    assert MTF.SameKey(log, i, j);
  }

  /** A poll of a followed tracker that finds no gap shares a key with the poll before. */
  lemma NoGapSharesKey(log: MTF.Log, first: MTF.Snapshot, s: MTF.Snapshot, tracker: TrackerKey, batch: Batch, now: int, state: FeedState)
    requires Ingesting(log, s, tracker, batch, now) && MTF.ValidSnapshot(log, first) && KeysList(log, first, state.previousKeys)
    requires !GapDetected(Some(state), Unique(Keys(batch.releases)))
    ensures MTF.SharesKey(log, first, s)
  {
    NewKeysList(log, s, tracker, batch, now);
    OverlapSharesKey(log, first, s, state.previousKeys, Unique(Keys(batch.releases)));
  }

  /** Continuing: what was updated since the previous fetch is in the batch, the rest was shown before. */
  lemma ContinuedFollow(
    log: MTF.Log, f: Follow, s: MTF.Snapshot, tracker: TrackerKey, batch: Batch, now: int, buffer: map<RowKey, Row>,
    continuousSince: Option<int>)
    requires MTF.Genuine(log, SKEW)
    requires Ingesting(log, s, tracker, batch, now)
    requires GoodFollow(log, f, continuousSince, ViewOf(buffer, tracker), now)
    requires f.snapshot.time <= s.time && MTF.SharesKey(log, f.snapshot, s)
    ensures GoodFollow(log, Follow(s, f.horizon), continuousSince, ViewOf(Stored(buffer, batch, now), tracker), now)
  {
    forall i | 0 <= i < |log| && MTF.IsLatest(log, s.time, i) && log[i].at > f.horizon
      ensures Shown(log, i, ViewOf(Stored(buffer, batch, now), tracker), now)
    {
      if f.snapshot.time <= i {
        MTF.OverlapMissesNothing(log, SKEW, f.snapshot, s, i);
      } else {
        assert MTF.IsLatest(log, f.snapshot.time, i);
      }
      StaysShown(log, s, tracker, batch, now, buffer, i);
    }
  }

  /** Where a poll leaves its own tracker. */
  lemma PolledLane(w: World, t: TrackerKey, batch: Batch)
    requires Enabled(w, Polled(t, batch))
    ensures var l, l' := LaneOf(w, t), LaneOf(After(w, Polled(t, batch)), t);
            var view := ViewOf(Stored(w.tables.buffer, batch, w.now), t);
            && l'.log == l.log && l'.now == l.now && l'.fetch == l.fetch && l'.view == view
            && l'.state.Some? && l'.state.value.previousKeys == Unique(Keys(batch.releases))
            && l'.state.value.continuousSince == (if StartsAfresh(w, t, batch) then Oldest(batch) else l.state.value.continuousSince)
            && l'.poll == Some(Poll(l'.state.value.continuousSince, view))
            && l'.followed.Some? && l'.followed.value.snapshot == l.fetch.value
            && (StartsAfresh(w, t, batch) && MTF.OldestTick(l.log, l.fetch.value) < |l.log| ==>
                  l'.followed.value.horizon == l.log[MTF.OldestTick(l.log, l.fetch.value)].at)
            && (!StartsAfresh(w, t, batch) && l.followed.Some? ==> l'.followed.value.horizon == l.followed.value.horizon)
  {
  }

  lemma FollowAfterPoll(w: World, t: TrackerKey, batch: Batch)
    requires Enabled(w, Polled(t, batch)) && TrackerInv(w, t)
    ensures var l' := LaneOf(After(w, Polled(t, batch)), t);
            && l'.followed.Some? && l'.state.Some?
            && GoodFollow(l'.log, l'.followed.value, l'.state.value.continuousSince, l'.view, l'.now)
  {
    var l := LaneOf(w, t);
    PolledLane(w, t, batch);
    if StartsAfresh(w, t, batch) {
      FreshFollow(l.log, l.fetch.value, t, batch, l.now, w.tables.buffer);
    } else {
      var f, state := l.followed.value, l.state.value;
      NewKeysList(l.log, l.fetch.value, t, batch, l.now);
      OverlapSharesKey(l.log, f.snapshot, l.fetch.value, state.previousKeys, Unique(Keys(batch.releases)));
      ContinuedFollow(l.log, f, l.fetch.value, t, batch, l.now, w.tables.buffer, state.continuousSince);
    }
  }

  lemma PollKeepsItsTracker(w: World, t: TrackerKey, batch: Batch)
    requires Enabled(w, Polled(t, batch)) && TrackerInv(w, t)
    ensures TrackerInv(After(w, Polled(t, batch)), t)
  {
    var l := LaneOf(w, t);
    PolledLane(w, t, batch);
    FollowAfterPoll(w, t, batch);
    NewKeysList(l.log, l.fetch.value, t, batch, l.now);
    StaysTruthful(l.log, l.fetch.value, t, batch, l.now, w.tables.buffer);
  }

  /** Pruning drops only rows not seen for the whole retention, so an update it hides is older than that. */
  lemma CoveredAfterPruning(log: MTF.Log, f: Follow, before: map<TopicId, Row>, after: map<TopicId, Row>, now: int)
    requires forall id | id in before && !(before[id].lastSeen < now - RETENTION_MS) :: id in after && after[id] == before[id]
    requires Covered(log, f, before, now)
    ensures Covered(log, f, after, now)
  {
    forall i | 0 <= i < |log| && MTF.IsLatest(log, f.snapshot.time, i) && log[i].at > f.horizon
      ensures Shown(log, i, after, now)
    {
      assert Shown(log, i, before, now);
    }
  }

  lemma OtherViewAfterPoll(
    log: MTF.Log, s: MTF.Snapshot, t: TrackerKey, batch: Batch, now: int, buffer: map<RowKey, Row>, other: TrackerKey)
    requires Ingesting(log, s, t, batch, now) && other != t
    ensures var before, after := ViewOf(buffer, other), ViewOf(Stored(buffer, batch, now), other);
            && (forall id | id in before && !(before[id].lastSeen < now - RETENTION_MS) :: id in after && after[id] == before[id])
            && forall id | id in after :: id in before && after[id] == before[id]
  {
    var before, after := ViewOf(buffer, other), ViewOf(Stored(buffer, batch, now), other);
    forall id: TopicId
      ensures id in after <==> id in before && !(before[id].lastSeen < now - RETENTION_MS)
      ensures id in after ==> after[id] == before[id]
    {
      UnlistedRow(log, s, t, batch, now, buffer, (other, id));
    }
  }

  lemma PruningKeepsLane(l: Lane, after: map<TopicId, Row>)
    requires LaneInv(l)
    requires forall id | id in l.view && !(l.view[id].lastSeen < l.now - RETENTION_MS) :: id in after && after[id] == l.view[id]
    requires forall id | id in after :: id in l.view && after[id] == l.view[id]
    ensures LaneInv(l.(view := after))
  {
    assert Truthful(l.log, after);
    if l.followed.Some? {
      CoveredAfterPruning(l.log, l.followed.value, l.view, after, l.now);
    }
  }

  lemma PollKeepsOtherTracker(w: World, t: TrackerKey, batch: Batch, other: TrackerKey)
    requires Enabled(w, Polled(t, batch)) && Ingesting(w.Log(t), w.fetches[t], t, batch, w.now)
    requires TrackerInv(w, other) && other != t
    ensures TrackerInv(After(w, Polled(t, batch)), other)
  {
    OtherViewAfterPoll(w.Log(t), w.fetches[t], t, batch, w.now, w.tables.buffer, other);
    var after := ViewOf(Stored(w.tables.buffer, batch, w.now), other);
    assert LaneOf(After(w, Polled(t, batch)), other) == LaneOf(w, other).(view := after);
    PruningKeepsLane(LaneOf(w, other), after);
  }

  // ----- A catch-up search

  /** A row after a catch-up search: as before, or seen now with the date it had or a true stamp. */
  predicate CaughtUpRow(l: Lane, after: map<TopicId, Row>, id: TopicId, followedTo: nat) {
    || (id !in l.view && id !in after)
    || (id in l.view && id in after && after[id] == l.view[id])
    || (&& id in after && after[id].lastSeen == l.now
        && (|| after[id].published == (if id in l.view then l.view[id].published else None)
            || (after[id].published.Some? && TrueStamp(l.log, followedTo, Release(0, id, "", "", None, None, after[id].published)))))
  }

  lemma CatchUpRow(w: World, t: TrackerKey, releases: seq<Release>, id: TopicId)
    requires Enabled(w, CaughtUp(t, releases))
    ensures CaughtUpRow(LaneOf(w, t), ViewOf(Buffered(w.tables.buffer, releases, w.now), t), id, w.FollowedTo(t))
  {
    var key := (t, id);
    BufferedRow(w.tables.buffer, releases, w.now, key);
    if r :| r in releases && RowOf(r) == key && r.published.Some? && Buffered(w.tables.buffer, releases, w.now)[key].published == r.published {
      assert TrueStamp(w.Log(t), w.FollowedTo(t), r);
    }
  }

  lemma CatchUpKeepsLane(l: Lane, after: map<TopicId, Row>, followedTo: nat)
    requires LaneInv(l) && followedTo == (if l.followed.Some? then l.followed.value.snapshot.time else 0)
    requires forall id: TopicId {:trigger CaughtUpRow(l, after, id, followedTo)} :: CaughtUpRow(l, after, id, followedTo)
    ensures LaneInv(l.(view := after, poll := if l.poll.Some? then Some(l.poll.value.(view := after)) else None))
  {
    forall id | id in after && after[id].published.Some? ensures Reported(l.log, id, after[id].published.value) {
      assert CaughtUpRow(l, after, id, followedTo);
    }
    if l.followed.Some? {
      CoveredAfterCatchUp(l, after, followedTo);
    }
  }

  lemma CoveredAfterCatchUp(l: Lane, after: map<TopicId, Row>, followedTo: nat)
    requires l.followed.Some? && History(l.log, l.now) && Covered(l.log, l.followed.value, l.view, l.now)
    requires followedTo == l.followed.value.snapshot.time
    requires forall id: TopicId {:trigger CaughtUpRow(l, after, id, followedTo)} :: CaughtUpRow(l, after, id, followedTo)
    ensures Covered(l.log, l.followed.value, after, l.now)
  {
    var f := l.followed.value;
    forall i | 0 <= i < |l.log| && MTF.IsLatest(l.log, f.snapshot.time, i) && l.log[i].at > f.horizon
      ensures Shown(l.log, i, after, l.now)
    {
      assert Shown(l.log, i, l.view, l.now);
      var id := l.log[i].topic;
      assert CaughtUpRow(l, after, id, followedTo);
    }
  }

  lemma CatchUpKeepsItsTracker(w: World, t: TrackerKey, releases: seq<Release>)
    requires Enabled(w, CaughtUp(t, releases)) && TrackerInv(w, t)
    ensures TrackerInv(After(w, CaughtUp(t, releases)), t)
  {
    var l, after := LaneOf(w, t), ViewOf(Buffered(w.tables.buffer, releases, w.now), t);
    forall id: TopicId ensures CaughtUpRow(l, after, id, w.FollowedTo(t)) {
      CatchUpRow(w, t, releases, id);
    }
    CatchUpKeepsLane(l, after, w.FollowedTo(t));
  }

  lemma CatchUpKeepsOtherView(buffer: map<RowKey, Row>, releases: seq<Release>, now: int, other: TrackerKey)
    requires forall r | r in releases :: r.tracker != other
    ensures ViewOf(Buffered(buffer, releases, now), other) == ViewOf(buffer, other)
  {
    var before, after := ViewOf(buffer, other), ViewOf(Buffered(buffer, releases, now), other);
    forall id: TopicId ensures id in before <==> id in after ensures id in before ==> before[id] == after[id] {
      BufferedRow(buffer, releases, now, (other, id));
    }
  }

  lemma CatchUpKeepsOtherLane(w: World, t: TrackerKey, releases: seq<Release>, other: TrackerKey)
    requires Enabled(w, CaughtUp(t, releases)) && other != t
    ensures LaneOf(After(w, CaughtUp(t, releases)), other) == LaneOf(w, other)
  {
    CatchUpKeepsOtherView(w.tables.buffer, releases, w.now, other);
  }

  lemma CatchUpKeepsOtherTracker(w: World, t: TrackerKey, releases: seq<Release>, other: TrackerKey)
    requires Enabled(w, CaughtUp(t, releases)) && TrackerInv(w, other) && other != t
    ensures TrackerInv(After(w, CaughtUp(t, releases)), other)
  {
    CatchUpKeepsOtherLane(w, t, releases, other);
  }

  // ----- Every step keeps the invariant

  lemma CoveredLater(log: MTF.Log, f: Follow, view: map<TopicId, Row>, now: int, later: int)
    requires Covered(log, f, view, now) && now <= later
    ensures Covered(log, f, view, later)
  {
    forall i | 0 <= i < |log| && MTF.IsLatest(log, f.snapshot.time, i) && log[i].at > f.horizon
      ensures Shown(log, i, view, later)
    {
      assert Shown(log, i, view, now);
    }
  }

  lemma WaitKeepsLane(l: Lane, later: int)
    requires LaneInv(l) && l.now <= later
    ensures LaneInv(l.(now := later))
  {
    if l.followed.Some? {
      CoveredLater(l.log, l.followed.value, l.view, l.now, later);
      if l.poll.Some? {
        CoveredLater(l.log, l.followed.value, l.poll.value.view, l.now, later);
      }
    }
  }

  predicate SameContinuity(before: Option<FeedState>, after: Option<FeedState>) {
    && before.Some? == after.Some?
    && (before.Some? ==>
          after.value.continuousSince == before.value.continuousSince && after.value.previousKeys == before.value.previousKeys)
  }

  lemma TrackerStepLane(w: World, step: Step, t: TrackerKey)
    requires Enabled(w, step) && (step.TopicUpdated? || step.FeedFetched? || step.GapMarked?)
    ensures var l, l' := LaneOf(w, t), LaneOf(After(w, step), t);
            if step.tracker != t then l' == l
            else if step.TopicUpdated? then l' == l.(log := l.log + [MTF.Update(step.topic, step.stamp, w.now)])
            else if step.FeedFetched? then l' == l.(fetch := Some(MTF.Snapshot(|l.log|, step.size)))
            else l' == l.(state := l'.state) && SameContinuity(l.state, l'.state)
  {
  }

  lemma ServerStepLane(w: World, step: Step, t: TrackerKey)
    requires Enabled(w, step)
    requires step.Wait? || step.LoadStarted? || step.PageRead? || step.PageStored? || step.LoadDropped? || step.Restarted?
    ensures var l, l' := LaneOf(w, t), LaneOf(After(w, step), t);
            if step.Wait? then l' == l.(now := l.now + step.ms)
            else if step.Restarted? then l' == l.(fetch := None, poll := None)
            else l' == l
  {
  }

  lemma StepKeepsTracker(w: World, step: Step, t: TrackerKey)
    requires Enabled(w, step) && TrackerInv(w, t)
    requires step.Polled? ==> TrackerInv(w, step.tracker)
    ensures TrackerInv(After(w, step), t)
  {
    var l := LaneOf(w, t);
    match step
    case Polled(tracker, batch) =>
      if tracker == t { PollKeepsItsTracker(w, t, batch); } else { PollKeepsOtherTracker(w, tracker, batch, t); }
    case CaughtUp(tracker, releases) =>
      if tracker == t { CatchUpKeepsItsTracker(w, t, releases); } else { CatchUpKeepsOtherTracker(w, tracker, releases, t); }
    case TopicUpdated(tracker, topic, stamp) =>
      TrackerStepLane(w, step, t);
      if tracker == t {
        UpdatedKeepsLane(l, MTF.Update(topic, stamp, w.now));
      }
    case FeedFetched(_, _) => TrackerStepLane(w, step, t);
    case GapMarked(_, _) => TrackerStepLane(w, step, t);
    case Wait(ms) =>
      ServerStepLane(w, step, t);
      WaitKeepsLane(l, w.now + ms);
    case _ => ServerStepLane(w, step, t);
  }

  lemma StepKeepsWatch(w: World, step: Step, watch: Watch)
    requires Enabled(w, step) && WatchInv(w, watch)
    ensures WatchInv(After(w, step), watch)
  {
  }

  lemma StepKeepsInv(w: World, step: Step)
    requires Inv(w) && Enabled(w, step)
    ensures Inv(After(w, step))
  {
    forall t ensures TrackerInv(After(w, step), t) {
      assert TrackerInv(w, t);
      StepKeepsTracker(w, step, t);
    }
    forall watch ensures WatchInv(After(w, step), watch) {
      assert WatchInv(w, watch);
      StepKeepsWatch(w, step, watch);
    }
  }

  lemma {:induction false} RunKeepsInv(w: World, steps: seq<Step>)
    requires Inv(w) && Admissible(w, steps)
    ensures Inv(Run(w, steps))
    decreases |steps|
  {
    if steps != [] {
      StepKeepsInv(w, steps[0]);
      RunKeepsInv(After(w, steps[0]), steps[1..]);
    }
  }

  lemma RunIsGenuine(start: World, steps: seq<Step>, t: TrackerKey)
    requires Start(start) && Admissible(start, steps)
    ensures MTF.Genuine(Run(start, steps).Log(t), SKEW)
  {
    RunKeepsInv(start, steps);
    assert TrackerInv(Run(start, steps), t);
  }

  // ----- Main results

  function EntryOf(view: map<TopicId, Row>, topic: TopicId): Option<FeedAssist.Entry> {
    if topic in view then Some(FeedAssist.Entry(view[topic].published, view[topic].magnet)) else None
  }

  /** The decision as a lane makes it, for a topic whose page was loaded. */
  predicate IsSkipped(w: World, watch: Watch, infoHash: FeedAssist.InfoHash, storedMagnet: Option<string>)
    requires watch in w.pages && watch.tracker in w.polls
  {
    var poll := w.polls[watch.tracker];
    FeedAssist.FeedShowsNoChange(
      infoHash, Some(w.pages[watch].verifiedAt), storedMagnet, poll.continuousSince, EntryOf(poll.view, watch.topic), w.now)
  }

  lemma SkippedPageIsNewer(
    log: MTF.Log, f: Follow, poll: Poll, page: Page, now: int, infoHash: FeedAssist.InfoHash, storedMagnet: Option<string>, i: nat)
    requires History(log, now) && GoodFollow(log, f, poll.continuousSince, poll.view, now)
    requires page.verifiedAt <= now && LoadedAfter(log, page.verifiedAt, page.seen) && i < f.snapshot.time && i < |log|
    requires FeedAssist.FeedShowsNoChange(
               infoHash, Some(page.verifiedAt), storedMagnet, poll.continuousSince, EntryOf(poll.view, log[i].topic), now)
    ensures i < page.seen
  {
    var j := NewestOf(log, f.snapshot.time, i);
    assert log[i].at <= log[j].at;
  }

  /**
   * Skip soundness. In any run, when the feed shows no change of a watched topic since its page was
   * loaded, the saved page was read after every update of the topic up to the fetch the feed was
   * last ingested from.
   */
  lemma SkipIsSound(
    start: World, steps: seq<Step>, watch: Watch, infoHash: FeedAssist.InfoHash, storedMagnet: Option<string>, i: nat)
    requires Start(start) && Admissible(start, steps)
    requires var w := Run(start, steps);
             && watch in w.pages && watch.tracker in w.polls
             && IsSkipped(w, watch, infoHash, storedMagnet)
             && i < w.FollowedTo(watch.tracker) && i < |w.Log(watch.tracker)|
             && w.Log(watch.tracker)[i].topic == watch.topic
    ensures i < Run(start, steps).pages[watch].seen
  {
    RunKeepsInv(start, steps);
    var w := Run(start, steps);
    assert WatchInv(w, watch) && TrackerInv(w, watch.tracker);
    SkippedPageIsNewer(
      w.Log(watch.tracker), w.followed[watch.tracker], w.polls[watch.tracker], w.pages[watch], w.now, infoHash, storedMagnet, i);
  }

  /**
   * Exactly when it skips: the page was loaded less than a day ago, the feed has been followed since ten minutes
   * before that, and the topic's row, if any, is dated by then and does not name another torrent.
   */
  lemma SkippedExactly(w: World, watch: Watch, infoHash: FeedAssist.InfoHash, storedMagnet: Option<string>)
    requires watch in w.pages && watch.tracker in w.polls
    ensures var poll, v := w.polls[watch.tracker], w.pages[watch].verifiedAt;
            IsSkipped(w, watch, infoHash, storedMagnet) <==>
            && w.now - v < 86_400_000
            && poll.continuousSince.Some? && poll.continuousSince.value <= v - 600_000
            && (watch.topic in poll.view ==>
                  var row := poll.view[watch.topic];
                  && row.published.Some? && row.published.value <= v - 600_000
                  && !FeedAssist.OtherTorrent(infoHash, row.magnet, storedMagnet))
  {
    var poll := w.polls[watch.tracker];
    FeedAssist.SkippedExactly(
      infoHash, Some(w.pages[watch].verifiedAt), storedMagnet, poll.continuousSince, EntryOf(poll.view, watch.topic), w.now);
  }

  /**
   * And pages are skipped whenever they may be. In any run, if the feed has been followed since ten minutes
   * before the page was loaded, less than a day ago, and the tracker dated no update of the topic after that,
   * then the load is skipped if and only if the topic's row, if any, is dated and names no other torrent.
   */
  lemma SkipHappensWhenQuiet(
    start: World, steps: seq<Step>, watch: Watch, infoHash: FeedAssist.InfoHash, storedMagnet: Option<string>)
    requires Start(start) && Admissible(start, steps)
    requires var w := Run(start, steps);
             && watch in w.pages && watch.tracker in w.polls
             && var poll, v := w.polls[watch.tracker], w.pages[watch].verifiedAt;
                && w.now - v < 86_400_000
                && poll.continuousSince.Some? && poll.continuousSince.value <= v - 600_000
                && (forall i | 0 <= i < |w.Log(watch.tracker)| && w.Log(watch.tracker)[i].topic == watch.topic ::
                      w.Log(watch.tracker)[i].stamp <= v - 600_000)
    ensures var w := Run(start, steps);
            var view := w.polls[watch.tracker].view;
            IsSkipped(w, watch, infoHash, storedMagnet) <==>
            (watch.topic in view ==>
               && view[watch.topic].published.Some?
               && !FeedAssist.OtherTorrent(infoHash, view[watch.topic].magnet, storedMagnet))
  {
    RunKeepsInv(start, steps);
    var w := Run(start, steps);
    var log, view := w.Log(watch.tracker), w.polls[watch.tracker].view;
    assert TrackerInv(w, watch.tracker);
    SkippedExactly(w, watch, infoHash, storedMagnet);
    if watch.topic in view && view[watch.topic].published.Some? {
      assert Reported(log, watch.topic, view[watch.topic].published.value);
    }
  }

  /** The newest update of the topic of `i` among the first `n`. */
  lemma {:induction false} NewestOf(log: MTF.Log, n: nat, i: nat) returns (j: nat)
    requires i < n <= |log|
    ensures i <= j && MTF.IsLatest(log, n, j) && log[j].topic == log[i].topic
    decreases n - i
  {
    if k :| i < k < n && log[k].topic == log[i].topic {
      j := NewestOf(log, n, k);
    } else {
      j := i;
    }
  }

  /**
   * What the buffer holds. In any run, a topic that the tracker has not updated since the last
   * ingested fetch, and whose newest update came after the start of continuity (by the tracker's
   * clock, less the allowed skew) and within the retention, is buffered with exactly its stamp.
   */
  lemma BufferIsExact(start: World, steps: seq<Step>, t: TrackerKey, i: nat)
    requires Start(start) && Admissible(start, steps)
    requires var w := Run(start, steps);
             && t in w.followed && i < w.FollowedTo(t) && MTF.IsLatest(w.Log(t), |w.Log(t)|, i)
             && t in w.tables.feed && w.tables.feed[t].continuousSince.Some?
             && w.Log(t)[i].at >= w.tables.feed[t].continuousSince.value + SKEW
             && w.Log(t)[i].at >= w.now - RETENTION_MS
    ensures var w := Run(start, steps);
            && (t, w.Log(t)[i].topic) in w.tables.buffer
            && w.tables.buffer[(t, w.Log(t)[i].topic)].published == Some(w.Log(t)[i].stamp)
  {
    RunKeepsInv(start, steps);
    var w := Run(start, steps);
    var log, view := w.Log(t), ViewOf(w.tables.buffer, t);
    assert TrackerInv(w, t);
    assert MTF.IsLatest(log, w.followed[t].snapshot.time, i);
    assert Shown(log, i, view, w.now);
    var p := view[log[i].topic].published.value;
    assert Reported(log, log[i].topic, p);
    var j :| 0 <= j < |log| && log[j].topic == log[i].topic && log[j].stamp == p;
  }

  // ----- What a decision has before it

  /** Whatever was under way, a page can be loaded at any moment; it is then known from when it is and what it showed. */
  lemma LoadRunsItsCourse(start: World, steps: seq<Step>, watch: Watch)
    requires Start(start) && Admissible(start, steps)
    ensures var w := Run(start, steps);
            var course := [LoadDropped(watch)] + ([LoadStarted(watch)] + ([PageRead(watch)] + ([PageStored(watch)] + [])));
            && Admissible(w, course)
            && var w' := Run(w, course);
               && watch !in w'.loads && watch in w'.pages && w'.pages[watch] == Page(w.now, |w.Log(watch.tracker)|)
               && w'.polls == w.polls && w'.tables == w.tables && w'.now == w.now && w'.logs == w.logs
  {
    var w := Run(start, steps);
    var w1 := After(w, LoadDropped(watch));
    var w2 := After(w1, LoadStarted(watch));
    var w3 := After(w2, PageRead(watch));
    StepFirst(w3, PageStored(watch), []);
    StepFirst(w2, PageRead(watch), [PageStored(watch)] + []);
    StepFirst(w1, LoadStarted(watch), [PageRead(watch)] + ([PageStored(watch)] + []));
    StepFirst(w, LoadDropped(watch), [LoadStarted(watch)] + ([PageRead(watch)] + ([PageStored(watch)] + [])));
  }

  lemma StepFirst(w: World, step: Step, rest: seq<Step>)
    requires Enabled(w, step) && Admissible(After(w, step), rest)
    ensures Admissible(w, [step] + rest) && Run(w, [step] + rest) == Run(After(w, step), rest)
  {
    assert ([step] + rest)[0] == step && ([step] + rest)[1..] == rest;
  }

  ghost predicate SeesBuffer(w: World, t: TrackerKey) {
    t in w.polls ==>
      forall id | (t, id) in w.tables.buffer :: id in w.polls[t].view && w.polls[t].view[id] == w.tables.buffer[(t, id)]
  }

  lemma StepKeepsSight(w: World, step: Step, t: TrackerKey)
    requires Enabled(w, step) && SeesBuffer(w, t)
    ensures SeesBuffer(After(w, step), t)
  {
    if step.Polled? && step.tracker != t {
      forall id ensures Get(Buffered(w.tables.buffer, step.batch.releases, w.now), (t, id)) == Get(w.tables.buffer, (t, id)) {
        OthersRowStays(w.tables.buffer, step.batch.releases, w.now, step.tracker, (t, id));
      }
    } else if step.CaughtUp? && step.tracker != t {
      forall id ensures Get(Buffered(w.tables.buffer, step.releases, w.now), (t, id)) == Get(w.tables.buffer, (t, id)) {
        OthersRowStays(w.tables.buffer, step.releases, w.now, step.tracker, (t, id));
      }
    }
  }

  lemma OthersRowStays(buffer: map<RowKey, Row>, releases: seq<Release>, now: int, tracker: TrackerKey, key: RowKey)
    requires key.0 != tracker && forall r | r in releases :: r.tracker == tracker
    ensures Get(Buffered(buffer, releases, now), key) == Get(buffer, key)
  {
    BufferedRow(buffer, releases, now, key);
  }

  lemma {:induction false} RunKeepsSight(w: World, steps: seq<Step>, t: TrackerKey)
    requires Admissible(w, steps) && SeesBuffer(w, t)
    ensures SeesBuffer(Run(w, steps), t)
    decreases |steps|
  {
    if steps != [] {
      StepKeepsSight(w, steps[0], t);
      RunKeepsSight(After(w, steps[0]), steps[1..], t);
    }
  }

  /** In every run a poll's view shows every row of the tracker that is buffered now, as a catch-up search or a poll left it. */
  lemma PollSeesTheBuffer(start: World, steps: seq<Step>, t: TrackerKey, id: TopicId)
    requires Start(start) && Admissible(start, steps)
    requires var w := Run(start, steps); t in w.polls && (t, id) in w.tables.buffer
    ensures var w := Run(start, steps); id in w.polls[t].view && w.polls[t].view[id] == w.tables.buffer[(t, id)]
  {
    RunKeepsSight(start, steps, t);
  }

  // ----- Gaps

  /** Two fetches that share a key overlap. */
  lemma SharedKeyOverlaps(log: MTF.Log, first: MTF.Snapshot, s: MTF.Snapshot, previousKeys: seq<FeedKey>, currentKeys: seq<FeedKey>)
    requires MTF.ValidSnapshot(log, first) && MTF.ValidSnapshot(log, s)
    requires KeysList(log, first, previousKeys) && KeysList(log, s, currentKeys)
    requires MTF.SharesKey(log, first, s)
    ensures exists key :: key in currentKeys && key in previousKeys
  {
    var i, j :| i in MTF.Window(log, first) && j in MTF.Window(log, s) && MTF.SameKey(log, i, j);
    assert Stamped(log[j].topic, Some(log[j].stamp)) in currentKeys;
  }

  /**
   * Exactly when a poll of a followed tracker reports a gap: every topic of the feed before, or every topic of
   * this one, was updated between the two fetches. A quiet or a short feed is never taken for a gap.
   */
  lemma GapIsReportedExactly(start: World, steps: seq<Step>, t: TrackerKey, batch: Batch)
    requires Start(start) && Admissible(start, steps)
    requires var w := Run(start, steps); Enabled(w, Polled(t, batch)) && t in w.followed
    ensures var w := Run(start, steps);
            var log, first, second := w.Log(t), w.followed[t].snapshot, w.fetches[t];
            && MTF.ValidSnapshot(log, first)
            && (GapDetected(StateOf(w.tables, t), Unique(Keys(batch.releases))) <==>
                || (forall i: nat | i in MTF.Window(log, first) :: !MTF.QuietSince(log, i, first.time, second.time))
                || (forall i: nat | i in MTF.Window(log, second) :: !MTF.QuietSince(log, i, first.time, second.time)))
  {
    RunKeepsInv(start, steps);
    var w := Run(start, steps);
    var log, first, s := w.Log(t), w.followed[t].snapshot, w.fetches[t];
    assert TrackerInv(w, t);
    NewKeysList(log, s, t, batch, w.now);
    var previousKeys, currentKeys := w.tables.feed[t].previousKeys, Unique(Keys(batch.releases));
    GapIsFoundExactly(StateOf(w.tables, t), currentKeys);
    if MTF.SharesKey(log, first, s) {
      SharedKeyOverlaps(log, first, s, previousKeys, currentKeys);
    } else if CountOverlap(previousKeys, currentKeys) != 0 {
      OverlapSharesKey(log, first, s, previousKeys, currentKeys);
    }
    MTF.NoOverlapExactly(log, SKEW, first, s);
  }

  /** A poll whose fetch missed an update made since the previous one reports a gap. */
  lemma MissedUpdateIsAGap(start: World, steps: seq<Step>, t: TrackerKey, batch: Batch, i: nat)
    requires Start(start) && Admissible(start, steps)
    requires var w := Run(start, steps);
             && Enabled(w, Polled(t, batch)) && t in w.followed
             && w.FollowedTo(t) <= i && MTF.IsLatest(w.Log(t), w.fetches[t].time, i) && i !in MTF.Window(w.Log(t), w.fetches[t])
    ensures var w := Run(start, steps);
            GapDetected(StateOf(w.tables, t), Unique(Keys(batch.releases)))
  {
    RunKeepsInv(start, steps);
    var w := Run(start, steps);
    var log, s := w.Log(t), w.fetches[t];
    assert TrackerInv(w, t);
    NewKeysList(log, s, t, batch, w.now);
    var previousKeys := w.tables.feed[t].previousKeys;
    if CountOverlap(previousKeys, Unique(Keys(batch.releases))) != 0 {
      OverlapSharesKey(log, w.followed[t].snapshot, s, previousKeys, Unique(Keys(batch.releases)));
      MTF.OverlapMissesNothing(log, SKEW, w.followed[t].snapshot, s, i);
    }
  }
}

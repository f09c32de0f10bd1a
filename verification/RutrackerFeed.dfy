/** The feed source: parsed feed entries to a discovery batch (server/trackers/plugins/rutracker/rules.ts). */
module RutrackerFeed {
  import opened Wrappers
  import opened ReleaseBuffer
  import Egress

  datatype FeedEntry = FeedEntry(id: TopicId, title: string, updated: Option<int>, magnet: Option<string>)

  datatype FeedError = NoReleases

  /** The topic's address on the mirror with that origin. */
  function TopicUrl(origin: string, id: TopicId): string {
    origin + "/forum/viewtopic.php?t=" + Egress.DecimalText(id)
  }

  function ReleaseFromEntry(tracker: TrackerKey, entry: FeedEntry, origin: string): Release {
    Release(tracker, entry.id, entry.title, TopicUrl(origin, entry.id), entry.magnet, None, entry.updated)
  }

  /** Keeps the first release of each topic. */
  function UniqueReleases(releases: seq<Release>): seq<Release> {
    if releases == [] then []
    else
      var last := |releases| - 1;
      if exists i :: 0 <= i < last && RowOf(releases[i]) == RowOf(releases[last]) then UniqueReleases(releases[..last])
      else UniqueReleases(releases[..last]) + [releases[last]]
  }

  lemma {:induction false} UniqueReleasesOfDistinct(releases: seq<Release>)
    requires forall i, j | 0 <= i < j < |releases| :: RowOf(releases[i]) != RowOf(releases[j])
    ensures UniqueReleases(releases) == releases
  {
    if releases != [] {
      UniqueReleasesOfDistinct(releases[..|releases| - 1]);
      assert releases == releases[..|releases| - 1] + [releases[|releases| - 1]];
    }
  }

  predicate IsFirst(releases: seq<Release>, i: int) {
    0 <= i < |releases| && forall j | 0 <= j < i :: RowOf(releases[j]) != RowOf(releases[i])
  }

  /** What is kept is the first release of its topic. */
  lemma {:induction false} KeptIsFirst(releases: seq<Release>, r: Release) returns (i: int)
    requires r in UniqueReleases(releases)
    ensures IsFirst(releases, i) && releases[i] == r
  {
    var last := |releases| - 1;
    if r in UniqueReleases(releases[..last]) {
      i := KeptIsFirst(releases[..last], r);
    } else {
      i := last;
    }
  }

  /** And the first release of each topic is kept. */
  lemma {:induction false} FirstIsKept(releases: seq<Release>, i: int)
    requires IsFirst(releases, i)
    ensures releases[i] in UniqueReleases(releases)
  {
    var last := |releases| - 1;
    if i < last {
      FirstIsKept(releases[..last], i);
    }
  }

  lemma {:induction false} KeptOnce(releases: seq<Release>, i: nat, j: nat)
    requires i < j < |UniqueReleases(releases)|
    ensures RowOf(UniqueReleases(releases)[i]) != RowOf(UniqueReleases(releases)[j])
  {
    var last := |releases| - 1;
    var before := UniqueReleases(releases[..last]);
    if j < |before| {
      KeptOnce(releases[..last], i, j);
    } else {
      var k := KeptIsFirst(releases[..last], before[i]);
      assert releases[k] == before[i];
    }
  }

  function FromEntries(tracker: TrackerKey, entries: seq<FeedEntry>, origin: string): seq<Release> {
    seq(|entries|, i requires 0 <= i < |entries| => ReleaseFromEntry(tracker, entries[i], origin))
  }

  /** A feed without a release is an error, so no poll ever ingests an empty batch. */
  function Discover(tracker: TrackerKey, entries: seq<FeedEntry>, origin: string): Result<Batch, FeedError> {
    if entries == [] then Err(NoReleases)
    else
      var releases := FromEntries(tracker, entries, origin);
      Ok(Batch(UniqueReleases(releases), Least(Stamps(releases)), Greatest(Stamps(releases))))
  }

  predicate IsFirstEntry(entries: seq<FeedEntry>, i: int) {
    0 <= i < |entries| && forall j | 0 <= j < i :: entries[j].id != entries[i].id
  }

  /** The release says of the topic what the entry says. */
  predicate Shows(r: Release, tracker: TrackerKey, entry: FeedEntry, origin: string) {
    && r.tracker == tracker && r.id == entry.id && r.title == entry.title && r.magnet == entry.magnet
    && r.published == entry.updated && r.torrentUrl.None?
    && |r.url| > |origin| + 23 && r.url[..|origin|] == origin && r.url[|origin|..|origin| + 23] == "/forum/viewtopic.php?t="
    && Egress.AllDigits(r.url[|origin| + 23..]) && Egress.DecimalValue(r.url[|origin| + 23..]) == entry.id
  }

  lemma EntryIsShown(tracker: TrackerKey, entry: FeedEntry, origin: string)
    ensures Shows(ReleaseFromEntry(tracker, entry, origin), tracker, entry, origin)
  {
    Egress.DecimalTextReads(entry.id);
    var url := TopicUrl(origin, entry.id);
    assert url == origin + ("/forum/viewtopic.php?t=" + Egress.DecimalText(entry.id));
    assert url[|origin| + 23..] == Egress.DecimalText(entry.id);
  }

  lemma ReleaseShowsItsEntry(tracker: TrackerKey, entries: seq<FeedEntry>, origin: string, r: Release) returns (i: int)
    requires r in UniqueReleases(FromEntries(tracker, entries, origin))
    ensures IsFirstEntry(entries, i) && Shows(r, tracker, entries[i], origin)
  {
    var releases := FromEntries(tracker, entries, origin);
    i := KeptIsFirst(releases, r);
    EntryIsShown(tracker, entries[i], origin);
    assert forall j | 0 <= j < i :: RowOf(releases[j]) == (tracker, entries[j].id);
  }

  lemma FirstEntryIsReleased(tracker: TrackerKey, entries: seq<FeedEntry>, origin: string, i: int) returns (r: Release)
    requires IsFirstEntry(entries, i)
    ensures r in UniqueReleases(FromEntries(tracker, entries, origin)) && Shows(r, tracker, entries[i], origin)
  {
    var releases := FromEntries(tracker, entries, origin);
    FirstIsKept(releases, i);
    EntryIsShown(tracker, entries[i], origin);
    r := releases[i];
  }

  lemma ReleasedOnce(tracker: TrackerKey, entries: seq<FeedEntry>, origin: string, i: nat, j: nat)
    requires i < j < |UniqueReleases(FromEntries(tracker, entries, origin))|
    ensures var unique := UniqueReleases(FromEntries(tracker, entries, origin)); unique[i].id != unique[j].id
  {
    var releases := FromEntries(tracker, entries, origin);
    var unique := UniqueReleases(releases);
    KeptOnce(releases, i, j);
    var k := KeptIsFirst(releases, unique[i]);
    var l := KeptIsFirst(releases, unique[j]);
    assert releases[k] == unique[i] && releases[l] == unique[j];
  }

  /**
   * Discovery of any feed. A feed without entries is an error; otherwise the batch has, of each topic of the feed,
   * exactly one release, which says what the first entry of the topic says.
   */
  lemma DiscoverShowsTheFeed(tracker: TrackerKey, entries: seq<FeedEntry>, origin: string)
    ensures Discover(tracker, entries, origin).Err? <==> entries == []
    ensures entries != [] ==>
              var b := Discover(tracker, entries, origin).value;
              && (forall r | r in b.releases :: exists i :: IsFirstEntry(entries, i) && Shows(r, tracker, entries[i], origin))
              && (forall i | IsFirstEntry(entries, i) :: exists r :: r in b.releases && Shows(r, tracker, entries[i], origin))
              && (forall i, j | 0 <= i < j < |b.releases| :: b.releases[i].id != b.releases[j].id)
  {
    var unique := UniqueReleases(FromEntries(tracker, entries, origin));
    forall r | r in unique ensures exists i :: IsFirstEntry(entries, i) && Shows(r, tracker, entries[i], origin) {
      var i := ReleaseShowsItsEntry(tracker, entries, origin, r);
    }
    forall i | IsFirstEntry(entries, i) ensures exists r :: r in unique && Shows(r, tracker, entries[i], origin) {
      var r := FirstEntryIsReleased(tracker, entries, origin, i);
    }
    forall i, j | 0 <= i < j < |unique| ensures unique[i].id != unique[j].id {
      ReleasedOnce(tracker, entries, origin, i, j);
    }
  }

  predicate IsLeastDate(entries: seq<FeedEntry>, date: Option<int>) {
    if date.None? then forall e | e in entries :: e.updated.None?
    else (exists e | e in entries :: e.updated == date) && forall e | e in entries && e.updated.Some? :: date.value <= e.updated.value
  }

  predicate IsGreatestDate(entries: seq<FeedEntry>, date: Option<int>) {
    if date.None? then forall e | e in entries :: e.updated.None?
    else (exists e | e in entries :: e.updated == date) && forall e | e in entries && e.updated.Some? :: e.updated.value <= date.value
  }

  /** The batch spans exactly the dates of the feed. */
  lemma DiscoverSpansTheFeed(tracker: TrackerKey, entries: seq<FeedEntry>, origin: string)
    requires entries != []
    ensures var b := Discover(tracker, entries, origin).value;
            IsLeastDate(entries, b.oldestObservedAt) && IsGreatestDate(entries, b.cursor)
  {
    DatesOfFeed(tracker, entries, origin);
    var stamps := Stamps(FromEntries(tracker, entries, origin));
    forall e | e in entries && e.updated.Some? ensures e.updated.value in stamps {
      assert e.updated == Some(e.updated.value);
    }
  }

  lemma DatesOfFeed(tracker: TrackerKey, entries: seq<FeedEntry>, origin: string)
    ensures forall t :: t in Stamps(FromEntries(tracker, entries, origin)) <==> exists e :: e in entries && e.updated == Some(t)
  {
    var releases := FromEntries(tracker, entries, origin);
    forall t ensures t in Stamps(releases) <==> exists e :: e in entries && e.updated == Some(t) {
      if e :| e in entries && e.updated == Some(t) {
        var i :| 0 <= i < |entries| && entries[i] == e;
        assert releases[i] in releases;
      }
      if x :| x in releases && x.published == Some(t) {
        var i :| 0 <= i < |releases| && releases[i] == x;
        assert entries[i] in entries;
      }
    }
  }
}

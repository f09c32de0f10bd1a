/**
 * The remote tracker. Its feed lists topics newest first; a topic whose torrent is replaced moves
 * to the front with a new time stamp. The whole history is kept here as an append-only log of
 * updates, so "the feed at some moment" is the listing of a prefix of the log.
 */
module MoveToFront {
  type TopicId = nat

  /** One update of a topic: the tracker's own time stamp, and when it happened by this server's clock. */
  datatype Update = Update(topic: TopicId, stamp: int, at: int)

  type Log = seq<Update>

  predicate Decreasing(ticks: seq<nat>) {
    forall i, j :: 0 <= i < j < |ticks| ==> ticks[i] > ticks[j]
  }

  /** The listed log positions whose topic differs from `topic`, in the same order. */
  function Without(log: Log, ticks: seq<nat>, topic: TopicId): seq<nat> {
    if ticks == [] then []
    else if ticks[0] < |log| && log[ticks[0]].topic == topic then Without(log, ticks[1..], topic)
    else [ticks[0]] + Without(log, ticks[1..], topic)
  }

  lemma {:induction false} WithoutMembers(log: Log, ticks: seq<nat>, topic: TopicId, t: nat)
    ensures t in Without(log, ticks, topic) <==> t in ticks && !(t < |log| && log[t].topic == topic)
  {
    if ticks != [] {
      WithoutMembers(log, ticks[1..], topic, t);
      assert t in ticks <==> t == ticks[0] || t in ticks[1..];
    }
  }

  lemma {:induction false} WithoutDecreasing(log: Log, ticks: seq<nat>, topic: TopicId)
    requires Decreasing(ticks)
    ensures Decreasing(Without(log, ticks, topic))
  {
    if ticks != [] {
      WithoutDecreasing(log, ticks[1..], topic);
      var rest := Without(log, ticks[1..], topic);
      forall i | 0 <= i < |rest| ensures ticks[0] > rest[i] {
        WithoutMembers(log, ticks[1..], topic, rest[i]);
      }
    }
  }

  /** The feed after the first `n` updates: moving the updated topic to the front, update by update. */
  function Listing(log: Log, n: nat): seq<nat>
    requires n <= |log|
  {
    if n == 0 then []
    else [n - 1] + Without(log, Listing(log, n - 1), log[n - 1].topic)
  }

  /** Update `i` is the newest update of its topic among the first `n`. */
  predicate IsLatest(log: Log, n: nat, i: nat) {
    && i < n <= |log|
    && forall j | i < j < n :: log[j].topic != log[i].topic
  }

  /** Moving to the front keeps exactly one entry per topic, its newest update, newest update first. */
  lemma {:induction false} ListingIsLatestFirst(log: Log, n: nat)
    requires n <= |log|
    ensures Decreasing(Listing(log, n))
    ensures forall t: nat :: t in Listing(log, n) <==> IsLatest(log, n, t)
  {
    if n > 0 {
      ListingIsLatestFirst(log, n - 1);
      var older := Listing(log, n - 1);
      var kept := Without(log, older, log[n - 1].topic);
      forall t: nat ensures t in Listing(log, n) <==> IsLatest(log, n, t) {
        WithoutMembers(log, older, log[n - 1].topic, t);
        assert t in Listing(log, n) <==> t == n - 1 || t in kept;
      }
      WithoutDecreasing(log, older, log[n - 1].topic);
      forall i | 0 <= i < |kept| ensures kept[i] < n - 1 {
        WithoutMembers(log, older, log[n - 1].topic, kept[i]);
      }
    }
  }

  /** What one fetch of the feed saw: the first `size` entries of the listing after `time` updates. */
  datatype Snapshot = Snapshot(time: nat, size: nat)

  predicate ValidSnapshot(log: Log, s: Snapshot) {
    s.time <= |log| && 1 <= s.size <= |Listing(log, s.time)|
  }

  function Window(log: Log, s: Snapshot): seq<nat>
    requires ValidSnapshot(log, s)
  {
    Listing(log, s.time)[..s.size]
  }

  /** The last, least recently updated, entry of a window. */
  function OldestTick(log: Log, s: Snapshot): nat
    requires ValidSnapshot(log, s)
  {
    Window(log, s)[s.size - 1]
  }

  lemma WindowEntries(log: Log, s: Snapshot)
    requires ValidSnapshot(log, s)
    ensures Decreasing(Window(log, s))
    ensures forall t <- Window(log, s) :: IsLatest(log, s.time, t) && OldestTick(log, s) <= t
    ensures OldestTick(log, s) in Window(log, s)
  {
    ListingIsLatestFirst(log, s.time);
    var l := Listing(log, s.time);
    var w := Window(log, s);
    forall t | t in w ensures t in l {
      var i :| 0 <= i < |w| && w[i] == t;
      assert l[i] == t;
    }
  }

  /** A window reaches back evenly: with an entry it lists every topic updated after that entry. */
  lemma WindowReachesBack(log: Log, s: Snapshot, t: nat)
    requires ValidSnapshot(log, s) && IsLatest(log, s.time, t) && OldestTick(log, s) <= t
    ensures t in Window(log, s)
  {
    ListingIsLatestFirst(log, s.time);
    var l := Listing(log, s.time);
    var i :| 0 <= i < |l| && l[i] == t;
    assert i < s.size;
    assert Window(log, s)[i] == t;
  }

  // ----- What is assumed of the tracker and the two clocks

  /**
   * The server's clock does not go back, the tracker's clock is behind it by less than `skew`, and
   * a later update of a topic carries a strictly later stamp.
   */
  predicate Genuine(log: Log, skew: int) {
    && (forall i, j | 0 <= i <= j < |log| :: log[i].at <= log[j].at)
    && (forall i | 0 <= i < |log| :: log[i].stamp > log[i].at - skew)
    && (forall i, j | 0 <= i < j < |log| && log[i].topic == log[j].topic :: log[i].stamp < log[j].stamp)
  }

  /** Topic and stamp, which is what the poller compares. */
  predicate SameKey(log: Log, i: nat, j: nat) {
    i < |log| && j < |log| && log[i].topic == log[j].topic && log[i].stamp == log[j].stamp
  }

  predicate SharesKey(log: Log, first: Snapshot, second: Snapshot)
    requires ValidSnapshot(log, first) && ValidSnapshot(log, second)
  {
    exists i, j :: i in Window(log, first) && j in Window(log, second) && SameKey(log, i, j)
  }

  // ----- Overlap and continuity

  /** If two fetches share one key, the second lists the newest update of every topic updated between them. */
  lemma OverlapMissesNothing(log: Log, skew: int, first: Snapshot, second: Snapshot, t: nat)
    requires Genuine(log, skew)
    requires ValidSnapshot(log, first) && ValidSnapshot(log, second) && first.time <= second.time
    requires SharesKey(log, first, second)
    requires IsLatest(log, second.time, t) && first.time <= t
    ensures t in Window(log, second)
  {
    var i, j :| i in Window(log, first) && j in Window(log, second) && SameKey(log, i, j);
    WindowEntries(log, first);
    WindowEntries(log, second);
    assert i == j;
    WindowReachesBack(log, second, t);
  }

  /** A topic listed by both fetches was not updated in between. */
  lemma SharedKeyWasQuiet(log: Log, skew: int, first: Snapshot, second: Snapshot)
    requires Genuine(log, skew) && ValidSnapshot(log, first) && ValidSnapshot(log, second) && first.time <= second.time
    requires SharesKey(log, first, second)
    ensures exists i: nat :: i in Window(log, first) && i in Window(log, second) && QuietSince(log, i, first.time, second.time)
  {
    WindowEntries(log, first);
    WindowEntries(log, second);
    var i, j :| i in Window(log, first) && j in Window(log, second) && SameKey(log, i, j);
    assert i == j && QuietSince(log, i, first.time, second.time);
  }

  predicate QuietSince(log: Log, t: nat, from: nat, to: nat) {
    t < |log| && forall u | from <= u < to && u < |log| :: log[u].topic != log[t].topic
  }

  /** Two topics, each quiet since the first fetch and each listed by one fetch: the fetch that reached further back lists both. */
  lemma QuietTopicsOverlap(log: Log, first: Snapshot, second: Snapshot, a: nat, b: nat)
    requires ValidSnapshot(log, first) && ValidSnapshot(log, second) && first.time <= second.time
    requires a in Window(log, first) && QuietSince(log, a, first.time, second.time)
    requires b in Window(log, second) && QuietSince(log, b, first.time, second.time)
    ensures SharesKey(log, first, second)
  {
    WindowEntries(log, first);
    WindowEntries(log, second);
    assert IsLatest(log, second.time, b);
    assert b < first.time;
    if b <= a {
      assert IsLatest(log, second.time, a);
      WindowReachesBack(log, second, a);
      assert SameKey(log, a, a);
    } else {
      assert IsLatest(log, first.time, b);
      WindowReachesBack(log, first, b);
      assert SameKey(log, b, b);
    }
  }

  /**
   * Exactly when two fetches share no key: every topic of the first, or every topic of the second,
   * was updated in between. So a reported gap never comes from a quiet feed or a shorter fetch.
   */
  lemma NoOverlapExactly(log: Log, skew: int, first: Snapshot, second: Snapshot)
    requires Genuine(log, skew) && ValidSnapshot(log, first) && ValidSnapshot(log, second) && first.time <= second.time
    ensures !SharesKey(log, first, second) <==>
            || (forall t: nat | t in Window(log, first) :: !QuietSince(log, t, first.time, second.time))
            || (forall t: nat | t in Window(log, second) :: !QuietSince(log, t, first.time, second.time))
  {
    if SharesKey(log, first, second) {
      SharedKeyWasQuiet(log, skew, first, second);
    } else if a: nat, b: nat :|
        && a in Window(log, first) && QuietSince(log, a, first.time, second.time)
        && b in Window(log, second) && QuietSince(log, b, first.time, second.time) {
      QuietTopicsOverlap(log, first, second, a, b);
    }
  }
}

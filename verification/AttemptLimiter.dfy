/**
 * Counting failed attempts and spacing out the next ones (server/attempt-limiter.ts), as the sign-in
 * route uses them (server/routes/auth.ts). A JavaScript Map iterates in insertion order, so both maps
 * are kept as sequences of entries with distinct keys.
 */
module AttemptLimiter {
  import opened Wrappers

  type Key = nat

  /** An entry that is dead from `until` on: a window's failures, or a reserved turn. */
  datatype Entry<V> = Entry(key: Key, until: int, value: V)

  // ----- Insertion-ordered maps

  predicate Distinct<V>(m: seq<Entry<V>>) {
    forall i, j | 0 <= i < j < |m| :: m[i].key != m[j].key
  }

  /** Where the key is, or the size of the map if it is not there. */
  function Index<V>(m: seq<Entry<V>>, key: Key): (i: nat)
    ensures i <= |m|
    ensures i < |m| ==> m[i].key == key
    ensures forall j | 0 <= j < i :: m[j].key != key
  {
    if m == [] then 0 else if m[0].key == key then 0 else 1 + Index(m[1..], key)
  }

  predicate Has<V>(m: seq<Entry<V>>, key: Key) {
    Index(m, key) < |m|
  }

  function Get<V>(m: seq<Entry<V>>, key: Key): Option<Entry<V>> {
    var i := Index(m, key);
    if i == |m| then None else Some(m[i])
  }

  function Deleted<V>(m: seq<Entry<V>>, key: Key): seq<Entry<V>> {
    var i := Index(m, key);
    if i == |m| then m else m[..i] + m[i + 1..]
  }

  /** Deleting a key moves the entries behind it up by one. */
  lemma DeletedEntries<V>(m: seq<Entry<V>>, key: Key)
    requires Distinct(m)
    ensures Distinct(Deleted(m, key)) && !Has(Deleted(m, key), key)
    ensures forall k | 0 <= k < |Deleted(m, key)| :: Deleted(m, key)[k] == m[if k < Index(m, key) then k else k + 1]
  {
    var i, d := Index(m, key), Deleted(m, key);
    assert forall k | 0 <= k < |d| :: d[k] == m[if k < i then k else k + 1];
    forall k | 0 <= k < |d| ensures d[k].key != key {
      assert d[k] == m[if k < i then k else k + 1];
    }
  }

  lemma DeletedLeavesOthers<V>(m: seq<Entry<V>>, key: Key, other: Key)
    requires Distinct(m) && other != key
    ensures Get(Deleted(m, key), other) == Get(m, other)
  {
    DeletedEntries(m, key);
    var i, d, o := Index(m, key), Deleted(m, key), Index(m, other);
    if o < |m| {
      var k := if o < i then o else o - 1;
      assert d[k] == m[o];
    } else {
      assert forall k | 0 <= k < |d| :: d[k].key != other;
    }
  }

  lemma AppendedEntries<V>(m: seq<Entry<V>>, e: Entry<V>, other: Key)
    requires Distinct(m) && !Has(m, e.key)
    ensures Distinct(m + [e])
    ensures Get(m + [e], other) == if other == e.key then Some(e) else Get(m, other)
  {
    var a := m + [e];
    assert forall k | 0 <= k < |m| :: a[k] == m[k];
    assert a[|m|] == e;
    if other == e.key {
      assert a[Index(a, other)].key == other;
    } else if Has(m, other) {
      assert a[Index(m, other)].key == other;
    } else {
      assert forall k | 0 <= k < |a| :: a[k].key != other;
    }
  }

  function Alive<V>(m: seq<Entry<V>>, now: int): (r: seq<Entry<V>>)
    ensures |r| <= |m|
  {
    if m == [] then [] else if m[0].until <= now then Alive(m[1..], now) else [m[0]] + Alive(m[1..], now)
  }

  function Newest<V>(m: seq<Entry<V>>, maximum: nat): seq<Entry<V>> {
    if |m| <= maximum then m else m[|m| - maximum..]
  }

  /** Over the maximum, the dead entries go first, and then the oldest until the rest fits. */
  function Pruned<V>(m: seq<Entry<V>>, maximum: nat, now: int): (r: seq<Entry<V>>)
    ensures |r| <= maximum
  {
    if |m| <= maximum then m else Newest(Alive(m, now), maximum)
  }

  predicate Ordered<V>(m: seq<Entry<V>>) {
    forall i, j | 0 <= i < j < |m| :: m[i].until <= m[j].until
  }

  /** In a map ordered by `until`, pruning cuts off a beginning, of dead entries unless the rest is full. */
  lemma {:induction false} AliveIsASuffix<V>(m: seq<Entry<V>>, now: int)
    requires Ordered(m)
    ensures Alive(m, now) == m[|m| - |Alive(m, now)|..]
    ensures forall i | 0 <= i < |m| - |Alive(m, now)| :: m[i].until <= now
    ensures forall i | |m| - |Alive(m, now)| <= i < |m| :: m[i].until > now
  {
    if m != [] {
      AliveIsASuffix(m[1..], now);
      if m[0].until > now {
        AllAlive(m[1..], now);
      }
    }
  }

  lemma {:induction false} AllAlive<V>(m: seq<Entry<V>>, now: int)
    requires forall i | 0 <= i < |m| :: m[i].until > now
    ensures Alive(m, now) == m
  {
    if m != [] {
      AllAlive(m[1..], now);
    }
  }

  lemma PrunedIsASuffix<V>(m: seq<Entry<V>>, maximum: nat, now: int)
    requires Ordered(m)
    ensures Pruned(m, maximum, now) == m[|m| - |Pruned(m, maximum, now)|..]
    ensures |Pruned(m, maximum, now)| < maximum < |m| ==>
              forall i | 0 <= i < |m| - |Pruned(m, maximum, now)| :: m[i].until <= now
  {
    if |m| > maximum {
      AliveIsASuffix(m, now);
      NewestOfSuffix(m, Alive(m, now), maximum);
    }
  }

  lemma NewestOfSuffix<V>(m: seq<Entry<V>>, a: seq<Entry<V>>, maximum: nat)
    requires |a| <= |m| && a == m[|m| - |a|..]
    ensures |Newest(a, maximum)| <= |a| && (|Newest(a, maximum)| < maximum ==> Newest(a, maximum) == a)
    ensures Newest(a, maximum) == m[|m| - |Newest(a, maximum)|..]
  {
    if |a| > maximum {
      SuffixOfSuffix(m, |m| - |a|, |a| - maximum);
    }
  }

  lemma SuffixOfSuffix<V>(m: seq<V>, i: nat, j: nat)
    requires i <= |m| && j <= |m| - i
    ensures m[i..][j..] == m[i + j..]
  {
  }

  // ----- The limiter's table

  type Buckets = seq<Entry<nat>>

  function FailuresOf(m: Buckets, key: Key, now: int): nat {
    var i := Index(m, key);
    if i < |m| && m[i].until > now then m[i].value else 0
  }

  function Recorded(m: Buckets, key: Key, windowMs: int, now: int): Buckets {
    var i := Index(m, key);
    if i == |m| || m[i].until <= now then Deleted(m, key) + [Entry(key, now + windowMs, 1)]
    else m[i := m[i].(value := m[i].value + 1)]
  }

  function RecordedAll(m: Buckets, keys: seq<Key>, windowMs: int, now: int): Buckets {
    if keys == [] then m
    else Recorded(RecordedAll(m, keys[..|keys| - 1], windowMs, now), keys[|keys| - 1], windowMs, now)
  }

  function DeletedAll(m: Buckets, keys: seq<Key>): Buckets {
    if keys == [] then m else Deleted(DeletedAll(m, keys[..|keys| - 1]), keys[|keys| - 1])
  }

  datatype Rule = Rule(key: Key, limit: nat)

  /** How long the rule still bars an attempt. */
  function BarredFor(m: Buckets, r: Rule, now: int): (ms: nat)
    ensures ms > 0 <==> FailuresOf(m, r.key, now) >= r.limit && Has(m, r.key) && m[Index(m, r.key)].until > now
  {
    var i := Index(m, r.key);
    if i < |m| && m[i].until > now && m[i].value >= r.limit then m[i].until - now else 0
  }

  // ----- What the counts mean

  datatype Failure = Failure(key: Key, at: int)

  /** Failures of a key from some moment on. */
  function Count(log: seq<Failure>, key: Key, from: int): nat {
    if log == [] then 0
    else
      var last := log[|log| - 1];
      Count(log[..|log| - 1], key, from) + if last.key == key && last.at >= from then 1 else 0
  }

  lemma CountAfter(log: seq<Failure>, f: Failure, key: Key, from: int)
    ensures Count(log + [f], key, from) == Count(log, key, from) + if f.key == key && f.at >= from then 1 else 0
  {
    assert (log + [f])[..|log|] == log;
  }

  lemma {:induction false} CountOfNone(log: seq<Failure>, key: Key, from: int)
    requires forall i | 0 <= i < |log| && log[i].key == key :: log[i].at < from
    ensures Count(log, key, from) == 0
  {
    if log != [] {
      CountOfNone(log[..|log| - 1], key, from);
    }
  }

  lemma {:induction false} CountIsMonotone(log: seq<Failure>, key: Key, from: int, later: int)
    requires from <= later
    ensures Count(log, key, later) <= Count(log, key, from)
  {
    if log != [] {
      CountIsMonotone(log[..|log| - 1], key, from, later);
    }
  }

  /** The log without a key that was reset. */
  function Forgotten(log: seq<Failure>, key: Key): seq<Failure> {
    if log == [] then []
    else
      var rest := Forgotten(log[..|log| - 1], key);
      if log[|log| - 1].key == key then rest else rest + [log[|log| - 1]]
  }

  lemma {:induction false} ForgottenCounts(log: seq<Failure>, key: Key, other: Key, from: int)
    requires other != key
    ensures Count(Forgotten(log, key), other, from) == Count(log, other, from)
  {
    if log != [] {
      var init, last := log[..|log| - 1], log[|log| - 1];
      ForgottenCounts(init, key, other, from);
      if last.key != key {
        assert (Forgotten(init, key) + [last])[..|Forgotten(init, key)|] == Forgotten(init, key);
      }
    }
  }

  lemma {:induction false} ForgottenEntries(log: seq<Failure>, key: Key)
    ensures forall i | 0 <= i < |Forgotten(log, key)| :: Forgotten(log, key)[i] in log && Forgotten(log, key)[i].key != key
  {
    if log != [] {
      ForgottenEntries(log[..|log| - 1], key);
      assert log == log[..|log| - 1] + [log[|log| - 1]];
    }
  }

  /** Windows end in insertion order, and none later than one window from now. */
  predicate Windows(m: Buckets, windowMs: int, clock: int) {
    Distinct(m) && Ordered(m) && forall i | 0 <= i < |m| :: m[i].until <= clock + windowMs
  }

  /**
   * A bucket counts the failures since its window opened, and a key without one has no failure at this
   * very moment. Only a window opened in the millisecond of the key's last eviction may count fewer.
   */
  predicate Means(e: Option<Entry<nat>>, log: seq<Failure>, key: Key, lostAt: Option<int>, windowMs: int, clock: int) {
    && (forall i | 0 <= i < |log| && log[i].key == key ::
          && log[i].at <= clock
          && if e.Some? then log[i].at < e.value.until else log[i].at < clock || (lostAt.Some? && log[i].at <= lostAt.value))
    && (e.Some? ==>
          && e.value.value <= Count(log, key, e.value.until - windowMs)
          && (lostAt.None? || lostAt.value < e.value.until - windowMs ==>
                e.value.value == Count(log, key, e.value.until - windowMs)))
  }

  function LostAt(lost: map<Key, int>, key: Key): Option<int> {
    if key in lost then Some(lost[key]) else None
  }

  /** When each key was last evicted, after some were now. */
  function LostNow(lost: map<Key, int>, evicted: set<Key>, now: int): map<Key, int> {
    map key | key in lost.Keys + evicted :: if key in evicted then now else lost[key]
  }

  /** The key's window after one more failure: the one it is in, or else a new one. */
  function Bumped(was: Option<Entry<nat>>, key: Key, windowMs: int, now: int): Entry<nat> {
    if was.Some? && was.value.until > now then Entry(key, was.value.until, was.value.value + 1)
    else Entry(key, now + windowMs, 1)
  }

  lemma RecordedEntries(m: Buckets, key: Key, windowMs: int, now: int, other: Key)
    requires Distinct(m)
    ensures Distinct(Recorded(m, key, windowMs, now))
    ensures Get(Recorded(m, key, windowMs, now), other) ==
            if other == key then Some(Bumped(Get(m, key), key, windowMs, now)) else Get(m, other)
  {
    var i, r := Index(m, key), Recorded(m, key, windowMs, now);
    if i == |m| || m[i].until <= now {
      DeletedEntries(m, key);
      AppendedEntries(Deleted(m, key), Entry(key, now + windowMs, 1), other);
      if other != key {
        DeletedLeavesOthers(m, key, other);
      }
    } else {
      assert forall k | 0 <= k < |m| :: r[k].key == m[k].key;
      var o := Index(m, other);
      if o < |m| {
        assert r[o].key == other && r[Index(r, other)].key == other;
      } else {
        assert forall k | 0 <= k < |m| :: m[k].key != other;
      }
    }
  }

  lemma DeletedKeepsWindows(m: Buckets, key: Key, windowMs: nat, clock: int)
    requires Windows(m, windowMs, clock)
    ensures Windows(Deleted(m, key), windowMs, clock) && !Has(Deleted(m, key), key)
  {
    DeletedEntries(m, key);
  }

  lemma AppendedKeepsWindows(m: Buckets, e: Entry<nat>, windowMs: nat, clock: int, now: int)
    requires Windows(m, windowMs, clock) && clock <= now && !Has(m, e.key) && e.until == now + windowMs
    ensures Windows(m + [e], windowMs, now)
  {
    AppendedEntries(m, e, e.key);
    var r := m + [e];
    assert forall k | 0 <= k < |r| :: r[k] == if k < |m| then m[k] else e;
  }

  lemma BumpedKeepsWindows(m: Buckets, i: nat, windowMs: nat, clock: int, now: int)
    requires Windows(m, windowMs, clock) && clock <= now && i < |m|
    ensures Windows(m[i := m[i].(value := m[i].value + 1)], windowMs, now)
  {
    var r := m[i := m[i].(value := m[i].value + 1)];
    assert forall k | 0 <= k < |m| :: r[k].until == m[k].until && r[k].key == m[k].key;
  }

  /** A failure opens a window that ends last, or leaves every window's end where it was. */
  lemma RecordKeepsWindows(m: Buckets, key: Key, windowMs: nat, clock: int, now: int)
    requires Windows(m, windowMs, clock) && clock <= now
    ensures Windows(Recorded(m, key, windowMs, now), windowMs, now)
  {
    var i := Index(m, key);
    if i == |m| || m[i].until <= now {
      DeletedKeepsWindows(m, key, windowMs, clock);
      AppendedKeepsWindows(Deleted(m, key), Entry(key, now + windowMs, 1), windowMs, clock, now);
    } else {
      BumpedKeepsWindows(m, i, windowMs, clock, now);
    }
  }

  lemma RecordKeepsMeaning(e: Option<Entry<nat>>, log: seq<Failure>, key: Key, lostAt: Option<int>, windowMs: int, clock: int, now: int)
    requires windowMs > 0 && clock <= now && (e.Some? ==> e.value.until <= clock + windowMs)
    requires Means(e, log, key, lostAt, windowMs, clock)
    ensures Means(Some(Bumped(e, key, windowMs, now)), log + [Failure(key, now)], key, lostAt, windowMs, now)
  {
    CountAfter(log, Failure(key, now), key, Bumped(e, key, windowMs, now).until - windowMs);
    if !(e.Some? && e.value.until > now) && (lostAt.None? || lostAt.value < now) {
      CountOfNone(log, key, now);
    }
  }

  // ----- Pruning and forgetting

  lemma {:induction false} AliveEntries<V>(m: seq<Entry<V>>, now: int, key: Key)
    requires Distinct(m)
    ensures Distinct(Alive(m, now))
    ensures forall e <- Alive(m, now) :: e in m
    ensures Get(Alive(m, now), key) == if Get(m, key).Some? && Get(m, key).value.until > now then Get(m, key) else None
  {
    if m != [] {
      var rest := m[1..];
      AliveEntries(rest, now, key);
      assert forall k | 0 <= k < |rest| :: rest[k].key != m[0].key;
      assert Get(m, key) == if m[0].key == key then Some(m[0]) else Get(rest, key);
      if m[0].until > now {
        var a := [m[0]] + Alive(rest, now);
        assert a[1..] == Alive(rest, now);
        assert forall e <- Alive(rest, now) :: e.key != m[0].key;
        assert Get(a, key) == if m[0].key == key then Some(m[0]) else Get(a[1..], key);
      } else if m[0].key == key {
        assert Get(rest, key) == None;
      }
    }
  }

  lemma NewestEntries<V>(m: seq<Entry<V>>, maximum: nat, key: Key)
    requires Distinct(m)
    ensures Distinct(Newest(m, maximum))
    ensures Get(Newest(m, maximum), key) == Get(m, key) || (|m| > maximum && Get(Newest(m, maximum), key) == None)
  {
    var p, i := Newest(m, maximum), Index(m, key);
    var d := |m| - |p|;
    assert forall k | 0 <= k < |p| :: p[k] == m[d + k];
    if d <= i < |m| {
      assert p[i - d].key == key && p[Index(p, key)].key == key;
    } else {
      assert forall k | 0 <= k < |p| :: p[k].key != key;
    }
  }

  /** The keys that had a live entry and have none in the pruned map. */
  function Evicted<V>(m: seq<Entry<V>>, kept: seq<Entry<V>>, now: int): set<Key> {
    set i | 0 <= i < |m| && m[i].until > now && !Has(kept, m[i].key) :: m[i].key
  }

  /** Pruning changes no entry: it drops the dead, and live ones only when the map is full without them. */
  lemma PrunedEntries<V>(m: seq<Entry<V>>, maximum: nat, now: int, key: Key)
    requires Distinct(m)
    ensures Distinct(Pruned(m, maximum, now))
    ensures var e := Get(Pruned(m, maximum, now), key);
            e == Get(m, key) || (e == None && Get(m, key).Some? &&
              (Get(m, key).value.until <= now ||
               (key in Evicted(m, Pruned(m, maximum, now), now) && |Pruned(m, maximum, now)| == maximum)))
  {
    if |m| > maximum {
      AliveEntries(m, now, key);
      NewestEntries(Alive(m, now), maximum, key);
      var i := Index(m, key);
      assert i < |m| ==> m[i].key == key;
    }
  }

  lemma ForgetKeepsMeaning(e: Option<Entry<nat>>, log: seq<Failure>, forgotten: Key, key: Key, lostAt: Option<int>, windowMs: int, clock: int)
    requires Means(e, log, key, lostAt, windowMs, clock)
    ensures Means(if key == forgotten then None else e, Forgotten(log, forgotten), key, lostAt, windowMs, clock)
  {
    ForgottenEntries(log, forgotten);
    if key != forgotten && e.Some? {
      ForgottenCounts(log, forgotten, key, e.value.until - windowMs);
    }
  }

  /** The whole table against the log of the failures not yet reset. */
  ghost predicate Sound(m: Buckets, log: seq<Failure>, lost: map<Key, int>, windowMs: nat, clock: int) {
    && windowMs > 0
    && Windows(m, windowMs, clock)
    && forall key: Key :: Means(Get(m, key), log, key, LostAt(lost, key), windowMs, clock)
  }

  lemma TimeKeepsSound(m: Buckets, log: seq<Failure>, lost: map<Key, int>, windowMs: nat, clock: int, now: int)
    requires Sound(m, log, lost, windowMs, clock) && clock <= now
    ensures Sound(m, log, lost, windowMs, now)
  {
    forall key: Key ensures Means(Get(m, key), log, key, LostAt(lost, key), windowMs, now) {
      assert Means(Get(m, key), log, key, LostAt(lost, key), windowMs, clock);
    }
  }

  lemma RecordKeepsOne(e: Option<Entry<nat>>, log: seq<Failure>, other: Key, lostAt: Option<int>, windowMs: nat, key: Key, now: int)
    requires windowMs > 0 && (e.Some? ==> e.value.until <= now + windowMs) && Means(e, log, other, lostAt, windowMs, now)
    ensures Means(if other == key then Some(Bumped(e, key, windowMs, now)) else e, log + [Failure(key, now)], other, lostAt, windowMs, now)
  {
    if other == key {
      RecordKeepsMeaning(e, log, key, lostAt, windowMs, now, now);
    } else if e.Some? {
      CountAfter(log, Failure(key, now), other, e.value.until - windowMs);
    }
  }

  lemma RecordKeepsSound(m: Buckets, log: seq<Failure>, lost: map<Key, int>, windowMs: nat, key: Key, now: int)
    requires Sound(m, log, lost, windowMs, now)
    ensures Sound(Recorded(m, key, windowMs, now), log + [Failure(key, now)], lost, windowMs, now)
  {
    RecordKeepsWindows(m, key, windowMs, now, now);
    forall other: Key
      ensures Means(Get(Recorded(m, key, windowMs, now), other), log + [Failure(key, now)], other, LostAt(lost, other), windowMs, now)
    {
      assert Means(Get(m, other), log, other, LostAt(lost, other), windowMs, now);
      RecordedEntries(m, key, windowMs, now, other);
      RecordKeepsOne(Get(m, other), log, other, LostAt(lost, other), windowMs, key, now);
    }
  }

  lemma PruneKeepsSound(m: Buckets, log: seq<Failure>, lost: map<Key, int>, windowMs: nat, maximum: nat, now: int)
    requires Sound(m, log, lost, windowMs, now)
    ensures Sound(Pruned(m, maximum, now), log, LostNow(lost, Evicted(m, Pruned(m, maximum, now), now), now), windowMs, now)
  {
    var p := Pruned(m, maximum, now);
    PrunedIsASuffix(m, maximum, now);
    assert forall k | 0 <= k < |p| :: p[k] == m[|m| - |p| + k];
    forall key: Key ensures Means(Get(p, key), log, key, LostAt(LostNow(lost, Evicted(m, p, now), now), key), windowMs, now) {
      assert Means(Get(m, key), log, key, LostAt(lost, key), windowMs, now);
      PrunedEntries(m, maximum, now, key);
    }
  }

  lemma ForgetKeepsSound(m: Buckets, log: seq<Failure>, lost: map<Key, int>, windowMs: nat, key: Key, clock: int)
    requires Sound(m, log, lost, windowMs, clock)
    ensures Sound(Deleted(m, key), Forgotten(log, key), lost, windowMs, clock)
  {
    DeletedEntries(m, key);
    forall other: Key ensures Means(Get(Deleted(m, key), other), Forgotten(log, key), other, LostAt(lost, other), windowMs, clock) {
      assert Means(Get(m, other), log, other, LostAt(lost, other), windowMs, clock);
      ForgetKeepsMeaning(Get(m, other), log, key, other, LostAt(lost, other), windowMs, clock);
      if other != key {
        DeletedLeavesOthers(m, key, other);
      }
    }
  }

  // ----- The loops

  /** Deleting the dead entry at i while iterating, and passing the live one. */
  lemma AliveFrom<V>(r: seq<Entry<V>>, i: nat, now: int)
    requires i < |r|
    ensures r[i].until <= now ==> (r[..i] + r[i + 1..])[..i] + Alive((r[..i] + r[i + 1..])[i..], now) == r[..i] + Alive(r[i..], now)
    ensures r[i].until > now ==> r[..i + 1] + Alive(r[i + 1..], now) == r[..i] + Alive(r[i..], now)
  {
    assert r[i..][1..] == r[i + 1..];
    var rest := r[..i] + r[i + 1..];
    assert rest[..i] == r[..i] && rest[i..] == r[i + 1..];
    assert r[..i + 1] == r[..i] + [r[i]];
  }

  /** The private `prune` of both classes: dead entries first, then the oldest, each deleted in place. */
  method Prune<V>(m: seq<Entry<V>>, maximum: nat, now: int) returns (r: seq<Entry<V>>)
    ensures r == Pruned(m, maximum, now)
  {
    r := m;
    if |r| <= maximum {
      return;
    }
    var i := 0;
    while i < |r|
      invariant i <= |r|
      invariant Alive(m, now) == r[..i] + Alive(r[i..], now)
      decreases |r| - i
    {
      AliveFrom(r, i, now);
      if r[i].until <= now {
        r := r[..i] + r[i + 1..];
      } else {
        i := i + 1;
      }
    }
    assert r == Alive(m, now);
    r := DropOldest(r, maximum);
  }

  method DropOldest<V>(m: seq<Entry<V>>, maximum: nat) returns (r: seq<Entry<V>>)
    ensures r == Newest(m, maximum)
  {
    r := m;
    while |r| > maximum
      invariant |r| <= |m|
      invariant if |m| <= maximum then r == m else |r| >= maximum
      invariant r == m[|m| - |r|..]
    {
      r := r[1..];
    }
  }

  function FailuresAt(keys: seq<Key>, now: int): seq<Failure> {
    if keys == [] then [] else FailuresAt(keys[..|keys| - 1], now) + [Failure(keys[|keys| - 1], now)]
  }

  function ForgottenAll(log: seq<Failure>, keys: seq<Key>): seq<Failure> {
    if keys == [] then log else Forgotten(ForgottenAll(log, keys[..|keys| - 1]), keys[|keys| - 1])
  }

  function LongestBar(m: Buckets, rules: seq<Rule>, now: int): nat {
    if rules == [] then 0
    else
      var rest, last := LongestBar(m, rules[..|rules| - 1], now), BarredFor(m, rules[|rules| - 1], now);
      if last > rest then last else rest
  }

  /** An attempt is free exactly when every rule has room, and otherwise waits for the last full window to end. */
  lemma {:induction false} LongestBarIsTheLast(m: Buckets, rules: seq<Rule>, now: int)
    ensures forall i | 0 <= i < |rules| :: BarredFor(m, rules[i], now) <= LongestBar(m, rules, now)
    ensures LongestBar(m, rules, now) > 0 ==> exists i | 0 <= i < |rules| :: BarredFor(m, rules[i], now) == LongestBar(m, rules, now)
  {
    if rules != [] {
      LongestBarIsTheLast(m, rules[..|rules| - 1], now);
    }
  }

  /** No running window of the rule's key is full. */
  predicate HasRoom(m: Buckets, r: Rule, now: int) {
    forall e | e in m && e.key == r.key && e.until > now :: e.value < r.limit
  }

  lemma EntryAtIndex(m: Buckets, key: Key, e: Entry<nat>)
    requires Distinct(m) && e in m && e.key == key
    ensures Index(m, key) < |m| && m[Index(m, key)] == e
  {
    var i :| 0 <= i < |m| && m[i] == e;
  }

  /** The wait of one rule: until its window ends, if that is full. */
  lemma BarredForExactly(m: Buckets, r: Rule, now: int, ms: int)
    requires Distinct(m) && ms >= 0
    ensures HasRoom(m, r, now + ms) <==> BarredFor(m, r, now) <= ms
  {
    var i := Index(m, r.key);
    forall e | e in m && e.key == r.key ensures i < |m| && m[i] == e {
      EntryAtIndex(m, r.key, e);
    }
    if i < |m| {
      assert m[i] in m;
    }
  }

  /**
   * Exactly how long a caller is to wait: at the end of the wait every rule has room, and at no moment before it
   * have all of them.
   */
  lemma WaitEndsExactly(m: Buckets, rules: seq<Rule>, now: int, ms: int)
    requires Distinct(m) && ms >= 0
    ensures (forall r | r in rules :: HasRoom(m, r, now + ms)) <==> LongestBar(m, rules, now) <= ms
  {
    LongestBarIsTheLast(m, rules, now);
    forall r | r in rules ensures HasRoom(m, r, now + ms) <==> BarredFor(m, r, now) <= ms {
      BarredForExactly(m, r, now, ms);
    }
    forall r | r in rules ensures BarredFor(m, r, now) <= LongestBar(m, rules, now) {
      var i :| 0 <= i < |rules| && rules[i] == r;
    }
  }

  lemma OneMoreKey(m: Buckets, keys: seq<Key>, i: nat, windowMs: nat, now: int)
    requires i < |keys|
    ensures RecordedAll(m, keys[..i + 1], windowMs, now) == Recorded(RecordedAll(m, keys[..i], windowMs, now), keys[i], windowMs, now)
    ensures FailuresAt(keys[..i + 1], now) == FailuresAt(keys[..i], now) + [Failure(keys[i], now)]
  {
    assert keys[..i + 1][..i] == keys[..i];
  }

  /** The body of the loop over the rules of a failed attempt. */
  method CountOne(m: Buckets, key: Key, windowMs: nat, now: int) returns (r: Buckets)
    ensures r == Recorded(m, key, windowMs, now)
  {
    var at := Index(m, key);
    if at == |m| || m[at].until <= now {
      r := Deleted(m, key) + [Entry(key, now + windowMs, 1)];
    } else {
      r := m[at := m[at].(value := m[at].value + 1)];
    }
  }

  class Limiter {
    const windowMs: nat
    const maximumBuckets: nat
    var buckets: Buckets
    ghost var log: seq<Failure>
    /** When each key was last evicted while its window ran. */
    ghost var lost: map<Key, int>
    ghost var clock: int

    ghost predicate Valid()
      reads this
    {
      Sound(buckets, log, lost, windowMs, clock) && |buckets| <= maximumBuckets
    }

    constructor (windowMs: nat, maximumBuckets: nat)
      requires windowMs > 0
      ensures Valid() && this.windowMs == windowMs && this.maximumBuckets == maximumBuckets
      ensures buckets == [] && log == [] && lost == map[]
    {
      this.windowMs, this.maximumBuckets := windowMs, maximumBuckets;
      buckets, log, lost, clock := [], [], map[], 0;
    }

    method RetryAfterMs(rules: seq<Rule>, now: int) returns (ms: nat)
      ensures ms == LongestBar(buckets, rules, now)
    {
      ms := 0;
      var i := 0;
      while i < |rules|
        invariant i <= |rules|
        invariant ms == LongestBar(buckets, rules[..i], now)
      {
        assert rules[..i + 1][..i] == rules[..i];
        var bar := BarredFor(buckets, rules[i], now);
        ms := if bar > ms then bar else ms;
        i := i + 1;
      }
      assert rules[..i] == rules;
    }

    /** Never more than the failures within one window before now, and all of a window not opened in the millisecond of an eviction. */
    method Failures(key: Key, now: int) returns (n: nat)
      requires Valid() && clock <= now
      ensures n == FailuresOf(buckets, key, now)
      ensures n <= Count(log, key, now - windowMs + 1)
      ensures Has(buckets, key) && n > 0 && (key in lost ==> lost[key] < Get(buckets, key).value.until - windowMs) ==>
                n == Count(log, key, Get(buckets, key).value.until - windowMs)
    {
      n := FailuresOf(buckets, key, now);
      assert Means(Get(buckets, key), log, key, LostAt(lost, key), windowMs, clock);
      if n > 0 {
        CountIsMonotone(log, key, now - windowMs + 1, Get(buckets, key).value.until - windowMs);
      }
    }

    method RecordFailure(keys: seq<Key>, now: int)
      requires Valid() && clock <= now
      modifies this
      ensures Valid() && clock == now && log == old(log) + FailuresAt(keys, now)
      ensures var recorded := RecordedAll(old(buckets), keys, windowMs, now);
              && buckets == Pruned(recorded, maximumBuckets, now)
              && lost == LostNow(old(lost), Evicted(recorded, buckets, now), now)
    {
      TimeKeepsSound(buckets, log, lost, windowMs, clock, now);
      clock := now;
      RecordEach(keys, now);
      PruneKeepsSound(buckets, log, lost, windowMs, maximumBuckets, now);
      var kept := Prune(buckets, maximumBuckets, now);
      lost := LostNow(lost, Evicted(buckets, kept, now), now);
      buckets := kept;
    }

    /** The loop of it. */
    method RecordEach(keys: seq<Key>, now: int)
      requires Sound(buckets, log, lost, windowMs, now)
      modifies this`buckets, this`log
      ensures Sound(buckets, log, lost, windowMs, now)
      ensures buckets == RecordedAll(old(buckets), keys, windowMs, now) && log == old(log) + FailuresAt(keys, now)
    {
      var i := 0;
      while i < |keys|
        invariant i <= |keys|
        invariant buckets == RecordedAll(old(buckets), keys[..i], windowMs, now)
        invariant log == old(log) + FailuresAt(keys[..i], now)
        invariant Sound(buckets, log, lost, windowMs, now)
      {
        OneMoreKey(old(buckets), keys, i, windowMs, now);
        Record(keys[i], now);
        i := i + 1;
      }
      assert keys[..i] == keys;
    }

    /** One key's part of it. */
    method Record(key: Key, now: int)
      requires Sound(buckets, log, lost, windowMs, now)
      modifies this`buckets, this`log
      ensures Sound(buckets, log, lost, windowMs, now)
      ensures buckets == Recorded(old(buckets), key, windowMs, now) && log == old(log) + [Failure(key, now)]
    {
      RecordKeepsSound(buckets, log, lost, windowMs, key, now);
      buckets := CountOne(buckets, key, windowMs, now);
      log := log + [Failure(key, now)];
    }

    method Reset(keys: seq<Key>)
      requires Valid()
      modifies this`buckets, this`log
      ensures Valid() && buckets == DeletedAll(old(buckets), keys) && log == ForgottenAll(old(log), keys)
    {
      var i := 0;
      while i < |keys|
        invariant i <= |keys| && |buckets| <= maximumBuckets
        invariant buckets == DeletedAll(old(buckets), keys[..i]) && log == ForgottenAll(old(log), keys[..i])
        invariant Sound(buckets, log, lost, windowMs, clock)
      {
        assert keys[..i + 1][..i] == keys[..i];
        ForgetKeepsSound(buckets, log, lost, windowMs, keys[i], clock);
        buckets := Deleted(buckets, keys[i]);
        log := Forgotten(log, keys[i]);
        i := i + 1;
      }
      assert keys[..i] == keys;
    }
  }

  // ----- The spacer

  datatype Spacing = Spacing(freeFailures: nat, initialMs: nat, maximumMs: nat, maximumWaitMs: nat)

  datatype Turn = Wait(ms: nat) | RetryAfter(ms: nat)

  type Turns = seq<Entry<()>>

  function Doubled(ms: nat, times: nat): nat {
    if times == 0 then ms else 2 * Doubled(ms, times - 1)
  }

  /** The spacing behind an attempt made with that many failures on the key. */
  function SpacingAt(o: Spacing, failures: nat): nat
    requires failures >= o.freeFailures
  {
    var ms := Doubled(o.initialMs, failures - o.freeFailures);
    if ms < o.maximumMs then ms else o.maximumMs
  }

  /** The first moment the key may have its turn. */
  function NextTurn(t: Turns, key: Key, now: int): (turn: int)
    ensures turn >= now
  {
    var i := Index(t, key);
    if i < |t| && t[i].until > now then t[i].until else now
  }

  function TurnFor(o: Spacing, t: Turns, key: Key, failures: nat, now: int): Turn {
    if failures < o.freeFailures then Wait(0)
    else
      var wait := NextTurn(t, key, now) - now;
      if wait > o.maximumWaitMs then RetryAfter(wait - o.maximumWaitMs) else Wait(wait)
  }

  /** The key moved to the end with the moment its next turn starts. */
  function Taken(o: Spacing, t: Turns, key: Key, failures: nat, now: int): Turns
    requires failures >= o.freeFailures
  {
    Deleted(t, key) + [Entry(key, NextTurn(t, key, now) + SpacingAt(o, failures), ())]
  }

  function TurnsAfter(o: Spacing, t: Turns, maximum: nat, key: Key, failures: nat, now: int): Turns {
    if failures < o.freeFailures || TurnFor(o, t, key, failures, now).RetryAfter? then t
    else Pruned(Taken(o, t, key, failures, now), maximum, now)
  }

  lemma TakenEntries(o: Spacing, t: Turns, key: Key, failures: nat, now: int, other: Key)
    requires Distinct(t) && failures >= o.freeFailures
    ensures Distinct(Taken(o, t, key, failures, now))
    ensures Get(Taken(o, t, key, failures, now), other) ==
            if other == key then Some(Entry(key, NextTurn(t, key, now) + SpacingAt(o, failures), ())) else Get(t, other)
  {
    DeletedEntries(t, key);
    AppendedEntries(Deleted(t, key), Entry(key, NextTurn(t, key, now) + SpacingAt(o, failures), ()), other);
    if other != key {
      DeletedLeavesOthers(t, key, other);
    }
  }

  /** A caller turned away who comes back when told to, with nothing reserved in between, gets the longest allowed wait. */
  lemma RetryIsInTime(o: Spacing, t: Turns, key: Key, failures: nat, now: int)
    requires TurnFor(o, t, key, failures, now).RetryAfter?
    ensures var ms := TurnFor(o, t, key, failures, now).ms;
            ms > 0 && TurnFor(o, t, key, failures, now + ms) == Wait(o.maximumWaitMs)
            && TurnFor(o, t, key, failures, now + ms - 1) == RetryAfter(1)
  {
  }

  /** Every key's next turn is where its last granted one put it, unless it was evicted since, while that lay ahead. */
  ghost predicate Spaced(t: Turns, due: map<Key, int>, evicted: set<Key>, clock: int) {
    Distinct(t) && forall key: Key | key in due && key !in evicted :: NextTurn(t, key, clock) >= due[key]
  }

  lemma TimeKeepsSpaced(t: Turns, due: map<Key, int>, evicted: set<Key>, clock: int, now: int)
    requires Spaced(t, due, evicted, clock) && clock <= now
    ensures Spaced(t, due, evicted, now)
  {
    forall key: Key | key in due && key !in evicted ensures NextTurn(t, key, now) >= due[key] {
      assert NextTurn(t, key, clock) >= due[key];
    }
  }

  lemma TakeKeepsSpaced(o: Spacing, t: Turns, maximum: nat, due: map<Key, int>, evicted: set<Key>, key: Key, failures: nat, now: int)
    requires Spaced(t, due, evicted, now) && failures >= o.freeFailures
    ensures var taken := Taken(o, t, key, failures, now);
            Spaced(Pruned(taken, maximum, now), due[key := NextTurn(t, key, now) + SpacingAt(o, failures)],
                   (evicted - {key}) + Evicted(taken, Pruned(taken, maximum, now), now), now)
  {
    var taken := Taken(o, t, key, failures, now);
    var kept, due' := Pruned(taken, maximum, now), due[key := NextTurn(t, key, now) + SpacingAt(o, failures)];
    TakenEntries(o, t, key, failures, now, key);
    PrunedEntries(taken, maximum, now, key);
    forall k: Key | k in due' && k !in (evicted - {key}) + Evicted(taken, kept, now) ensures NextTurn(kept, k, now) >= due'[k] {
      TakenEntries(o, t, key, failures, now, k);
      PrunedEntries(taken, maximum, now, k);
      if k != key {
        assert NextTurn(t, k, now) >= due[k];
      }
    }
  }

  class Spacer {
    const options: Spacing
    const maximumKeys: nat
    var nextTurns: Turns
    /** Of each key, the last granted turn plus the spacing it asked for; and the keys evicted since theirs. */
    ghost var due: map<Key, int>
    ghost var evicted: set<Key>
    ghost var clock: int

    ghost predicate Valid()
      reads this
    {
      Spaced(nextTurns, due, evicted, clock) && |nextTurns| <= maximumKeys
    }

    constructor (options: Spacing, maximumKeys: nat)
      ensures Valid() && this.options == options && this.maximumKeys == maximumKeys
      ensures nextTurns == [] && due == map[] && evicted == {}
    {
      this.options, this.maximumKeys := options, maximumKeys;
      nextTurns, due, evicted, clock := [], map[], {}, 0;
    }

    /**
     * A granted turn waits no longer than allowed and comes no sooner than one spacing after the key's turn
     * before it; one refused reserves nothing.
     */
    method Reserve(key: Key, failures: nat, now: int) returns (turn: Turn)
      requires Valid() && clock <= now
      modifies this`nextTurns, this`due, this`evicted, this`clock
      ensures Valid() && clock == now
      ensures turn == TurnFor(options, old(nextTurns), key, failures, now)
      ensures nextTurns == TurnsAfter(options, old(nextTurns), maximumKeys, key, failures, now)
      ensures turn.Wait? ==> turn.ms <= options.maximumWaitMs
      ensures if turn.Wait? && failures >= options.freeFailures
              then && due == old(due)[key := now + turn.ms + SpacingAt(options, failures)]
                   && evicted == (old(evicted) - {key}) + Evicted(Taken(options, old(nextTurns), key, failures, now), nextTurns, now)
              else due == old(due) && nextTurns == old(nextTurns) && evicted == old(evicted)
      ensures turn.Wait? && failures >= options.freeFailures && key in old(due) && key !in old(evicted) ==>
                now + turn.ms >= old(due)[key]
    {
      TimeKeepsSpaced(nextTurns, due, evicted, clock, now);
      clock := now;
      if failures < options.freeFailures {
        return Wait(0);
      }
      var next := NextTurn(nextTurns, key, now);
      if next - now > options.maximumWaitMs {
        return RetryAfter(next - now - options.maximumWaitMs);
      }
      turn := Wait(next - now);
      Take(key, failures, now, next);
    }

    /** The part of `reserve` that moves the key to the end with its next turn. */
    method Take(key: Key, failures: nat, now: int, ghost next: int)
      requires Valid() && clock == now && failures >= options.freeFailures && next == NextTurn(nextTurns, key, now)
      modifies this`nextTurns, this`due, this`evicted
      ensures Valid()
      ensures nextTurns == Pruned(Taken(options, old(nextTurns), key, failures, now), maximumKeys, now)
      ensures due == old(due)[key := next + SpacingAt(options, failures)]
      ensures evicted == (old(evicted) - {key}) + Evicted(Taken(options, old(nextTurns), key, failures, now), nextTurns, now)
    {
      TakeKeepsSpaced(options, nextTurns, maximumKeys, due, evicted, key, failures, now);
      var taken := Taken(options, nextTurns, key, failures, now);
      nextTurns := Prune(taken, maximumKeys, now);
      due := due[key := next + SpacingAt(options, failures)];
      evicted := (evicted - {key}) + Evicted(taken, nextTurns, now);
    }
  }

  // ----- One account's sign-ins

  /** server/routes/auth.ts: from ten failures on, attempts are a second apart, doubling up to ten seconds. */
  const SIGN_IN_SPACING := Spacing(10, 1000, 10_000, 30_000)
  const SIGN_IN_WINDOW_MS: nat := 900_000

  datatype SignInTables = SignInTables(buckets: Buckets, turns: Turns)

  // What the tables hold for one account.
  datatype Account = Account(bucket: Option<Entry<nat>>, next: Option<Entry<()>>)

  function ViewOf(t: SignInTables, account: Key): Account {
    Account(Get(t.buckets, account), Get(t.turns, account))
  }

  function Seen(a: Account, now: int): nat {
    if a.bucket.Some? && a.bucket.value.until > now then a.bucket.value.value else 0
  }

  function TurnOf(a: Account, now: int): (turn: int)
    ensures turn >= now
  {
    if a.next.Some? && a.next.value.until > now then a.next.value.until else now
  }

  /**
   * Between two steps of the account anything may happen but that its live entries are lost or another
   * failure is counted for it: the owner may sign in correctly, which takes a turn and puts the next one off.
   */
  predicate Undisturbed(a: Account, b: Account, now: int) {
    && (b.bucket == a.bucket || (a.bucket.Some? && a.bucket.value.until <= now && b.bucket == None))
    && TurnOf(b, now) >= TurnOf(a, now)
  }

  /** A correct sign-in in between, of the same account, leaves it undisturbed. */
  lemma CorrectSignInDoesNotDisturb(t: SignInTables, account: Key, now: int, later: int)
    requires Distinct(t.turns) && now <= later
    ensures var failures := FailuresOf(t.buckets, account, now);
            var turns := if failures < SIGN_IN_SPACING.freeFailures || TurnFor(SIGN_IN_SPACING, t.turns, account, failures, now).RetryAfter?
                         then t.turns else Taken(SIGN_IN_SPACING, t.turns, account, failures, now);
            Undisturbed(ViewOf(t, account), ViewOf(t.(turns := turns), account), later)
  {
    var failures := FailuresOf(t.buckets, account, now);
    if failures >= 10 {
      TakenView(t, account, failures, now);
    }
  }

  /**
   * A sign-in with a wrong password: the tables it asked for a turn in, the tables it recorded its
   * failure in, and the two moments.
   */
  datatype SignIn = SignIn(asked: int, asking: SignInTables, failed: int, failing: SignInTables)

  function AfterSignIn(s: SignIn, account: Key): SignInTables {
    s.failing.(buckets := Recorded(s.failing.buckets, account, SIGN_IN_WINDOW_MS, s.failed))
  }

  /** The sign-in was let through, took its turn, waited for it, and only then recorded its failure. */
  predicate LetThrough(s: SignIn, account: Key) {
    var failures := FailuresOf(s.asking.buckets, account, s.asked);
    var turn := TurnFor(SIGN_IN_SPACING, s.asking.turns, account, failures, s.asked);
    var turns := if failures < SIGN_IN_SPACING.freeFailures then s.asking.turns
                 else Taken(SIGN_IN_SPACING, s.asking.turns, account, failures, s.asked);
    && turn.Wait?
    && s.failed >= s.asked + turn.ms
    && Distinct(s.asking.buckets) && Distinct(s.asking.turns) && Distinct(s.failing.buckets)
    && Undisturbed(ViewOf(SignInTables(s.asking.buckets, turns), account), ViewOf(s.failing, account), s.failed)
  }

  /** Failing sign-ins to one account, each asked for after the one before it failed. */
  predicate OneAtATime(run: seq<SignIn>, account: Key) {
    && (forall i | 0 <= i < |run| :: LetThrough(run[i], account))
    && (forall i | 0 < i < |run| :: run[i - 1].failed <= run[i].asked
          && Undisturbed(ViewOf(AfterSignIn(run[i - 1], account), account), ViewOf(run[i].asking, account), run[i].asked))
    && (|run| > 0 ==> ViewOf(run[0].asking, account) == Account(None, None))
  }

  // The same sign-in and run, on what the tables hold for the account alone.
  datatype Attempt = Attempt(asked: int, seen: Account, failed: int, found: Account)

  function Left(x: Attempt, account: Key): Account {
    x.found.(bucket := Some(Bumped(x.found.bucket, account, SIGN_IN_WINDOW_MS, x.failed)))
  }

  predicate Allowed(x: Attempt, account: Key) {
    var failures, turn := Seen(x.seen, x.asked), TurnOf(x.seen, x.asked);
    && x.failed >= (if failures < 10 then x.asked else turn)
    && Undisturbed(if failures < 10 then x.seen
                   else x.seen.(next := Some(Entry(account, turn + SpacingAt(SIGN_IN_SPACING, failures), ()))), x.found, x.failed)
  }

  predicate InTurn(run: seq<Attempt>, account: Key) {
    && (forall i | 0 <= i < |run| :: Allowed(run[i], account))
    && (forall i | 0 < i < |run| :: run[i - 1].failed <= run[i].asked
          && Undisturbed(Left(run[i - 1], account), run[i].seen, run[i].asked))
    && (|run| > 0 ==> run[0].seen == Account(None, None))
  }

  function AttemptOf(s: SignIn, account: Key): Attempt {
    Attempt(s.asked, ViewOf(s.asking, account), s.failed, ViewOf(s.failing, account))
  }

  lemma TakenView(t: SignInTables, account: Key, failures: nat, now: int)
    requires Distinct(t.turns) && failures >= 10
    ensures ViewOf(t.(turns := Taken(SIGN_IN_SPACING, t.turns, account, failures, now)), account) ==
            ViewOf(t, account).(next := Some(Entry(account, TurnOf(ViewOf(t, account), now) + SpacingAt(SIGN_IN_SPACING, failures), ())))
  {
    TakenEntries(SIGN_IN_SPACING, t.turns, account, failures, now, account);
    assert NextTurn(t.turns, account, now) == TurnOf(ViewOf(t, account), now);
  }

  lemma SignInIsAnAttempt(s: SignIn, account: Key)
    requires LetThrough(s, account)
    ensures Allowed(AttemptOf(s, account), account)
  {
    var failures := FailuresOf(s.asking.buckets, account, s.asked);
    assert failures == Seen(ViewOf(s.asking, account), s.asked);
    assert NextTurn(s.asking.turns, account, s.asked) == TurnOf(ViewOf(s.asking, account), s.asked);
    if failures >= 10 {
      TakenView(s.asking, account, failures, s.asked);
    }
  }

  lemma SignInLeaves(s: SignIn, account: Key)
    requires Distinct(s.failing.buckets)
    ensures ViewOf(AfterSignIn(s, account), account) == Left(AttemptOf(s, account), account)
  {
    RecordedEntries(s.failing.buckets, account, SIGN_IN_WINDOW_MS, s.failed, account);
  }

  /** How long after its window opened the account's next turn comes at the earliest. */
  function Offset(failures: nat): nat {
    if failures <= 10 then 0 else Offset(failures - 1) + SpacingAt(SIGN_IN_SPACING, failures - 1)
  }

  lemma {:induction false} OffsetPastTheRamp(failures: nat)
    requires failures >= 14
    ensures Offset(failures) == 15_000 + 10_000 * (failures - 14)
  {
    if failures == 14 {
      assert Offset(11) == 1000 && Offset(12) == 3000 && Offset(13) == 7000;
    } else {
      OffsetPastTheRamp(failures - 1);
      DoublingGrows(failures - 11);
    }
  }

  lemma {:induction false} DoublingGrows(times: nat)
    ensures Doubled(1000, times) >= 1000
    ensures times >= 4 ==> Doubled(1000, times) >= 10_000
  {
    if times == 4 {
      assert Doubled(1000, 2) == 4000;
    } else if times > 0 {
      DoublingGrows(times - 1);
    }
  }

  /** In its running window, the account's next turn is late enough for the failures the window holds. */
  predicate Rationed(a: Account, clock: int) {
    a.bucket.Some? && a.bucket.value.until > clock ==>
      var e := a.bucket.value;
      var due := e.until - SIGN_IN_WINDOW_MS + Offset(e.value);
      && e.until <= clock + SIGN_IN_WINDOW_MS
      && e.value <= 103
      && (e.value > 10 ==> TurnOf(a, clock) >= due)
  }

  lemma UndisturbedKeepsRationed(a: Account, b: Account, clock: int, now: int)
    requires Rationed(a, clock) && clock <= now && Undisturbed(a, b, now)
    ensures Rationed(b, now)
  {
  }

  lemma OffsetOfTheLast(value: nat)
    requires Offset(value) < 900_000
    ensures value <= 102
  {
    if value >= 14 {
      OffsetPastTheRamp(value);
    }
  }

  lemma AttemptKeepsRationed(x: Attempt, account: Key)
    requires Allowed(x, account) && Rationed(x.seen, x.asked)
    ensures Rationed(Left(x, account), x.failed)
  {
    var failures, b := Seen(x.seen, x.asked), x.found.bucket;
    if failures >= 10 && b.Some? && b.value.until > x.failed {
      var turn, e := TurnOf(x.seen, x.asked), x.seen.bucket.value;
      assert b.value == e && failures == e.value;
      assert turn >= e.until - SIGN_IN_WINDOW_MS + Offset(e.value);
      OffsetOfTheLast(e.value);
      assert Offset(e.value + 1) == Offset(e.value) + SpacingAt(SIGN_IN_SPACING, e.value);
    }
  }

  lemma {:induction false} RunKeepsRationed(run: seq<Attempt>, account: Key, j: nat)
    requires InTurn(run, account) && j < |run|
    ensures Rationed(run[j].seen, run[j].asked)
    ensures Rationed(Left(run[j], account), run[j].failed)
  {
    if j > 0 {
      RunKeepsRationed(run, account, j - 1);
      UndisturbedKeepsRationed(Left(run[j - 1], account), run[j].seen, run[j - 1].failed, run[j].asked);
    }
    AttemptKeepsRationed(run[j], account);
  }

  lemma NextInTheWindow(x: Attempt, y: Attempt, account: Key)
    requires Allowed(y, account) && y.failed < Left(x, account).bucket.value.until
    requires x.failed <= y.asked && Undisturbed(Left(x, account), y.seen, y.asked)
    ensures x.failed <= y.failed
    ensures Left(y, account).bucket.value.until == Left(x, account).bucket.value.until
    ensures Left(y, account).bucket.value.value == Left(x, account).bucket.value.value + 1
  {
  }

  /** The bucket an attempt leaves counts it and the ones after it, as long as they fail before it ends. */
  lemma {:induction false} WindowCounts(run: seq<Attempt>, account: Key, i: nat, j: nat)
    requires InTurn(run, account) && i <= j < |run|
    requires run[j].failed < Left(run[i], account).bucket.value.until
    ensures Left(run[j], account).bucket.value.until == Left(run[i], account).bucket.value.until
    ensures Left(run[j], account).bucket.value.value >= j - i + 1
  {
    if i < j {
      assert Allowed(run[j], account) && run[j - 1].failed <= run[j].asked <= run[j].failed;
      WindowCounts(run, account, i, j - 1);
      NextInTheWindow(run[j - 1], run[j], account);
    }
  }

  /** Made one at a time, at most 103 wrong sign-ins to one account fit in the 15-minute window the first opens. */
  lemma SignInsFitTheWindow(run: seq<SignIn>, account: Key, i: nat, j: nat)
    requires OneAtATime(run, account) && i <= j < |run|
    ensures var window := Get(AfterSignIn(run[i], account).buckets, account);
            window.Some? && (run[j].failed < window.value.until ==> j - i < 103)
  {
    var attempts := seq(|run|, k requires 0 <= k < |run| => AttemptOf(run[k], account));
    forall k | 0 <= k < |run|
      ensures Allowed(attempts[k], account) && ViewOf(AfterSignIn(run[k], account), account) == Left(attempts[k], account)
    {
      SignInIsAnAttempt(run[k], account);
      SignInLeaves(run[k], account);
    }
    assert InTurn(attempts, account);
    if run[j].failed < Left(attempts[i], account).bucket.value.until {
      WindowCounts(attempts, account, i, j);
      RunKeepsRationed(attempts, account, j);
    }
  }

  // ----- The bound is reached

  /** The fastest run of wrong sign-ins to account 0: each fails the moment its turn comes. */
  function FastBuckets(failures: nat): Buckets {
    if failures == 0 then [] else [Entry(0, SIGN_IN_WINDOW_MS, failures)]
  }

  function FastTurns(failures: nat): Turns {
    if failures <= 10 then [] else [Entry(0, Offset(failures), ())]
  }

  function FastSignIn(k: nat): SignIn {
    SignIn(
      if k == 0 then 0 else Offset(k - 1), SignInTables(FastBuckets(k), FastTurns(k)),
      Offset(k), SignInTables(FastBuckets(k), FastTurns(k + 1)))
  }

  lemma OffsetSteps(k: nat)
    requires k <= 102
    ensures Offset(k) < SIGN_IN_WINDOW_MS
    ensures k > 10 ==> Offset(k - 1) + 1000 <= Offset(k) <= Offset(k - 1) + 10_000
    ensures k <= 11 ==> k == 0 || Offset(k - 1) == 0
  {
    if k >= 14 {
      OffsetPastTheRamp(k);
    } else {
      assert Offset(11) == 1000 && Offset(12) == 3000 && Offset(13) == 7000;
    }
    if k > 10 {
      DoublingGrows(k - 11);
    }
  }

  lemma FastCounts(k: nat, now: int)
    requires k <= 102 && now < SIGN_IN_WINDOW_MS
    ensures FailuresOf(FastBuckets(k), 0, now) == k
    ensures Distinct(FastBuckets(k)) && Distinct(FastTurns(k))
    ensures Get(FastBuckets(k), 0) == if k == 0 then None else Some(Entry(0, SIGN_IN_WINDOW_MS, k))
  {
  }

  lemma FastRecords(k: nat)
    requires k <= 102
    ensures Recorded(FastBuckets(k), 0, SIGN_IN_WINDOW_MS, Offset(k)) == FastBuckets(k + 1)
  {
    OffsetSteps(k);
  }

  lemma FastTakes(k: nat)
    requires 10 <= k <= 102
    ensures NextTurn(FastTurns(k), 0, Offset(k - 1)) == Offset(k)
    ensures Taken(SIGN_IN_SPACING, FastTurns(k), 0, k, Offset(k - 1)) == FastTurns(k + 1)
  {
    OffsetSteps(k);
    assert Deleted(FastTurns(k), 0) == [];
  }

  lemma FastSignInIsLetThrough(k: nat)
    requires k <= 102
    ensures LetThrough(FastSignIn(k), 0)
  {
    OffsetSteps(k);
    FastCounts(k, if k == 0 then 0 else Offset(k - 1));
    if k >= 10 {
      FastTakes(k);
    }
  }

  function FastRun(n: nat): (run: seq<SignIn>)
    ensures |run| == n && forall k | 0 <= k < n :: run[k] == FastSignIn(k)
  {
    if n == 0 then [] else FastRun(n - 1) + [FastSignIn(n - 1)]
  }

  lemma FastRunIsOneAtATime(run: seq<SignIn>)
    requires |run| <= 103 && forall k | 0 <= k < |run| :: run[k] == FastSignIn(k)
    ensures OneAtATime(run, 0)
  {
    forall k | 0 <= k < |run| ensures LetThrough(run[k], 0) {
      FastSignInIsLetThrough(k);
    }
    forall k | 0 < k < |run|
      ensures run[k - 1].failed <= run[k].asked
      ensures Undisturbed(ViewOf(AfterSignIn(run[k - 1], 0), 0), ViewOf(run[k].asking, 0), run[k].asked)
    {
      FastRecords(k - 1);
    }
  }

  lemma FastestRun(n: nat) returns (run: seq<SignIn>)
    requires 0 < n <= 103
    ensures |run| == n && OneAtATime(run, 0)
    ensures var window := Get(AfterSignIn(run[0], 0).buckets, 0); window.Some? && run[n - 1].failed < window.value.until
  {
    run := FastRun(n);
    FastRunIsOneAtATime(run);
    FastRecords(0);
    FastCounts(1, 0);
    OffsetSteps(n - 1);
  }

  /** The bound is exact: 103 wrong sign-ins, one after the other, do fail within the window the first opens. */
  lemma SignInsFillTheWindow() returns (run: seq<SignIn>)
    ensures |run| == 103 && OneAtATime(run, 0)
    ensures var window := Get(AfterSignIn(run[0], 0).buckets, 0); window.Some? && run[102].failed < window.value.until
  {
    run := FastestRun(103);
  }

  // ----- Attempts made at once

  lemma {:induction false} LastStaysAlive<V>(m: seq<Entry<V>>, e: Entry<V>, now: int)
    requires e.until > now
    ensures Alive(m + [e], now) == Alive(m, now) + [e]
  {
    var a := m + [e];
    if m == [] {
      assert a == [e] && a[1..] == [];
    } else {
      LastStaysAlive(m[1..], e, now);
      assert a[0] == m[0];
      assert a[1..] == m[1..] + [e];
    }
  }

  /** The entry inserted last is not the one that pruning evicts. */
  lemma LastIsKept<V>(m: seq<Entry<V>>, e: Entry<V>, maximum: nat, now: int)
    requires Distinct(m + [e]) && e.until > now && maximum > 0
    ensures Distinct(Pruned(m + [e], maximum, now)) && Get(Pruned(m + [e], maximum, now), e.key) == Some(e)
  {
    var a := m + [e];
    PrunedEntries(a, maximum, now, e.key);
    assert a[|m|] == e && Get(a, e.key) == Some(e);
    if |a| > maximum {
      LastStaysAlive(m, e, now);
      var p := Pruned(a, maximum, now);
      assert p[|p| - 1] == e;
    }
  }

  /** The turns given to attempts made one behind the other before any failure of theirs is recorded. */
  function TurnsAtOnce(o: Spacing, t: Turns, maximum: nat, key: Key, failures: nat, now: int, attempts: nat): Turns {
    if attempts == 0 then t
    else TurnsAfter(o, TurnsAtOnce(o, t, maximum, key, failures, now, attempts - 1), maximum, key, failures, now)
  }

  /** What the attempt with that number, from zero, is told. */
  function TurnAtOnce(o: Spacing, t: Turns, maximum: nat, key: Key, failures: nat, now: int, number: nat): Turn {
    TurnFor(o, TurnsAtOnce(o, t, maximum, key, failures, now, number), key, failures, now)
  }

  lemma {:induction false} FreeAtOnce(o: Spacing, t: Turns, maximum: nat, key: Key, failures: nat, now: int, number: nat)
    requires failures < o.freeFailures
    ensures TurnsAtOnce(o, t, maximum, key, failures, now, number) == t
    ensures TurnAtOnce(o, t, maximum, key, failures, now, number) == Wait(0)
  {
    if number > 0 {
      FreeAtOnce(o, t, maximum, key, failures, now, number - 1);
    }
  }

  lemma TakenTurnIsAhead(o: Spacing, t: Turns, maximum: nat, key: Key, failures: nat, now: int)
    requires Distinct(t) && failures >= o.freeFailures && SpacingAt(o, failures) > 0 && maximum > 0
    ensures NextTurn(Pruned(Taken(o, t, key, failures, now), maximum, now), key, now) > now
  {
    TakenEntries(o, t, key, failures, now, key);
    LastIsKept(Deleted(t, key), Entry(key, NextTurn(t, key, now) + SpacingAt(o, failures), ()), maximum, now);
  }

  lemma SecondAtOnceWaits(o: Spacing, t: Turns, maximum: nat, key: Key, failures: nat, now: int)
    requires Distinct(t) && failures >= o.freeFailures && SpacingAt(o, failures) > 0 && maximum > 0
    ensures TurnAtOnce(o, t, maximum, key, failures, now, 1) != Wait(0)
  {
    TakenTurnIsAhead(o, t, maximum, key, failures, now);
    assert TurnsAtOnce(o, t, maximum, key, failures, now, 0) == t;
    assert TurnsAtOnce(o, t, maximum, key, failures, now, 1) == TurnsAfter(o, t, maximum, key, failures, now);
  }

  /**
   * Attempts on one account made at once are all let through without waiting, however many they are, if and
   * only if fewer failures are recorded than are free: the bound on attempts is one on attempts made in turn.
   */
  lemma AttemptsAtOnceExactly(t: Turns, maximum: nat, account: Key, failures: nat, now: int)
    requires Distinct(t) && maximum > 0
    ensures (forall number: nat :: TurnAtOnce(SIGN_IN_SPACING, t, maximum, account, failures, now, number) == Wait(0)) <==>
            failures < SIGN_IN_SPACING.freeFailures
  {
    if failures < 10 {
      forall number: nat ensures TurnAtOnce(SIGN_IN_SPACING, t, maximum, account, failures, now, number) == Wait(0) {
        FreeAtOnce(SIGN_IN_SPACING, t, maximum, account, failures, now, number);
      }
    } else {
      DoublingGrows(failures - 10);
      SecondAtOnceWaits(SIGN_IN_SPACING, t, maximum, account, failures, now);
    }
  }

  /** And then each of them that fails is counted: any number of failures within one window is reached. */
  lemma {:induction false} FailuresAtOnce(m: Buckets, account: Key, now: int, attempts: nat) returns (m': Buckets)
    requires Distinct(m) && attempts > 0
    ensures Distinct(m') && Get(m', account).Some? && Get(m', account).value.until > now && Get(m', account).value.value >= attempts
  {
    var before := m;
    if attempts > 1 {
      before := FailuresAtOnce(m, account, now, attempts - 1);
    }
    RecordedEntries(before, account, SIGN_IN_WINDOW_MS, now, account);
    m' := Recorded(before, account, SIGN_IN_WINDOW_MS, now);
  }

  // ----- Attempts that overlap once ten failures are counted

  /** An attempt asks for its turn, with the failures counted and the spacer's table of that moment. */
  datatype Asking = Asking(now: int, failures: nat, turns: Turns)

  function TurnGiven(a: Asking, key: Key): int {
    NextTurn(a.turns, key, a.now)
  }

  /** What an attempt leaves in the spacer's table, which keeps so many keys. */
  function LeftBehind(a: Asking, o: Spacing, maximum: nat, key: Key): Turns {
    TurnsAfter(o, a.turns, maximum, key, a.failures, a.now)
  }

  /** Between two attempts on the key anything may happen that does not bring its next turn forward. */
  predicate Follows(a: Asking, b: Asking, o: Spacing, maximum: nat, key: Key) {
    a.now <= b.now && NextTurn(b.turns, key, b.now) >= NextTurn(LeftBehind(a, o, maximum, key), key, b.now)
  }

  /**
   * Attempts on one key that are let through, in the order in which they ask, with at least so many failures
   * counted each time. They may wait at the same time.
   */
  predicate Overlapping(run: seq<Asking>, o: Spacing, maximum: nat, key: Key, least: nat) {
    && least >= o.freeFailures && maximum > 0
    && (forall i {:trigger LetThroughWith(run[i], o, key, least)} | 0 <= i < |run| :: LetThroughWith(run[i], o, key, least))
    && (forall i, j {:trigger Follows(run[i], run[j], o, maximum, key)} | 0 <= i < |run| && 0 <= j < |run| && j == i + 1 ::
          Follows(run[i], run[j], o, maximum, key))
  }

  predicate LetThroughWith(a: Asking, o: Spacing, key: Key, least: nat) {
    Distinct(a.turns) && a.failures >= least >= o.freeFailures && TurnFor(o, a.turns, key, a.failures, a.now).Wait?
  }

  lemma TurnIsNoEarlierLater(t: Turns, key: Key, now: int, later: int)
    requires now <= later
    ensures NextTurn(t, key, now) <= NextTurn(t, key, later)
  {
  }

  /** The attempt that follows gets its turn at least a spacing later: the spacer has put it off. */
  lemma FollowingTurn(a: Asking, b: Asking, o: Spacing, maximum: nat, key: Key, least: nat)
    requires LetThroughWith(a, o, key, least) && Follows(a, b, o, maximum, key) && maximum > 0
    ensures TurnGiven(b, key) >= TurnGiven(a, key) + SpacingAt(o, a.failures)
  {
    if SpacingAt(o, a.failures) > 0 {
      TakenTurn(o, a.turns, maximum, key, a.failures, a.now);
      TurnIsNoEarlierLater(LeftBehind(a, o, maximum, key), key, a.now, b.now);
    } else {
      NothingTaken(o, a, maximum, key, b.now);
    }
  }

  lemma NothingTaken(o: Spacing, a: Asking, maximum: nat, key: Key, later: int)
    requires Distinct(a.turns) && a.failures >= o.freeFailures && TurnFor(o, a.turns, key, a.failures, a.now).Wait?
    requires SpacingAt(o, a.failures) == 0 && a.now <= later && maximum > 0
    ensures NextTurn(LeftBehind(a, o, maximum, key), key, later) >= TurnGiven(a, key)
  {
    var until := NextTurn(a.turns, key, a.now);
    if until > a.now {
      TakenEntries(o, a.turns, key, a.failures, a.now, key);
      LastTurnIsKept(Deleted(a.turns, key), Entry(key, until, ()), maximum, a.now);
      TurnIsNoEarlierLater(LeftBehind(a, o, maximum, key), key, a.now, later);
    }
  }

  lemma {:induction false} DoublingIsMonotone(ms: nat, times: nat, more: nat)
    requires times <= more
    ensures Doubled(ms, times) <= Doubled(ms, more)
  {
    if times < more {
      DoublingIsMonotone(ms, times, more - 1);
    }
  }

  lemma SpacingGrows(o: Spacing, failures: nat, more: nat)
    requires o.freeFailures <= failures <= more
    ensures SpacingAt(o, failures) <= SpacingAt(o, more)
  {
    DoublingIsMonotone(o.initialMs, failures - o.freeFailures, more - o.freeFailures);
  }

  lemma {:induction false} ApartBySteps(turns: seq<int>, spacing: int, i: nat, j: nat)
    requires i <= j < |turns| && forall k, l | 0 <= k < l < |turns| && l == k + 1 :: turns[l] >= turns[k] + spacing
    ensures turns[j] - turns[i] >= (j - i) * spacing
    decreases j
  {
    if i < j {
      ApartBySteps(turns, spacing, i, j - 1);
      assert (j - i) * spacing == (j - 1 - i) * spacing + spacing;
    }
  }

  lemma NextIsASpacingLater(run: seq<Asking>, o: Spacing, maximum: nat, key: Key, least: nat, k: nat)
    requires Overlapping(run, o, maximum, key, least) && 0 < k < |run|
    ensures TurnGiven(run[k], key) >= TurnGiven(run[k - 1], key) + SpacingAt(o, least)
  {
    assert LetThroughWith(run[k - 1], o, key, least) && Follows(run[k - 1], run[k], o, maximum, key);
    FollowingTurn(run[k - 1], run[k], o, maximum, key, least);
    SpacingGrows(o, least, run[k - 1].failures);
  }

  /** Their turns are apart by at least the spacing for those failures, and none is further ahead than the longest wait. */
  lemma OverlappingTurnsAreApart(
    run: seq<Asking>, o: Spacing, maximum: nat, key: Key, least: nat, spacing: nat, i: nat, j: nat)
    requires Overlapping(run, o, maximum, key, least) && spacing <= SpacingAt(o, least) && i <= j < |run|
    ensures TurnGiven(run[j], key) - TurnGiven(run[i], key) >= (j - i) * spacing
    ensures run[j].now <= TurnGiven(run[j], key) <= run[j].now + o.maximumWaitMs
  {
    var turns := seq(|run|, k requires 0 <= k < |run| => TurnGiven(run[k], key));
    forall k, l | 0 <= k < l < |turns| && l == k + 1 ensures turns[l] >= turns[k] + spacing {
      NextIsASpacingLater(run, o, maximum, key, least, l);
    }
    ApartBySteps(turns, spacing, i, j);
    assert LetThroughWith(run[j], o, key, least);
  }

  /**
   * However attempts overlap, of those that ask within a period with ten failures counted at most one for each
   * second of it and of the thirty seconds after it is let through, and at most one more; with fourteen
   * counted, at most one for each ten seconds. It is the spacer's table that keeps them apart.
   */
  lemma OverlappingAttemptsFit(run: seq<Asking>, maximum: nat, account: Key, least: nat, i: nat, j: nat)
    requires Overlapping(run, SIGN_IN_SPACING, maximum, account, least) && i <= j < |run|
    ensures (j - i) * 1000 <= run[j].now - run[i].now + 30_000
    ensures least >= 14 ==> (j - i) * 10_000 <= run[j].now - run[i].now + 30_000
  {
    DoublingGrows(least - 10);
    OverlappingTurnsAreApart(run, SIGN_IN_SPACING, maximum, account, least, 1000, i, j);
    OverlappingTurnsAreApart(run, SIGN_IN_SPACING, maximum, account, least, 1000, i, i);
    if least >= 14 {
      OverlappingTurnsAreApart(run, SIGN_IN_SPACING, maximum, account, least, 10_000, i, j);
    }
  }

  lemma Times(n: nat, a: int, b: int)
    requires a <= b
    ensures n * a <= n * b
  {
  }

  lemma NextOfGet(t: Turns, key: Key, now: int)
    ensures NextTurn(t, key, now) == if Get(t, key).Some? && Get(t, key).value.until > now then Get(t, key).value.until else now
  {
  }

  lemma LastTurnIsKept(t: Turns, e: Entry<()>, maximum: nat, now: int)
    requires Distinct(t + [e]) && e.until > now && maximum > 0
    ensures Distinct(Pruned(t + [e], maximum, now)) && NextTurn(Pruned(t + [e], maximum, now), e.key, now) == e.until
  {
    LastIsKept(t, e, maximum, now);
    NextOfGet(Pruned(t + [e], maximum, now), e.key, now);
  }

  lemma TakenTurn(o: Spacing, t: Turns, maximum: nat, key: Key, failures: nat, now: int)
    requires Distinct(t) && failures >= o.freeFailures && maximum > 0 && SpacingAt(o, failures) > 0
    ensures var t' := Pruned(Taken(o, t, key, failures, now), maximum, now);
            Distinct(t') && NextTurn(t', key, now) == NextTurn(t, key, now) + SpacingAt(o, failures)
  {
    var until := NextTurn(t, key, now) + SpacingAt(o, failures);
    var taken := Deleted(t, key) + [Entry(key, until, ())];
    assert taken == Taken(o, t, key, failures, now) && Distinct(taken) by {
      TakenEntries(o, t, key, failures, now, key);
    }
    LastTurnIsKept(Deleted(t, key), Entry(key, until, ()), maximum, now);
  }

  /** How many spacings begin within the longest wait. */
  function Fitting(wait: nat, spacing: nat): (n: nat)
    requires spacing > 0
    ensures n > 0 && spacing * n > wait && spacing * (n - 1) <= wait
  {
    assert wait == spacing * (wait / spacing) + wait % spacing;
    wait / spacing + 1
  }

  lemma FitsExactly(wait: nat, spacing: nat, number: nat)
    requires spacing > 0
    ensures number < Fitting(wait, spacing) <==> spacing * number <= wait
  {
    var n := Fitting(wait, spacing);
    if number < n {
      Times(spacing, number, n - 1);
    } else {
      Times(spacing, n, number);
    }
  }

  /** How far so many attempts put the next turn off: by a spacing each, as long as they fit. */
  function PutOff(wait: nat, spacing: nat, number: nat): nat {
    if number == 0 then 0
    else
      var before := PutOff(wait, spacing, number - 1);
      if before <= wait then before + spacing else before
  }

  lemma {:induction false} PutOffExactly(wait: nat, spacing: nat, number: nat)
    requires spacing > 0
    ensures PutOff(wait, spacing, number) == if number < Fitting(wait, spacing) then spacing * number else spacing * Fitting(wait, spacing)
  {
    if number > 0 {
      PutOffExactly(wait, spacing, number - 1);
      FitsExactly(wait, spacing, number - 1);
      FitsExactly(wait, spacing, number);
      assert spacing * number == spacing * (number - 1) + spacing;
    }
  }

  /** The state behind so many attempts. */
  predicate Lined(t: Turns, key: Key, now: int, putOff: nat) {
    Distinct(t) && NextTurn(t, key, now) == now + putOff
  }

  lemma NextIsLined(o: Spacing, t: Turns, maximum: nat, key: Key, failures: nat, now: int, putOff: nat)
    requires maximum > 0 && failures >= o.freeFailures && SpacingAt(o, failures) > 0 && Lined(t, key, now, putOff)
    ensures TurnFor(o, t, key, failures, now) ==
            if putOff <= o.maximumWaitMs then Wait(putOff) else RetryAfter(putOff - o.maximumWaitMs)
    ensures Lined(TurnsAfter(o, t, maximum, key, failures, now), key, now,
                  if putOff <= o.maximumWaitMs then putOff + SpacingAt(o, failures) else putOff)
  {
    if putOff <= o.maximumWaitMs {
      TakenTurn(o, t, maximum, key, failures, now);
    }
  }

  lemma OneMoreAtOnce(o: Spacing, t: Turns, maximum: nat, key: Key, failures: nat, now: int, number: nat)
    requires number > 0
    ensures TurnsAtOnce(o, t, maximum, key, failures, now, number) ==
            TurnsAfter(o, TurnsAtOnce(o, t, maximum, key, failures, now, number - 1), maximum, key, failures, now)
  {
  }

  lemma OneMoreLined(o: Spacing, before: Turns, maximum: nat, key: Key, failures: nat, now: int, number: nat)
    requires maximum > 0 && failures >= o.freeFailures && SpacingAt(o, failures) > 0 && number > 0
    requires Lined(before, key, now, PutOff(o.maximumWaitMs, SpacingAt(o, failures), number - 1))
    ensures Lined(TurnsAfter(o, before, maximum, key, failures, now), key, now, PutOff(o.maximumWaitMs, SpacingAt(o, failures), number))
  {
    NextIsLined(o, before, maximum, key, failures, now, PutOff(o.maximumWaitMs, SpacingAt(o, failures), number - 1));
  }

  lemma LinedAtFirst(o: Spacing, t: Turns, maximum: nat, key: Key, failures: nat, now: int)
    requires Distinct(t) && failures >= o.freeFailures && NextTurn(t, key, now) == now
    ensures Lined(TurnsAtOnce(o, t, maximum, key, failures, now, 0), key, now, 0)
  {
  }

  lemma LinedNext(o: Spacing, t: Turns, maximum: nat, key: Key, failures: nat, now: int, number: nat)
    requires maximum > 0 && failures >= o.freeFailures && SpacingAt(o, failures) > 0 && number > 0
    requires Lined(TurnsAtOnce(o, t, maximum, key, failures, now, number - 1), key, now,
                   PutOff(o.maximumWaitMs, SpacingAt(o, failures), number - 1))
    ensures Lined(TurnsAtOnce(o, t, maximum, key, failures, now, number), key, now,
                  PutOff(o.maximumWaitMs, SpacingAt(o, failures), number))
  {
    OneMoreAtOnce(o, t, maximum, key, failures, now, number);
    OneMoreLined(o, TurnsAtOnce(o, t, maximum, key, failures, now, number - 1), maximum, key, failures, now, number);
  }

  lemma {:induction false} LinedAtOnce(o: Spacing, t: Turns, maximum: nat, key: Key, failures: nat, now: int, number: nat)
    requires Distinct(t) && maximum > 0 && failures >= o.freeFailures && SpacingAt(o, failures) > 0 && NextTurn(t, key, now) == now
    ensures Lined(TurnsAtOnce(o, t, maximum, key, failures, now, number), key, now,
                  PutOff(o.maximumWaitMs, SpacingAt(o, failures), number))
  {
    if number == 0 {
      LinedAtFirst(o, t, maximum, key, failures, now);
    } else {
      LinedAtOnce(o, t, maximum, key, failures, now, number - 1);
      LinedNext(o, t, maximum, key, failures, now, number);
    }
  }

  /**
   * Exactly how many attempts made in one moment are let through: with no turn ahead, as many as there are
   * spacings that begin within the longest wait. They wait one spacing longer each, and all others are refused.
   */
  lemma OverlapAtOnceExactly(o: Spacing, t: Turns, maximum: nat, key: Key, failures: nat, now: int, number: nat)
    requires Distinct(t) && maximum > 0 && failures >= o.freeFailures && SpacingAt(o, failures) > 0 && NextTurn(t, key, now) == now
    ensures TurnAtOnce(o, t, maximum, key, failures, now, number) ==
            var spacing := SpacingAt(o, failures);
            var fit := Fitting(o.maximumWaitMs, spacing);
            if number < fit then Wait(spacing * number) else RetryAfter(spacing * fit - o.maximumWaitMs)
  {
    var wait, spacing := o.maximumWaitMs, SpacingAt(o, failures);
    LinedAtOnce(o, t, maximum, key, failures, now, number);
    NextIsLined(o, TurnsAtOnce(o, t, maximum, key, failures, now, number), maximum, key, failures, now, PutOff(wait, spacing, number));
    PutOffExactly(wait, spacing, number);
    FitsExactly(wait, spacing, number);
  }

  /** With ten failures counted and no turn ahead, that is thirty-one sign-ins at once. */
  lemma ThirtyOneAtOnce(t: Turns, maximum: nat, account: Key, now: int, number: nat)
    requires Distinct(t) && maximum > 0 && NextTurn(t, account, now) == now
    ensures TurnAtOnce(SIGN_IN_SPACING, t, maximum, account, 10, now, number) == if number <= 30 then Wait(1000 * number) else RetryAfter(1000)
  {
    assert Doubled(1000, 0) == 1000 && SpacingAt(SIGN_IN_SPACING, 10) == 1000;
    OverlapAtOnceExactly(SIGN_IN_SPACING, t, maximum, account, 10, now, number);
  }
}

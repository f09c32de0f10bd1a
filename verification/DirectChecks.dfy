/**
 * Checks of directly watched pages (server/scheduler.ts, checkDirectOnce) interleaved with edits
 * (server/routes/subscriptions.ts). A check reads its row, awaits the page and perhaps the cover, and
 * commits only if the row still looks as it did; every await is a step boundary, and the process may
 * stop at any of them.
 */
module DirectChecks {
  import opened Wrappers

  type SubId = nat
  type Url = nat
  type EventId = nat

  /** A loaded page. `url` and `startedAt` are auxiliary: the address requested and the start of the load. */
  datatype Page = Page(
    fingerprint: nat, unavailable: bool, coverObserved: bool, version: Option<nat>, url: Url, startedAt: int)

  /** A direct subscription: `active` joins its own, its tracker's and its user's enabled flags. */
  datatype Sub = Sub(
    url: Url, tracker: nat, mirror: nat, active: bool, initialized: bool,
    fingerprint: Option<nat>, page: Option<Page>, verifiedAt: Option<int>, failed: bool)

  datatype Event = Event(id: EventId, sub: SubId, previous: Option<Page>, current: Page)

  datatype Key = Direct(event: EventId)

  /** The tables: subscriptions, change events, and every key ever put on the notification queue. */
  datatype Db = Db(subs: map<SubId, Sub>, events: seq<Event>, enqueued: seq<Key>)

  // ----- Comparing a loaded page with the stored one (server/direct-snapshot.ts)

  datatype Silent = Baseline | TemporarilyUnavailable | Rebaseline | CoverBackfill | SchemaUpgrade

  function BaselineOutcome(initialized: bool, fingerprint: Option<nat>, stored: Option<Page>, current: Page): Option<Silent> {
    if !initialized || fingerprint.None? then Some(Baseline)
    else if current.unavailable then Some(TemporarilyUnavailable)
    else if stored.Some? && stored.value.unavailable then Some(Rebaseline)
    else if stored.None? || !stored.value.coverObserved then Some(CoverBackfill)
    else if current.version.Some? && stored.value.version != current.version then Some(SchemaUpgrade)
    else None
  }

  /** The stored page needs no silent baseline work in this version of the plugin. */
  predicate IsSettled(stored: Option<Page>, version: nat) {
    stored.Some? && !stored.value.unavailable && stored.value.coverObserved && stored.value.version == Some(version)
  }

  /** Settled is exactly: no page of this version that is available would be recorded silently over it. */
  lemma SettledExactly(stored: Option<Page>, fingerprint: nat, current: Page, version: nat)
    requires current.version == Some(version) && !current.unavailable
    ensures IsSettled(stored, version) <==> BaselineOutcome(true, Some(fingerprint), stored, current).None?
  {
  }

  // ----- The segments between awaits

  function RowOf(db: Db, id: SubId): Option<Sub> {
    if id in db.subs && db.subs[id].active then Some(db.subs[id]) else None
  }

  predicate StillCurrent(db: Db, id: SubId, row: Sub) {
    var latest := RowOf(db, id);
    && latest.Some? && latest.value.url == row.url && latest.value.mirror == row.mirror && latest.value.tracker == row.tracker
    && latest.value.fingerprint == row.fingerprint && latest.value.initialized == row.initialized
  }

  function Recorded(sub: Sub, page: Page, checkedAt: int): Sub {
    sub.(initialized := true, fingerprint := Some(page.fingerprint), page := Some(page), verifiedAt := Some(checkedAt), failed := false)
  }

  /** What a check that is still current writes: silently, as one change transaction, or as a refresh. */
  function Committed(db: Db, id: SubId, row: Sub, page: Page, checkedAt: int, event: EventId): Db
    requires id in db.subs
  {
    var sub := db.subs[id];
    var silent := BaselineOutcome(row.initialized, row.fingerprint, row.page, page);
    if silent == Some(TemporarilyUnavailable) then db.(subs := db.subs[id := sub.(failed := false)])
    else if silent.Some? || Some(page.fingerprint) == row.fingerprint then db.(subs := db.subs[id := Recorded(sub, page, checkedAt)])
    else Db(db.subs[id := Recorded(sub, page, checkedAt)], db.events + [Event(event, id, row.page, page)], db.enqueued + [Direct(event)])
  }

  function Failed(db: Db, id: SubId, row: Sub): Db {
    if StillCurrent(db, id, row) then db.(subs := db.subs[id := db.subs[id].(failed := true)]) else db
  }

  function FinishedIfCurrent(db: Db, id: SubId, row: Sub, page: Page, checkedAt: int, event: EventId): Db {
    if StillCurrent(db, id, row) then Committed(db, id, row, page, checkedAt, event) else db
  }

  /** A new address resets the baseline; the time of the last page load stays. */
  function Patched(db: Db, id: SubId, url: Url, tracker: nat, active: bool): Db {
    if id !in db.subs then db
    else
      var sub := db.subs[id].(url := url, tracker := tracker, active := active);
      db.(subs := db.subs[id := if url == db.subs[id].url then sub else sub.(initialized := false, fingerprint := None, page := None, failed := false)])
  }

  predicate AwaitsCover(hasCache: bool, row: Sub, page: Page, coverMissing: bool) {
    hasCache && !page.unavailable
    && (!row.initialized || row.fingerprint.None? || Some(page.fingerprint) != row.fingerprint || coverMissing)
  }

  // ----- The tables, updated in place

  /** The subscription's row is the one read but for its stored page, the time of its load and the error mark. */
  predicate SameButForLoads(sub: Sub, row: Sub) {
    sub == row.(active := true, page := sub.page, verifiedAt := sub.verifiedAt, failed := sub.failed)
  }

  class Tables {
    var subs: map<SubId, Sub>
    var events: seq<Event>
    var enqueued: seq<Key>

    ghost function Value(): Db
      reads this
    {
      Db(subs, events, enqueued)
    }

    /** True exactly if nothing happened to the row since it was read that a commit could overwrite. */
    method DirectRowStillCurrent(id: SubId, row: Sub) returns (current: bool)
      ensures current <==> id in subs && SameButForLoads(subs[id], row)
      ensures current == StillCurrent(Value(), id, row)
    {
      if id !in subs || !subs[id].active {
        return false;
      }
      var latest := subs[id];
      current := latest.url == row.url && latest.mirror == row.mirror && latest.tracker == row.tracker
                 && latest.fingerprint == row.fingerprint && latest.initialized == row.initialized;
    }

    /**
     * The part of a check after its last await. A superseded check writes nothing. A current one clears the
     * error mark and touches no other row and no address, mirror or flag. Unless the page is temporarily
     * unavailable over a baseline, it is stored with its fingerprint and the start of its load. One event and
     * its notification are added exactly if a settled page was stored and the fingerprint differs.
     */
    method FinishCheck(id: SubId, row: Sub, page: Page, checkedAt: int, event: EventId) returns (superseded: bool)
      modifies this
      ensures superseded <==> !(id in old(subs) && SameButForLoads(old(subs)[id], row))
      ensures superseded ==> Value() == old(Value())
      ensures subs.Keys == old(subs).Keys && forall other | other in subs && other != id :: subs[other] == old(subs)[other]
      ensures !superseded ==>
                var was, now' := old(subs)[id], subs[id];
                && now' == was.(initialized := now'.initialized, fingerprint := now'.fingerprint, page := now'.page,
                                verifiedAt := now'.verifiedAt, failed := false)
                && (if page.unavailable && row.initialized && row.fingerprint.Some?
                    then now'.page == was.page && now'.fingerprint == was.fingerprint && now'.verifiedAt == was.verifiedAt
                    else && now'.initialized && now'.page == Some(page) && now'.verifiedAt == Some(checkedAt)
                         && now'.fingerprint == Some(page.fingerprint))
      ensures var changed := !superseded && BaselineOutcome(row.initialized, row.fingerprint, row.page, page).None?
                             && row.fingerprint != Some(page.fingerprint);
              && events == old(events) + (if changed then [Event(event, id, row.page, page)] else [])
              && enqueued == old(enqueued) + (if changed then [Direct(event)] else [])
      ensures Value() == FinishedIfCurrent(old(Value()), id, row, page, checkedAt, event)
    {
      var current := DirectRowStillCurrent(id, row);
      if !current {
        return true;
      }
      var silent := BaselineOutcome(row.initialized, row.fingerprint, row.page, page);
      if silent == Some(TemporarilyUnavailable) {
        subs := subs[id := subs[id].(failed := false)];
      } else if silent.Some? {
        subs := subs[id := Recorded(subs[id], page, checkedAt)];
      } else if Some(page.fingerprint) != row.fingerprint {
        subs := subs[id := Recorded(subs[id], page, checkedAt)];
        events := events + [Event(event, id, row.page, page)];
        enqueued := enqueued + [Direct(event)];
      } else {
        subs := subs[id := Recorded(subs[id], page, checkedAt)];
      }
      superseded := false;
    }

    /** A failed load marks a row that is still current, and leaves what is stored, every other row, and the logs. */
    method FailCheck(id: SubId, row: Sub)
      modifies this
      ensures events == old(events) && enqueued == old(enqueued) && subs.Keys == old(subs).Keys
      ensures forall other | other in subs :: subs[other] == old(subs)[other].(failed := subs[other].failed)
      ensures forall other | other in subs ::
                subs[other].failed == (old(subs)[other].failed || (other == id && SameButForLoads(old(subs)[other], row)))
      ensures Value() == Failed(old(Value()), id, row)
    {
      var current := DirectRowStillCurrent(id, row);
      if current {
        subs := subs[id := subs[id].(failed := true)];
      }
    }

    /**
     * An edit of an existing subscription. The baseline goes exactly if the address changes; the time of the
     * last load, the mirror, every other row and the logs stay.
     */
    method Patch(id: SubId, url: Url, tracker: nat, active: bool)
      modifies this
      ensures events == old(events) && enqueued == old(enqueued) && subs.Keys == old(subs).Keys
      ensures forall other | other in subs && other != id :: subs[other] == old(subs)[other]
      ensures id in subs ==>
                var was, now' := old(subs)[id], subs[id];
                && now'.url == url && now'.tracker == tracker && now'.active == active
                && now'.mirror == was.mirror && now'.verifiedAt == was.verifiedAt
                && (if url == was.url then SameBaseline(now', was) && now'.failed == was.failed else NoBaseline(now') && !now'.failed)
      ensures Value() == Patched(old(Value()), id, url, tracker, active)
    {
      if id in subs {
        var resetBaseline := url != subs[id].url;
        subs := subs[id := subs[id].(url := url, tracker := tracker, active := active)];
        if resetBaseline {
          subs := subs[id := subs[id].(initialized := false, fingerprint := None, page := None, failed := false)];
        }
      }
    }
  }

  // ----- Interleaving

  /** A check under way; `page` once loaded, while the cover is retrieved. At most one check runs per subscription. */
  datatype Check = Check(row: Sub, startedAt: int, page: Option<Page>)

  /** Auxiliary: `chains` holds, per subscription, the change events since its latest reset or silent baseline. */
  datatype World = World(now: int, hasCache: bool, db: Db, checks: map<SubId, Check>, chains: map<SubId, seq<Event>>)

  datatype Step =
    | Wait(ms: nat)
    | Created(id: SubId, url: Url, tracker: nat, mirror: nat)
    | Deleted(id: SubId)
    | Edited(id: SubId, url: Url, tracker: nat, active: bool)
    | MirrorChanged(id: SubId, mirror: nat, active: bool)
    | CheckStarted(id: SubId)
    | PageLoaded(id: SubId, page: Page, coverMissing: bool, event: EventId)
    | LoadFailed(id: SubId)
    | CoverSettled(id: SubId, event: EventId)
    | Stopped

  predicate Fresh(db: Db, event: EventId) {
    forall i | 0 <= i < |db.events| :: db.events[i].id != event
  }

  /** Every tracker's plugin gives a page it could read its cover observation and the version of its format. */
  predicate Complete(page: Page) {
    !page.unavailable ==> page.coverObserved && page.version.Some?
  }

  predicate Enabled(w: World, step: Step) {
    match step
    case Created(id, _, _, _) => id !in w.db.subs
    case CheckStarted(id) => id !in w.checks && RowOf(w.db, id).Some?
    case PageLoaded(id, page, _, event) =>
      && id in w.checks && w.checks[id].page.None? && Fresh(w.db, event)
      && page.url == w.checks[id].row.url && page.startedAt == w.checks[id].startedAt && Complete(page)
    case LoadFailed(id) => id in w.checks && w.checks[id].page.None?
    case CoverSettled(id, event) => id in w.checks && w.checks[id].page.Some? && Fresh(w.db, event)
    case _ => true
  }

  function ChainOf(w: World, id: SubId): seq<Event> {
    if id in w.chains then w.chains[id] else []
  }

  function ChainAfter(w: World, db': Db, id: SubId, row: Sub, page: Page): seq<Event> {
    if |db'.events| > |w.db.events| then ChainOf(w, id) + [db'.events[|db'.events| - 1]]
    else
      var silent := BaselineOutcome(row.initialized, row.fingerprint, row.page, page);
      if StillCurrent(w.db, id, row) && silent.Some? && silent != Some(TemporarilyUnavailable) then [] else ChainOf(w, id)
  }

  function Finished(w: World, id: SubId, page: Page, event: EventId): World
    requires id in w.checks
  {
    var c := w.checks[id];
    var db' := FinishedIfCurrent(w.db, id, c.row, page, c.startedAt, event);
    w.(db := db', checks := w.checks - {id}, chains := w.chains[id := ChainAfter(w, db', id, c.row, page)])
  }

  function After(w: World, step: Step): World
    requires Enabled(w, step)
  {
    match step
    case Wait(ms) => w.(now := w.now + ms)
    case Created(id, url, tracker, mirror) =>
      w.(db := w.db.(subs := w.db.subs[id := Sub(url, tracker, mirror, true, false, None, None, None, false)]), chains := w.chains[id := []])
    case Deleted(id) => w.(db := w.db.(subs := w.db.subs - {id}), chains := w.chains[id := []])
    case Edited(id, url, tracker, active) =>
      w.(db := Patched(w.db, id, url, tracker, active),
         chains := if id in w.db.subs && w.db.subs[id].url != url then w.chains[id := []] else w.chains)
    case MirrorChanged(id, mirror, active) =>
      if id in w.db.subs then w.(db := w.db.(subs := w.db.subs[id := w.db.subs[id].(mirror := mirror, active := active)])) else w
    case CheckStarted(id) => w.(checks := w.checks[id := Check(w.db.subs[id], w.now, None)])
    case PageLoaded(id, page, coverMissing, event) =>
      if StillCurrent(w.db, id, w.checks[id].row) && AwaitsCover(w.hasCache, w.checks[id].row, page, coverMissing)
      then w.(checks := w.checks[id := w.checks[id].(page := Some(page))])
      else Finished(w, id, page, event)
    case LoadFailed(id) => w.(db := Failed(w.db, id, w.checks[id].row), checks := w.checks - {id})
    case CoverSettled(id, event) => Finished(w, id, w.checks[id].page.value, event)
    case Stopped => w.(checks := map[])
  }

  predicate Admissible(w: World, steps: seq<Step>)
    decreases |steps|
  {
    steps == [] || (Enabled(w, steps[0]) && Admissible(After(w, steps[0]), steps[1..]))
  }

  function Run(w: World, steps: seq<Step>): World
    requires Admissible(w, steps)
    decreases |steps|
  {
    if steps == [] then w else Run(After(w, steps[0]), steps[1..])
  }

  predicate Start(w: World) {
    w.db == Db(map[], [], []) && w.checks == map[] && w.chains == map[]
  }

  // ----- The invariant

  predicate NoBaseline(sub: Sub) {
    !sub.initialized && sub.fingerprint.None? && sub.page.None?
  }

  /** A stored page was loaded from the row's address, by the load that started at `verifiedAt`, and is what the fingerprint says. */
  predicate SubInv(sub: Sub) {
    || NoBaseline(sub)
    || (&& sub.initialized && sub.page.Some?
        && sub.page.value.url == sub.url
        && sub.fingerprint == Some(sub.page.value.fingerprint)
        && sub.verifiedAt == Some(sub.page.value.startedAt))
  }

  predicate SameBaseline(a: Sub, b: Sub) {
    a.initialized == b.initialized && a.fingerprint == b.fingerprint && a.page == b.page
  }

  /** While a check runs, only a reset can change what its subscription has stored. */
  predicate CheckInv(w: World, id: SubId) {
    id in w.checks ==>
      var c := w.checks[id];
      && SubInv(c.row)
      && (c.page.Some? ==> c.page.value.url == c.row.url && c.page.value.startedAt == c.startedAt && Complete(c.page.value))
      && (id in w.db.subs ==> NoBaseline(w.db.subs[id]) || SameBaseline(w.db.subs[id], c.row))
  }

  /** Two settled observations of one address in one format. */
  predicate Comparable(previous: Page, current: Page) {
    && current.version.Some? && previous.url == current.url
    && IsSettled(Some(previous), current.version.value) && IsSettled(Some(current), current.version.value)
  }

  predicate IsChange(e: Event) {
    e.previous.Some? && e.previous.value.fingerprint != e.current.fingerprint && Comparable(e.previous.value, e.current)
  }

  /** The next page of the same version will be compared with this one. */
  predicate IsComparable(stored: Option<Page>) {
    stored.Some? && stored.value.version.Some? && IsSettled(stored, stored.value.version.value)
  }

  predicate ChainInv(w: World, id: SubId) {
    var chain := ChainOf(w, id);
    && (forall k | 0 <= k < |chain| :: chain[k].sub == id && IsChange(chain[k]))
    && (forall k | 0 < k < |chain| :: chain[k].previous.value.fingerprint == chain[k - 1].current.fingerprint)
    && (chain != [] ==> id in w.db.subs && w.db.subs[id].fingerprint == Some(chain[|chain| - 1].current.fingerprint)
                        && IsComparable(w.db.subs[id].page))
  }

  predicate OutboxInv(db: Db) {
    && |db.enqueued| == |db.events|
    && (forall i | 0 <= i < |db.events| :: db.enqueued[i] == Direct(db.events[i].id))
    && (forall i, j | 0 <= i < j < |db.events| :: db.events[i].id != db.events[j].id)
  }

  ghost predicate Inv(w: World) {
    && OutboxInv(w.db)
    && (forall id | id in w.db.subs :: SubInv(w.db.subs[id]))
    && (forall id :: CheckInv(w, id))
    && (forall id :: ChainInv(w, id))
  }

  predicate Finishing(w: World, id: SubId, page: Page, event: EventId) {
    && id in w.checks && Fresh(w.db, event) && CheckInv(w, id) && OutboxInv(w.db)
    && page.url == w.checks[id].row.url && page.startedAt == w.checks[id].startedAt && Complete(page)
  }

  lemma FinishKeepsSubs(w: World, id: SubId, page: Page, event: EventId)
    requires Finishing(w, id, page, event) && forall other | other in w.db.subs :: SubInv(w.db.subs[other])
    ensures var db' := Finished(w, id, page, event).db;
            OutboxInv(db') && forall other | other in db'.subs :: SubInv(db'.subs[other])
  {
  }

  lemma FinishKeepsChain(w: World, id: SubId, page: Page, event: EventId)
    requires Finishing(w, id, page, event) && ChainInv(w, id) && (id in w.db.subs ==> SubInv(w.db.subs[id]))
    ensures ChainInv(Finished(w, id, page, event), id)
  {
    var w' := Finished(w, id, page, event);
    if |w'.db.events| > |w.db.events| {
      assert ChainOf(w', id) == ChainOf(w, id) + [Event(event, id, w.checks[id].row.page, page)];
    }
  }

  lemma FinishKeepsInv(w: World, id: SubId, page: Page, event: EventId)
    requires Inv(w) && Finishing(w, id, page, event)
    ensures Inv(Finished(w, id, page, event))
  {
    var w' := Finished(w, id, page, event);
    FinishKeepsSubs(w, id, page, event);
    forall other ensures CheckInv(w', other) {
      assert CheckInv(w, other);
    }
    forall other ensures ChainInv(w', other) {
      assert ChainInv(w, other);
      if other == id {
        FinishKeepsChain(w, id, page, event);
      }
    }
  }

  lemma QuietKeepsInv(w: World, step: Step)
    requires Inv(w) && Enabled(w, step)
    requires step.Wait? || step.CheckStarted? || step.LoadFailed? || step.Stopped? || step.MirrorChanged?
    ensures Inv(After(w, step))
  {
    var w' := After(w, step);
    forall id ensures CheckInv(w', id) {
      assert CheckInv(w, id);
    }
    forall id ensures ChainInv(w', id) {
      assert ChainInv(w, id);
    }
  }

  lemma EditKeepsInv(w: World, step: Step)
    requires Inv(w) && Enabled(w, step) && (step.Created? || step.Deleted? || step.Edited?)
    ensures Inv(After(w, step))
  {
    var w' := After(w, step);
    forall id ensures CheckInv(w', id) {
      assert CheckInv(w, id);
    }
    forall id ensures ChainInv(w', id) {
      assert ChainInv(w, id);
    }
  }

  lemma LoadKeepsInv(w: World, step: Step)
    requires Inv(w) && Enabled(w, step) && step.PageLoaded?
    ensures Inv(After(w, step))
  {
    var w', c := After(w, step), w.checks[step.id];
    assert CheckInv(w, step.id);
    if StillCurrent(w.db, step.id, c.row) && AwaitsCover(w.hasCache, c.row, step.page, step.coverMissing) {
      forall id ensures CheckInv(w', id) {
        assert CheckInv(w, id);
      }
      forall id ensures ChainInv(w', id) {
        assert ChainInv(w, id);
      }
    } else {
      FinishKeepsInv(w, step.id, step.page, step.event);
    }
  }

  lemma StepKeepsInv(w: World, step: Step)
    requires Inv(w) && Enabled(w, step)
    ensures Inv(After(w, step))
  {
    if step.CoverSettled? {
      assert CheckInv(w, step.id);
      FinishKeepsInv(w, step.id, w.checks[step.id].page.value, step.event);
    } else if step.PageLoaded? {
      LoadKeepsInv(w, step);
    } else if step.Created? || step.Deleted? || step.Edited? {
      EditKeepsInv(w, step);
    } else {
      QuietKeepsInv(w, step);
    }
  }

  lemma {:induction false} RunKeepsInv(w: World, steps: seq<Step>)
    requires Inv(w) && Admissible(w, steps)
    ensures Inv(Run(w, steps))
    decreases |steps|
  {
    if steps != [] {
      StepKeepsInv(w, steps[0]);
      RunKeepsInv(After(w, steps[0]), steps[1..]);
    }
  }

  // ----- Main results

  /**
   * Optimistic checks are safe. After any interleaving, a stored page was loaded from the current
   * address, has the stored fingerprint, and was loaded by the load that started at `verifiedAt`.
   */
  lemma StoredPageIsCurrent(start: World, steps: seq<Step>, id: SubId)
    requires Start(start) && Admissible(start, steps) && id in Run(start, steps).db.subs
    ensures var sub := Run(start, steps).db.subs[id];
            && (sub.page.Some? <==> sub.initialized) && (sub.page.Some? <==> sub.fingerprint.Some?)
            && (sub.page.Some? ==>
                  && sub.page.value.url == sub.url
                  && sub.fingerprint == Some(sub.page.value.fingerprint)
                  && sub.verifiedAt == Some(sub.page.value.startedAt))
  {
    RunKeepsInv(start, steps);
  }

  /** Between resets and silent baselines the change events form a chain of real changes that ends in what is stored. */
  lemma ChangesFormAChain(start: World, steps: seq<Step>, id: SubId)
    requires Start(start) && Admissible(start, steps)
    ensures var w := Run(start, steps);
            var chain := ChainOf(w, id);
            && (forall k | 0 <= k < |chain| :: IsChange(chain[k]))
            && (forall k | 0 < k < |chain| :: chain[k].previous.value.fingerprint == chain[k - 1].current.fingerprint)
            && (chain != [] ==> id in w.db.subs && w.db.subs[id].fingerprint == Some(chain[|chain| - 1].current.fingerprint))
  {
    RunKeepsInv(start, steps);
    assert ChainInv(Run(start, steps), id);
  }

  /** Events and notification keys are in bijection at every reachable state, wherever the process stopped. */
  lemma OutboxMatchesEvents(start: World, steps: seq<Step>)
    requires Start(start) && Admissible(start, steps)
    ensures var db := Run(start, steps).db;
            && |db.enqueued| == |db.events|
            && (forall i | 0 <= i < |db.events| :: db.enqueued[i] == Direct(db.events[i].id))
            && (forall i, j | 0 <= i < j < |db.enqueued| :: db.enqueued[i] != db.enqueued[j])
  {
    RunKeepsInv(start, steps);
  }

  /** The stored fingerprint of a subscription changes from one page to a comparable, different one. */
  predicate ChangesFingerprint(before: Db, after: Db, id: SubId) {
    && id in before.subs && id in after.subs
    && before.subs[id].page.Some? && after.subs[id].page.Some?
    && before.subs[id].fingerprint != after.subs[id].fingerprint
    && BaselineOutcome(true, before.subs[id].fingerprint, before.subs[id].page, after.subs[id].page.value).None?
  }

  /**
   * A step of any run adds an event exactly when it commits a fingerprint change, and then adds that
   * change's one event and one notification key.
   */
  lemma EventsAreCommittedChanges(start: World, steps: seq<Step>, step: Step)
    requires Start(start) && Admissible(start, steps) && Enabled(Run(start, steps), step)
    ensures var before, after := Run(start, steps).db, After(Run(start, steps), step).db;
            && ((exists id :: ChangesFingerprint(before, after, id)) <==> after.events != before.events)
            && ((exists id :: ChangesFingerprint(before, after, id)) <==> after.enqueued != before.enqueued)
            && (forall id | ChangesFingerprint(before, after, id) :: AddsOneEvent(before, after, id))
  {
    RunKeepsInv(start, steps);
    StepAddsEventsExactly(Run(start, steps), step);
  }

  lemma StepAddsEventsExactly(w: World, step: Step)
    requires Inv(w) && Enabled(w, step)
    ensures var before, after := w.db, After(w, step).db;
            && ((exists id :: ChangesFingerprint(before, after, id)) <==> after.events != before.events)
            && ((exists id :: ChangesFingerprint(before, after, id)) <==> after.enqueued != before.enqueued)
            && forall id | ChangesFingerprint(before, after, id) :: AddsOneEvent(before, after, id)
  {
    var w' := After(w, step);
    if w'.db.events != w.db.events || w'.db.enqueued != w.db.enqueued {
      assert step.PageLoaded? || step.CoverSettled?;
      assert CheckInv(w, step.id);
      assert ChangesFingerprint(w.db, w'.db, step.id);
    }
    forall id | ChangesFingerprint(w.db, w'.db, id) ensures AddsOneEvent(w.db, w'.db, id) {
      assert CheckInv(w, id);
    }
  }

  predicate AddsOneEvent(before: Db, after: Db, id: SubId) {
    && |after.events| == |before.events| + 1 && after.events[..|before.events|] == before.events
    && |after.enqueued| == |before.enqueued| + 1
    && var e := after.events[|before.events|];
       id in before.subs && id in after.subs
       && e.sub == id && e.previous == before.subs[id].page && Some(e.current) == after.subs[id].page
       && after.enqueued == before.enqueued + [Direct(e.id)]
  }

  // ----- The steps of a run, told apart by what they change

  /** The baseline is gone, or a page that may not be compared with the stored one has taken its place. */
  predicate BreaksChain(before: Db, after: Db, id: SubId) {
    || id !in after.subs || NoBaseline(after.subs[id])
    || (id in before.subs && after.subs[id].page.Some?
        && BaselineOutcome(true, before.subs[id].fingerprint, before.subs[id].page, after.subs[id].page.value).Some?)
  }

  function Added(before: Db, after: Db, id: SubId): seq<Event> {
    if |after.events| > |before.events| && after.events[|after.events| - 1].sub == id then [after.events[|after.events| - 1]] else []
  }

  lemma FinishBreaksExactly(w: World, check: SubId, page: Page, event: EventId, id: SubId)
    requires Finishing(w, check, page, event) && CheckInv(w, id) && ChainInv(w, id)
    requires id in w.db.subs ==> SubInv(w.db.subs[id])
    ensures var w' := Finished(w, check, page, event);
            ChainOf(w', id) == (if BreaksChain(w.db, w'.db, id) then [] else ChainOf(w, id)) + Added(w.db, w'.db, id)
  {
    var w' := Finished(w, check, page, event);
    if id != check {
      assert ChainOf(w', id) == ChainOf(w, id) && Added(w.db, w'.db, id) == [];
    }
  }

  lemma SameBaselineKeepsChain(w: World, db': Db, id: SubId)
    requires ChainInv(w, id) && db'.events == w.db.events
    requires id in w.db.subs ==> id in db'.subs && SameBaseline(db'.subs[id], w.db.subs[id])
    ensures ChainOf(w, id) == (if BreaksChain(w.db, db', id) then [] else ChainOf(w, id)) + Added(w.db, db', id)
  {
  }

  lemma EditBreaksExactly(w: World, step: Step, id: SubId)
    requires Enabled(w, step) && ChainInv(w, id) && (step.Created? || step.Deleted? || step.Edited?)
    ensures var w' := After(w, step);
            ChainOf(w', id) == (if BreaksChain(w.db, w'.db, id) then [] else ChainOf(w, id)) + Added(w.db, w'.db, id)
  {
    if step.id != id || (step.Edited? && id in w.db.subs && step.url == w.db.subs[id].url) {
      SameBaselineKeepsChain(w, After(w, step).db, id);
    }
  }

  lemma QuietBreaksExactly(w: World, step: Step, id: SubId)
    requires Enabled(w, step) && ChainInv(w, id) && !step.CoverSettled? && !step.Created? && !step.Deleted? && !step.Edited?
    requires step.PageLoaded? ==> step.id in After(w, step).checks
    ensures var w' := After(w, step);
            ChainOf(w', id) == (if BreaksChain(w.db, w'.db, id) then [] else ChainOf(w, id)) + Added(w.db, w'.db, id)
  {
    SameBaselineKeepsChain(w, After(w, step).db, id);
  }

  /** Nothing else ends a chain: it loses its events exactly when its baseline goes or is replaced silently, and gains every new one. */
  lemma ChainBreaksExactly(start: World, steps: seq<Step>, step: Step, id: SubId)
    requires Start(start) && Admissible(start, steps) && Enabled(Run(start, steps), step)
    ensures var w, w' := Run(start, steps), After(Run(start, steps), step);
            ChainOf(w', id) == (if BreaksChain(w.db, w'.db, id) then [] else ChainOf(w, id)) + Added(w.db, w'.db, id)
  {
    RunKeepsInv(start, steps);
    var w := Run(start, steps);
    assert CheckInv(w, id) && ChainInv(w, id);
    if step.CoverSettled? {
      assert CheckInv(w, step.id);
      FinishBreaksExactly(w, step.id, w.checks[step.id].page.value, step.event, id);
    } else if step.PageLoaded? && step.id !in After(w, step).checks {
      assert CheckInv(w, step.id);
      FinishBreaksExactly(w, step.id, step.page, step.event, id);
    } else if step.Created? || step.Deleted? || step.Edited? {
      EditBreaksExactly(w, step, id);
    } else {
      QuietBreaksExactly(w, step, id);
    }
  }

  /**
   * Exactly which loaded pages wait for their cover before they are committed: with a cache, those of a current
   * row that are available and show a first fingerprint, another one, or one whose cover is not there. Until the
   * cover has settled nothing is written.
   */
  lemma CoverIsAwaitedExactly(start: World, steps: seq<Step>, id: SubId, page: Page, coverMissing: bool, event: EventId)
    requires Start(start) && Admissible(start, steps) && Enabled(Run(start, steps), PageLoaded(id, page, coverMissing, event))
    ensures var w, w' := Run(start, steps), After(Run(start, steps), PageLoaded(id, page, coverMissing, event));
            var row := w.checks[id].row;
            && (id in w'.checks <==>
                && w.hasCache && !page.unavailable && id in w.db.subs && SameButForLoads(w.db.subs[id], row)
                && (row.page.None? || row.page.value.fingerprint != page.fingerprint || coverMissing))
            && (id in w'.checks ==> w'.db == w.db && w'.checks[id] == Check(row, page.startedAt, Some(page)))
  {
    RunKeepsInv(start, steps);
    assert CheckInv(Run(start, steps), id);
  }

  lemma FinishKeepsUsersColumns(w: World, check: SubId, page: Page, event: EventId, id: SubId)
    requires check in w.checks
    ensures var subs, subs' := w.db.subs, Finished(w, check, page, event).db.subs;
            && (id in subs' <==> id in subs)
            && (id in subs ==> subs'[id].url == subs[id].url && subs'[id].tracker == subs[id].tracker
                               && subs'[id].mirror == subs[id].mirror && subs'[id].active == subs[id].active)
  {
  }

  /** The column of a row after a step: its value before, or what the operation on that row gives. */
  lemma UsersColumnsChangeExactly(w: World, step: Step, id: SubId)
    requires Enabled(w, step)
    ensures var subs, subs' := w.db.subs, After(w, step).db.subs;
            && (id in subs' <==> (id in subs && step != Deleted(id)) || (step.Created? && step.id == id))
            && (id in subs' && id !in subs ==> subs'[id] == Sub(step.url, step.tracker, step.mirror, true, false, None, None, None, false))
            && (id in subs' && id in subs ==>
                  var edited, moved := step.Edited? && step.id == id, step.MirrorChanged? && step.id == id;
                  && subs'[id].url == (if edited then step.url else subs[id].url)
                  && subs'[id].tracker == (if edited then step.tracker else subs[id].tracker)
                  && subs'[id].mirror == (if moved then step.mirror else subs[id].mirror)
                  && subs'[id].active == (if edited || moved then step.active else subs[id].active))
  {
    if step.CoverSettled? {
      FinishKeepsUsersColumns(w, step.id, w.checks[step.id].page.value, step.event, id);
    } else if step.PageLoaded? {
      FinishKeepsUsersColumns(w, step.id, step.page, step.event, id);
    }
  }

  /** When a check begins and ends, what row and start it holds to, and how the clock advances. */
  lemma ChecksRunExactly(w: World, step: Step, id: SubId)
    requires Enabled(w, step)
    ensures var w' := After(w, step);
            && w'.now == w.now + (if step.Wait? then step.ms else 0) && w'.hasCache == w.hasCache
            && (id in w'.checks && id !in w.checks <==> step == CheckStarted(id))
            && (step == CheckStarted(id) ==> id in w.db.subs && w.db.subs[id].active && w'.checks[id] == Check(w.db.subs[id], w.now, None))
            && (id in w.checks && id !in w'.checks ==>
                  step == Stopped || step == LoadFailed(id) || (step.CoverSettled? && step.id == id) || (step.PageLoaded? && step.id == id))
            && (step == Stopped || step == LoadFailed(id) || (step.CoverSettled? && step.id == id) ==> id !in w'.checks)
            && (id in w.checks && id in w'.checks ==>
                  w'.checks[id] == w.checks[id] || (step.PageLoaded? && step.id == id && w'.checks[id] == w.checks[id].(page := Some(step.page))))
  {
  }

  /** A row is marked as failed by its own failed load if it is still the row that was read, and only by that. */
  lemma FailuresAreMarkedExactly(w: World, step: Step, id: SubId)
    requires Enabled(w, step) && id in w.db.subs && id in After(w, step).db.subs && !w.db.subs[id].failed
    ensures After(w, step).db.subs[id].failed <==> step == LoadFailed(id) && SameButForLoads(w.db.subs[id], w.checks[id].row)
  {
  }
}

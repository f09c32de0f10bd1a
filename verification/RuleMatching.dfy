/**
 * Matching releases against rules (server/scheduler.ts, processRuleMatches). Each tracker's lane selects its
 * rules and works through the releases of one after the other; before a match is recorded its page may be
 * awaited, and meanwhile the rule can be edited or deleted, other lanes proceed, or the process stops.
 */
module RuleMatching {
  import opened Wrappers
  import RB = ReleaseBuffer

  type RuleId = nat
  type Tracker = RB.TrackerKey
  type ExternalId = RB.TopicId
  type MatchId = nat
  type Terms = nat
  type Title = string

  datatype RuleSub = RuleSub(terms: Terms, trackers: set<Tracker>, active: bool)

  /** UNIQUE(subscription_id, tracker_key, external_id) of the match table. */
  datatype MatchKey = MatchKey(rule: RuleId, tracker: Tracker, id: ExternalId)

  datatype Release = Release(id: ExternalId, title: Title)

  /** A rule as a lane selected it, with its terms, and whether it was on its silent baseline; `epoch` is auxiliary. */
  datatype Row = Row(rule: RuleId, terms: Terms, tracker: Tracker, baseline: bool, epoch: nat)

  /** A rule-match event; `epoch` is auxiliary and counts the rule's resets before it. */
  datatype Event = Event(match': MatchId, key: MatchKey, epoch: nat)

  /** `enqueued` holds every `rule:` key ever put on the notification queue. */
  datatype Db = Db(rules: map<RuleId, RuleSub>, matches: map<MatchKey, MatchId>, events: seq<Event>, enqueued: seq<MatchId>)

  // ----- Transactions

  function KeyOf(row: Row, release: Release): MatchKey {
    MatchKey(row.rule, row.tracker, release.id)
  }

  predicate StillCurrent(db: Db, row: Row) {
    && row.rule in db.rules && db.rules[row.rule].active
    && db.rules[row.rule].terms == row.terms && row.tracker in db.rules[row.rule].trackers
  }

  /** INSERT OR IGNORE the match; if it is new and not on the silent baseline, also its event and notification. */
  function RecordedMatch(db: Db, key: MatchKey, baseline: bool, id: MatchId, epoch: nat): Db {
    if key in db.matches then db
    else if baseline then db.(matches := db.matches[key := id])
    else Db(db.rules, db.matches[key := id], db.events + [Event(id, key, epoch)], db.enqueued + [id])
  }

  function WithoutRule(matches: map<MatchKey, MatchId>, rule: RuleId): map<MatchKey, MatchId> {
    map key | key in matches && key.rule != rule :: matches[key]
  }

  function ResetRule(db: Db, rule: RuleId, sub: RuleSub): Db {
    db.(rules := db.rules[rule := sub], matches := WithoutRule(db.matches, rule))
  }

  function RecordedIds(matches: map<MatchKey, MatchId>, row: Row): set<ExternalId> {
    set key | key in matches && key.rule == row.rule && key.tracker == row.tracker :: key.id
  }

  /** A whole pass with no interference: record every matching release in turn. */
  function Processed(
    db: Db, matcher: (Terms, Title) -> bool, row: Row, releases: seq<Release>, firstId: MatchId, epoch: nat): Db
  {
    if releases == [] then db
    else
      var last := |releases| - 1;
      var before := Processed(db, matcher, row, releases[..last], firstId, epoch);
      if matcher(row.terms, releases[last].title) then RecordedMatch(before, KeyOf(row, releases[last]), row.baseline, firstId + last, epoch)
      else before
  }

  predicate Matching(matcher: (Terms, Title) -> bool, row: Row, releases: seq<Release>, key: MatchKey) {
    exists k :: 0 <= k < |releases| && matcher(row.terms, releases[k].title) && key == KeyOf(row, releases[k])
  }

  /** It adds exactly the matching releases, and off the baseline one event and one notification for each added one. */
  lemma {:induction false} ProcessedAddsMatches(
    db: Db, matcher: (Terms, Title) -> bool, row: Row, releases: seq<Release>, firstId: MatchId, epoch: nat)
    ensures var db' := Processed(db, matcher, row, releases, firstId, epoch);
            && db'.rules == db.rules
            && (forall key :: key in db'.matches <==> key in db.matches || Matching(matcher, row, releases, key))
            && |db'.events| - |db.events| == (if row.baseline then 0 else |db'.matches| - |db.matches|)
            && |db'.enqueued| - |db.enqueued| == |db'.events| - |db.events|
  {
    if releases != [] {
      var last := |releases| - 1;
      ProcessedAddsMatches(db, matcher, row, releases[..last], firstId, epoch);
      forall key ensures Matching(matcher, row, releases, key) <==>
                         Matching(matcher, row, releases[..last], key)
                         || (matcher(row.terms, releases[last].title) && key == KeyOf(row, releases[last]))
      {
        if k :| 0 <= k < last && matcher(row.terms, releases[..last][k].title) && key == KeyOf(row, releases[..last][k]) {
          assert releases[k] == releases[..last][k];
        }
        if k :| 0 <= k < |releases| && matcher(row.terms, releases[k].title) && key == KeyOf(row, releases[k]) {
          assert k < last ==> releases[..last][k] == releases[k];
        }
      }
    }
  }

  // ----- The tables, updated in place

  class Tables {
    var rules: map<RuleId, RuleSub>
    var matches: map<MatchKey, MatchId>
    var events: seq<Event>
    var enqueued: seq<MatchId>

    ghost function Value(): Db
      reads this
    {
      Db(rules, matches, events, enqueued)
    }

    /**
     * Afterwards the release is recorded. A record that was there stays, and then nothing happens; off the
     * silent baseline a new one comes with one event and one notification, under its own id.
     */
    method RecordMatch(key: MatchKey, baseline: bool, id: MatchId, epoch: nat)
      modifies this
      ensures rules == old(rules) && matches.Keys == old(matches).Keys + {key}
      ensures forall other | other in old(matches) :: matches[other] == old(matches)[other]
      ensures key !in old(matches) ==> matches[key] == id
      ensures var notified := !baseline && key !in old(matches);
              && events == old(events) + (if notified then [Event(id, key, epoch)] else [])
              && enqueued == old(enqueued) + (if notified then [id] else [])
      ensures Value() == RecordedMatch(old(Value()), key, baseline, id, epoch)
    {
      if key !in matches {
        matches := matches[key := id];
        if !baseline {
          events := events + [Event(id, key, epoch)];
          enqueued := enqueued + [id];
        }
      }
    }

    /** One rule's pass when nothing interferes. The set of recorded ids only saves work: the result is that of recording all. */
    method ProcessRow(matcher: (Terms, Title) -> bool, row: Row, releases: seq<Release>, firstId: MatchId, epoch: nat)
      requires StillCurrent(Value(), row)
      modifies this
      ensures Value() == Processed(old(Value()), matcher, row, releases, firstId, epoch)
    {
      var recorded := RecordedIds(matches, row);
      for k := 0 to |releases|
        invariant recorded == RecordedIds(matches, row)
        invariant Value() == Processed(old(Value()), matcher, row, releases[..k], firstId, epoch)
      {
        assert releases[..k + 1][..k] == releases[..k];
        var key := KeyOf(row, releases[k]);
        if matcher(row.terms, releases[k].title) && releases[k].id !in recorded {
          RecordMatch(key, row.baseline, firstId + k, epoch);
          recorded := recorded + {releases[k].id};
        }
      }
      assert releases[..|releases|] == releases;
    }
  }

  // ----- Interleaving

  /** A poll's view of its tracker's buffered rows. */
  type View = map<ExternalId, RB.Row>

  /** The releases a poll of a feed matches: every row of its view, in any order. */
  predicate Lists(releases: seq<Release>, view: View) {
    && (forall k | 0 <= k < |releases| :: releases[k].id in view && releases[k].title == view[releases[k].id].title)
    && (forall id | id in view :: exists k :: 0 <= k < |releases| && releases[k].id == id)
  }

  /** A rule's state on a tracker: whether its baseline was taken there, and under which discovery revision. */
  datatype State = State(initialized: bool, revision: Option<nat>)

  datatype StateKey = StateKey(rule: RuleId, tracker: Tracker)

  /** A lane's pass over one rule's releases. `undisturbed` is auxiliary: the rule was not edited since the pass began. */
  datatype Pass = Pass(
    row: Row, releases: seq<Release>, next: nat, recorded: set<ExternalId>, enriching: bool, undisturbed: bool)

  /**
   * `lanes` holds the rows each working lane has still to pass, `feeds` the trackers whose rules are matched against
   * the buffer. Auxiliary: `epochs` counts each rule's resets; `silent` holds what was recorded on a silent
   * baseline, or before the run, with its epoch.
   */
  datatype World = World(
    matcher: (Terms, Title) -> bool, feeds: set<Tracker>, revisions: map<Tracker, nat>, buffer: map<RB.RowKey, RB.Row>,
    views: map<Tracker, View>, db: Db, states: map<StateKey, State>, lanes: map<Tracker, set<Row>>, passes: map<Tracker, Pass>,
    epochs: map<RuleId, nat>, silent: set<(MatchKey, nat)>)
  {
    function Epoch(rule: RuleId): nat {
      if rule in epochs then epochs[rule] else 0
    }

    function Revision(t: Tracker): Option<nat> {
      if t in revisions then Some(revisions[t]) else None
    }
  }

  datatype Step =
    | Reset(rule: RuleId, sub: RuleSub, withTrackers: bool)
    | Toggled(rule: RuleId, active: bool)
    | Deleted(rule: RuleId)
    | LaneStarted(tracker: Tracker, rows: set<Row>)
    | Ingested(tracker: Tracker, found: seq<RB.Release>, at: int)
    | CaughtUp(tracker: Tracker, found: seq<RB.Release>, at: int)
    | PassStarted(row: Row, releases: seq<Release>)
    | Advanced(tracker: Tracker, id: MatchId)
    | PassEnded(tracker: Tracker)
    | PassFailed(tracker: Tracker)
    | LaneEnded(tracker: Tracker)
    | Stopped(revisions: map<Tracker, nat>)

  /** A rule without a state on the tracker has the values with which the selection fills it in. */
  function StateOf(states: map<StateKey, State>, rule: RuleId, t: Tracker): State {
    if StateKey(rule, t) in states then states[StateKey(rule, t)] else State(false, None)
  }

  predicate IsBaseline(state: State, revision: Option<nat>) {
    !state.initialized || (revision.Some? && state.revision != revision)
  }

  /** The rule's next selection on the tracker takes it for one to match silently. */
  predicate OnBaseline(w: World, rule: RuleId, t: Tracker) {
    rule in w.db.rules && IsBaseline(StateOf(w.states, rule, t), w.Revision(t))
  }

  predicate IsSelected(w: World, row: Row) {
    && StillCurrent(w.db, row) && row.epoch == w.Epoch(row.rule)
    && row.baseline == IsBaseline(StateOf(w.states, row.rule, row.tracker), w.Revision(row.tracker))
  }

  predicate Unused(db: Db, id: MatchId) {
    && (forall key | key in db.matches :: db.matches[key] != id)
    && forall i | 0 <= i < |db.events| :: db.events[i].match' != id
  }

  predicate Enabled(w: World, step: Step) {
    match step
    // An edit that does not name the trackers keeps them; a new rule comes with its trackers.
    case Reset(rule, sub, withTrackers) =>
      if rule in w.db.rules then !withTrackers ==> sub.trackers == w.db.rules[rule].trackers else withTrackers
    case LaneStarted(t, rows) => t !in w.lanes && forall row | row in rows :: row.tracker == t && IsSelected(w, row)
    // A lane polls its tracker, catches up and matches in turn.
    case Ingested(t, found, _) => t in w.lanes && t in w.feeds && t !in w.passes && forall r | r in found :: r.tracker == t
    case CaughtUp(t, found, _) => t in w.lanes && t in w.feeds && t !in w.passes && forall r | r in found :: r.tracker == t
    // A rule of a search tracker is matched against whatever its search found.
    case PassStarted(row, releases) =>
      && row.tracker in w.lanes && row in w.lanes[row.tracker] && row.tracker !in w.passes
      && (row.tracker in w.feeds ==> row.tracker in w.views && Lists(releases, w.views[row.tracker]))
    case Advanced(t, id) => t in w.passes && w.passes[t].next < |w.passes[t].releases| && Unused(w.db, id)
    case PassEnded(t) => t in w.passes && w.passes[t].next == |w.passes[t].releases|
    case PassFailed(t) => t in w.passes
    case LaneEnded(t) => t in w.lanes
    case _ => true
  }

  function Disturbed(passes: map<Tracker, Pass>, rule: RuleId): map<Tracker, Pass> {
    map t | t in passes :: if passes[t].row.rule == rule then passes[t].(undisturbed := false) else passes[t]
  }

  function SetActive(rules: map<RuleId, RuleSub>, rule: RuleId, active: bool): map<RuleId, RuleSub> {
    if rule in rules then rules[rule := rules[rule].(active := active)] else rules
  }

  function WithoutStates(states: map<StateKey, State>, rule: RuleId): map<StateKey, State> {
    map key | key in states && key.rule != rule :: states[key]
  }

  /** What a pass does with the release it stands at: ask for its page first, skip it, or record it. */
  datatype Outcome = Ask | Skip | Record

  function OutcomeOf(w: World, p: Pass): Outcome
    requires p.next < |p.releases|
  {
    var release := p.releases[p.next];
    if !w.matcher(p.row.terms, release.title) || release.id in p.recorded then Skip
    else if !p.row.baseline && !p.enriching then Ask
    else if !StillCurrent(w.db, p.row) then Skip
    else Record
  }

  function NextPass(p: Pass, outcome: Outcome): Pass
    requires p.next < |p.releases|
  {
    match outcome
    case Ask => p.(enriching := true)
    case Skip => p.(next := p.next + 1, enriching := false)
    case Record => p.(next := p.next + 1, enriching := false, recorded := p.recorded + {p.releases[p.next].id})
  }

  function RecordedSilently(w: World, key: MatchKey, baseline: bool): set<(MatchKey, nat)> {
    if baseline && key !in w.db.matches then w.silent + {(key, w.Epoch(key.rule))} else w.silent
  }

  function Advance(w: World, t: Tracker, id: MatchId): World
    requires Enabled(w, Advanced(t, id))
  {
    var p := w.passes[t];
    var outcome, key := OutcomeOf(w, p), KeyOf(p.row, p.releases[p.next]);
    w.(db := if outcome.Record? then RecordedMatch(w.db, key, p.row.baseline, id, w.Epoch(p.row.rule)) else w.db,
       silent := if outcome.Record? then RecordedSilently(w, key, p.row.baseline) else w.silent,
       passes := w.passes[t := NextPass(p, outcome)])
  }

  function WithoutLane(w: World, t: Tracker): World {
    w.(lanes := w.lanes - {t}, views := w.views - {t}, passes := w.passes - {t})
  }

  /** The pass takes the rule past its baseline, whatever became of the rule meanwhile; a deleted rule ends the lane. */
  function EndPass(w: World, t: Tracker): World
    requires Enabled(w, PassEnded(t))
  {
    var rule := w.passes[t].row.rule;
    if rule !in w.db.rules then WithoutLane(w, t)
    else
      w.(passes := w.passes - {t},
         states := w.states[StateKey(rule, t) := State(true, w.Revision(t).Or(StateOf(w.states, rule, t).revision))])
  }

  function After(w: World, step: Step): World
    requires Enabled(w, step)
  {
    match step
    case Reset(rule, sub, withTrackers) =>
      w.(db := ResetRule(w.db, rule, sub), epochs := w.epochs[rule := w.Epoch(rule) + 1], passes := Disturbed(w.passes, rule),
         states := if withTrackers then WithoutStates(w.states, rule) else w.states)
    case Toggled(rule, active) =>
      w.(db := w.db.(rules := SetActive(w.db.rules, rule, active)), passes := Disturbed(w.passes, rule))
    case Deleted(rule) =>
      w.(db := w.db.(rules := w.db.rules - {rule}, matches := WithoutRule(w.db.matches, rule)),
         epochs := w.epochs[rule := w.Epoch(rule) + 1], passes := Disturbed(w.passes, rule), states := WithoutStates(w.states, rule))
    case LaneStarted(t, rows) => w.(lanes := w.lanes[t := rows])
    case Ingested(t, found, at) =>
      var buffer := RB.Pruned(RB.Buffered(w.buffer, found, at), at);
      w.(buffer := buffer, views := w.views[t := RB.ViewOf(buffer, t)])
    case CaughtUp(t, found, at) =>
      var buffer := RB.Buffered(w.buffer, found, at);
      w.(buffer := buffer, views := w.views[t := RB.ViewOf(buffer, t)])
    case PassStarted(row, releases) =>
      var pass := Pass(row, releases, 0, RecordedIds(w.db.matches, row), false, StillCurrent(w.db, row));
      w.(passes := w.passes[row.tracker := pass], lanes := w.lanes[row.tracker := w.lanes[row.tracker] - {row}])
    case Advanced(t, id) => Advance(w, t, id)
    case PassEnded(t) => EndPass(w, t)
    case PassFailed(t) => w.(passes := w.passes - {t})
    case LaneEnded(t) => WithoutLane(w, t)
    case Stopped(revisions) => w.(passes := map[], views := map[], lanes := map[], revisions := revisions)
  }

  lemma ListOf(view: View) returns (releases: seq<Release>)
    ensures Lists(releases, view)
    decreases view.Keys
  {
    if view == map[] {
      releases := [];
    } else {
      var id :| id in view;
      assert (view - {id}).Keys == view.Keys - {id};
      var rest := ListOf(view - {id});
      releases := rest + [Release(id, view[id].title)];
      forall other | other in view ensures exists k :: 0 <= k < |releases| && releases[k].id == other {
        if other == id {
          assert releases[|rest|].id == other;
        } else {
          assert other in view - {id};
          var k :| 0 <= k < |rest| && rest[k].id == other;
          assert releases[k].id == other;
        }
      }
    }
  }

  /** Whatever is buffered, a lane between two passes can pass any rule it holds, over releases that list it all. */
  lemma PassIsPossible(w: World, row: Row) returns (releases: seq<Release>)
    requires row.tracker in w.lanes && row in w.lanes[row.tracker] && row.tracker !in w.passes
    requires row.tracker in w.feeds ==> row.tracker in w.views
    ensures Enabled(w, PassStarted(row, releases))
  {
    releases := ListOf(if row.tracker in w.views then w.views[row.tracker] else map[]);
  }

  /** Any rule can be edited to any terms at any moment, with its trackers or without. */
  lemma EditIsPossible(w: World, rule: RuleId, sub: RuleSub)
    ensures Enabled(w, Reset(rule, sub, true))
    ensures rule in w.db.rules ==> Enabled(w, Reset(rule, sub.(trackers := w.db.rules[rule].trackers), false))
  {
  }

  predicate Admissible(w: World, steps: seq<Step>)
    decreases |steps|
  {
    steps == [] || (Enabled(w, steps[0]) && Admissible(After(w, steps[0]), steps[1..]))
  }

  function Run(w: World, steps: seq<Step>): World
    requires Admissible(w, steps)
    decreases |steps|
  {
    if steps == [] then w else Run(After(w, steps[0]), steps[1..])
  }

  /** No lane works; what is recorded counts as silent, and the logs begin here. */
  predicate Start(w: World) {
    && w.passes == map[] && w.views == map[] && w.lanes == map[] && w.epochs == map[]
    && w.db.events == [] && w.db.enqueued == [] && w.silent == set key | key in w.db.matches :: (key, 0)
  }

  // ----- The invariant

  predicate EventInv(w: World, e: Event) {
    && e.epoch <= w.Epoch(e.key.rule)
    && (e.epoch == w.Epoch(e.key.rule) ==> e.key in w.db.matches && w.db.matches[e.key] == e.match')
    && (e.key, e.epoch) !in w.silent
  }

  predicate SilentInv(w: World, key: MatchKey, epoch: nat) {
    epoch <= w.Epoch(key.rule) && (epoch == w.Epoch(key.rule) ==> key in w.db.matches)
  }

  predicate HasEvent(w: World, key: MatchKey, epoch: nat) {
    exists i :: 0 <= i < |w.db.events| && w.db.events[i].key == key && w.db.events[i].epoch == epoch
  }

  predicate OutboxInv(db: Db) {
    && |db.enqueued| == |db.events|
    && (forall i | 0 <= i < |db.events| :: db.enqueued[i] == db.events[i].match')
    && (forall i, j | 0 <= i < j < |db.events| ::
          db.events[i].match' != db.events[j].match'
          && (db.events[i].key != db.events[j].key || db.events[i].epoch != db.events[j].epoch))
  }

  /** Of an undisturbed pass, everything already seen that matches is recorded. */
  predicate PassedOver(db: Db, matcher: (Terms, Title) -> bool, p: Pass) {
    && p.next <= |p.releases|
    && (p.undisturbed ==>
          && StillCurrent(db, p.row)
          && (forall id | id in p.recorded :: MatchKey(p.row.rule, p.row.tracker, id) in db.matches)
          && (forall k | 0 <= k < p.next && matcher(p.row.terms, p.releases[k].title) :: KeyOf(p.row, p.releases[k]) in db.matches))
  }

  predicate PassInv(w: World, t: Tracker) {
    t in w.passes ==>
      var p := w.passes[t];
      && p.row.tracker == t && (t in w.feeds ==> t in w.views && Lists(p.releases, w.views[t]))
      && PassedOver(w.db, w.matcher, p)
  }

  /** If the rule was not reset since it was selected, its row tells whether it is on its baseline. */
  predicate RowInv(w: World, row: Row) {
    && row.epoch <= w.Epoch(row.rule)
    && (row.epoch == w.Epoch(row.rule) ==> row.rule in w.db.rules && (row.baseline <==> OnBaseline(w, row.rule, row.tracker)))
  }

  /** A lane holds one row for each rule it has still to pass, and none for the rule it passes. */
  predicate LaneInv(w: World, t: Tracker) {
    && (t in w.views || t in w.passes ==> t in w.lanes)
    && (t in w.passes ==> w.passes[t].row.tracker == t && RowInv(w, w.passes[t].row))
    && (t in w.lanes ==>
          forall row | row in w.lanes[t] ::
            && row.tracker == t && RowInv(w, row)
            && (t in w.passes ==> w.passes[t].row.rule != row.rule)
            && forall other | other in w.lanes[t] && other.rule == row.rule :: other == row)
  }

  /** What is buffered of a tracker is in its lane's view: only its own lane adds rows, others can only prune them. */
  ghost predicate ViewInv(w: World, t: Tracker) {
    t in w.views ==> forall id | (t, id) in w.buffer :: id in w.views[t] && w.views[t][id] == w.buffer[(t, id)]
  }

  ghost predicate RecordsInv(w: World) {
    && OutboxInv(w.db)
    && (forall i | 0 <= i < |w.db.events| :: EventInv(w, w.db.events[i]))
    && (forall key, epoch | (key, epoch) in w.silent :: SilentInv(w, key, epoch))
    && (forall key | key in w.db.matches :: (key, w.Epoch(key.rule)) in w.silent || HasEvent(w, key, w.Epoch(key.rule)))
  }

  ghost predicate Inv(w: World) {
    && RecordsInv(w)
    && (forall t :: ViewInv(w, t))
    && (forall t :: PassInv(w, t))
    && (forall t :: LaneInv(w, t))
  }

  // ----- Every step keeps it

  predicate Recording(w: World, w': World, key: MatchKey, baseline: bool, id: MatchId) {
    && Unused(w.db, id) && key !in w.db.matches
    && w'.epochs == w.epochs && w'.db == RecordedMatch(w.db, key, baseline, id, w.Epoch(key.rule))
    && w'.silent == if baseline then w.silent + {(key, w.Epoch(key.rule))} else w.silent
  }

  lemma RecordKeepsEvents(w: World, w': World, key: MatchKey, baseline: bool, id: MatchId)
    requires Inv(w) && Recording(w, w', key, baseline, id)
    ensures forall i | 0 <= i < |w'.db.events| :: EventInv(w', w'.db.events[i])
  {
    forall i | 0 <= i < |w'.db.events| ensures EventInv(w', w'.db.events[i]) {
      if i < |w.db.events| {
        assert EventInv(w, w.db.events[i]);
      } else if (key, w.Epoch(key.rule)) in w.silent {
        assert SilentInv(w, key, w.Epoch(key.rule));
      }
    }
  }

  lemma RecordKeepsOutbox(w: World, w': World, key: MatchKey, baseline: bool, id: MatchId)
    requires Inv(w) && Recording(w, w', key, baseline, id)
    ensures OutboxInv(w'.db)
  {
    forall i | 0 <= i < |w.db.events|
      ensures w.db.events[i].key != key || w.db.events[i].epoch != w.Epoch(key.rule)
    {
      assert EventInv(w, w.db.events[i]);
    }
  }

  lemma RecordKeepsAccounts(w: World, w': World, key: MatchKey, baseline: bool, id: MatchId)
    requires Inv(w) && Recording(w, w', key, baseline, id)
    ensures forall key, epoch | (key, epoch) in w'.silent :: SilentInv(w', key, epoch)
    ensures forall key | key in w'.db.matches :: (key, w'.Epoch(key.rule)) in w'.silent || HasEvent(w', key, w'.Epoch(key.rule))
  {
    forall other, epoch | (other, epoch) in w'.silent ensures SilentInv(w', other, epoch) {
      assert (other, epoch) in w.silent ==> SilentInv(w, other, epoch);
    }
    forall other | other in w'.db.matches ensures (other, w'.Epoch(other.rule)) in w'.silent || HasEvent(w', other, w'.Epoch(other.rule)) {
      if other in w.db.matches && (other, w.Epoch(other.rule)) !in w.silent {
        var i :| 0 <= i < |w.db.events| && w.db.events[i].key == other && w.db.events[i].epoch == w.Epoch(other.rule);
        assert w'.db.events[i] == w.db.events[i];
      } else if other !in w.db.matches && !baseline {
        assert w'.db.events[|w.db.events|].key == other;
      }
    }
  }

  lemma ViewsKept(w: World, w': World)
    requires Inv(w) && w'.buffer == w.buffer && forall t | t in w'.views :: t in w.views && w'.views[t] == w.views[t]
    ensures forall t :: ViewInv(w', t)
  {
    forall t ensures ViewInv(w', t) {
      assert ViewInv(w, t);
    }
  }

  /** More records disturb no pass that stays where it is. */
  lemma MoreRecordsKeepPass(w: World, w': World, t: Tracker)
    requires PassInv(w, t) && w'.db.rules == w.db.rules && (forall key | key in w.db.matches :: key in w'.db.matches)
    requires w'.matcher == w.matcher && w'.feeds == w.feeds
    requires t in w'.passes ==> t in w.passes && w'.passes[t] == w.passes[t] && (t in w.views ==> t in w'.views && w'.views[t] == w.views[t])
    ensures PassInv(w', t)
  {
  }

  /** Behind the release the pass stood at: it is recorded if the pass is undisturbed and it matches. */
  lemma NextPassedOver(w: World, db': Db, p: Pass)
    requires PassedOver(w.db, w.matcher, p) && p.next < |p.releases|
    requires db'.rules == w.db.rules && forall key | key in w.db.matches :: key in db'.matches
    requires OutcomeOf(w, p).Record? ==> KeyOf(p.row, p.releases[p.next]) in db'.matches
    ensures PassedOver(db', w.matcher, NextPass(p, OutcomeOf(w, p)))
  {
  }

  lemma AdvanceKeepsPass(w: World, t: Tracker, id: MatchId, other: Tracker)
    requires PassInv(w, other) && Enabled(w, Advanced(t, id))
    ensures PassInv(After(w, Advanced(t, id)), other)
  {
    var w' := After(w, Advanced(t, id));
    if other == t {
      NextPassedOver(w, w'.db, w.passes[t]);
    } else {
      MoreRecordsKeepPass(w, w', other);
    }
  }

  lemma AdvanceRecords(w: World, t: Tracker, id: MatchId)
    requires Enabled(w, Advanced(t, id))
    ensures var w', p := After(w, Advanced(t, id)), w.passes[t];
            && w'.epochs == w.epochs
            && (if w'.db != w.db then Recording(w, w', KeyOf(p.row, p.releases[p.next]), p.row.baseline, id) else w'.silent == w.silent)
  {
  }

  lemma AdvanceKeepsInv(w: World, t: Tracker, id: MatchId)
    requires Inv(w) && Enabled(w, Advanced(t, id))
    ensures Inv(After(w, Advanced(t, id)))
  {
    var w', p := After(w, Advanced(t, id)), w.passes[t];
    AdvanceRecords(w, t, id);
    RecordsKept(w, w', KeyOf(p.row, p.releases[p.next]), p.row.baseline, id);
    ViewsKept(w, w');
    forall other ensures PassInv(w', other) && LaneInv(w', other) {
      assert PassInv(w, other) && LaneInv(w, other);
      AdvanceKeepsPass(w, t, id, other);
      LaneKept(w, w', other);
    }
  }

  lemma RowKept(w: World, w': World, row: Row)
    requires RowInv(w, row) && w'.Epoch(row.rule) >= w.Epoch(row.rule)
    requires w'.Epoch(row.rule) == w.Epoch(row.rule) ==>
               && (row.rule in w.db.rules ==> row.rule in w'.db.rules)
               && StateOf(w'.states, row.rule, row.tracker) == StateOf(w.states, row.rule, row.tracker)
               && w'.Revision(row.tracker) == w.Revision(row.tracker)
    ensures RowInv(w', row)
  {
  }

  /** A lane stays in order while its rules keep their states, if it only loses rows. */
  lemma LaneKept(w: World, w': World, t: Tracker)
    requires LaneInv(w, t) && w'.epochs == w.epochs && w'.states == w.states && w'.revisions == w.revisions
    requires w.db.rules.Keys <= w'.db.rules.Keys
    requires t in w'.lanes ==> t in w.lanes && w'.lanes[t] <= w.lanes[t]
    requires t in w'.views || t in w'.passes ==> t in w'.lanes
    requires t in w'.passes ==> t in w.passes && w'.passes[t].row == w.passes[t].row
    ensures LaneInv(w', t)
  {
    if t in w'.passes {
      RowKept(w, w', w'.passes[t].row);
    }
    if t in w'.lanes {
      forall row | row in w'.lanes[t] ensures RowInv(w', row) {
        RowKept(w, w', row);
      }
    }
  }

  lemma RecordsKept(w: World, w': World, key: MatchKey, baseline: bool, id: MatchId)
    requires Inv(w) && w'.epochs == w.epochs
    requires if w'.db != w.db then Recording(w, w', key, baseline, id) else w'.silent == w.silent
    ensures RecordsInv(w')
  {
    if w'.db != w.db {
      RecordKeepsEvents(w, w', key, baseline, id);
      RecordKeepsOutbox(w, w', key, baseline, id);
      RecordKeepsAccounts(w, w', key, baseline, id);
    } else {
      DbKept(w, w');
    }
  }

  lemma DbKept(w: World, w': World)
    requires Inv(w) && w'.db.matches == w.db.matches && w'.db.events == w.db.events && w'.db.enqueued == w.db.enqueued
    requires w'.epochs == w.epochs && w'.silent == w.silent
    ensures OutboxInv(w'.db)
    ensures forall i | 0 <= i < |w'.db.events| :: EventInv(w', w'.db.events[i])
    ensures forall key, epoch | (key, epoch) in w'.silent :: SilentInv(w', key, epoch)
    ensures forall key | key in w'.db.matches :: (key, w'.Epoch(key.rule)) in w'.silent || HasEvent(w', key, w'.Epoch(key.rule))
  {
    forall i | 0 <= i < |w'.db.events| ensures EventInv(w', w'.db.events[i]) {
      assert EventInv(w, w.db.events[i]);
    }
    forall key, epoch | (key, epoch) in w'.silent ensures SilentInv(w', key, epoch) {
      assert SilentInv(w, key, epoch);
    }
    forall key | key in w'.db.matches ensures (key, w'.Epoch(key.rule)) in w'.silent || HasEvent(w', key, w'.Epoch(key.rule)) {
      if (key, w.Epoch(key.rule)) !in w.silent {
        var i :| 0 <= i < |w.db.events| && w.db.events[i].key == key && w.db.events[i].epoch == w.Epoch(key.rule);
        assert w'.db.events[i].key == key;
      }
    }
  }

  /** After a reset or deletion the rule starts a new epoch with no match recorded. */
  lemma ResetKeepsRecords(w: World, step: Step)
    requires Inv(w) && Enabled(w, step) && (step.Reset? || step.Deleted?)
    ensures RecordsInv(After(w, step))
  {
    var w' := After(w, step);
    forall i | 0 <= i < |w'.db.events| ensures EventInv(w', w'.db.events[i]) {
      assert EventInv(w, w.db.events[i]);
    }
    forall key, epoch | (key, epoch) in w'.silent ensures SilentInv(w', key, epoch) {
      assert SilentInv(w, key, epoch);
    }
    forall key | key in w'.db.matches ensures (key, w'.Epoch(key.rule)) in w'.silent || HasEvent(w', key, w'.Epoch(key.rule)) {
      if (key, w.Epoch(key.rule)) !in w.silent {
        var i :| 0 <= i < |w.db.events| && w.db.events[i].key == key && w.db.events[i].epoch == w.Epoch(key.rule);
        assert w'.db.events[i].key == key;
      }
    }
  }

  lemma ResetKeepsInv(w: World, step: Step)
    requires Inv(w) && Enabled(w, step) && (step.Reset? || step.Deleted?)
    ensures Inv(After(w, step))
  {
    var w' := After(w, step);
    ResetKeepsRecords(w, step);
    ViewsKept(w, w');
    forall t ensures PassInv(w', t) && LaneInv(w', t) {
      assert PassInv(w, t) && LaneInv(w, t);
      ResetKeepsPass(w, step, t);
      ResetKeepsLane(w, step, t);
    }
  }

  lemma ResetKeepsPass(w: World, step: Step, t: Tracker)
    requires PassInv(w, t) && Enabled(w, step) && (step.Reset? || step.Deleted?)
    ensures PassInv(After(w, step), t)
  {
  }

  lemma ResetKeepsRow(w: World, step: Step, row: Row)
    requires RowInv(w, row) && Enabled(w, step) && (step.Reset? || step.Deleted?)
    ensures RowInv(After(w, step), row)
  {
    RowKept(w, After(w, step), row);
  }

  lemma ResetKeepsLane(w: World, step: Step, t: Tracker)
    requires LaneInv(w, t) && Enabled(w, step) && (step.Reset? || step.Deleted?)
    ensures LaneInv(After(w, step), t)
  {
    if t in w.passes {
      ResetKeepsRow(w, step, w.passes[t].row);
    }
    if t in w.lanes {
      forall row | row in w.lanes[t] ensures RowInv(After(w, step), row) {
        ResetKeepsRow(w, step, row);
      }
    }
  }

  /** Releases of one tracker leave the rows of another as they are, unless pruning takes them. */
  lemma OtherRows(buffer: map<RB.RowKey, RB.Row>, found: seq<RB.Release>, at: int, t: Tracker, key: RB.RowKey)
    requires key.0 != t && forall r | r in found :: r.tracker == t
    ensures RB.Get(RB.Buffered(buffer, found, at), key) == RB.Get(buffer, key)
  {
    RB.BufferedRow(buffer, found, at, key);
  }

  lemma PollKeepsView(w: World, step: Step, t: Tracker)
    requires ViewInv(w, t) && Enabled(w, step) && (step.Ingested? || step.CaughtUp?)
    ensures ViewInv(After(w, step), t)
  {
    var w' := After(w, step);
    if step.tracker != t && t in w.views {
      forall id: ExternalId | (t, id) in w'.buffer ensures id in w'.views[t] && w'.views[t][id] == w'.buffer[(t, id)] {
        OtherRows(w.buffer, step.found, step.at, step.tracker, (t, id));
      }
    }
  }

  lemma PollKeepsInv(w: World, step: Step)
    requires Inv(w) && Enabled(w, step) && (step.Ingested? || step.CaughtUp?)
    ensures Inv(After(w, step))
  {
    var w' := After(w, step);
    DbKept(w, w');
    forall t ensures PassInv(w', t) && ViewInv(w', t) && LaneInv(w', t) {
      assert PassInv(w, t) && ViewInv(w, t) && LaneInv(w, t);
      PollKeepsView(w, step, t);
      LaneKept(w, w', t);
    }
  }

  lemma LaneStartKeepsInv(w: World, t: Tracker, rows: set<Row>)
    requires Inv(w) && Enabled(w, LaneStarted(t, rows))
    ensures Inv(After(w, LaneStarted(t, rows)))
  {
    var w' := After(w, LaneStarted(t, rows));
    DbKept(w, w');
    ViewsKept(w, w');
    forall other ensures PassInv(w', other) && LaneInv(w', other) {
      assert PassInv(w, other) && LaneInv(w, other);
      if other != t {
        LaneKept(w, w', other);
      } else {
        assert forall row | row in rows :: IsSelected(w, row);
      }
    }
  }

  lemma PassStartKeepsInv(w: World, row: Row, releases: seq<Release>)
    requires Inv(w) && Enabled(w, PassStarted(row, releases))
    ensures Inv(After(w, PassStarted(row, releases)))
  {
    var w' := After(w, PassStarted(row, releases));
    DbKept(w, w');
    ViewsKept(w, w');
    forall t ensures PassInv(w', t) && LaneInv(w', t) {
      assert PassInv(w, t) && LaneInv(w, t);
      if t != row.tracker {
        LaneKept(w, w', t);
      } else {
        forall other | other in w.lanes[t] ensures RowInv(w', other) {
          RowKept(w, w', other);
        }
      }
    }
  }

  lemma PassEndKeepsRow(w: World, t: Tracker, row: Row)
    requires RowInv(w, row) && Enabled(w, PassEnded(t))
    requires w.passes[t].row.rule in w.db.rules && !(row.tracker == t && row.rule == w.passes[t].row.rule)
    ensures RowInv(After(w, PassEnded(t)), row)
  {
    RowKept(w, After(w, PassEnded(t)), row);
  }

  lemma PassEndKeepsLane(w: World, t: Tracker, other: Tracker)
    requires LaneInv(w, other) && LaneInv(w, t) && Enabled(w, PassEnded(t)) && w.passes[t].row.rule in w.db.rules
    ensures LaneInv(After(w, PassEnded(t)), other)
  {
    var w' := After(w, PassEnded(t));
    if other in w'.passes {
      PassEndKeepsRow(w, t, w.passes[other].row);
    }
    if other in w.lanes {
      forall row | row in w.lanes[other] ensures RowInv(w', row) {
        PassEndKeepsRow(w, t, row);
      }
    }
  }

  lemma PassEndKeepsInv(w: World, t: Tracker)
    requires Inv(w) && Enabled(w, PassEnded(t))
    ensures Inv(After(w, PassEnded(t)))
  {
    if w.passes[t].row.rule !in w.db.rules {
      LaneEndKeepsInv(w, t);
    } else {
      var w' := After(w, PassEnded(t));
      DbKept(w, w');
      ViewsKept(w, w');
      assert PassInv(w, t) && LaneInv(w, t);
      forall other ensures PassInv(w', other) && LaneInv(w', other) {
        assert PassInv(w, other) && LaneInv(w, other);
        MoreRecordsKeepPass(w, w', other);
        PassEndKeepsLane(w, t, other);
      }
    }
  }

  lemma ToggleKeepsPass(w: World, rule: RuleId, active: bool, t: Tracker)
    requires PassInv(w, t)
    ensures PassInv(After(w, Toggled(rule, active)), t)
  {
    if t in w.passes {
      var p, db' := w.passes[t], w.db.(rules := SetActive(w.db.rules, rule, active));
      assert p.row.rule != rule ==> PassedOver(db', w.matcher, p);
      assert PassedOver(db', w.matcher, p.(undisturbed := false));
    }
  }

  lemma ToggleKeepsLane(w: World, rule: RuleId, active: bool, t: Tracker)
    requires LaneInv(w, t)
    ensures LaneInv(After(w, Toggled(rule, active)), t)
  {
    LaneKept(w, After(w, Toggled(rule, active)), t);
  }

  lemma ToggleKeepsRecords(w: World, rule: RuleId, active: bool)
    requires Inv(w)
    ensures RecordsInv(After(w, Toggled(rule, active)))
  {
    DbKept(w, After(w, Toggled(rule, active)));
  }

  lemma ToggleKeepsInv(w: World, rule: RuleId, active: bool)
    requires Inv(w)
    ensures Inv(After(w, Toggled(rule, active)))
  {
    var w' := After(w, Toggled(rule, active));
    ToggleKeepsRecords(w, rule, active);
    ViewsKept(w, w');
    forall t ensures PassInv(w', t) && LaneInv(w', t) {
      assert PassInv(w, t) && LaneInv(w, t);
      ToggleKeepsPass(w, rule, active, t);
      ToggleKeepsLane(w, rule, active, t);
    }
  }

  lemma LaneEndKeepsInv(w: World, t: Tracker)
    requires Inv(w)
    ensures Inv(WithoutLane(w, t))
  {
    var w' := WithoutLane(w, t);
    DbKept(w, w');
    ViewsKept(w, w');
    forall other ensures PassInv(w', other) && LaneInv(w', other) {
      assert PassInv(w, other) && LaneInv(w, other);
      MoreRecordsKeepPass(w, w', other);
      LaneKept(w, w', other);
    }
  }

  lemma PassFailKeepsInv(w: World, t: Tracker)
    requires Inv(w) && t in w.passes
    ensures Inv(After(w, PassFailed(t)))
  {
    var w' := After(w, PassFailed(t));
    DbKept(w, w');
    ViewsKept(w, w');
    forall other ensures PassInv(w', other) && LaneInv(w', other) {
      assert PassInv(w, other) && LaneInv(w, other);
      MoreRecordsKeepPass(w, w', other);
      LaneKept(w, w', other);
    }
  }

  lemma StopKeepsInv(w: World, revisions: map<Tracker, nat>)
    requires Inv(w)
    ensures Inv(After(w, Stopped(revisions)))
  {
    var w' := After(w, Stopped(revisions));
    DbKept(w, w');
    ViewsKept(w, w');
  }

  lemma StepKeepsInv(w: World, step: Step)
    requires Inv(w) && Enabled(w, step)
    ensures Inv(After(w, step))
  {
    match step
    case Reset(_, _, _) => ResetKeepsInv(w, step);
    case Deleted(_) => ResetKeepsInv(w, step);
    case Ingested(_, _, _) => PollKeepsInv(w, step);
    case CaughtUp(_, _, _) => PollKeepsInv(w, step);
    case LaneStarted(t, rows) => LaneStartKeepsInv(w, t, rows);
    case PassStarted(row, releases) => PassStartKeepsInv(w, row, releases);
    case Advanced(t, id) => AdvanceKeepsInv(w, t, id);
    case PassEnded(t) => PassEndKeepsInv(w, t);
    case Toggled(rule, active) => ToggleKeepsInv(w, rule, active);
    case PassFailed(t) => PassFailKeepsInv(w, t);
    case LaneEnded(t) => LaneEndKeepsInv(w, t);
    case Stopped(revisions) => StopKeepsInv(w, revisions);
  }

  lemma {:induction false} RunKeepsInv(w: World, steps: seq<Step>)
    requires Inv(w) && Admissible(w, steps)
    ensures Inv(Run(w, steps))
    decreases |steps|
  {
    if steps != [] {
      StepKeepsInv(w, steps[0]);
      RunKeepsInv(After(w, steps[0]), steps[1..]);
    }
  }

  // ----- Main results

  /**
   * A pass that ends, with no edit of its rule since it began, leaves every release recorded that it was given
   * and that matches; on a feed tracker every matching one in its poll's view, and so every one that is now
   * buffered of the tracker, from its feed or from a catch-up search.
   */
  lemma EndedPassIsComplete(start: World, steps: seq<Step>, t: Tracker)
    requires Start(start) && Admissible(start, steps)
    requires var w := Run(start, steps); Enabled(w, PassEnded(t)) && w.passes[t].undisturbed
    ensures var w := Run(start, steps);
            var p := w.passes[t];
            && (forall k | 0 <= k < |p.releases| && w.matcher(p.row.terms, p.releases[k].title) ::
                  MatchKey(p.row.rule, t, p.releases[k].id) in w.db.matches)
            && (t in w.feeds ==>
                  && t in w.views
                  && (forall id | id in w.views[t] && w.matcher(p.row.terms, w.views[t][id].title) ::
                        MatchKey(p.row.rule, t, id) in w.db.matches)
                  && (forall id | (t, id) in w.buffer && w.matcher(p.row.terms, w.buffer[(t, id)].title) ::
                        MatchKey(p.row.rule, t, id) in w.db.matches))
  {
    RunKeepsInv(start, steps);
    var w := Run(start, steps);
    EndingPass(w, t);
  }

  lemma EndingPass(w: World, t: Tracker)
    requires Inv(w) && Enabled(w, PassEnded(t)) && w.passes[t].undisturbed
    ensures var p := w.passes[t];
            && (forall k | 0 <= k < |p.releases| && w.matcher(p.row.terms, p.releases[k].title) ::
                  MatchKey(p.row.rule, t, p.releases[k].id) in w.db.matches)
            && (t in w.feeds ==>
                  && t in w.views
                  && (forall id | id in w.views[t] && w.matcher(p.row.terms, w.views[t][id].title) ::
                        MatchKey(p.row.rule, t, id) in w.db.matches)
                  && (forall id | (t, id) in w.buffer && w.matcher(p.row.terms, w.buffer[(t, id)].title) ::
                        MatchKey(p.row.rule, t, id) in w.db.matches))
  {
    assert PassInv(w, t) && ViewInv(w, t);
    var p := w.passes[t];
    assert PassedOver(w.db, w.matcher, p);
    forall k | 0 <= k < |p.releases| && w.matcher(p.row.terms, p.releases[k].title)
      ensures MatchKey(p.row.rule, t, p.releases[k].id) in w.db.matches
    {
      assert KeyOf(p.row, p.releases[k]) in w.db.matches;
    }
    if t in w.feeds {
      forall id | id in w.views[t] && w.matcher(p.row.terms, w.views[t][id].title) ensures MatchKey(p.row.rule, t, id) in w.db.matches {
        var k :| 0 <= k < |p.releases| && p.releases[k].id == id;
      }
    }
  }

  /** Between resets a match has at most one event and one notification, and none if it was recorded silently. */
  lemma NotifiesAtMostOnce(start: World, steps: seq<Step>)
    requires Start(start) && Admissible(start, steps)
    ensures var w := Run(start, steps);
            && |w.db.enqueued| == |w.db.events|
            && (forall i | 0 <= i < |w.db.events| :: w.db.enqueued[i] == w.db.events[i].match')
            && (forall i, j | 0 <= i < j < |w.db.enqueued| :: w.db.enqueued[i] != w.db.enqueued[j])
            && (forall i, j | 0 <= i < j < |w.db.events| && w.db.events[i].key == w.db.events[j].key ::
                  w.db.events[i].epoch != w.db.events[j].epoch)
            && (forall i | 0 <= i < |w.db.events| :: (w.db.events[i].key, w.db.events[i].epoch) !in w.silent)
  {
    RunKeepsInv(start, steps);
    var w := Run(start, steps);
    forall i | 0 <= i < |w.db.events| ensures (w.db.events[i].key, w.db.events[i].epoch) !in w.silent {
      assert EventInv(w, w.db.events[i]);
    }
  }

  /** Every recorded match is accounted for: recorded silently, or behind exactly one event of its rule's present epoch. */
  lemma MatchIsSilentOrNotified(start: World, steps: seq<Step>, key: MatchKey)
    requires Start(start) && Admissible(start, steps) && key in Run(start, steps).db.matches
    ensures var w := Run(start, steps);
            var epoch := w.Epoch(key.rule);
            && ((key, epoch) in w.silent <==> !HasEvent(w, key, epoch))
            && (forall i | 0 <= i < |w.db.events| && w.db.events[i].key == key && w.db.events[i].epoch == epoch ::
                  i < |w.db.enqueued| && w.db.events[i].match' == w.db.matches[key] && w.db.enqueued[i] == w.db.matches[key])
  {
    RunKeepsInv(start, steps);
    var w := Run(start, steps);
    forall i | 0 <= i < |w.db.events| ensures EventInv(w, w.db.events[i]) {
    }
  }

  // ----- What is recorded matches

  /** The rule is there, enabled, watches the tracker and still has those terms. */
  predicate HasTerms(w: World, rule: RuleId, t: Tracker, terms: Terms) {
    && rule in w.db.rules && w.db.rules[rule].active
    && t in w.db.rules[rule].trackers && w.db.rules[rule].terms == terms
  }

  /**
   * The step comes to a release whose title the matcher accepts under the terms of the row, which are those of the
   * rule, and which the pass has not recorded; off the silent baseline its page was asked for before.
   */
  predicate Accepts(w: World, step: Step)
    requires Enabled(w, step)
  {
    step.Advanced? &&
    var p := w.passes[step.tracker];
    var release := p.releases[p.next];
    && w.matcher(p.row.terms, release.title) && HasTerms(w, p.row.rule, p.row.tracker, p.row.terms)
    && release.id !in p.recorded && (p.row.baseline || p.enriching)
  }

  function KeyAt(w: World, step: Step): MatchKey
    requires Enabled(w, step) && step.Advanced?
  {
    var p := w.passes[step.tracker];
    MatchKey(p.row.rule, p.row.tracker, p.releases[p.next].id)
  }

  /** The step records the key, under its own id. */
  predicate Records(w: World, step: Step, key: MatchKey)
    requires Enabled(w, step)
  {
    Accepts(w, step) && key == KeyAt(w, step) && key !in w.db.matches
  }

  lemma AdvanceAddsExactly(w: World, t: Tracker, id: MatchId, key: MatchKey)
    requires Enabled(w, Advanced(t, id))
    ensures var w', step := After(w, Advanced(t, id)), Advanced(t, id);
            && (key in w'.db.matches <==> key in w.db.matches || Records(w, step, key))
            && (key in w'.db.matches ==> w'.db.matches[key] == if key in w.db.matches then w.db.matches[key] else id)
            && (w'.db.events == w.db.events +
                  if Records(w, step, KeyAt(w, step)) && !w.passes[t].row.baseline
                  then [Event(id, KeyAt(w, step), w.Epoch(w.passes[t].row.rule))] else [])
            && (w'.db.enqueued == w.db.enqueued +
                  if Records(w, step, KeyAt(w, step)) && !w.passes[t].row.baseline then [id] else [])
  {
  }

  /**
   * Exactly what is recorded. In any run a step adds a match if and only if it comes to a release, not recorded
   * before, whose title the matcher accepts under the terms of its rule, which is there, enabled, watches the tracker
   * and still has those terms; it adds it for this rule, tracker and release, under its own id. It adds an event and
   * a notification with it if and only if the rule was not selected on its baseline, and no other step adds any.
   */
  lemma RecordsExactlyTheMatching(start: World, steps: seq<Step>, step: Step, key: MatchKey)
    requires Start(start) && Admissible(start, steps) && Enabled(Run(start, steps), step)
    ensures var w, w' := Run(start, steps), After(Run(start, steps), step);
            && (key !in w.db.matches ==> (key in w'.db.matches <==> Records(w, step, key)))
            && (Records(w, step, key) ==> w'.db.matches[key] == step.id)
            && (if step.Advanced? && Records(w, step, KeyAt(w, step)) && !w.passes[step.tracker].row.baseline
                then
                  && w'.db.events == w.db.events + [Event(step.id, KeyAt(w, step), w.Epoch(KeyAt(w, step).rule))]
                  && w'.db.enqueued == w.db.enqueued + [step.id]
                else w'.db.events == w.db.events && w'.db.enqueued == w.db.enqueued)
  {
    RecordsExactly(Run(start, steps), step, key);
  }

  lemma RecordsExactly(w: World, step: Step, key: MatchKey)
    requires Enabled(w, step)
    ensures var w' := After(w, step);
            && (key !in w.db.matches ==> (key in w'.db.matches <==> Records(w, step, key)))
            && (Records(w, step, key) ==> w'.db.matches[key] == step.id)
            && (if step.Advanced? && Records(w, step, KeyAt(w, step)) && !w.passes[step.tracker].row.baseline
                then
                  && w'.db.events == w.db.events + [Event(step.id, KeyAt(w, step), w.Epoch(KeyAt(w, step).rule))]
                  && w'.db.enqueued == w.db.enqueued + [step.id]
                else w'.db.events == w.db.events && w'.db.enqueued == w.db.enqueued)
  {
    if step.Advanced? {
      AdvanceAddsExactly(w, step.tracker, step.id, key);
      assert w.db.events + [] == w.db.events && w.db.enqueued + [] == w.db.enqueued;
    }
  }

  /** Some step of the run records the key, in that epoch of its rule. */
  predicate RecordedIn(w: World, steps: seq<Step>, key: MatchKey, epoch: nat)
    requires Admissible(w, steps)
    decreases |steps|
  {
    steps != [] &&
    (|| (Records(w, steps[0], key) && w.Epoch(key.rule) == epoch)
     || RecordedIn(After(w, steps[0]), steps[1..], key, epoch))
  }

  lemma MatchesStay(w: World, step: Step, key: MatchKey)
    requires Enabled(w, step) && key in After(w, step).db.matches
    ensures w.Epoch(key.rule) <= After(w, step).Epoch(key.rule)
    ensures key in w.db.matches || Records(w, step, key)
    ensures key in After(w, step).db.matches ==> After(w, step).Epoch(key.rule) == w.Epoch(key.rule)
  {
    RecordsExactly(w, step, key);
  }

  lemma {:induction false} RecordedSomewhere(w: World, steps: seq<Step>, key: MatchKey)
    requires Admissible(w, steps) && key in Run(w, steps).db.matches
    ensures var epoch := Run(w, steps).Epoch(key.rule);
            (key in w.db.matches && w.Epoch(key.rule) == epoch) || RecordedIn(w, steps, key, epoch)
    decreases |steps|
  {
    if steps != [] {
      RecordedSomewhere(After(w, steps[0]), steps[1..], key);
      if key in After(w, steps[0]).db.matches {
        MatchesStay(w, steps[0], key);
      }
    }
  }

  /**
   * And every match of the rule's present epoch was there at the start, or recorded by a step of the run that came to
   * a release whose title matched the terms that the rule has had since.
   */
  lemma MatchesMatch(start: World, steps: seq<Step>, key: MatchKey)
    requires Start(start) && Admissible(start, steps) && key in Run(start, steps).db.matches
    ensures var epoch := Run(start, steps).Epoch(key.rule);
            (key in start.db.matches && start.Epoch(key.rule) == epoch) || RecordedIn(start, steps, key, epoch)
  {
    RecordedSomewhere(start, steps, key);
  }

  /** The release the pass has come to is a new match whose page is asked for before it is recorded. */
  predicate NeedsPage(w: World, p: Pass) {
    && p.next < |p.releases| && w.matcher(p.row.terms, p.releases[p.next].title)
    && p.releases[p.next].id !in p.recorded && !p.row.baseline
  }

  predicate Asking(w: World, t: Tracker) {
    t in w.passes && w.passes[t].enriching ==> NeedsPage(w, w.passes[t])
  }

  lemma {:induction false} RunKeepsAsking(w: World, steps: seq<Step>, t: Tracker)
    requires Admissible(w, steps) && Asking(w, t)
    ensures Asking(Run(w, steps), t)
    decreases |steps|
  {
    if steps != [] {
      StepKeepsAsking(w, steps[0], t);
      RunKeepsAsking(After(w, steps[0]), steps[1..], t);
    }
  }

  lemma StepKeepsAsking(w: World, step: Step, t: Tracker)
    requires Enabled(w, step) && Asking(w, t)
    ensures Asking(After(w, step), t)
  {
    if step.Advanced? {
      AdvanceKeepsAsking(w, step.tracker, step.id, t);
    } else {
      AskingStays(w, step, t);
    }
  }

  lemma AdvanceKeepsAsking(w: World, advanced: Tracker, id: MatchId, t: Tracker)
    requires Enabled(w, Advanced(advanced, id)) && Asking(w, t)
    ensures Asking(Advance(w, advanced, id), t)
  {
  }

  /** Only its own steps move a pass on. */
  lemma AskingStays(w: World, step: Step, t: Tracker)
    requires Enabled(w, step) && !step.Advanced?
    ensures var w' := After(w, step);
            w'.matcher == w.matcher
            && (t in w'.passes && w'.passes[t].enriching ==>
                  t in w.passes && w'.passes[t] == w.passes[t].(undisturbed := w'.passes[t].undisturbed))
  {
  }

  /**
   * How a pass gets on. In any run each of its steps either asks for the page of a new match off the silent baseline,
   * once, or goes on to the next release; so a pass over n releases takes at most 2n steps and never waits for anything else.
   * It leaves out later what it records now.
   */
  lemma PassGetsOn(start: World, steps: seq<Step>, t: Tracker, id: MatchId)
    requires Start(start) && Admissible(start, steps) && Enabled(Run(start, steps), Advanced(t, id))
    ensures var w, w' := Run(start, steps), After(Run(start, steps), Advanced(t, id));
            var p := w.passes[t];
            && t in w'.passes
            && (p.enriching ==> NeedsPage(w, p))
            && (if NeedsPage(w, p) && !p.enriching then w'.passes[t] == p.(enriching := true) && w'.db == w.db
                else w'.passes[t] == p.(next := p.next + 1, enriching := false, recorded :=
                       p.recorded + if Accepts(w, Advanced(t, id)) then {p.releases[p.next].id} else {}))
  {
    RunKeepsAsking(start, steps, t);
  }

  // ----- When a first pass is silent

  /**
   * A new match is recorded silently exactly if its rule was selected on its baseline. If the rule was not
   * reset since, that is exactly if it is on its baseline now.
   */
  lemma SilentExactly(start: World, steps: seq<Step>, t: Tracker, id: MatchId)
    requires Start(start) && Admissible(start, steps) && Enabled(Run(start, steps), Advanced(t, id))
    ensures var w, w' := Run(start, steps), After(Run(start, steps), Advanced(t, id));
            var row := w.passes[t].row;
            var key := KeyOf(row, w.passes[t].releases[w.passes[t].next]);
            && (key !in w.db.matches && key in w'.db.matches ==>
                  ((key, w.Epoch(row.rule)) in w'.silent <==> row.baseline))
            && (row.epoch == w.Epoch(row.rule) ==> (row.baseline <==> OnBaseline(w, row.rule, t)))
  {
    RunKeepsInv(start, steps);
    var w := Run(start, steps);
    assert PassInv(w, t) && LaneInv(w, t);
    var row := w.passes[t].row;
    var key := KeyOf(row, w.passes[t].releases[w.passes[t].next]);
    if (key, w.Epoch(row.rule)) in w.silent {
      assert SilentInv(w, key, w.Epoch(row.rule));
    }
  }

  /** A pass over the rule on the tracker has ended during the steps. */
  predicate PassEndedIn(w: World, steps: seq<Step>, rule: RuleId, t: Tracker)
    requires Admissible(w, steps)
    decreases |steps|
  {
    steps != [] &&
    (|| (steps[0] == PassEnded(t) && w.passes[t].row.rule == rule)
     || PassEndedIn(After(w, steps[0]), steps[1..], rule, t))
  }

  /** The rule is neither reset nor deleted. The service may restart, with whatever revisions. */
  predicate Untouched(steps: seq<Step>, rule: RuleId) {
    forall i | 0 <= i < |steps| :: !(steps[i].Reset? && steps[i].rule == rule) && !(steps[i].Deleted? && steps[i].rule == rule)
  }

  /** The discovery revision under which the rule's last pass on the tracker ended; with none, what it was before. */
  function RevisionTaken(w: World, steps: seq<Step>, rule: RuleId, t: Tracker, revision: Option<nat>): Option<nat>
    requires Admissible(w, steps)
    decreases |steps|
  {
    if steps == [] then revision
    else
      var ended := steps[0] == PassEnded(t) && w.passes[t].row.rule == rule;
      RevisionTaken(After(w, steps[0]), steps[1..], rule, t, if ended then w.Revision(t).Or(revision) else revision)
  }

  function RevisionIn(revisions: map<Tracker, nat>, t: Tracker): Option<nat> {
    if t in revisions then Some(revisions[t]) else None
  }

  /** No restart brings another revision of the tracker. */
  predicate KeepsRevision(steps: seq<Step>, t: Tracker, revision: Option<nat>) {
    forall i | 0 <= i < |steps| :: steps[i].Stopped? ==> RevisionIn(steps[i].revisions, t) == revision
  }

  lemma BaselineAfterReset(w: World, step: Step, rule: RuleId, t: Tracker)
    requires Enabled(w, step) && (step.Reset? || step.Deleted?)
    ensures OnBaseline(After(w, step), rule, t) <==>
            if step.rule != rule then OnBaseline(w, rule, t) else step.Reset? && (step.withTrackers || OnBaseline(w, rule, t))
  {
  }

  lemma StateOfUpdated(states: map<StateKey, State>, key: StateKey, state: State, rule: RuleId, t: Tracker)
    ensures StateOf(states[key := state], rule, t) == if key == StateKey(rule, t) then state else StateOf(states, rule, t)
  {
  }

  lemma BaselineAfterPass(w: World, ended: Tracker, rule: RuleId, t: Tracker)
    requires Enabled(w, PassEnded(ended))
    ensures OnBaseline(After(w, PassEnded(ended)), rule, t) <==>
            OnBaseline(w, rule, t) && !(ended == t && w.passes[t].row.rule == rule)
  {
    var passed := w.passes[ended].row.rule;
    if passed in w.db.rules {
      var state := State(true, w.Revision(ended).Or(StateOf(w.states, passed, ended).revision));
      StateOfUpdated(w.states, StateKey(passed, ended), state, rule, t);
    }
  }

  lemma StatesKept(w: World, step: Step)
    requires Enabled(w, step) && !step.Reset? && !step.Deleted? && !step.PassEnded?
    ensures After(w, step).states == w.states && After(w, step).db.rules.Keys == w.db.rules.Keys
  {
  }

  lemma StateAfterPass(w: World, ended: Tracker, rule: RuleId, t: Tracker)
    requires Enabled(w, PassEnded(ended)) && rule in w.db.rules
    ensures After(w, PassEnded(ended)).db == w.db
    ensures StateOf(After(w, PassEnded(ended)).states, rule, t) ==
            if ended == t && w.passes[t].row.rule == rule then State(true, w.Revision(t).Or(StateOf(w.states, rule, t).revision))
            else StateOf(w.states, rule, t)
  {
    var passed := w.passes[ended].row.rule;
    if passed in w.db.rules {
      var state := State(true, w.Revision(ended).Or(StateOf(w.states, passed, ended).revision));
      StateOfUpdated(w.states, StateKey(passed, ended), state, rule, t);
    }
  }

  lemma StateAfterOtherReset(w: World, step: Step, rule: RuleId, t: Tracker)
    requires Enabled(w, step) && (step.Reset? || step.Deleted?) && step.rule != rule && rule in w.db.rules
    ensures rule in After(w, step).db.rules && StateOf(After(w, step).states, rule, t) == StateOf(w.states, rule, t)
  {
  }

  lemma StateAfter(w: World, step: Step, rule: RuleId, t: Tracker)
    requires Enabled(w, step) && Untouched([step], rule) && rule in w.db.rules
    ensures rule in After(w, step).db.rules
    ensures StateOf(After(w, step).states, rule, t) ==
            if step == PassEnded(t) && w.passes[t].row.rule == rule
            then State(true, w.Revision(t).Or(StateOf(w.states, rule, t).revision)) else StateOf(w.states, rule, t)
  {
    assert [step][0] == step;
    if step.Reset? || step.Deleted? {
      StateAfterOtherReset(w, step, rule, t);
    } else if step.PassEnded? {
      StateAfterPass(w, step.tracker, rule, t);
    } else {
      StatesKept(w, step);
    }
  }

  lemma {:induction false} StateLasts(w: World, steps: seq<Step>, rule: RuleId, t: Tracker)
    requires Admissible(w, steps) && Untouched(steps, rule) && rule in w.db.rules
    ensures StateOf(Run(w, steps).states, rule, t) ==
            State(StateOf(w.states, rule, t).initialized || PassEndedIn(w, steps, rule, t),
                  RevisionTaken(w, steps, rule, t, StateOf(w.states, rule, t).revision))
    decreases |steps|
  {
    if steps != [] {
      StateAfter(w, steps[0], rule, t);
      StateLasts(After(w, steps[0]), steps[1..], rule, t);
    }
  }

  lemma RevisionAfter(w: World, step: Step, t: Tracker)
    requires Enabled(w, step)
    ensures After(w, step).Revision(t) == if step.Stopped? then RevisionIn(step.revisions, t) else w.Revision(t)
  {
  }

  lemma {:induction false} TheSameRevision(w: World, steps: seq<Step>, rule: RuleId, t: Tracker, revision: Option<nat>)
    requires Admissible(w, steps) && KeepsRevision(steps, t, w.Revision(t))
    ensures Run(w, steps).Revision(t) == w.Revision(t)
    ensures RevisionTaken(w, steps, rule, t, revision) ==
            if PassEndedIn(w, steps, rule, t) then w.Revision(t).Or(revision) else revision
    decreases |steps|
  {
    if steps != [] {
      var ended := steps[0] == PassEnded(t) && w.passes[t].row.rule == rule;
      RevisionAfter(w, steps[0], t);
      TheSameRevision(After(w, steps[0]), steps[1..], rule, t, if ended then w.Revision(t).Or(revision) else revision);
    }
  }

  /** What an edit leaves of the rule's state on a tracker. */
  function StateKept(w: World, rule: RuleId, t: Tracker, withTrackers: bool): State {
    if withTrackers then State(false, None) else StateOf(w.states, rule, t)
  }

  lemma EditedState(w: World, rule: RuleId, sub: RuleSub, withTrackers: bool, t: Tracker)
    requires Enabled(w, Reset(rule, sub, withTrackers))
    ensures var w' := After(w, Reset(rule, sub, withTrackers));
            && rule in w'.db.rules && w'.Revision(t) == w.Revision(t)
            && StateOf(w'.states, rule, t) == StateKept(w, rule, t, withTrackers)
  {
  }

  /**
   * Exactly when the passes after an edit are silent, over restarts and upgrades, until the rule is reset again. A
   * selection takes the rule for silent if and only if the edit named the trackers, or met it without a baseline
   * taken, and no pass over it has ended on the tracker since, neither one over its new terms nor one that was under
   * way with the old ones; or if the tracker's discovery revision is another one than when its last pass ended.
   */
  lemma FirstPassIsSilentExactly(
    start: World, before: seq<Step>, rule: RuleId, sub: RuleSub, withTrackers: bool, after: seq<Step>, row: Row)
    requires Start(start) && Admissible(start, before) && Enabled(Run(start, before), Reset(rule, sub, withTrackers))
    requires var w := After(Run(start, before), Reset(rule, sub, withTrackers)); Admissible(w, after) && Untouched(after, rule)
    requires var w := After(Run(start, before), Reset(rule, sub, withTrackers)); row.rule == rule && IsSelected(Run(w, after), row)
    ensures var w, t := Run(start, before), row.tracker;
            var edited, kept := After(w, Reset(rule, sub, withTrackers)), StateKept(w, rule, t, withTrackers);
            var revision := Run(edited, after).Revision(t);
            && (row.baseline <==>
                  || (!kept.initialized && !PassEndedIn(edited, after, rule, t))
                  || (revision.Some? && RevisionTaken(edited, after, rule, t, kept.revision) != revision))
            && (KeepsRevision(after, t, w.Revision(t)) ==>
                  (row.baseline <==> (withTrackers || OnBaseline(w, rule, t)) && !PassEndedIn(edited, after, rule, t)))
  {
    SilentFrom(Run(start, before), rule, sub, withTrackers, after, row);
  }

  lemma SilentFrom(w: World, rule: RuleId, sub: RuleSub, withTrackers: bool, after: seq<Step>, row: Row)
    requires Enabled(w, Reset(rule, sub, withTrackers))
    requires var edited := After(w, Reset(rule, sub, withTrackers));
             Admissible(edited, after) && Untouched(after, rule) && row.rule == rule && IsSelected(Run(edited, after), row)
    ensures var t := row.tracker;
            var edited, kept := After(w, Reset(rule, sub, withTrackers)), StateKept(w, rule, t, withTrackers);
            var revision := Run(edited, after).Revision(t);
            && (row.baseline <==>
                  || (!kept.initialized && !PassEndedIn(edited, after, rule, t))
                  || (revision.Some? && RevisionTaken(edited, after, rule, t, kept.revision) != revision))
            && (KeepsRevision(after, t, w.Revision(t)) ==>
                  (row.baseline <==> (withTrackers || OnBaseline(w, rule, t)) && !PassEndedIn(edited, after, rule, t)))
  {
    var t, edited := row.tracker, After(w, Reset(rule, sub, withTrackers));
    EditedState(w, rule, sub, withTrackers, t);
    StateLasts(edited, after, rule, t);
    if KeepsRevision(after, t, w.Revision(t)) {
      TheSameRevision(edited, after, rule, t, StateKept(w, rule, t, withTrackers).revision);
    }
  }

  /**
   * So an edit is not silent if it comes while a pass over the rule is under way, though it names the trackers:
   * the pass records nothing of the new terms, and takes the baseline they should have had.
   */
  lemma StalePassTakesTheBaseline(start: World, steps: seq<Step>, t: Tracker, sub: RuleSub)
    requires Start(start) && Admissible(start, steps)
    requires var w := Run(start, steps); Enabled(w, PassEnded(t)) && w.passes[t].row.rule in w.db.rules
    ensures var w := Run(start, steps);
            var rule := w.passes[t].row.rule;
            var edited := After(w, Reset(rule, sub, true));
            && OnBaseline(edited, rule, t) && Enabled(edited, PassEnded(t))
            && !OnBaseline(After(edited, PassEnded(t)), rule, t)
            && forall key | key in After(edited, PassEnded(t)).db.matches :: key.rule != rule
  {
    RunKeepsInv(start, steps);
    StaleBaseline(Run(start, steps), t, sub);
  }

  lemma StaleBaseline(w: World, t: Tracker, sub: RuleSub)
    requires PassInv(w, t) && Enabled(w, PassEnded(t)) && w.passes[t].row.rule in w.db.rules
    ensures var rule := w.passes[t].row.rule;
            var edited := After(w, Reset(rule, sub, true));
            && OnBaseline(edited, rule, t) && Enabled(edited, PassEnded(t))
            && !OnBaseline(After(edited, PassEnded(t)), rule, t)
            && forall key | key in After(edited, PassEnded(t)).db.matches :: key.rule != rule
  {
    var rule := w.passes[t].row.rule;
    BaselineAfterReset(w, Reset(rule, sub, true), rule, t);
    BaselineAfterPass(After(w, Reset(rule, sub, true)), t, rule, t);
  }
}

/**
 * The lane of one feed tracker as one machine (server/scheduler.ts, pollTrackerLane): following the feed, making
 * up its gaps and matching the rules, with users, the tracker and the other lanes in between. Each step of it is
 * at most one step of each of the three machines FeedFollowing, GapRecovery and RuleMatching, which share the
 * clock, the feed state, the buffer and the rules.
 */
module Engine {
  import opened Wrappers
  import MTF = MoveToFront
  import RB = ReleaseBuffer
  import FF = FeedFollowing
  import SR = SearchRecovery
  import GR = GapRecovery
  import RM = RuleMatching
  import C = Completeness

  /** The tracker of the lane, the required terms among those of a rule, and the topics that a search for them finds. */
  datatype Setting = Setting(tracker: RB.TrackerKey, required: RM.Terms -> GR.Terms, finds: GR.Terms -> (RB.TopicId -> bool))

  datatype World = World(feed: FF.World, gap: GR.World, matching: RM.World)

  /** What a catch-up search found: the tracker's results, which updates they reflect, and what was buffered of them. */
  datatype Found = Found(site: SR.Site, seen: nat, recovery: SR.Recovery, releases: seq<RB.Release>)

  datatype Step =
    | Wait(ms: nat)
    | Elsewhere(feedStep: FF.Step)
    | OtherLane(laneStep: RM.Step)
    | OtherIngested(tracker: RB.TrackerKey, batch: RB.Batch)
    | OtherCaughtUp(tracker: RB.TrackerKey, releases: seq<RB.Release>)
    | RuleReset(rule: RM.RuleId, sub: RM.RuleSub, withTrackers: bool)
    | RuleToggled(rule: RM.RuleId, active: bool)
    | RuleDeleted(rule: RM.RuleId)
    | RowsSelected(full: bool, groups: seq<seq<GR.Row>>, rows: set<RM.Row>)
    | FeedIngested(batch: RB.Batch)
    | FeedFailed
    | GroupStarted
    | GroupSearched(search: GR.Search, found: Option<Found>)
    | PassStarted(row: RM.Row, matched: seq<RM.Release>)
    | Advanced(id: RM.MatchId)
    | PassEnded
    | GroupEnded(failed: bool)
    | PollFinished
    | LaneEnded
    | Restarted(revisions: map<RM.Tracker, nat>)

  // ----- The three machines' parts of a step

  function FeedStep(s: Setting, w: World, step: Step): Option<FF.Step> {
    match step
    case Wait(ms) => Some(FF.Wait(ms))
    case Elsewhere(feedStep) => Some(feedStep)
    case OtherIngested(t, batch) => Some(FF.Polled(t, batch))
    case OtherCaughtUp(t, releases) => Some(FF.CaughtUp(t, releases))
    case FeedIngested(batch) => Some(FF.Polled(s.tracker, batch))
    // The view is read again only if the search brought something back.
    case GroupSearched(_, found) =>
      if found.Some? && found.value.releases != [] then Some(FF.CaughtUp(s.tracker, found.value.releases)) else None
    case PollFinished =>
      if w.gap.poll.None? || w.gap.gap.unresolvedSince.None? then None
      else if w.gap.poll.value.full && w.gap.poll.value.retries == 0 then Some(FF.GapMarked(s.tracker, true))
      else if w.gap.poll.value.attempts > 0 then Some(FF.GapMarked(s.tracker, false))
      else None
    case Restarted(_) => Some(FF.Restarted)
    case _ => None
  }

  function IsActive(s: Setting, sub: RM.RuleSub): bool {
    sub.active && s.tracker in sub.trackers
  }

  function GapStep(s: Setting, w: World, step: Step): Option<GR.Step> {
    match step
    case Wait(ms) => Some(GR.Wait(ms))
    case RuleReset(rule, sub, withTrackers) =>
      Some(if rule in w.gap.rules then GR.RuleEdited(rule, s.required(sub.terms), withTrackers, IsActive(s, sub))
           else GR.RuleAdded(rule, s.required(sub.terms), IsActive(s, sub)))
    case RuleToggled(rule, active) =>
      if rule in w.gap.rules && rule in w.matching.db.rules
      then Some(GR.RuleEdited(rule, w.gap.rules[rule].terms, false, active && s.tracker in w.matching.db.rules[rule].trackers))
      else None
    case RuleDeleted(rule) => if rule in w.gap.rules then Some(GR.RuleDeleted(rule)) else None
    case RowsSelected(full, groups, _) => Some(GR.RowsSelected(full, groups))
    case FeedIngested(batch) =>
      Some(GR.FeedIngested(RB.GapDetected(RB.StateOf(w.feed.tables, s.tracker), RB.Unique(RB.Keys(batch.releases)))))
    case FeedFailed => Some(GR.FeedFailed)
    case GroupStarted => Some(GR.GroupStarted)
    case GroupSearched(search, _) => Some(GR.GroupSearched(search))
    case PassEnded => Some(GR.RowMatched)
    case GroupEnded(failed) => Some(GR.GroupEnded(failed))
    case PollFinished => Some(GR.PollFinished)
    case Restarted(revisions) => Some(GR.Restarted(if s.tracker in revisions then Some(revisions[s.tracker]) else None))
    case _ => None
  }

  function MatchStep(s: Setting, w: World, step: Step): Option<RM.Step> {
    match step
    case OtherLane(laneStep) => Some(laneStep)
    case OtherIngested(t, batch) => Some(RM.Ingested(t, batch.releases, w.feed.now))
    case OtherCaughtUp(t, releases) => Some(RM.CaughtUp(t, releases, w.feed.now))
    case RuleReset(rule, sub, withTrackers) => Some(RM.Reset(rule, sub, withTrackers))
    case RuleToggled(rule, active) => Some(RM.Toggled(rule, active))
    case RuleDeleted(rule) => Some(RM.Deleted(rule))
    case RowsSelected(_, _, rows) => Some(RM.LaneStarted(s.tracker, rows))
    case FeedIngested(batch) => Some(RM.Ingested(s.tracker, batch.releases, w.feed.now))
    case GroupSearched(_, found) =>
      if found.Some? && found.value.releases != [] then Some(RM.CaughtUp(s.tracker, found.value.releases, w.feed.now)) else None
    case PassStarted(row, releases) => Some(RM.PassStarted(row, releases))
    case Advanced(id) => Some(RM.Advanced(s.tracker, id))
    case PassEnded => Some(RM.PassEnded(s.tracker))
    case GroupEnded(_) => if s.tracker in w.matching.passes then Some(RM.PassFailed(s.tracker)) else None
    case LaneEnded => Some(RM.LaneEnded(s.tracker))
    case Restarted(revisions) => Some(RM.Stopped(revisions))
    case _ => None
  }

  /** The row of a pass is the one the group has come to. */
  predicate IsNext(g: GR.World, id: GR.RuleId) {
    && GR.InGroup(g) && g.poll.value.stage.Matching? && g.poll.value.stage.done < |GR.Members(g)|
    && GR.Members(g)[g.poll.value.stage.done].id == id
  }

  predicate Searches(w: World, search: GR.Search) {
    && GR.Enabled(w.gap, GR.GroupSearched(search)) && w.gap.gap.unresolvedSince.Some?
    && GR.AnyPending(GR.Members(w.gap), w.gap.CountingFrom()) && !search.Failed?
  }

  /** The search reflects the tracker at some moment since it began, and looked for the group's terms over the gap. */
  ghost predicate IsFound(s: Setting, w: World, search: GR.Search, found: Found)
    requires Searches(w, search)
  {
    var log, stage := w.feed.Log(s.tracker), w.gap.poll.value.stage;
    && (forall i | found.seen <= i < |log| :: log[i].at >= stage.startedAt)
    && C.Searched(w.feed, s.tracker, found.site, found.seen, s.finds(GR.Members(w.gap)[0].terms), w.gap.gap.unresolvedSince.value,
                  found.recovery, found.releases)
    && (search.Complete? <==> found.recovery.complete)
  }

  predicate IsElsewhere(s: Setting, feedStep: FF.Step) {
    || feedStep.TopicUpdated? || feedStep.FeedFetched? || feedStep.LoadStarted? || feedStep.PageRead? || feedStep.PageStored?
    || feedStep.LoadDropped? || (feedStep.GapMarked? && feedStep.tracker != s.tracker)
  }

  predicate IsOtherLane(s: Setting, laneStep: RM.Step) {
    || (laneStep.LaneStarted? && laneStep.tracker != s.tracker) || (laneStep.PassStarted? && laneStep.row.tracker != s.tracker)
    || (laneStep.Advanced? && laneStep.tracker != s.tracker) || (laneStep.PassEnded? && laneStep.tracker != s.tracker)
    || (laneStep.PassFailed? && laneStep.tracker != s.tracker) || (laneStep.LaneEnded? && laneStep.tracker != s.tracker)
  }

  predicate HasRow(rows: set<RM.Row>, id: RM.RuleId) {
    exists row | row in rows :: row.rule == id
  }

  /** What ties the parts of a step together. */
  ghost predicate Coupled(s: Setting, w: World, step: Step) {
    match step
    case Elsewhere(feedStep) => IsElsewhere(s, feedStep)
    case OtherLane(laneStep) => IsOtherLane(s, laneStep)
    case OtherIngested(t, _) => t != s.tracker
    case OtherCaughtUp(t, _) => t != s.tracker
    case RowsSelected(_, groups, rows) =>
      && (forall row | row in rows :: GR.InGroups(groups, 0, |groups|, row.rule))
      && (forall g, k | 0 <= g < |groups| && 0 <= k < |groups[g]| :: HasRow(rows, groups[g][k].id))
    case GroupSearched(search, found) =>
      if Searches(w, search) then found.Some? && IsFound(s, w, search, found.value) else found.None?
    case PassStarted(row, _) => row.tracker == s.tracker && IsNext(w.gap, row.rule)
    case LaneEnded => w.gap.poll.None?
    case _ => true
  }

  ghost predicate Enabled(s: Setting, w: World, step: Step) {
    && (FeedStep(s, w, step).Some? ==> FF.Enabled(w.feed, FeedStep(s, w, step).value))
    && (GapStep(s, w, step).Some? ==> GR.Enabled(w.gap, GapStep(s, w, step).value))
    && (MatchStep(s, w, step).Some? ==> RM.Enabled(w.matching, MatchStep(s, w, step).value))
    && Coupled(s, w, step)
  }

  function FeedAfter(w: FF.World, step: Option<FF.Step>): FF.World
    requires step.Some? ==> FF.Enabled(w, step.value)
  {
    if step.Some? then FF.After(w, step.value) else w
  }

  function GapAfter(w: GR.World, step: Option<GR.Step>): GR.World
    requires step.Some? ==> GR.Enabled(w, step.value)
  {
    if step.Some? then GR.After(w, step.value) else w
  }

  function MatchAfter(w: RM.World, step: Option<RM.Step>): RM.World
    requires step.Some? ==> RM.Enabled(w, step.value)
  {
    if step.Some? then RM.After(w, step.value) else w
  }

  ghost function After(s: Setting, w: World, step: Step): World
    requires Enabled(s, w, step)
  {
    World(FeedAfter(w.feed, FeedStep(s, w, step)), GapAfter(w.gap, GapStep(s, w, step)), MatchAfter(w.matching, MatchStep(s, w, step)))
  }

  ghost predicate Admissible(s: Setting, w: World, steps: seq<Step>)
    decreases |steps|
  {
    steps == [] || (Enabled(s, w, steps[0]) && Admissible(s, After(s, w, steps[0]), steps[1..]))
  }

  ghost function Run(s: Setting, w: World, steps: seq<Step>): World
    requires Admissible(s, w, steps)
    decreases |steps|
  {
    if steps == [] then w else Run(s, After(s, w, steps[0]), steps[1..])
  }

  // ----- Runs of the machine are runs of the three

  function One<T>(step: Option<T>): seq<T> {
    if step.Some? then [step.value] else []
  }

  ghost function FeedRun(s: Setting, w: World, steps: seq<Step>): seq<FF.Step>
    requires Admissible(s, w, steps)
    decreases |steps|
  {
    if steps == [] then [] else One(FeedStep(s, w, steps[0])) + FeedRun(s, After(s, w, steps[0]), steps[1..])
  }

  ghost function GapRun(s: Setting, w: World, steps: seq<Step>): seq<GR.Step>
    requires Admissible(s, w, steps)
    decreases |steps|
  {
    if steps == [] then [] else One(GapStep(s, w, steps[0])) + GapRun(s, After(s, w, steps[0]), steps[1..])
  }

  ghost function MatchRun(s: Setting, w: World, steps: seq<Step>): seq<RM.Step>
    requires Admissible(s, w, steps)
    decreases |steps|
  {
    if steps == [] then [] else One(MatchStep(s, w, steps[0])) + MatchRun(s, After(s, w, steps[0]), steps[1..])
  }

  lemma {:induction false} FeedRunIsARun(s: Setting, w: World, steps: seq<Step>)
    requires Admissible(s, w, steps)
    ensures FF.Admissible(w.feed, FeedRun(s, w, steps)) && FF.Run(w.feed, FeedRun(s, w, steps)) == Run(s, w, steps).feed
    decreases |steps|
  {
    if steps != [] {
      FeedRunIsARun(s, After(s, w, steps[0]), steps[1..]);
      var rest := FeedRun(s, After(s, w, steps[0]), steps[1..]);
      var x := FeedStep(s, w, steps[0]);
      assert if x.Some? then ([x.value] + rest)[0] == x.value && ([x.value] + rest)[1..] == rest else [] + rest == rest;
    }
  }

  lemma {:induction false} GapRunIsARun(s: Setting, w: World, steps: seq<Step>)
    requires Admissible(s, w, steps)
    ensures GR.Admissible(w.gap, GapRun(s, w, steps)) && GR.Run(w.gap, GapRun(s, w, steps)) == Run(s, w, steps).gap
    decreases |steps|
  {
    if steps != [] {
      GapRunIsARun(s, After(s, w, steps[0]), steps[1..]);
      var rest := GapRun(s, After(s, w, steps[0]), steps[1..]);
      var x := GapStep(s, w, steps[0]);
      assert if x.Some? then ([x.value] + rest)[0] == x.value && ([x.value] + rest)[1..] == rest else [] + rest == rest;
    }
  }

  lemma {:induction false} MatchRunIsARun(s: Setting, w: World, steps: seq<Step>)
    requires Admissible(s, w, steps)
    ensures RM.Admissible(w.matching, MatchRun(s, w, steps)) && RM.Run(w.matching, MatchRun(s, w, steps)) == Run(s, w, steps).matching
    decreases |steps|
  {
    if steps != [] {
      MatchRunIsARun(s, After(s, w, steps[0]), steps[1..]);
      var rest := MatchRun(s, After(s, w, steps[0]), steps[1..]);
      var x := MatchStep(s, w, steps[0]);
      assert if x.Some? then ([x.value] + rest)[0] == x.value && ([x.value] + rest)[1..] == rest else [] + rest == rest;
    }
  }

  // ----- What the three share

  predicate SameClock(w: World) {
    w.feed.now == w.gap.now
  }

  predicate SameGap(s: Setting, f: FF.World, g: GR.World) {
    g.gap == GR.GapOf(RB.StateOf(f.tables, s.tracker))
  }

  predicate SameBuffer(w: World) {
    w.matching.buffer == w.feed.tables.buffer
  }

  predicate SameRule(s: Setting, rule: GR.Rule, sub: RM.RuleSub, state: RM.State) {
    && rule.terms == s.required(sub.terms) && rule.active == IsActive(s, sub)
    && rule.initialized == state.initialized && rule.revision == state.revision
  }

  predicate SameRules(s: Setting, g: GR.World, m: RM.World) {
    && g.revision == m.Revision(s.tracker)
    && g.rules.Keys == m.db.rules.Keys
    && forall id | id in g.rules && id in m.db.rules ::
         SameRule(s, g.rules[id], m.db.rules[id], RM.StateOf(m.states, id, s.tracker))
  }

  /** The lane works while the poll does, and passes the row that the group has come to. */
  predicate SameLane(s: Setting, g: GR.World, m: RM.World) {
    && s.tracker in m.feeds
    && (g.poll.Some? ==> s.tracker in m.lanes)
    && (s.tracker in m.passes ==> m.passes[s.tracker].row.tracker == s.tracker && IsNext(g, m.passes[s.tracker].row.rule))
  }

  predicate SameRow(s: Setting, groups: seq<seq<GR.Row>>, row: RM.Row) {
    forall g, k | 0 <= g < |groups| && 0 <= k < |groups[g]| && groups[g][k].id == row.rule ::
      groups[g][k].terms == s.required(row.terms) && groups[g][k].baseline == row.baseline
  }

  predicate SameRows(s: Setting, g: GR.World, m: RM.World) {
    g.poll.Some? ==>
      && (s.tracker in m.lanes ==> forall row | row in m.lanes[s.tracker] :: SameRow(s, g.poll.value.groups, row))
      && (s.tracker in m.passes ==> SameRow(s, g.poll.value.groups, m.passes[s.tracker].row))
  }

  predicate Joined(s: Setting, w: World) {
    && SameClock(w) && SameGap(s, w.feed, w.gap) && SameBuffer(w) && SameRules(s, w.gap, w.matching)
    && SameLane(s, w.gap, w.matching) && SameRows(s, w.gap, w.matching)
  }

  ghost predicate Start(s: Setting, w: World) {
    FF.Start(w.feed) && GR.Start(w.gap) && RM.Start(w.matching) && Joined(s, w)
  }

  // ----- What a step of each machine changes

  function FeedBuffer(f: FF.World, x: FF.Step): map<RB.RowKey, RB.Row> {
    match x
    case Polled(_, batch) => RB.Pruned(RB.Buffered(f.tables.buffer, batch.releases, f.now), f.now)
    case CaughtUp(_, releases) => RB.Buffered(f.tables.buffer, releases, f.now)
    case _ => f.tables.buffer
  }

  function FeedState(f: FF.World, x: FF.Step, t: RB.TrackerKey): Option<RB.FeedState> {
    var state := RB.StateOf(f.tables, t);
    match x
    case Polled(tracker, batch) => if tracker == t then Some(RB.NextState(state, batch, f.now)) else state
    case GapMarked(tracker, complete) => if tracker == t then RB.StateOf(RB.Marked(f.tables, t, complete, f.now), t) else state
    case _ => state
  }

  predicate FeedChange(f: FF.World, x: FF.Step, f': FF.World, t: RB.TrackerKey) {
    && f'.now == (if x.Wait? then f.now + x.ms else f.now)
    && f'.tables.buffer == FeedBuffer(f, x) && RB.StateOf(f'.tables, t) == FeedState(f, x, t)
    && (if x.TopicUpdated? && x.tracker == t then f'.Log(t) == f.Log(t) + [MTF.Update(x.topic, x.stamp, f.now)]
        else f'.Log(t) == f.Log(t))
  }

  lemma FeedChanges(f: FF.World, x: FF.Step, t: RB.TrackerKey)
    requires FF.Enabled(f, x)
    ensures FeedChange(f, x, FF.After(f, x), t)
  {
  }

  function GapAfterStep(g: GR.World, x: GR.Step): GR.GapState {
    match x
    case FeedIngested(gap) => GR.PolledGap(g.gap, gap, g.now)
    case PollFinished =>
      if g.poll.Some? && g.poll.value.full && g.poll.value.retries == 0 then g.gap.(unresolvedSince := None) else g.gap
    case _ => g.gap
  }

  /** Terms, activity and baselines stay. */
  predicate StatesKept(g: GR.World, g': GR.World) {
    && g'.rules.Keys == g.rules.Keys
    && forall id | id in g.rules && id in g'.rules :: g'.rules[id] == g.rules[id].(gapRecoveredAt := g'.rules[id].gapRecoveredAt)
  }

  predicate RulesChange(g: GR.World, x: GR.Step, g': GR.World) {
    match x
    case RuleAdded(id, terms, active) => g'.rules == g.rules[id := GR.Rule(terms, active, false, None, None)]
    case RuleEdited(id, terms, withTrackers, active) =>
      id in g.rules
      && g'.rules == g.rules[id := if withTrackers then GR.Rule(terms, active, false, None, None)
                                   else g.rules[id].(terms := terms, active := active)]
    case RuleDeleted(id) => g'.rules == g.rules - {id}
    case RowMatched =>
      && GR.InGroup(g) && g.poll.value.stage.Matching? && g.poll.value.stage.done < |GR.Members(g)|
      && g'.rules == GR.Initialized(g.rules, GR.Members(g)[g.poll.value.stage.done].id, g.revision)
    case GroupSearched(_) => StatesKept(g, g')
    case _ => g'.rules == g.rules
  }

  predicate SamePoll(p: GR.Poll, p': GR.Poll) {
    p'.groups == p.groups && p'.next == p.next && p'.stage == p.stage
  }

  /** The poll goes on through the same groups, or ends. */
  predicate PollChange(g: GR.World, x: GR.Step, g': GR.World) {
    match x
    case RowsSelected(_, groups) => g'.poll.Some? && g'.poll.value.groups == groups
    case Wait(_) => g'.poll == g.poll
    case RuleAdded(_, _, _) => if g.poll.None? then g'.poll.None? else g'.poll.Some? && SamePoll(g.poll.value, g'.poll.value)
    case RuleEdited(_, _, _, _) => if g.poll.None? then g'.poll.None? else g'.poll.Some? && SamePoll(g.poll.value, g'.poll.value)
    case RuleDeleted(_) => g'.poll == g.poll
    case FeedFailed => g'.poll.None?
    case RowMatched =>
      g'.poll.Some? ==>
        && GR.InGroup(g) && g.poll.value.stage.Matching? && g.poll.value.stage.done < |GR.Members(g)|
        && g'.poll.value.groups == g.poll.value.groups && GR.Members(g)[g.poll.value.stage.done].id in g.rules
    case PollFinished => g'.poll.None?
    case Restarted(_) => g'.poll.None?
    case _ => g'.poll.Some? ==> g.poll.Some? && g'.poll.value.groups == g.poll.value.groups
  }

  predicate GapChange(g: GR.World, x: GR.Step, g': GR.World) {
    && g'.now == (if x.Wait? then g.now + x.ms else g.now) && g'.gap == GapAfterStep(g, x)
    && g'.revision == (if x.Restarted? then x.revision else g.revision)
    && (!x.GroupSearched? ==> g'.acks == g.acks)
  }

  lemma SearchKeepsStates(g: GR.World, search: GR.Search)
    requires GR.Enabled(g, GR.GroupSearched(search))
    ensures StatesKept(g, GR.After(g, GR.GroupSearched(search)))
  {
    if g.gap.unresolvedSince.Some? {
      GR.MarkedTwice(g.rules, GR.BySearch(g.rules.Keys, GR.Members(g), g.CountingFrom(), search), GR.ByBaseline(g.rules.Keys, GR.Members(g)),
                     g.poll.value.stage.startedAt);
    }
  }

  lemma GapChanges(g: GR.World, x: GR.Step)
    requires GR.Enabled(g, x)
    ensures GapChange(g, x, GR.After(g, x))
  {
  }

  lemma RulesChanges(g: GR.World, x: GR.Step)
    requires GR.Enabled(g, x)
    ensures RulesChange(g, x, GR.After(g, x))
  {
    if x.GroupSearched? {
      SearchKeepsStates(g, x.search);
    }
  }

  lemma PollChanges(g: GR.World, x: GR.Step)
    requires GR.Enabled(g, x)
    ensures PollChange(g, x, GR.After(g, x))
  {
  }

  function MatchBuffer(m: RM.World, x: RM.Step): map<RB.RowKey, RB.Row> {
    match x
    case Ingested(_, found, at) => RB.Pruned(RB.Buffered(m.buffer, found, at), at)
    case CaughtUp(_, found, at) => RB.Buffered(m.buffer, found, at)
    case _ => m.buffer
  }

  ghost predicate MatchChange(m: RM.World, x: RM.Step, m': RM.World) {
    && m'.buffer == MatchBuffer(m, x) && m'.feeds == m.feeds && m'.matcher == m.matcher
    && m'.revisions == (if x.Stopped? then x.revisions else m.revisions)
  }

  lemma MatchChanges(m: RM.World, x: RM.Step)
    requires RM.Enabled(m, x)
    ensures MatchChange(m, x, RM.After(m, x))
  {
  }

  predicate SubsChange(m: RM.World, x: RM.Step, m': RM.World) {
    match x
    case Reset(rule, sub, withTrackers) =>
      && m'.db.rules == m.db.rules[rule := sub]
      && m'.states == if withTrackers then RM.WithoutStates(m.states, rule) else m.states
    case Toggled(rule, active) => m'.db.rules == RM.SetActive(m.db.rules, rule, active) && m'.states == m.states
    case Deleted(rule) => m'.db.rules == m.db.rules - {rule} && m'.states == RM.WithoutStates(m.states, rule)
    case PassEnded(t) =>
      && m'.db == m.db && t in m.passes
      && var rule := m.passes[t].row.rule;
         if rule !in m.db.rules then m'.states == m.states
         else m'.states == m.states[RM.StateKey(rule, t) := RM.State(true, m.Revision(t).Or(RM.StateOf(m.states, rule, t).revision))]
    case _ => m'.db.rules == m.db.rules && m'.states == m.states
  }

  lemma SubsChanges(m: RM.World, x: RM.Step)
    requires RM.Enabled(m, x)
    ensures SubsChange(m, x, RM.After(m, x))
  {
  }

  /** What a tracker's lane works on: at most less than before, unless it is given something. */
  predicate LaneChange(m: RM.World, x: RM.Step, m': RM.World, t: RM.Tracker) {
    match x
    case LaneStarted(lane, rows) =>
      && m'.passes == m.passes
      && if lane == t then t in m'.lanes && m'.lanes[t] == rows else (t in m'.lanes <==> t in m.lanes) && (t in m.lanes ==> m'.lanes[t] == m.lanes[t])
    case PassStarted(row, _) =>
      && (t in m'.lanes <==> t in m.lanes) && (t in m.lanes ==> m'.lanes[t] <= m.lanes[t])
      && if row.tracker == t then t in m.lanes && row in m.lanes[t] && t in m'.passes && m'.passes[t].row == row
         else SamePass(m, m', t)
    case PassEnded(lane) =>
      && (t in m'.lanes ==> t in m.lanes && m'.lanes[t] == m.lanes[t])
      && (t in m.lanes && !(lane == t && t in m.passes && m.passes[t].row.rule !in m.db.rules) ==> t in m'.lanes)
      && if lane == t then t !in m'.passes else SamePass(m, m', t)
    case PassFailed(lane) =>
      m'.lanes == m.lanes && if lane == t then t !in m'.passes else SamePass(m, m', t)
    case LaneEnded(lane) =>
      if lane == t then t !in m'.lanes && t !in m'.passes
      else (t in m'.lanes <==> t in m.lanes) && (t in m.lanes ==> m'.lanes[t] == m.lanes[t]) && SamePass(m, m', t)
    case Stopped(_) => m'.lanes == map[] && m'.passes == map[]
    case _ => m'.lanes == m.lanes && SamePass(m, m', t)
  }

  predicate SamePass(m: RM.World, m': RM.World, t: RM.Tracker) {
    (t in m'.passes <==> t in m.passes) && (t in m.passes ==> m'.passes[t].row == m.passes[t].row)
  }

  lemma LaneChanges(m: RM.World, x: RM.Step, t: RM.Tracker)
    requires RM.Enabled(m, x)
    ensures LaneChange(m, x, RM.After(m, x), t)
  {
  }

  predicate FeedStepped(f: FF.World, x: Option<FF.Step>, f': FF.World, t: RB.TrackerKey) {
    if x.Some? then FeedChange(f, x.value, f', t) else f' == f
  }

  predicate GapStepped(g: GR.World, x: Option<GR.Step>, g': GR.World) {
    if x.Some? then GapChange(g, x.value, g') && RulesChange(g, x.value, g') && PollChange(g, x.value, g') else g' == g
  }

  ghost predicate MatchStepped(m: RM.World, x: Option<RM.Step>, m': RM.World, t: RM.Tracker) {
    if x.Some? then MatchChange(m, x.value, m') && SubsChange(m, x.value, m') && LaneChange(m, x.value, m', t) else m' == m
  }

  /** One step of the machine, by what it changes. */
  ghost predicate Stepped(s: Setting, w: World, step: Step, w': World) {
    && FeedStepped(w.feed, FeedStep(s, w, step), w'.feed, s.tracker)
    && GapStepped(w.gap, GapStep(s, w, step), w'.gap)
    && MatchStepped(w.matching, MatchStep(s, w, step), w'.matching, s.tracker)
  }

  lemma FeedSteps(f: FF.World, x: Option<FF.Step>, t: RB.TrackerKey)
    requires x.Some? ==> FF.Enabled(f, x.value)
    ensures FeedStepped(f, x, FeedAfter(f, x), t)
  {
    if x.Some? {
      FeedChanges(f, x.value, t);
    }
  }

  lemma GapSteps(g: GR.World, x: Option<GR.Step>)
    requires x.Some? ==> GR.Enabled(g, x.value)
    ensures GapStepped(g, x, GapAfter(g, x))
  {
    if x.Some? {
      GapChanges(g, x.value);
      RulesChanges(g, x.value);
      PollChanges(g, x.value);
    }
  }

  lemma MatchSteps(m: RM.World, x: Option<RM.Step>, t: RM.Tracker)
    requires x.Some? ==> RM.Enabled(m, x.value)
    ensures MatchStepped(m, x, MatchAfter(m, x), t)
  {
    if x.Some? {
      MatchChanges(m, x.value);
      SubsChanges(m, x.value);
      LaneChanges(m, x.value, t);
    }
  }

  lemma StepChanges(s: Setting, w: World, step: Step)
    requires Enabled(s, w, step)
    ensures Stepped(s, w, step, After(s, w, step))
  {
    FeedSteps(w.feed, FeedStep(s, w, step), s.tracker);
    GapSteps(w.gap, GapStep(s, w, step));
    MatchSteps(w.matching, MatchStep(s, w, step), s.tracker);
  }

  // ----- Each step keeps them the same

  /** What is to be known of the worlds in which a step is taken. */
  predicate Ready(s: Setting, w: World, step: Step) {
    match step
    case Elsewhere(feedStep) => IsElsewhere(s, feedStep)
    case OtherLane(laneStep) => IsOtherLane(s, laneStep)
    case OtherIngested(t, _) => t != s.tracker
    case OtherCaughtUp(t, _) => t != s.tracker
    case RuleReset(rule, sub, withTrackers) => RM.Enabled(w.matching, RM.Reset(rule, sub, withTrackers))
    case RowsSelected(full, groups, rows) =>
      && w.gap.poll.None? && GR.Grouping(w.gap, full, groups)
      && forall row | row in rows :: row.tracker == s.tracker && RM.IsSelected(w.matching, row)
    case FeedIngested(_) => w.gap.poll.Some? && w.gap.poll.value.stage.Selecting?
    case FeedFailed => w.gap.poll.Some? && w.gap.poll.value.stage.Selecting?
    case GroupStarted => w.gap.poll.Some? && w.gap.poll.value.stage.Between?
    case GroupSearched(_, _) => w.gap.poll.Some? && w.gap.poll.value.stage.Searching?
    case PassStarted(row, _) => row.tracker == s.tracker && IsNext(w.gap, row.rule)
    case PollFinished => w.gap.poll.Some? && w.gap.poll.value.stage.Between?
    case LaneEnded => w.gap.poll.None?
    case _ => true
  }

  lemma WaitKeepsJoined(s: Setting, w: World, ms: nat, w': World)
    requires Joined(s, w) && Ready(s, w, Wait(ms)) && Stepped(s, w, Wait(ms), w')
    ensures Joined(s, w')
  {
  }

  lemma ElsewhereKeepsJoined(s: Setting, w: World, feedStep: FF.Step, w': World)
    requires Joined(s, w) && Ready(s, w, Elsewhere(feedStep)) && Stepped(s, w, Elsewhere(feedStep), w')
    ensures Joined(s, w')
  {
  }

  lemma OtherLaneKeepsJoined(s: Setting, w: World, laneStep: RM.Step, w': World)
    requires Joined(s, w) && Ready(s, w, OtherLane(laneStep)) && Stepped(s, w, OtherLane(laneStep), w')
    ensures Joined(s, w')
  {
  }

  lemma OtherIngestKeepsJoined(s: Setting, w: World, t: RB.TrackerKey, batch: RB.Batch, w': World)
    requires Joined(s, w) && Ready(s, w, OtherIngested(t, batch)) && Stepped(s, w, OtherIngested(t, batch), w')
    ensures Joined(s, w')
  {
  }

  lemma OtherCatchUpKeepsJoined(s: Setting, w: World, t: RB.TrackerKey, releases: seq<RB.Release>, w': World)
    requires Joined(s, w) && Ready(s, w, OtherCaughtUp(t, releases)) && Stepped(s, w, OtherCaughtUp(t, releases), w')
    ensures Joined(s, w')
  {
  }

  lemma OtherRuleKept(s: Setting, g: GR.World, g': GR.World, m: RM.World, m': RM.World, rule: RM.RuleId, id: RM.RuleId)
    requires SameRules(s, g, m) && id in g.rules && id != rule
    requires id in g'.rules && g'.rules[id] == g.rules[id] && id in m'.db.rules && m'.db.rules[id] == m.db.rules[id]
    requires m'.states == m.states || m'.states == RM.WithoutStates(m.states, rule)
    ensures SameRule(s, g'.rules[id], m'.db.rules[id], RM.StateOf(m'.states, id, s.tracker))
  {
    assert RM.StateOf(m'.states, id, s.tracker) == RM.StateOf(m.states, id, s.tracker);
  }

  /** How a rule's edit, new or not, goes through both tables. */
  lemma ResetKeepsRules(
    s: Setting, g: GR.World, g': GR.World, m: RM.World, m': RM.World, rule: RM.RuleId, sub: RM.RuleSub, withTrackers: bool)
    requires SameRules(s, g, m) && SubsChange(m, RM.Reset(rule, sub, withTrackers), m')
    requires RM.Enabled(m, RM.Reset(rule, sub, withTrackers)) && g'.revision == g.revision && m'.revisions == m.revisions
    requires RulesChange(g, if rule in g.rules then GR.RuleEdited(rule, s.required(sub.terms), withTrackers, IsActive(s, sub))
                            else GR.RuleAdded(rule, s.required(sub.terms), IsActive(s, sub)), g')
    ensures SameRules(s, g', m')
  {
    forall id | id in g'.rules
      ensures id in m'.db.rules && SameRule(s, g'.rules[id], m'.db.rules[id], RM.StateOf(m'.states, id, s.tracker))
    {
      if id != rule {
        OtherRuleKept(s, g, g', m, m', rule, id);
      }
    }
  }

  lemma DeletionKeepsRules(s: Setting, g: GR.World, g': GR.World, m: RM.World, m': RM.World, rule: RM.RuleId)
    requires SameRules(s, g, m) && SubsChange(m, RM.Deleted(rule), m') && g'.revision == g.revision && m'.revisions == m.revisions
    requires if rule in g.rules then RulesChange(g, GR.RuleDeleted(rule), g') else g' == g
    ensures SameRules(s, g', m')
  {
    forall id | id in g'.rules
      ensures id in m'.db.rules && SameRule(s, g'.rules[id], m'.db.rules[id], RM.StateOf(m'.states, id, s.tracker))
    {
      assert RM.StateOf(m'.states, id, s.tracker) == RM.StateOf(m.states, id, s.tracker);
    }
  }

  lemma ToggleKeepsRules(s: Setting, g: GR.World, g': GR.World, m: RM.World, m': RM.World, rule: RM.RuleId, active: bool)
    requires SameRules(s, g, m) && SubsChange(m, RM.Toggled(rule, active), m') && g'.revision == g.revision && m'.revisions == m.revisions
    requires if rule in g.rules && rule in m.db.rules
             then RulesChange(g, GR.RuleEdited(rule, g.rules[rule].terms, false, active && s.tracker in m.db.rules[rule].trackers), g')
             else g' == g
    ensures SameRules(s, g', m')
  {
  }

  /** A pass that ends takes its rule past the baseline in both. */
  lemma PassEndKeepsRules(s: Setting, g: GR.World, g': GR.World, m: RM.World, m': RM.World)
    requires SameRules(s, g, m) && SameLane(s, g, m) && SubsChange(m, RM.PassEnded(s.tracker), m')
    requires RulesChange(g, GR.RowMatched, g') && g'.revision == g.revision && m'.revisions == m.revisions
    ensures SameRules(s, g', m')
  {
    var passed := m.passes[s.tracker].row.rule;
    var state := RM.State(true, m.Revision(s.tracker).Or(RM.StateOf(m.states, passed, s.tracker).revision));
    forall id | id in g'.rules
      ensures id in m'.db.rules && SameRule(s, g'.rules[id], m'.db.rules[id], RM.StateOf(m'.states, id, s.tracker))
    {
      assert SameRule(s, g.rules[id], m.db.rules[id], RM.StateOf(m.states, id, s.tracker));
      RM.StateOfUpdated(m.states, RM.StateKey(passed, s.tracker), state, id, s.tracker);
    }
  }

  lemma StatesKeepRules(s: Setting, g: GR.World, g': GR.World, m: RM.World, m': RM.World)
    requires SameRules(s, g, m) && StatesKept(g, g') && g'.revision == g.revision
    requires m'.revisions == m.revisions && m'.states == m.states && m'.db.rules == m.db.rules
    ensures SameRules(s, g', m')
  {
  }

  lemma SelectionKeepsRows(s: Setting, g: GR.World, m: RM.World, full: bool, groups: seq<seq<GR.Row>>, rows: set<RM.Row>)
    requires SameRules(s, g, m) && GR.Grouping(g, full, groups)
    requires forall row | row in rows :: row.tracker == s.tracker && RM.IsSelected(m, row)
    ensures forall row | row in rows :: SameRow(s, groups, row)
  {
    forall row, i, k | row in rows && 0 <= i < |groups| && 0 <= k < |groups[i]| && groups[i][k].id == row.rule
      ensures groups[i][k].terms == s.required(row.terms) && groups[i][k].baseline == row.baseline
    {
      assert groups[i][k] == GR.Selected(row.rule, g.rules[row.rule], g.revision);
    }
  }

  lemma ResetKeepsJoined(s: Setting, w: World, rule: RM.RuleId, sub: RM.RuleSub, withTrackers: bool, w': World)
    requires Joined(s, w) && Ready(s, w, RuleReset(rule, sub, withTrackers)) && Stepped(s, w, RuleReset(rule, sub, withTrackers), w')
    ensures Joined(s, w')
  {
    ResetKeepsRules(s, w.gap, w'.gap, w.matching, w'.matching, rule, sub, withTrackers);
  }

  lemma ToggleKeepsJoined(s: Setting, w: World, rule: RM.RuleId, active: bool, w': World)
    requires Joined(s, w) && Ready(s, w, RuleToggled(rule, active)) && Stepped(s, w, RuleToggled(rule, active), w')
    ensures Joined(s, w')
  {
    ToggleKeepsRules(s, w.gap, w'.gap, w.matching, w'.matching, rule, active);
  }

  lemma DeletionKeepsJoined(s: Setting, w: World, rule: RM.RuleId, w': World)
    requires Joined(s, w) && Ready(s, w, RuleDeleted(rule)) && Stepped(s, w, RuleDeleted(rule), w')
    ensures Joined(s, w')
  {
    DeletionKeepsRules(s, w.gap, w'.gap, w.matching, w'.matching, rule);
  }

  lemma SelectionKeepsJoined(s: Setting, w: World, full: bool, groups: seq<seq<GR.Row>>, rows: set<RM.Row>, w': World)
    requires Joined(s, w) && Ready(s, w, RowsSelected(full, groups, rows)) && Stepped(s, w, RowsSelected(full, groups, rows), w')
    ensures Joined(s, w')
  {
    SelectionKeepsRows(s, w.gap, w.matching, full, groups, rows);
    StatesKeepRules(s, w.gap, w'.gap, w.matching, w'.matching);
  }

  lemma IngestKeepsJoined(s: Setting, w: World, batch: RB.Batch, w': World)
    requires Joined(s, w) && Ready(s, w, FeedIngested(batch)) && Stepped(s, w, FeedIngested(batch), w')
    ensures Joined(s, w')
  {
  }

  lemma FeedFailureKeepsJoined(s: Setting, w: World, w': World)
    requires Joined(s, w) && Ready(s, w, FeedFailed) && Stepped(s, w, FeedFailed, w')
    ensures Joined(s, w')
  {
    IdleLaneKept(s, w.gap, w'.gap, w.matching, w'.matching);
  }

  lemma GroupStartKeepsJoined(s: Setting, w: World, w': World)
    requires Joined(s, w) && Ready(s, w, GroupStarted) && Stepped(s, w, GroupStarted, w')
    ensures Joined(s, w')
  {
    IdleLaneKept(s, w.gap, w'.gap, w.matching, w'.matching);
  }

  lemma SearchKeepsTables(s: Setting, w: World, search: GR.Search, found: Option<Found>, w': World)
    requires Joined(s, w) && Stepped(s, w, GroupSearched(search, found), w')
    ensures SameClock(w') && SameGap(s, w'.feed, w'.gap) && SameBuffer(w')
  {
  }

  /** No rule is being matched while a search or the feed is awaited, so the lanes only have to go on. */
  lemma IdleLaneKept(s: Setting, g: GR.World, g': GR.World, m: RM.World, m': RM.World)
    requires SameLane(s, g, m) && SameRows(s, g, m) && s.tracker !in m'.passes && m'.feeds == m.feeds && m'.lanes == m.lanes
    requires g'.poll.Some? ==> g.poll.Some? && g'.poll.value.groups == g.poll.value.groups
    ensures SameLane(s, g', m') && SameRows(s, g', m')
  {
  }

  lemma SearchKeepsLane(s: Setting, w: World, search: GR.Search, found: Option<Found>, w': World)
    requires SameLane(s, w.gap, w.matching) && SameRows(s, w.gap, w.matching)
    requires w.gap.poll.Some? && w.gap.poll.value.stage.Searching?
    requires GapStepped(w.gap, Some(GR.GroupSearched(search)), w'.gap)
    requires MatchStepped(w.matching, MatchStep(s, w, GroupSearched(search, found)), w'.matching, s.tracker)
    ensures SameLane(s, w'.gap, w'.matching) && SameRows(s, w'.gap, w'.matching)
  {
    IdleLaneKept(s, w.gap, w'.gap, w.matching, w'.matching);
  }

  lemma SearchKeepsJoined(s: Setting, w: World, search: GR.Search, found: Option<Found>, w': World)
    requires Joined(s, w) && Ready(s, w, GroupSearched(search, found)) && Stepped(s, w, GroupSearched(search, found), w')
    ensures Joined(s, w')
  {
    SearchKeepsTables(s, w, search, found, w');
    StatesKeepRules(s, w.gap, w'.gap, w.matching, w'.matching);
    SearchKeepsLane(s, w, search, found, w');
  }

  lemma PassStartKeepsJoined(s: Setting, w: World, row: RM.Row, matched: seq<RM.Release>, w': World)
    requires Joined(s, w) && Ready(s, w, PassStarted(row, matched)) && Stepped(s, w, PassStarted(row, matched), w')
    ensures Joined(s, w')
  {
  }

  lemma AdvanceKeepsJoined(s: Setting, w: World, id: RM.MatchId, w': World)
    requires Joined(s, w) && Ready(s, w, Advanced(id)) && Stepped(s, w, Advanced(id), w')
    ensures Joined(s, w')
  {
  }

  lemma PassEndKeepsJoined(s: Setting, w: World, w': World)
    requires Joined(s, w) && Ready(s, w, PassEnded) && Stepped(s, w, PassEnded, w')
    ensures Joined(s, w')
  {
    PassEndKeepsRules(s, w.gap, w'.gap, w.matching, w'.matching);
  }

  lemma GroupEndKeepsJoined(s: Setting, w: World, failed: bool, w': World)
    requires Joined(s, w) && Ready(s, w, GroupEnded(failed)) && Stepped(s, w, GroupEnded(failed), w')
    ensures Joined(s, w')
  {
    IdleLaneKept(s, w.gap, w'.gap, w.matching, w'.matching);
  }

  lemma PollFinishKeepsJoined(s: Setting, w: World, w': World)
    requires Joined(s, w) && Ready(s, w, PollFinished) && Stepped(s, w, PollFinished, w')
    ensures Joined(s, w')
  {
    IdleLaneKept(s, w.gap, w'.gap, w.matching, w'.matching);
  }

  lemma LaneEndKeepsJoined(s: Setting, w: World, w': World)
    requires Joined(s, w) && Ready(s, w, LaneEnded) && Stepped(s, w, LaneEnded, w')
    ensures Joined(s, w')
  {
  }

  lemma RestartKeepsRules(s: Setting, g: GR.World, g': GR.World, m: RM.World, m': RM.World, revisions: map<RM.Tracker, nat>)
    requires SameRules(s, g, m) && g'.rules == g.rules && m'.db.rules == m.db.rules && m'.states == m.states
    requires m'.revisions == revisions && g'.revision == if s.tracker in revisions then Some(revisions[s.tracker]) else None
    ensures SameRules(s, g', m')
  {
  }

  lemma RestartKeepsJoined(s: Setting, w: World, revisions: map<RM.Tracker, nat>, w': World)
    requires Joined(s, w) && Ready(s, w, Restarted(revisions)) && Stepped(s, w, Restarted(revisions), w')
    ensures Joined(s, w')
  {
    RestartKeepsRules(s, w.gap, w'.gap, w.matching, w'.matching, revisions);
  }

  predicate IsPollStep(step: Step) {
    || step.RowsSelected? || step.FeedIngested? || step.FeedFailed? || step.GroupStarted? || step.GroupSearched?
    || step.GroupEnded? || step.PollFinished?
  }

  predicate IsPassStep(step: Step) {
    step.PassStarted? || step.Advanced? || step.PassEnded? || step.LaneEnded? || step.Restarted?
  }

  predicate IsUserStep(step: Step) {
    step.RuleReset? || step.RuleToggled? || step.RuleDeleted?
  }

  lemma PollStepKeepsJoined(s: Setting, w: World, step: Step, w': World)
    requires Joined(s, w) && Ready(s, w, step) && Stepped(s, w, step, w') && IsPollStep(step)
    ensures Joined(s, w')
  {
    match step
    case RowsSelected(full, groups, rows) => SelectionKeepsJoined(s, w, full, groups, rows, w');
    case FeedIngested(batch) => IngestKeepsJoined(s, w, batch, w');
    case FeedFailed => FeedFailureKeepsJoined(s, w, w');
    case GroupStarted => GroupStartKeepsJoined(s, w, w');
    case GroupSearched(search, found) => SearchKeepsJoined(s, w, search, found, w');
    case GroupEnded(failed) => GroupEndKeepsJoined(s, w, failed, w');
    case PollFinished => PollFinishKeepsJoined(s, w, w');
  }

  lemma PassStepKeepsJoined(s: Setting, w: World, step: Step, w': World)
    requires Joined(s, w) && Ready(s, w, step) && Stepped(s, w, step, w') && IsPassStep(step)
    ensures Joined(s, w')
  {
    match step
    case PassStarted(row, matched) => PassStartKeepsJoined(s, w, row, matched, w');
    case Advanced(id) => AdvanceKeepsJoined(s, w, id, w');
    case PassEnded => PassEndKeepsJoined(s, w, w');
    case LaneEnded => LaneEndKeepsJoined(s, w, w');
    case Restarted(revisions) => RestartKeepsJoined(s, w, revisions, w');
  }

  lemma UserStepKeepsJoined(s: Setting, w: World, step: Step, w': World)
    requires Joined(s, w) && Ready(s, w, step) && Stepped(s, w, step, w') && IsUserStep(step)
    ensures Joined(s, w')
  {
    match step
    case RuleReset(rule, sub, withTrackers) => ResetKeepsJoined(s, w, rule, sub, withTrackers, w');
    case RuleToggled(rule, active) => ToggleKeepsJoined(s, w, rule, active, w');
    case RuleDeleted(rule) => DeletionKeepsJoined(s, w, rule, w');
  }

  lemma OtherStepKeepsJoined(s: Setting, w: World, step: Step, w': World)
    requires Joined(s, w) && Ready(s, w, step) && Stepped(s, w, step, w') && !IsPollStep(step) && !IsPassStep(step) && !IsUserStep(step)
    ensures Joined(s, w')
  {
    match step
    case Wait(ms) => WaitKeepsJoined(s, w, ms, w');
    case Elsewhere(feedStep) => ElsewhereKeepsJoined(s, w, feedStep, w');
    case OtherLane(laneStep) => OtherLaneKeepsJoined(s, w, laneStep, w');
    case OtherIngested(t, batch) => OtherIngestKeepsJoined(s, w, t, batch, w');
    case OtherCaughtUp(t, releases) => OtherCatchUpKeepsJoined(s, w, t, releases, w');
  }

  lemma SelectionIsReady(s: Setting, w: World, full: bool, groups: seq<seq<GR.Row>>, rows: set<RM.Row>)
    requires GR.Enabled(w.gap, GR.RowsSelected(full, groups)) && RM.Enabled(w.matching, RM.LaneStarted(s.tracker, rows))
    ensures Ready(s, w, RowsSelected(full, groups, rows))
  {
  }

  lemma PollStepIsReady(s: Setting, w: World, step: Step)
    requires IsPollStep(step) && !step.RowsSelected? && GR.Enabled(w.gap, GapStep(s, w, step).value)
    ensures Ready(s, w, step)
  {
  }

  lemma EnabledIsReady(s: Setting, w: World, step: Step)
    requires Enabled(s, w, step)
    ensures Ready(s, w, step)
  {
    if step.RowsSelected? {
      SelectionIsReady(s, w, step.full, step.groups, step.rows);
    } else if IsPollStep(step) {
      PollStepIsReady(s, w, step);
    }
  }

  lemma StepKeepsJoined(s: Setting, w: World, step: Step)
    requires Joined(s, w) && Enabled(s, w, step)
    ensures Joined(s, After(s, w, step))
  {
    StepChanges(s, w, step);
    EnabledIsReady(s, w, step);
    SteppedKeepsJoined(s, w, step, After(s, w, step));
  }

  lemma SteppedKeepsJoined(s: Setting, w: World, step: Step, w': World)
    requires Joined(s, w) && Ready(s, w, step) && Stepped(s, w, step, w')
    ensures Joined(s, w')
  {
    if IsPollStep(step) {
      PollStepKeepsJoined(s, w, step, w');
    } else if IsPassStep(step) {
      PassStepKeepsJoined(s, w, step, w');
    } else if IsUserStep(step) {
      UserStepKeepsJoined(s, w, step, w');
    } else {
      OtherStepKeepsJoined(s, w, step, w');
    }
  }

  // ----- What a search brought back stays buffered

  /** An update that the acknowledged search looked for: made before it began, dated from the start of the gap on. */
  predicate LookedFor(s: Setting, f: FF.World, ack: GR.Ack, i: nat) {
    var log := f.Log(s.tracker);
    && i < |log| && log[i].at < ack.startedAt && log[i].stamp >= ack.since && s.finds(ack.terms)(log[i].topic)
    && ack.startedAt >= f.now - RB.RETENTION_MS
  }

  predicate MadeUp(s: Setting, f: FF.World, ack: GR.Ack, i: nat) {
    LookedFor(s, f, ack, i) ==>
      var key := (s.tracker, f.Log(s.tracker)[i].topic);
      key in f.tables.buffer && f.tables.buffer[key].lastSeen >= ack.startedAt
  }

  ghost predicate Kept(s: Setting, w: World) {
    forall id, i: nat | id in w.gap.acks && w.gap.acks[id].searched :: MadeUp(s, w.feed, w.gap.acks[id], i)
  }

  /** And it keeps the date of the update, once the feed last ingested could list it. */
  predicate Dated(s: Setting, f: FF.World, ack: GR.Ack, i: nat) {
    LookedFor(s, f, ack, i) && i < f.FollowedTo(s.tracker) ==> C.DatedFrom(f, s.tracker, i)
  }

  /** The acknowledgement is of a search over the open gap. */
  predicate StandsFor(g: GR.World, id: GR.RuleId) {
    id in g.acks && g.acks[id].searched && GR.OverThisGap(g.gap, g.acks[id])
  }

  ghost predicate DatesKept(s: Setting, w: World) {
    forall id, i: nat | StandsFor(w.gap, id) :: Dated(s, w.feed, w.gap.acks[id], i)
  }

  /** Once a poll has ingested its feed the tracker is followed. */
  predicate IsFollowing(s: Setting, w: World) {
    IsFollowingIn(s, w.feed, w.gap)
  }

  predicate IsFollowingIn(s: Setting, f: FF.World, g: GR.World) {
    g.acks != map[] || (g.poll.Some? && !g.poll.value.stage.Selecting?) ==> s.tracker in f.followed
  }

  lemma BufferedLater(buffer: map<RB.RowKey, RB.Row>, releases: seq<RB.Release>, now: int, key: RB.RowKey, at: int)
    requires key in buffer && buffer[key].lastSeen >= at && now >= at
    ensures var b := RB.Buffered(buffer, releases, now); key in b && b[key].lastSeen >= at
  {
    RB.BufferedRow(buffer, releases, now, key);
  }

  lemma FeedKeepsMadeUp(s: Setting, f: FF.World, x: FF.Step, f': FF.World, ack: GR.Ack, i: nat)
    requires FeedChange(f, x, f', s.tracker) && MadeUp(s, f, ack, i) && ack.startedAt <= f.now
    ensures MadeUp(s, f', ack, i)
  {
    if LookedFor(s, f', ack, i) {
      assert i < |f.Log(s.tracker)| && f'.Log(s.tracker)[i] == f.Log(s.tracker)[i];
      assert LookedFor(s, f, ack, i);
      var key := (s.tracker, f.Log(s.tracker)[i].topic);
      if x.Polled? {
        BufferedLater(f.tables.buffer, x.batch.releases, f.now, key, ack.startedAt);
      } else if x.CaughtUp? {
        BufferedLater(f.tables.buffer, x.releases, f.now, key, ack.startedAt);
      }
    }
  }

  /** A complete search brings back everything it looked for, and so it is buffered when its rules are acknowledged. */
  lemma SearchMakesUp(s: Setting, w: World, search: GR.Search, found: Found, ack: GR.Ack, i: nat)
    requires Searches(w, search) && search.Complete? && IsFound(s, w, search, found) && MTF.Genuine(w.feed.Log(s.tracker), FF.SKEW)
    requires ack.terms == GR.Members(w.gap)[0].terms && ack.startedAt == w.gap.poll.value.stage.startedAt
    requires ack.since == w.gap.gap.unresolvedSince.value && ack.startedAt <= w.feed.now
    requires LookedFor(s, w.feed, ack, i)
    ensures found.releases != []
    ensures var key := (s.tracker, w.feed.Log(s.tracker)[i].topic);
            var buffer := RB.Buffered(w.feed.tables.buffer, found.releases, w.feed.now);
            && key in buffer && buffer[key].lastSeen >= ack.startedAt
            && buffer[key].published.Some? && buffer[key].published.value >= w.feed.Log(s.tracker)[i].stamp
  {
    var log, finds := w.feed.Log(s.tracker), s.finds(ack.terms);
    var key := (s.tracker, log[i].topic);
    assert i < found.seen;
    var j := FF.NewestOf(log, found.seen, i);
    assert log[j].stamp >= log[i].stamp;
    C.FoundIfRecent(w.feed, s.tracker, found.site, found.seen, finds, ack.since, found.recovery, found.releases, j);
    RB.BufferedRow(w.feed.tables.buffer, found.releases, w.feed.now, key);
    forall r | r in found.releases && RB.RowOf(r) == key ensures r.published == Some(log[j].stamp) {
      var k := C.FoundIsLatest(w.feed, s.tracker, found.site, found.seen, finds, ack.since, found.recovery, found.releases, r);
      assert k == j;
    }
  }

  ghost predicate Inv(s: Setting, w: World) {
    && FF.Inv(w.feed) && GR.Inv(w.gap) && RM.Inv(w.matching) && Joined(s, w)
    && Kept(s, w) && IsFollowing(s, w) && DatesKept(s, w)
  }

  lemma FeedKept(f: FF.World, x: Option<FF.Step>)
    requires FF.Inv(f) && (x.Some? ==> FF.Enabled(f, x.value))
    ensures FF.Inv(FeedAfter(f, x))
  {
    if x.Some? {
      FF.StepKeepsInv(f, x.value);
    }
  }

  lemma GapKept(g: GR.World, x: Option<GR.Step>)
    requires GR.Inv(g) && (x.Some? ==> GR.Enabled(g, x.value))
    ensures GR.Inv(GapAfter(g, x))
  {
    if x.Some? {
      GR.StepKeepsInv(g, x.value);
    }
  }

  lemma MatchKept(m: RM.World, x: Option<RM.Step>)
    requires RM.Inv(m) && (x.Some? ==> RM.Enabled(m, x.value))
    ensures RM.Inv(MatchAfter(m, x))
  {
    if x.Some? {
      RM.StepKeepsInv(m, x.value);
    }
  }

  lemma PartsKept(s: Setting, w: World, step: Step)
    requires Inv(s, w) && Enabled(s, w, step)
    ensures var w' := After(s, w, step); FF.Inv(w'.feed) && GR.Inv(w'.gap) && RM.Inv(w'.matching)
  {
    FeedKept(w.feed, FeedStep(s, w, step));
    GapKept(w.gap, GapStep(s, w, step));
    MatchKept(w.matching, MatchStep(s, w, step));
  }

  /** The acknowledgement of a search of the present group. */
  lemma NewAck(g: GR.World, search: GR.Search, id: GR.RuleId)
    requires GR.Inv(g) && GR.Enabled(g, GR.GroupSearched(search)) && id in GR.After(g, GR.GroupSearched(search)).acks
    ensures var acks := GR.After(g, GR.GroupSearched(search)).acks;
            || (id in g.acks && acks[id] == g.acks[id])
            || (g.gap.unresolvedSince.Some?
                && (acks[id].searched ==>
                      && search.Complete? && GR.AnyPending(GR.Members(g), g.CountingFrom())
                      && acks[id] == GR.Ack(GR.Members(g)[0].terms, g.gap.unresolvedSince.value, g.poll.value.stage.startedAt, true)))
  {
    if g.gap.unresolvedSince.Some? {
      var rows := GR.Members(g);
      GR.RuleAfterSearch(g, search, id);
      if k :| 0 <= k < |rows| && rows[k].id == id && GR.Acks(g, search, rows[k]) {
        assert rows[k] == g.poll.value.groups[g.poll.value.next][k];
      }
    }
  }

  lemma SearchKeepsKept(s: Setting, w: World, search: GR.Search, found: Option<Found>, id: GR.RuleId, i: nat)
    requires Inv(s, w) && Enabled(s, w, GroupSearched(search, found))
    requires var w' := After(s, w, GroupSearched(search, found)); id in w'.gap.acks && w'.gap.acks[id].searched
    ensures var w' := After(s, w, GroupSearched(search, found)); MadeUp(s, w'.feed, w'.gap.acks[id], i)
  {
    var w' := After(s, w, GroupSearched(search, found));
    var x, ack := FeedStep(s, w, GroupSearched(search, found)), w'.gap.acks[id];
    NewAck(w.gap, search, id);
    if x.Some? {
      FeedChanges(w.feed, x.value, s.tracker);
    }
    if id in w.gap.acks && ack == w.gap.acks[id] {
      assert MadeUp(s, w.feed, ack, i);
      if x.Some? {
        FeedKeepsMadeUp(s, w.feed, x.value, w'.feed, ack, i);
      }
    } else if LookedFor(s, w'.feed, ack, i) {
      assert FF.TrackerInv(w.feed, s.tracker);
      SearchMakesUp(s, w, search, found.value, ack, i);
    }
  }

  lemma QuietStepKeepsKept(s: Setting, w: World, step: Step, w': World)
    requires Kept(s, w) && GR.Inv(w.gap) && SameClock(w) && Stepped(s, w, step, w') && !step.GroupSearched?
    ensures Kept(s, w')
  {
    var x := FeedStep(s, w, step);
    assert w'.gap.acks == w.gap.acks;
    forall id, i: nat | id in w'.gap.acks && w'.gap.acks[id].searched ensures MadeUp(s, w'.feed, w'.gap.acks[id], i) {
      assert MadeUp(s, w.feed, w.gap.acks[id], i);
      if x.Some? {
        FeedKeepsMadeUp(s, w.feed, x.value, w'.feed, w.gap.acks[id], i);
      }
    }
  }

  lemma StepKeepsKept(s: Setting, w: World, step: Step)
    requires Inv(s, w) && Enabled(s, w, step)
    ensures Kept(s, After(s, w, step))
  {
    var w' := After(s, w, step);
    if step.GroupSearched? {
      forall id, i: nat | id in w'.gap.acks && w'.gap.acks[id].searched ensures MadeUp(s, w'.feed, w'.gap.acks[id], i) {
        SearchKeepsKept(s, w, step.search, step.found, id, i);
      }
    } else {
      StepChanges(s, w, step);
      QuietStepKeepsKept(s, w, step, w');
    }
  }

  lemma FeedKeepsFollowing(f: FF.World, x: FF.Step)
    requires FF.Enabled(f, x)
    ensures f.followed.Keys <= FF.After(f, x).followed.Keys
    ensures x.Polled? ==> x.tracker in FF.After(f, x).followed
  {
  }

  lemma GapKeepsAcks(g: GR.World, x: GR.Step)
    requires GR.Enabled(g, x)
    ensures var g' := GR.After(g, x);
            && (!x.GroupSearched? ==> g'.acks == g.acks) && (x.GroupSearched? ==> g.poll.Some? && !g.poll.value.stage.Selecting?)
            && (g'.poll.Some? && !g'.poll.value.stage.Selecting? && !x.FeedIngested? ==>
                  g.poll.Some? && !g.poll.value.stage.Selecting?)
  {
  }

  lemma FollowingKept(s: Setting, f: FF.World, f': FF.World, g: GR.World, x: GR.Step)
    requires IsFollowingIn(s, f, g) && GR.Enabled(g, x) && f.followed.Keys <= f'.followed.Keys
    requires x.FeedIngested? ==> s.tracker in f'.followed
    ensures IsFollowingIn(s, f', GR.After(g, x))
  {
    GapKeepsAcks(g, x);
  }

  lemma StepKeepsFollowing(s: Setting, w: World, step: Step)
    requires IsFollowing(s, w) && Enabled(s, w, step)
    ensures IsFollowing(s, After(s, w, step))
  {
    var x, y := FeedStep(s, w, step), GapStep(s, w, step);
    if x.Some? {
      FeedKeepsFollowing(w.feed, x.value);
    }
    if y.Some? {
      FollowingKept(s, w.feed, FeedAfter(w.feed, x), w.gap, y.value);
    }
  }

  lemma FeedKeepsLookedFor(s: Setting, f: FF.World, x: FF.Step, ack: GR.Ack, i: nat)
    requires FF.Enabled(f, x) && ack.startedAt <= f.now && LookedFor(s, FF.After(f, x), ack, i)
    ensures LookedFor(s, f, ack, i) && FF.After(f, x).Log(s.tracker)[i] == f.Log(s.tracker)[i]
  {
    FeedChanges(f, x, s.tracker);
  }

  lemma TablesKeepDates(f: FF.World, x: FF.Step, t: RB.TrackerKey, i: nat)
    requires FF.Enabled(f, x) && !x.Polled? && !x.CaughtUp? && C.DatedFrom(f, t, i)
    ensures C.DatedFrom(FF.After(f, x), t, i)
  {
    FeedChanges(f, x, t);
  }

  lemma FollowedByPollsOnly(f: FF.World, x: FF.Step, t: RB.TrackerKey)
    requires FF.Enabled(f, x)
    ensures FF.After(f, x).FollowedTo(t) == if x.Polled? && x.tracker == t then f.fetches[t].time else f.FollowedTo(t)
  {
  }

  /** No step of the feed loses a date while no gap is found. */
  lemma FeedKeepsDated(s: Setting, f: FF.World, x: FF.Step, ack: GR.Ack, i: nat)
    requires FF.Enabled(f, x) && FF.TrackerInv(f, s.tracker) && s.tracker in f.followed && ack.startedAt <= f.now
    requires MadeUp(s, f, ack, i) && Dated(s, f, ack, i)
    requires x.Polled? && x.tracker == s.tracker ==>
               !RB.GapDetected(RB.StateOf(f.tables, s.tracker), RB.Unique(RB.Keys(x.batch.releases)))
    ensures Dated(s, FF.After(f, x), ack, i)
  {
    var f', t := FF.After(f, x), s.tracker;
    if LookedFor(s, f', ack, i) && i < f'.FollowedTo(t) {
      FeedKeepsLookedFor(s, f, x, ack, i);
      FollowedByPollsOnly(f, x, t);
      if x.Polled? && x.tracker == t {
        C.PollKeepsDates(f, t, x.batch, i);
      } else if x.Polled? {
        C.OtherPollKeepsDates(f, x.tracker, x.batch, t, i);
      } else if x.CaughtUp? {
        C.CatchUpKeepsDates(f, x.tracker, x.releases, t, i);
      } else {
        TablesKeepDates(f, x, t, i);
      }
    }
  }

  /** An acknowledgement that stands after a step stood before it, and no gap was found, unless the step gave it. */
  lemma StoodBefore(g: GR.World, x: GR.Step, id: GR.RuleId)
    requires GR.Inv(g) && GR.Enabled(g, x) && !x.GroupSearched? && StandsFor(GR.After(g, x), id)
    ensures StandsFor(g, id) && GR.After(g, x).acks == g.acks && (x.FeedIngested? ==> !x.gap || g.gap.fetchedAt.None?)
  {
    GapChanges(g, x);
  }

  lemma OldAckStaysDated(s: Setting, w: World, x: Option<FF.Step>, id: GR.RuleId, i: nat)
    requires GR.Inv(w.gap) && FF.TrackerInv(w.feed, s.tracker) && SameClock(w) && Kept(s, w) && IsFollowing(s, w) && DatesKept(s, w)
    requires StandsFor(w.gap, id) && (x.Some? ==> FF.Enabled(w.feed, x.value))
    requires x.Some? && x.value.Polled? && x.value.tracker == s.tracker ==>
               !RB.GapDetected(RB.StateOf(w.feed.tables, s.tracker), RB.Unique(RB.Keys(x.value.batch.releases)))
    ensures Dated(s, FeedAfter(w.feed, x), w.gap.acks[id], i)
  {
    assert MadeUp(s, w.feed, w.gap.acks[id], i) && Dated(s, w.feed, w.gap.acks[id], i);
    if x.Some? {
      FeedKeepsDated(s, w.feed, x.value, w.gap.acks[id], i);
    }
  }

  lemma StoodBeforeStep(s: Setting, w: World, step: Step, id: GR.RuleId)
    requires GR.Inv(w.gap) && Joined(s, w) && Enabled(s, w, step) && !step.GroupSearched? && StandsFor(After(s, w, step).gap, id)
    ensures StandsFor(w.gap, id) && After(s, w, step).gap.acks == w.gap.acks
    ensures var x := FeedStep(s, w, step);
            x.Some? && x.value.Polled? && x.value.tracker == s.tracker ==>
              !RB.GapDetected(RB.StateOf(w.feed.tables, s.tracker), RB.Unique(RB.Keys(x.value.batch.releases)))
  {
    var y := GapStep(s, w, step);
    if y.Some? {
      StoodBefore(w.gap, y.value, id);
    }
    NoGapIngested(s, w, step);
  }

  lemma QuietStepKeepsDated(s: Setting, w: World, step: Step, id: GR.RuleId, i: nat)
    requires Inv(s, w) && Enabled(s, w, step) && !step.GroupSearched? && StandsFor(After(s, w, step).gap, id)
    ensures Dated(s, After(s, w, step).feed, After(s, w, step).gap.acks[id], i)
  {
    StoodBeforeStep(s, w, step, id);
    assert FF.TrackerInv(w.feed, s.tracker);
    OldAckStaysDated(s, w, FeedStep(s, w, step), id, i);
  }

  /** A poll of the tracker's own feed is an ingest, and finds a gap only if the gap protocol is told. */
  lemma NoGapIngested(s: Setting, w: World, step: Step)
    requires Joined(s, w) && Enabled(s, w, step)
    ensures var x := FeedStep(s, w, step);
            x.Some? && x.value.Polled? && x.value.tracker == s.tracker ==>
              && step.FeedIngested? && x.value.batch == step.batch
              && (RB.GapDetected(RB.StateOf(w.feed.tables, s.tracker), RB.Unique(RB.Keys(step.batch.releases))) ==>
                    GapStep(s, w, step) == Some(GR.FeedIngested(true)) && w.gap.gap.fetchedAt.Some?)
  {
  }

  lemma NewAckIsDated(s: Setting, w: World, search: GR.Search, found: Found, x: Option<FF.Step>, ack: GR.Ack, i: nat)
    requires Searches(w, search) && search.Complete? && IsFound(s, w, search, found) && FF.TrackerInv(w.feed, s.tracker)
    requires ack.terms == GR.Members(w.gap)[0].terms && ack.startedAt == w.gap.poll.value.stage.startedAt
    requires ack.since == w.gap.gap.unresolvedSince.value && ack.startedAt <= w.feed.now
    requires x == (if found.releases != [] then Some(FF.CaughtUp(s.tracker, found.releases)) else None)
    requires x.Some? ==> FF.Enabled(w.feed, x.value)
    ensures Dated(s, FeedAfter(w.feed, x), ack, i)
  {
    if x.Some? {
      if LookedFor(s, FeedAfter(w.feed, x), ack, i) {
        FeedKeepsLookedFor(s, w.feed, x.value, ack, i);
        SearchMakesUp(s, w, search, found, ack, i);
      }
    } else if LookedFor(s, w.feed, ack, i) {
      SearchMakesUp(s, w, search, found, ack, i);
    }
  }

  /** The new acknowledgement is of a search whose results were buffered. */
  lemma NewAckIsFound(s: Setting, w: World, search: GR.Search, found: Option<Found>, id: GR.RuleId)
    requires GR.Inv(w.gap) && GR.Enabled(w.gap, GR.GroupSearched(search)) && Coupled(s, w, GroupSearched(search, found))
    requires StandsFor(GR.After(w.gap, GR.GroupSearched(search)), id)
    ensures var ack := GR.After(w.gap, GR.GroupSearched(search)).acks[id];
            if id in w.gap.acks && ack == w.gap.acks[id] then StandsFor(w.gap, id)
            else
              && Searches(w, search) && search.Complete? && found.Some? && IsFound(s, w, search, found.value)
              && ack.terms == GR.Members(w.gap)[0].terms && ack.startedAt == w.gap.poll.value.stage.startedAt
              && ack.since == w.gap.gap.unresolvedSince.value
  {
    NewAck(w.gap, search, id);
    GapChanges(w.gap, GR.GroupSearched(search));
  }

  lemma SearchKeepsDated(s: Setting, w: World, search: GR.Search, found: Option<Found>, id: GR.RuleId, i: nat)
    requires Inv(s, w) && Enabled(s, w, GroupSearched(search, found))
    requires StandsFor(After(s, w, GroupSearched(search, found)).gap, id)
    ensures var w' := After(s, w, GroupSearched(search, found)); Dated(s, w'.feed, w'.gap.acks[id], i)
  {
    var x, ack := FeedStep(s, w, GroupSearched(search, found)), GR.After(w.gap, GR.GroupSearched(search)).acks[id];
    NewAckIsFound(s, w, search, found, id);
    if id in w.gap.acks && ack == w.gap.acks[id] {
      OldAckStaysDated(s, w, x, id, i);
    } else {
      NewAckIsDated(s, w, search, found.value, x, ack, i);
    }
  }

  lemma StepKeepsDates(s: Setting, w: World, step: Step)
    requires Inv(s, w) && Enabled(s, w, step)
    ensures DatesKept(s, After(s, w, step))
  {
    var w' := After(s, w, step);
    forall id, i: nat | StandsFor(w'.gap, id) ensures Dated(s, w'.feed, w'.gap.acks[id], i) {
      if step.GroupSearched? {
        SearchKeepsDated(s, w, step.search, step.found, id, i);
      } else {
        QuietStepKeepsDated(s, w, step, id, i);
      }
    }
  }

  lemma StepKeepsInv(s: Setting, w: World, step: Step)
    requires Inv(s, w) && Enabled(s, w, step)
    ensures Inv(s, After(s, w, step))
  {
    PartsKept(s, w, step);
    StepKeepsJoined(s, w, step);
    StepKeepsKept(s, w, step);
    StepKeepsFollowing(s, w, step);
    StepKeepsDates(s, w, step);
  }

  lemma {:induction false} RunKeepsInv(s: Setting, w: World, steps: seq<Step>)
    requires Inv(s, w) && Admissible(s, w, steps)
    ensures Inv(s, Run(s, w, steps))
    decreases |steps|
  {
    if steps != [] {
      StepKeepsInv(s, w, steps[0]);
      RunKeepsInv(s, After(s, w, steps[0]), steps[1..]);
    }
  }

  // ----- None of the three holds up the others

  /** A run may start with empty tables, with any tracker and whatever its search finds. */
  lemma EmptyIsAStart(s: Setting, matcher: (RM.Terms, RM.Title) -> bool)
    ensures Start(s, World(
      FF.World(0, map[], map[], RB.Tables(map[], map[]), map[], map[], map[], map[]),
      GR.World(0, None, map[], GR.GapState(None, None, None), None, map[], 0),
      RM.World(matcher, {s.tracker}, map[], map[], map[], RM.Db(map[], map[], [], []), map[], map[], map[], map[], {})))
  {
    forall t: RB.TrackerKey ensures RB.ViewOf(map[], t) == map[] {
    }
  }

  function RowFor(s: Setting, m: RM.World, id: RM.RuleId): RM.Row
    requires id in m.db.rules
  {
    RM.Row(id, m.db.rules[id].terms, s.tracker, RM.IsBaseline(RM.StateOf(m.states, id, s.tracker), m.Revision(s.tracker)), m.Epoch(id))
  }

  /** Whatever rules the poll selects, the lane has the rows to match them. */
  lemma SelectionIsPossible(s: Setting, w: World, full: bool, groups: seq<seq<GR.Row>>) returns (rows: set<RM.Row>)
    requires Inv(s, w) && GR.Enabled(w.gap, GR.RowsSelected(full, groups)) && s.tracker !in w.matching.lanes
    ensures Enabled(s, w, RowsSelected(full, groups, rows))
  {
    var m := w.matching;
    rows := set id | id in m.db.rules && GR.InGroups(groups, 0, |groups|, id) :: RowFor(s, m, id);
    forall row | row in rows ensures row.tracker == s.tracker && RM.IsSelected(m, row) {
      var g, k :| 0 <= g < |groups| && 0 <= k < |groups[g]| && groups[g][k].id == row.rule;
      assert SameRule(s, w.gap.rules[row.rule], m.db.rules[row.rule], RM.StateOf(m.states, row.rule, s.tracker));
    }
    forall g, k | 0 <= g < |groups| && 0 <= k < |groups[g]| ensures HasRow(rows, groups[g][k].id) {
      var id := groups[g][k].id;
      assert id in w.gap.rules && GR.InGroups(groups, 0, |groups|, id);
      assert RowFor(s, m, id) in rows && RowFor(s, m, id).rule == id;
    }
  }

  /** Whatever feed was fetched can be ingested. */
  lemma IngestIsPossible(s: Setting, w: World, batch: RB.Batch)
    requires Inv(s, w) && FF.Enabled(w.feed, FF.Polled(s.tracker, batch)) && GR.Enabled(w.gap, GapStep(s, w, FeedIngested(batch)).value)
    ensures Enabled(s, w, FeedIngested(batch))
  {
  }

  lemma FoundIsPossible(s: Setting, w: World, search: GR.Search, found: Found)
    requires SameLane(s, w.gap, w.matching) && Searches(w, search) && IsFound(s, w, search, found)
    ensures FF.Enabled(w.feed, FF.CaughtUp(s.tracker, found.releases))
    ensures RM.Enabled(w.matching, RM.CaughtUp(s.tracker, found.releases, w.feed.now))
  {
    C.SearchIsTrue(w.feed, s.tracker, found.site, found.seen, s.finds(GR.Members(w.gap)[0].terms), w.gap.gap.unresolvedSince.value,
                   found.recovery, found.releases);
    assert FF.Enabled(w.feed, FF.CaughtUp(s.tracker, found.releases));
  }

  /** Whatever a search brings back can be buffered and matched, and the feed goes on being followed. */
  lemma SearchIsPossible(s: Setting, w: World, search: GR.Search, found: Option<Found>)
    requires Inv(s, w) && GR.Enabled(w.gap, GR.GroupSearched(search)) && Coupled(s, w, GroupSearched(search, found))
    ensures Enabled(s, w, GroupSearched(search, found))
  {
    if found.Some? {
      FoundIsPossible(s, w, search, found.value);
    }
  }

  /** Nothing stands in the way of a poll that is to start a group, give one up, do without its feed, finish, or end its lane. */
  lemma LaneMovesOn(s: Setting, w: World, step: Step)
    requires || step.Wait? || step.FeedFailed? || step.GroupStarted? || step.GroupEnded? || step.PollFinished? || step.Restarted?
             || step.LaneEnded?
    requires GapStep(s, w, step).Some? ==> GR.Enabled(w.gap, GapStep(s, w, step).value)
    requires step.LaneEnded? ==> w.gap.poll.None? && s.tracker in w.matching.lanes
    ensures Enabled(s, w, step)
  {
  }

  /** And a pass that is done takes the poll on to its next rule. */
  lemma PassEndIsPossible(s: Setting, w: World)
    requires Inv(s, w) && RM.Enabled(w.matching, RM.PassEnded(s.tracker))
    ensures Enabled(s, w, PassEnded)
  {
  }

  // ----- Main results

  lemma FeedStarts(f: FF.World)
    requires FF.Start(f)
    ensures FF.Inv(f)
  {
  }

  lemma GapStarts(g: GR.World)
    requires GR.Start(g)
    ensures GR.Inv(g) && g.acks == map[]
  {
  }

  lemma MatchStarts(m: RM.World)
    requires RM.Start(m)
    ensures RM.Inv(m)
  {
  }

  lemma StartHasInv(s: Setting, start: World)
    requires Start(s, start)
    ensures Inv(s, start)
  {
    FeedStarts(start.feed);
    GapStarts(start.gap);
    MatchStarts(start.matching);
  }

  /**
   * Every run of the machine is a run of each of the three, and they agree all along: on the clock, the gap of the
   * feed, the buffer, the rules with their states, and the rule that is being matched.
   */
  lemma RunsAreJoined(s: Setting, start: World, steps: seq<Step>)
    requires Start(s, start) && Admissible(s, start, steps)
    ensures var w := Run(s, start, steps);
            && FF.Admissible(start.feed, FeedRun(s, start, steps)) && FF.Run(start.feed, FeedRun(s, start, steps)) == w.feed
            && GR.Admissible(start.gap, GapRun(s, start, steps)) && GR.Run(start.gap, GapRun(s, start, steps)) == w.gap
            && RM.Admissible(start.matching, MatchRun(s, start, steps))
            && RM.Run(start.matching, MatchRun(s, start, steps)) == w.matching
            && Joined(s, w)
  {
    FeedRunIsARun(s, start, steps);
    GapRunIsARun(s, start, steps);
    MatchRunIsARun(s, start, steps);
    StartHasInv(s, start);
    RunKeepsInv(s, start, steps);
  }

  /** The end of the poll closes the gap, or notes that it is still open, or neither. */
  predicate Marks(s: Setting, p: GR.Poll, state: Option<RB.FeedState>, mark: Option<FF.Step>) {
    if state.None? || state.value.unresolvedGapSince.None? then mark.None?
    else if p.full && p.retries == 0 then mark == Some(FF.GapMarked(s.tracker, true))
    else mark == if p.attempts >= 1 then Some(FF.GapMarked(s.tracker, false)) else None
  }

  lemma EndMarks(s: Setting, w: World)
    requires w.gap.poll.Some? && SameGap(s, w.feed, w.gap)
    ensures Marks(s, w.gap.poll.value, RB.StateOf(w.feed.tables, s.tracker), FeedStep(s, w, PollFinished))
  {
  }

  lemma GapIsShared(s: Setting, start: World, steps: seq<Step>)
    requires Start(s, start) && Admissible(s, start, steps)
    ensures SameGap(s, Run(s, start, steps).feed, Run(s, start, steps).gap)
  {
    RunsAreJoined(s, start, steps);
  }

  /**
   * What the end of a poll does to the feed's state. A poll of all rules with no search to repeat closes the open gap;
   * any other one notes that the gap is still open exactly if it searched at all; without an open gap nothing is noted.
   */
  lemma PollMarksExactly(s: Setting, start: World, steps: seq<Step>)
    requires Start(s, start) && Admissible(s, start, steps) && Run(s, start, steps).gap.poll.Some?
    ensures var w := Run(s, start, steps);
            Marks(s, w.gap.poll.value, RB.StateOf(w.feed.tables, s.tracker), FeedStep(s, w, PollFinished))
  {
    GapIsShared(s, start, steps);
    EndMarks(s, Run(s, start, steps));
  }

  /** Of the gap: dated from its start on, or made ten minutes after the poll before it. */
  predicate OfTheGap(u: MTF.Update, since: int) {
    u.stamp >= since || u.at >= since + FF.SKEW
  }

  /**
   * The update is made up: its topic was seen since the search began, and is dated no earlier than the update if the
   * feed last ingested could list it, as it could every update that the gap lost; and exactly so if the topic was not
   * updated since.
   */
  predicate IsMadeUp(s: Setting, f: FF.World, ack: GR.Ack, i: nat) {
    var t, log := s.tracker, f.Log(s.tracker);
    && i < |log| && (t, log[i].topic) in f.tables.buffer
    && f.tables.buffer[(t, log[i].topic)].lastSeen >= ack.startedAt
    && (i < f.FollowedTo(t) ==> C.DatedFrom(f, t, i) && (MTF.IsLatest(log, |log|, i) ==> C.BufferedAs(f, t, log[i])))
  }

  lemma LatestIsExact(s: Setting, f: FF.World, i: nat)
    requires FF.TrackerInv(f, s.tracker) && C.DatedFrom(f, s.tracker, i) && MTF.IsLatest(f.Log(s.tracker), |f.Log(s.tracker)|, i)
    ensures C.BufferedAs(f, s.tracker, f.Log(s.tracker)[i])
  {
    var log, topic := f.Log(s.tracker), f.Log(s.tracker)[i].topic;
    var view := RB.ViewOf(f.tables.buffer, s.tracker);
    assert topic in view && view[topic] == f.tables.buffer[(s.tracker, topic)];
    assert FF.Reported(log, topic, view[topic].published.value);
  }

  lemma AcknowledgedIsMadeUp(s: Setting, w: World, id: GR.RuleId, i: nat)
    requires Inv(s, w) && StandsFor(w.gap, id)
    requires var log, ack := w.feed.Log(s.tracker), w.gap.acks[id];
             && i < |log| && OfTheGap(log[i], ack.since) && s.finds(ack.terms)(log[i].topic)
             && log[i].at < ack.startedAt && ack.startedAt >= w.feed.now - RB.RETENTION_MS
    ensures IsMadeUp(s, w.feed, w.gap.acks[id], i)
  {
    assert FF.TrackerInv(w.feed, s.tracker);
    var ack, log := w.gap.acks[id], w.feed.Log(s.tracker);
    assert LookedFor(s, w.feed, ack, i);
    assert MadeUp(s, w.feed, ack, i) && Dated(s, w.feed, ack, i);
    if i < w.feed.FollowedTo(s.tracker) && MTF.IsLatest(log, |log|, i) {
      LatestIsExact(s, w.feed, i);
    }
  }

  /**
   * A closed gap is made up. Whenever a poll of any run closes a gap, each active rule that it does not close over
   * is on its silent baseline, cannot catch up, or was acknowledged for the terms it has now, after the gap was last
   * found. If by a search, every update of the gap that its terms find and that was made before that search began is
   * made up, unless the search was made two weeks ago.
   */
  lemma ClosedGapIsMadeUp(s: Setting, start: World, steps: seq<Step>, id: GR.RuleId, i: nat)
    requires Start(s, start) && Admissible(s, start, steps)
    requires var w := Run(s, start, steps);
             && GR.Closes(w.gap) && id in w.gap.rules && w.gap.rules[id].active && !GR.Owed(w.gap, id)
             && i < |w.feed.Log(s.tracker)| && OfTheGap(w.feed.Log(s.tracker)[i], w.gap.gap.unresolvedSince.value)
             && s.finds(w.gap.rules[id].terms)(w.feed.Log(s.tracker)[i].topic)
    ensures var w := Run(s, start, steps);
            var rule, u := w.gap.rules[id], w.feed.Log(s.tracker)[i];
            || GR.IsBaseline(rule, w.gap.revision)
            || GR.HopelessFor(w.gap, id, rule.terms)
            || (&& GR.CoveredFor(w.gap, id, rule.terms)
                && var ack := w.gap.acks[id];
                   ack.searched && u.at < ack.startedAt && ack.startedAt >= w.feed.now - RB.RETENTION_MS ==>
                     IsMadeUp(s, w.feed, ack, i))
  {
    StartHasInv(s, start);
    RunKeepsInv(s, start, steps);
    var w := Run(s, start, steps);
    if GR.CoveredFor(w.gap, id, w.gap.rules[id].terms) {
      var ack, u := w.gap.acks[id], w.feed.Log(s.tracker)[i];
      if ack.searched && u.at < ack.startedAt && ack.startedAt >= w.feed.now - RB.RETENTION_MS {
        AcknowledgedIsMadeUp(s, w, id, i);
      }
    }
  }

  /** A pass is about to end, and its rule was not edited since it began. */
  predicate EndsUndisturbed(s: Setting, w: World) {
    var t, m := s.tracker, w.matching;
    t in m.passes && RM.Enabled(m, RM.PassEnded(t)) && m.passes[t].undisturbed
  }

  predicate TitleMatches(s: Setting, w: World, topic: RB.TopicId) {
    var t, m := s.tracker, w.matching;
    t in m.passes && ((t, topic) in m.buffer ==> m.matcher(m.passes[t].row.terms, m.buffer[(t, topic)].title))
  }

  predicate IsRecorded(s: Setting, w: World, topic: RB.TopicId) {
    var t, m := s.tracker, w.matching;
    t in m.passes && RM.MatchKey(m.passes[t].row.rule, t, topic) in m.db.matches
  }

  lemma BufferedIsRecorded(s: Setting, w: World, topic: RB.TopicId)
    requires Inv(s, w) && EndsUndisturbed(s, w) && TitleMatches(s, w, topic) && (s.tracker, topic) in w.matching.buffer
    ensures IsRecorded(s, w, topic)
  {
    RM.EndingPass(w.matching, s.tracker);
  }

  /** The rule now matched has a search behind it, over the open gap and for the terms it is matched with. */
  predicate IsCaughtUp(s: Setting, w: World) {
    s.tracker in w.matching.passes &&
    var row := w.matching.passes[s.tracker].row;
    GR.CoveredFor(w.gap, row.rule, s.required(row.terms)) && w.gap.acks[row.rule].searched
  }

  /** Its group has just been searched completely. */
  predicate IsSearched(s: Setting, w: World) {
    && s.tracker in w.matching.passes && GR.InGroup(w.gap) && w.gap.gap.unresolvedSince.Some? && w.gap.poll.value.stage.Matching?
    && GR.Searched(GR.Members(w.gap), w.gap.CountingFrom(), w.gap.poll.value.stage.search)
  }

  lemma SearchedIsCaughtUp(s: Setting, w: World)
    requires Inv(s, w) && IsSearched(s, w)
    ensures IsCaughtUp(s, w)
  {
    var p, row := w.gap.poll.value, w.matching.passes[s.tracker].row;
    assert SameRow(s, p.groups, row);
    var k := p.stage.done;
    assert p.groups[p.next][k].id == row.rule && p.groups[p.next][k].terms == s.required(row.terms);
    assert w.gap.acks[row.rule] == GR.Ack(s.required(row.terms), w.gap.gap.unresolvedSince.value, p.stage.startedAt, true);
  }

  /** An update of the gap that the search behind the rule now matched looked for. */
  predicate IsMissed(s: Setting, w: World, i: nat) {
    && s.tracker in w.matching.passes && w.matching.passes[s.tracker].row.rule in w.gap.acks && i < |w.feed.Log(s.tracker)|
    && var ack, u := w.gap.acks[w.matching.passes[s.tracker].row.rule], w.feed.Log(s.tracker)[i];
       && OfTheGap(u, ack.since) && s.finds(ack.terms)(u.topic)
       && u.at < ack.startedAt && ack.startedAt >= w.feed.now - RB.RETENTION_MS
  }

  /**
   * And what was missed is recorded. When an undisturbed pass ends over a rule that has caught up, as it has whenever
   * its group was just searched completely, every update of the gap that its terms find and its title matcher
   * accepts, made before the search began, is a recorded match, unless the search was made two weeks ago.
   */
  lemma MissedUpdateIsRecorded(s: Setting, start: World, steps: seq<Step>, i: nat)
    requires Start(s, start) && Admissible(s, start, steps)
    requires var w := Run(s, start, steps);
             && EndsUndisturbed(s, w) && (IsCaughtUp(s, w) || IsSearched(s, w)) && IsMissed(s, w, i)
             && TitleMatches(s, w, w.feed.Log(s.tracker)[i].topic)
    ensures var w := Run(s, start, steps); IsRecorded(s, w, w.feed.Log(s.tracker)[i].topic)
  {
    StartHasInv(s, start);
    RunKeepsInv(s, start, steps);
    var w := Run(s, start, steps);
    if IsSearched(s, w) {
      SearchedIsCaughtUp(s, w);
    }
    AcknowledgedIsMadeUp(s, w, w.matching.passes[s.tracker].row.rule, i);
    BufferedIsRecorded(s, w, w.feed.Log(s.tracker)[i].topic);
  }

  /** The conditions in which the buffer of a followed feed is exact (FeedFollowing.BufferIsExact). */
  predicate IsFollowed(s: Setting, w: World, i: nat) {
    var t, f := s.tracker, w.feed;
    && t in f.followed && i < f.FollowedTo(t) && MTF.IsLatest(f.Log(t), |f.Log(t)|, i)
    && t in f.tables.feed && f.tables.feed[t].continuousSince.Some?
    && f.Log(t)[i].at >= f.tables.feed[t].continuousSince.value + FF.SKEW && f.Log(t)[i].at >= f.now - RB.RETENTION_MS
  }

  /**
   * From the feed to a recorded match. In any run a followed update is buffered with its stamp, and recorded when
   * an undisturbed pass ends over a rule that its buffered title matches.
   */
  lemma FollowedUpdateIsRecorded(s: Setting, start: World, steps: seq<Step>, i: nat)
    requires Start(s, start) && Admissible(s, start, steps)
    requires var w := Run(s, start, steps); IsFollowed(s, w, i)
    ensures var w := Run(s, start, steps);
            && C.BufferedAs(w.feed, s.tracker, w.feed.Log(s.tracker)[i])
            && (EndsUndisturbed(s, w) && TitleMatches(s, w, w.feed.Log(s.tracker)[i].topic) ==>
                  IsRecorded(s, w, w.feed.Log(s.tracker)[i].topic))
  {
    FeedRunIsARun(s, start, steps);
    FF.BufferIsExact(start.feed, FeedRun(s, start, steps), s.tracker, i);
    StartHasInv(s, start);
    RunKeepsInv(s, start, steps);
    var w := Run(s, start, steps);
    if EndsUndisturbed(s, w) && TitleMatches(s, w, w.feed.Log(s.tracker)[i].topic) {
      BufferedIsRecorded(s, w, w.feed.Log(s.tracker)[i].topic);
    }
  }
}

/**
 * Catching up after a feed gap (server/scheduler.ts, pollRules). The gap of a tracker stays open over
 * many polls until every rule has caught up, is on its silent baseline, or can never catch up. Rules
 * acknowledge with the start of their own catch-up search, and users edit rules between any two steps.
 */
module GapRecovery {
  import opened Wrappers
  import RB = ReleaseBuffer

  type RuleId = nat

  /** The required terms of a rule, which are what a catch-up search looks for. */
  type Terms = nat

  /**
   * A rule and its state on the tracker: whether it is enabled and watches the tracker, whether its baseline
   * was taken and under which discovery revision, and its acknowledgement. A rule without a row in the state
   * table has the values with which the selection fills it in.
   */
  datatype Rule = Rule(terms: Terms, active: bool, initialized: bool, revision: Option<nat>, gapRecoveredAt: Option<int>)

  /** A rule as a poll selected it. */
  datatype Row = Row(id: RuleId, terms: Terms, baseline: bool, gapRecoveredAt: Option<int>)

  datatype GapState = GapState(fetchedAt: Option<int>, unresolvedSince: Option<int>, lastGapAt: Option<int>)

  /** How one catch-up search ended. Login problems and missing support are final, other errors are not. */
  datatype Search = Complete | ReachedPageLimit | Failed(final: bool)

  predicate IsBaseline(rule: Rule, revision: Option<nat>) {
    !rule.initialized || (revision.Some? && rule.revision != revision)
  }

  function Selected(id: RuleId, rule: Rule, revision: Option<nat>): Row {
    Row(id, rule.terms, IsBaseline(rule, revision), rule.gapRecoveredAt)
  }

  // ----- Effects on the tables

  function PolledGap(g: GapState, gap: bool, now: int): GapState {
    var detected := gap && g.fetchedAt.Some?;
    GapState(
      Some(now), g.unresolvedSince.Or(if detected then g.fetchedAt else None),
      if detected then Some(now) else g.lastGapAt)
  }

  function GapOf(s: Option<RB.FeedState>): GapState {
    if s.None? then GapState(None, None, None)
    else GapState(Some(s.value.fetchedAt), s.value.unresolvedGapSince, s.value.lastGapAt)
  }

  /** The gap fields here follow the feed state kept by the release buffer. */
  lemma PolledGapIsNextState(s: Option<RB.FeedState>, batch: RB.Batch, now: int)
    ensures GapOf(Some(RB.NextState(s, batch, now)))
         == PolledGap(GapOf(s), RB.GapDetected(s, RB.Unique(RB.Keys(batch.releases))), now)
  {
  }

  function MarkedRecovered(rules: map<RuleId, Rule>, rows: seq<Row>, at: int): map<RuleId, Rule> {
    map id | id in rules ::
      if exists row | row in rows :: row.id == id then rules[id].(gapRecoveredAt := Some(at)) else rules[id]
  }

  function Initialized(rules: map<RuleId, Rule>, id: RuleId, revision: Option<nat>): map<RuleId, Rule> {
    if id in rules then rules[id := rules[id].(initialized := true, revision := revision.Or(rules[id].revision))] else rules
  }

  function Baselines(rows: seq<Row>): seq<Row> {
    if rows == [] then []
    else (if rows[0].baseline then [rows[0]] else []) + Baselines(rows[1..])
  }

  lemma {:induction false} BaselineRows(rows: seq<Row>, row: Row)
    ensures row in Baselines(rows) <==> row in rows && row.baseline
  {
    if rows != [] {
      BaselineRows(rows[1..], row);
      assert rows == [rows[0]] + rows[1..];
    }
  }

  predicate AllThere(rows: seq<Row>, ids: set<RuleId>) {
    forall row | row in rows :: row.id in ids
  }

  /** The rows before the first whose rule was deleted. */
  function Before(rows: seq<Row>, ids: set<RuleId>): seq<Row> {
    if rows == [] || rows[0].id !in ids then [] else [rows[0]] + Before(rows[1..], ids)
  }

  lemma {:induction false} BeforeRows(rows: seq<Row>, ids: set<RuleId>)
    ensures Before(rows, ids) <= rows && AllThere(Before(rows, ids), ids)
    ensures AllThere(rows, ids) <==> Before(rows, ids) == rows
    ensures var n := |Before(rows, ids)|; n < |rows| ==> rows[n].id !in ids
  {
    if rows != [] {
      BeforeRows(rows[1..], ids);
      assert rows == [rows[0]] + rows[1..];
    }
  }

  lemma {:induction false} BeforeOf(rows: seq<Row>, ids: set<RuleId>, n: nat)
    requires n <= |rows| && AllThere(rows[..n], ids) && (n < |rows| ==> rows[n].id !in ids)
    ensures Before(rows, ids) == rows[..n]
  {
    if n > 0 {
      assert rows[..n] == [rows[0]] + rows[1..][..n - 1];
      BeforeOf(rows[1..], ids, n - 1);
    }
  }

  predicate CaughtUpAfter(ack: Option<int>, after: Option<int>) {
    ack.Some? && after.Some? && ack.value >= after.value
  }

  predicate Pending(row: Row, after: Option<int>) {
    !row.baseline && !CaughtUpAfter(row.gapRecoveredAt, after)
  }

  predicate AnyPending(rows: seq<Row>, after: Option<int>) {
    exists row | row in rows :: Pending(row, after)
  }

  predicate Searched(rows: seq<Row>, after: Option<int>, search: Search) {
    AnyPending(rows, after) && search.Complete?
  }

  /** A later poll has to repeat the group's search. */
  predicate NeedsRetry(rows: seq<Row>, after: Option<int>, search: Search) {
    AnyPending(rows, after) && search.Failed? && !search.final
  }

  /** The rows a complete search acknowledges: all, or those before the first whose rule is no longer there. */
  function BySearch(ids: set<RuleId>, rows: seq<Row>, after: Option<int>, search: Search): seq<Row> {
    if Searched(rows, after, search) then Before(rows, ids) else []
  }

  /** An acknowledgement that fails on a deleted rule counts as a failed search. */
  function Outcome(ids: set<RuleId>, rows: seq<Row>, after: Option<int>, search: Search): Search {
    if Searched(rows, after, search) && !AllThere(rows, ids) then Failed(false) else search
  }

  function ByBaseline(ids: set<RuleId>, rows: seq<Row>): seq<Row> {
    Before(Baselines(rows), ids)
  }

  predicate IsAcknowledged(ids: set<RuleId>, rows: seq<Row>, after: Option<int>, search: Search, row: Row) {
    row in BySearch(ids, rows, after, search) || row in ByBaseline(ids, rows)
  }

  /** One discovery group while the gap is open: search if anyone needs it, and acknowledge. */
  function Acknowledged(rules: map<RuleId, Rule>, rows: seq<Row>, after: Option<int>, startedAt: int, search: Search): map<RuleId, Rule> {
    MarkedRecovered(MarkedRecovered(rules, BySearch(rules.Keys, rows, after, search), startedAt), ByBaseline(rules.Keys, rows), startedAt)
  }

  lemma MarkedTwice(rules: map<RuleId, Rule>, rows: seq<Row>, more: seq<Row>, at: int)
    ensures var rules' := MarkedRecovered(MarkedRecovered(rules, rows, at), more, at);
            && rules'.Keys == rules.Keys
            && forall id | id in rules ::
                 rules'[id] == if exists row :: (row in rows || row in more) && row.id == id
                               then rules[id].(gapRecoveredAt := Some(at)) else rules[id]
  {
  }

  /** With no rule of the group deleted, who is acknowledged. */
  lemma AcknowledgedIfThere(rules: map<RuleId, Rule>, rows: seq<Row>, after: Option<int>, startedAt: int, search: Search)
    requires AllThere(rows, rules.Keys)
    ensures var rules' := Acknowledged(rules, rows, after, startedAt, search);
            && rules'.Keys == rules.Keys
            && forall id | id in rules ::
                 rules'[id] == if exists row | row in rows :: row.id == id && (row.baseline || Searched(rows, after, search))
                               then rules[id].(gapRecoveredAt := Some(startedAt)) else rules[id]
  {
    AcknowledgedRows(rules.Keys, rows, after, search);
    MarkedTwice(rules, BySearch(rules.Keys, rows, after, search), ByBaseline(rules.Keys, rows), startedAt);
  }

  lemma AcknowledgedRows(ids: set<RuleId>, rows: seq<Row>, after: Option<int>, search: Search)
    requires AllThere(rows, ids)
    ensures forall row :: IsAcknowledged(ids, rows, after, search, row) <==>
                          row in rows && (row.baseline || Searched(rows, after, search))
    ensures forall row :: row in BySearch(ids, rows, after, search) <==> row in rows && Searched(rows, after, search)
    ensures AllThere(Baselines(rows), ids)
  {
    forall row ensures row in Baselines(rows) <==> row in rows && row.baseline {
      BaselineRows(rows, row);
    }
    BeforeRows(rows, ids);
    BeforeRows(Baselines(rows), ids);
  }

  // ----- The tables, updated in place

  class RuleStates {
    var rules: map<RuleId, Rule>
    var recoveryAttempts: nat
    var recoveryRetries: nat

    /**
     * Acknowledges the rows in turn. A rule that was deleted since it was selected breaks its row's foreign key:
     * the loop ends there, and the rows before it stay acknowledged.
     */
    method MarkGapRecovered(rows: seq<Row>, at: int) returns (ok: bool)
      modifies this`rules
      ensures ok <==> AllThere(rows, rules.Keys)
      ensures rules.Keys == old(rules).Keys
      ensures rules == MarkedRecovered(old(rules), Before(rows, old(rules).Keys), at)
    {
      for i := 0 to |rows|
        invariant rules.Keys == old(rules).Keys && AllThere(rows[..i], old(rules).Keys)
        invariant rules == MarkedRecovered(old(rules), rows[..i], at)
      {
        if rows[i].id !in rules {
          BeforeOf(rows, old(rules).Keys, i);
          assert rows[i] in rows;
          return false;
        }
        assert rows[..i + 1] == rows[..i] + [rows[i]];
        rules := rules[rows[i].id := rules[rows[i].id].(gapRecoveredAt := Some(at))];
      }
      assert rows[..|rows|] == rows;
      BeforeOf(rows, old(rules).Keys, |rows|);
      ok := true;
    }

    /**
     * A rule whose matches are recorded is past its baseline; its terms and acknowledgement stay, and so do
     * other rules. For a rule that was deleted it fails.
     */
    method UpdateTrackerState(id: RuleId, revision: Option<nat>) returns (ok: bool)
      modifies this`rules
      ensures ok <==> id in old(rules)
      ensures rules == Initialized(old(rules), id, revision)
      ensures rules.Keys == old(rules).Keys
      ensures ok ==> !IsBaseline(rules[id], revision)
      ensures forall other | other in rules ::
                && rules[other].terms == old(rules)[other].terms && rules[other].active == old(rules)[other].active
                && rules[other].gapRecoveredAt == old(rules)[other].gapRecoveredAt
                && (other != id ==> rules[other] == old(rules)[other])
    {
      if id !in rules {
        return false;
      }
      rules := rules[id := rules[id].(initialized := true, revision := revision.Or(rules[id].revision))];
      ok := true;
    }

    /**
     * What follows a group's search without another await; `search` is what a search would return. If every rule
     * of the group is still there, a rule is acknowledged with the start of the search exactly if it is on its
     * baseline or the group was searched completely. A rule missing from the acknowledged ones counts as a failed
     * search, and one missing from those on their baseline ends the group.
     */
    method RecoverGroup(rows: seq<Row>, after: Option<int>, startedAt: int, search: Search) returns (ok: bool)
      modifies this
      ensures ok <==> AllThere(Baselines(rows), rules.Keys)
      ensures rules == Acknowledged(old(rules), rows, after, startedAt, search) && rules.Keys == old(rules).Keys
      ensures AllThere(rows, rules.Keys) ==> forall id | id in rules ::
                rules[id] ==
                if exists row | row in rows :: row.id == id && (row.baseline || Searched(rows, after, search))
                then old(rules)[id].(gapRecoveredAt := Some(startedAt)) else old(rules)[id]
      ensures recoveryAttempts == old(recoveryAttempts) + if AnyPending(rows, after) then 1 else 0
      ensures recoveryRetries == old(recoveryRetries) +
                if NeedsRetry(rows, after, search) || (Searched(rows, after, search) && !AllThere(rows, rules.Keys)) then 1 else 0
    {
      if AllThere(rows, rules.Keys) {
        AcknowledgedIfThere(rules, rows, after, startedAt, search);
      }
      assert MarkedRecovered(rules, [], startedAt) == rules;
      if AnyPending(rows, after) {
        recoveryAttempts := recoveryAttempts + 1;
        var failed := search.Failed? && !search.final;
        if search.Complete? {
          var marked := MarkGapRecovered(rows, startedAt);
          failed := !marked;
        }
        if failed {
          recoveryRetries := recoveryRetries + 1;
        }
      }
      ok := MarkGapRecovered(Baselines(rows), startedAt);
    }
  }

  // ----- Polls, edits and restarts interleaved

  /** Auxiliary: what stands behind a rule's latest acknowledgement, a complete search or its silent baseline. */
  datatype Ack = Ack(terms: Terms, since: int, startedAt: int, searched: bool)

  /** Auxiliary: why a selected rule does not hold the gap open. */
  datatype Reason = OnBaseline(ack: Ack) | CaughtUpNow(ack: Ack) | CaughtUpBefore(ack: Ack) | CannotCatchUp(search: Search, terms: Terms)

  /**
   * Where a poll stands: it has selected its rules and awaits the feed, or is before its next group, awaits the
   * group's search, or matches its rules one by one.
   */
  datatype Stage =
    | Selecting
    | Between
    | Searching(startedAt: int)
    | Matching(startedAt: int, search: Search, done: nat)

  /** `joined` and `reasons` are auxiliary; `joined` holds the rules added or enabled since the selection. */
  datatype Poll = Poll(
    full: bool, groups: seq<seq<Row>>, next: nat, stage: Stage, attempts: nat, retries: nat, joined: set<RuleId>,
    reasons: map<RuleId, Reason>)

  datatype World = World(
    now: int, revision: Option<nat>, rules: map<RuleId, Rule>, gap: GapState, poll: Option<Poll>,
    acks: map<RuleId, Ack>, lastSearchAt: int)
  {
    /** Acknowledgements count from here on. */
    function CountingFrom(): Option<int> {
      gap.lastGapAt.Or(gap.unresolvedSince)
    }
  }

  datatype Step =
    | Wait(ms: nat)
    | RuleAdded(id: RuleId, terms: Terms, active: bool)
    | RuleEdited(id: RuleId, terms: Terms, withTrackers: bool, active: bool)
    | RuleDeleted(id: RuleId)
    | RowsSelected(full: bool, groups: seq<seq<Row>>)
    | FeedIngested(gap: bool)
    | FeedFailed
    | GroupStarted
    | GroupSearched(search: Search)
    | RowMatched
    | GroupEnded(failed: bool)
    | PollFinished
    | Restarted(revision: Option<nat>)

  predicate InGroups(groups: seq<seq<Row>>, from: nat, upto: nat, id: RuleId) {
    exists g, k :: from <= g < upto && g < |groups| && 0 <= k < |groups[g]| && groups[g][k].id == id
  }

  predicate WellGrouped(groups: seq<seq<Row>>) {
    && (forall g | 0 <= g < |groups| :: groups[g] != [])
    && (forall g, k | 0 <= g < |groups| && 0 <= k < |groups[g]| :: groups[g][k].terms == groups[g][0].terms)
    && forall g, k, g', k' | 0 <= g < |groups| && 0 <= k < |groups[g]| && 0 <= g' < |groups| && 0 <= k' < |groups[g']| ::
          groups[g][k].id == groups[g'][k'].id ==> g == g' && k == k'
  }

  /** The groups hold current rows of distinct active rules, of equal terms within a group; a full poll holds them all. */
  predicate Grouping(w: World, full: bool, groups: seq<seq<Row>>) {
    && WellGrouped(groups)
    && (forall g, k | 0 <= g < |groups| && 0 <= k < |groups[g]| ::
          && groups[g][k].id in w.rules && w.rules[groups[g][k].id].active
          && groups[g][k] == Selected(groups[g][k].id, w.rules[groups[g][k].id], w.revision))
    && (full ==> forall id | id in w.rules && w.rules[id].active :: InGroups(groups, 0, |groups|, id))
  }

  predicate InGroup(w: World) {
    w.poll.Some? && w.poll.value.next < |w.poll.value.groups|
  }

  function Members(w: World): (rows: seq<Row>)
    requires InGroup(w)
  {
    w.poll.value.groups[w.poll.value.next]
  }

  predicate Enabled(w: World, step: Step) {
    match step
    case Wait(_) => true
    case RuleAdded(id, _, _) => id !in w.rules
    case RuleEdited(id, _, _, _) => id in w.rules
    case RuleDeleted(id) => id in w.rules
    case RowsSelected(full, groups) => w.poll.None? && Grouping(w, full, groups)
    // A new fetch takes time: no poll ingests its feed in the millisecond in which the last search started.
    case FeedIngested(_) => w.poll.Some? && w.poll.value.stage.Selecting? && w.lastSearchAt < w.now
    case FeedFailed => w.poll.Some? && w.poll.value.stage.Selecting?
    case GroupStarted => InGroup(w) && w.poll.value.stage.Between?
    case GroupSearched(_) => InGroup(w) && w.poll.value.stage.Searching?
    case RowMatched => InGroup(w) && w.poll.value.stage.Matching? && w.poll.value.stage.done < |Members(w)|
    case GroupEnded(failed) =>
      InGroup(w) && w.poll.value.stage.Matching? && (failed || w.poll.value.stage.done == |Members(w)|)
    case PollFinished => w.poll.Some? && w.poll.value.stage.Between? && w.poll.value.next == |w.poll.value.groups|
    case Restarted(_) => true
  }

  function AckOf(w: World, id: RuleId): Ack {
    if id in w.acks then w.acks[id] else Ack(0, 0, 0, false)
  }

  /** Why a row of a group whose search need not be repeated does not hold the gap open. */
  function ReasonFor(w: World, row: Row, searched: bool, search: Search): Reason {
    if row.baseline then OnBaseline(AckOf(w, row.id))
    else if searched then CaughtUpNow(AckOf(w, row.id))
    else if CaughtUpAfter(row.gapRecoveredAt, w.CountingFrom()) then CaughtUpBefore(AckOf(w, row.id))
    else CannotCatchUp(search, row.terms)
  }

  function Reasons(w: World, rows: seq<Row>, searched: bool, search: Search): map<RuleId, Reason> {
    if rows == [] then map[] else Reasons(w, rows[1..], searched, search)[rows[0].id := ReasonFor(w, rows[0], searched, search)]
  }

  function NewAcks(
    acks: map<RuleId, Ack>, rows: seq<Row>, bySearch: seq<Row>, byBaseline: seq<Row>, since: int, startedAt: int): map<RuleId, Ack>
  {
    if rows == [] then acks
    else
      var rest := NewAcks(acks, rows[1..], bySearch, byBaseline, since, startedAt);
      if rows[0] in bySearch || rows[0] in byBaseline
      then rest[rows[0].id := Ack(rows[0].terms, since, startedAt, rows[0] in bySearch)]
      else rest
  }

  function Joined(w: World, id: RuleId, active: bool): Option<Poll> {
    if w.poll.Some? && active then Some(w.poll.value.(joined := w.poll.value.joined + {id})) else w.poll
  }

  /** The group's search, under an open gap: acknowledgements, and how the poll goes on. */
  function AfterSearch(w: World, search: Search): World
    requires Enabled(w, GroupSearched(search)) && w.gap.unresolvedSince.Some?
  {
    var p, rows, ids := w.poll.value, Members(w), w.rules.Keys;
    var startedAt, after := p.stage.startedAt, w.CountingFrom();
    var outcome := Outcome(ids, rows, after, search);
    w.(rules := Acknowledged(w.rules, rows, after, startedAt, search),
       acks := NewAcks(w.acks, rows, BySearch(ids, rows, after, search), ByBaseline(ids, rows), w.gap.unresolvedSince.value, startedAt),
       poll :=
         // A rule on its baseline is gone: the error leaves the group's own handling too, and ends the lane.
         if !AllThere(Baselines(rows), ids) then None
         else Some(p.(attempts := p.attempts + (if AnyPending(rows, after) then 1 else 0),
                      retries := p.retries + (if NeedsRetry(rows, after, outcome) then 1 else 0),
                      stage := Matching(startedAt, outcome, 0))))
  }

  /** The present group's search is to be repeated by a later poll. */
  predicate IsRetried(w: World)
    requires InGroup(w) && w.poll.value.stage.Matching?
  {
    NeedsRetry(Members(w), w.CountingFrom(), w.poll.value.stage.search)
  }

  /** The group reports an error to the state of each of its rules. */
  predicate ReportsError(w: World, failed: bool)
    requires InGroup(w) && w.poll.value.stage.Matching?
  {
    || failed
    || (w.gap.unresolvedSince.Some? && AnyPending(Members(w), w.CountingFrom()) && !w.poll.value.stage.search.Complete?)
  }

  function AfterGroup(w: World, failed: bool): World
    requires Enabled(w, GroupEnded(failed))
  {
    var p := w.poll.value;
    var open := w.gap.unresolvedSince.Some?;
    if ReportsError(w, failed) && !AllThere(Members(w), w.rules.Keys) then w.(poll := None)
    else
      w.(poll := Some(p.(
           next := p.next + 1, stage := Between, retries := p.retries + (if failed && open then 1 else 0),
           reasons := if failed || !open || IsRetried(w) then p.reasons
                      else p.reasons + Reasons(w, Members(w), Searched(Members(w), w.CountingFrom(), p.stage.search), p.stage.search))))
  }

  function After(w: World, step: Step): World
    requires Enabled(w, step)
  {
    match step
    case Wait(ms) => w.(now := w.now + ms)
    case RuleAdded(id, terms, active) =>
      w.(rules := w.rules[id := Rule(terms, active, false, None, None)], poll := Joined(w, id, active))
    // An edit that names the trackers starts the rule's tracker state afresh; one that does not keeps it.
    case RuleEdited(id, terms, withTrackers, active) =>
      w.(rules := w.rules[id := if withTrackers then Rule(terms, active, false, None, None) else w.rules[id].(terms := terms, active := active)],
         poll := if w.rules[id].active then w.poll else Joined(w, id, active))
    case RuleDeleted(id) => w.(rules := w.rules - {id})
    case RowsSelected(full, groups) => w.(poll := Some(Poll(full, groups, 0, Selecting, 0, 0, {}, map[])))
    case FeedIngested(gap) => w.(gap := PolledGap(w.gap, gap, w.now), poll := Some(w.poll.value.(stage := Between)))
    case FeedFailed => w.(poll := None)
    case GroupStarted => w.(poll := Some(w.poll.value.(stage := Searching(w.now))), lastSearchAt := w.now)
    case GroupSearched(search) =>
      if w.gap.unresolvedSince.None? then w.(poll := Some(w.poll.value.(stage := Matching(w.poll.value.stage.startedAt, search, 0))))
      else AfterSearch(w, search)
    case RowMatched =>
      var p := w.poll.value;
      var id := Members(w)[p.stage.done].id;
      if id !in w.rules then w.(poll := None)
      else w.(rules := Initialized(w.rules, id, w.revision), poll := Some(p.(stage := p.stage.(done := p.stage.done + 1))))
    case GroupEnded(failed) => AfterGroup(w, failed)
    case PollFinished =>
      var p := w.poll.value;
      w.(poll := None, gap := if p.full && p.retries == 0 then w.gap.(unresolvedSince := None) else w.gap)
    case Restarted(revision) => w.(poll := None, revision := revision)
  }

  predicate Admissible(w: World, steps: seq<Step>)
    decreases |steps|
  {
    steps == [] || (Enabled(w, steps[0]) && Admissible(After(w, steps[0]), steps[1..]))
  }

  function Run(w: World, steps: seq<Step>): World
    requires Admissible(w, steps)
    decreases |steps|
  {
    if steps == [] then w else Run(After(w, steps[0]), steps[1..])
  }

  /** No poll and no acknowledgement; a gap may be open, as in a database from before acknowledgements were kept. */
  predicate Start(w: World) {
    && w.poll.None? && w.acks == map[] && w.lastSearchAt <= w.now
    && (w.gap.unresolvedSince.Some? ==> w.gap.lastGapAt.Some?)
    && (w.gap.lastGapAt.Some? ==> w.gap.lastGapAt.value <= w.now)
    && forall id | id in w.rules :: w.rules[id].gapRecoveredAt.None?
  }

  // ----- The invariant

  /** If it counts now, it stands for the gap that is open now. */
  predicate AckStands(g: GapState, ack: Ack) {
    g.unresolvedSince.Some? && g.lastGapAt.Some? && ack.startedAt >= g.lastGapAt.value ==> ack.since == g.unresolvedSince.value
  }

  predicate OnRecord(w: World, id: RuleId, gapRecoveredAt: Option<int>) {
    gapRecoveredAt.Some? ==>
      && gapRecoveredAt.value <= w.lastSearchAt
      && id in w.acks && w.acks[id].startedAt == gapRecoveredAt.value && AckStands(w.gap, w.acks[id])
  }

  predicate RuleInv(w: World, id: RuleId) {
    id in w.rules ==> OnRecord(w, id, w.rules[id].gapRecoveredAt)
  }

  /** A complete search (or silent baseline) from the start of this gap, begun after its latest detection. */
  predicate OverThisGap(g: GapState, ack: Ack) {
    g.unresolvedSince.Some? && g.lastGapAt.Some? && ack.since == g.unresolvedSince.value && ack.startedAt >= g.lastGapAt.value
  }

  /** It is the rule's latest, and for the open gap. */
  predicate Stands(w: World, id: RuleId, ack: Ack) {
    id in w.acks && w.acks[id] == ack && OverThisGap(w.gap, ack)
  }

  predicate ReasonHolds(w: World, row: Row, reason: Reason) {
    match reason
    case OnBaseline(ack) => row.baseline && Stands(w, row.id, ack) && ack.terms == row.terms
    case CaughtUpNow(ack) => Stands(w, row.id, ack) && ack.terms == row.terms && ack.searched
    case CaughtUpBefore(ack) => Stands(w, row.id, ack) && row.gapRecoveredAt == Some(ack.startedAt)
    case CannotCatchUp(search, terms) =>
      !row.baseline && terms == row.terms && (search.ReachedPageLimit? || (search.Failed? && search.final))
  }

  /** The acknowledgements of the present group, once it was searched. */
  predicate GroupAcked(w: World) {
    InGroup(w) && w.poll.value.stage.Matching? && w.gap.unresolvedSince.Some? && !IsRetried(w) ==>
      var rows, search, since, startedAt := Members(w), w.poll.value.stage.search, w.gap.unresolvedSince.value, w.poll.value.stage.startedAt;
      forall k | 0 <= k < |rows| ::
        if Searched(rows, w.CountingFrom(), search) || rows[k].baseline
        then rows[k].id in w.acks
             && w.acks[rows[k].id] == Ack(rows[k].terms, since, startedAt, Searched(rows, w.CountingFrom(), search))
        else OnRecord(w, rows[k].id, rows[k].gapRecoveredAt)
  }

  predicate AllHaveReasons(p: Poll) {
    forall g, k | 0 <= g < p.next && g < |p.groups| && 0 <= k < |p.groups[g]| :: p.groups[g][k].id in p.reasons
  }

  /** The rows the poll has still to search hold acknowledgements on record. */
  predicate RowsOnRecord(w: World, p: Poll) {
    forall g, k | p.next <= g < |p.groups| && 0 <= k < |p.groups[g]| && (g == p.next ==> !p.stage.Matching?) ::
      OnRecord(w, p.groups[g][k].id, p.groups[g][k].gapRecoveredAt)
  }

  predicate ReasonsHold(w: World, p: Poll) {
    && (forall id | id in p.reasons :: InGroups(p.groups, 0, p.next, id))
    && (forall g, k | 0 <= g < p.next && g < |p.groups| && 0 <= k < |p.groups[g]| && p.groups[g][k].id in p.reasons ::
          ReasonHolds(w, p.groups[g][k], p.reasons[p.groups[g][k].id]))
  }

  predicate PollInv(w: World, p: Poll) {
    && WellGrouped(p.groups) && p.next <= |p.groups|
    && (p.stage.Selecting? ==> p.next == 0 && p.retries == 0 && p.reasons == map[])
    && (p.stage.Searching? || p.stage.Matching? ==>
          && p.next < |p.groups| && p.stage.startedAt == w.lastSearchAt
          && (w.gap.lastGapAt.Some? ==> w.gap.lastGapAt.value <= p.stage.startedAt))
    && RowsOnRecord(w, p)
    && (w.gap.unresolvedSince.None? ==> p.retries == 0 && p.reasons == map[])
    && (w.gap.unresolvedSince.Some? ==>
          && ReasonsHold(w, p)
          && (p.retries == 0 <==>
                && AllHaveReasons(p)
                && (p.stage.Matching? ==> p.next < |p.groups| && !NeedsRetry(p.groups[p.next], w.CountingFrom(), p.stage.search))))
    && (p.full ==> forall id | id in w.rules && w.rules[id].active :: InGroups(p.groups, 0, |p.groups|, id) || id in p.joined)
  }

  predicate Inv(w: World) {
    && w.lastSearchAt <= w.now
    && (w.gap.unresolvedSince.Some? ==> w.gap.lastGapAt.Some?)
    && (w.gap.lastGapAt.Some? ==> w.gap.lastGapAt.value <= w.now)
    && (forall id | id in w.acks :: w.acks[id].startedAt <= w.lastSearchAt)
    && (forall id | id in w.rules :: RuleInv(w, id))
    && (w.poll.Some? ==> PollInv(w, w.poll.value)) && GroupAcked(w)
  }

  // ----- Edits, starts and ends

  /** Nothing that acknowledgements and the poll's rows are compared with has changed. */
  predicate SameRecords(w: World, w': World) {
    && w'.gap == w.gap && w'.acks == w.acks && w'.lastSearchAt == w.lastSearchAt && w'.now >= w.now
  }

  lemma RecordsKept(w: World, w': World)
    requires Inv(w) && SameRecords(w, w')
    requires forall id | id in w'.rules && w'.rules[id].gapRecoveredAt.Some? ::
               id in w.rules && w.rules[id].gapRecoveredAt == w'.rules[id].gapRecoveredAt
    requires w'.poll.Some? ==>
               && w.poll.Some? && w'.poll.value == w.poll.value.(joined := w'.poll.value.joined, stage := w'.poll.value.stage)
               && (w'.poll.value.stage == w.poll.value.stage
                   || (w.poll.value.stage.Matching? && w'.poll.value.stage.Matching?
                       && w'.poll.value.stage == w.poll.value.stage.(done := w'.poll.value.stage.done)))
               && (w'.poll.value.full ==> forall id | id in w'.rules && w'.rules[id].active ::
                     InGroups(w'.poll.value.groups, 0, |w'.poll.value.groups|, id) || id in w'.poll.value.joined)
    ensures Inv(w')
  {
    forall id | id in w'.rules ensures RuleInv(w', id) {
      assert id in w.rules ==> RuleInv(w, id);
    }
    if w'.poll.Some? {
      var p, p' := w.poll.value, w'.poll.value;
      forall g, k | p.next <= g < |p.groups| && 0 <= k < |p.groups[g]| && (g == p.next ==> !p.stage.Matching?)
        ensures OnRecord(w', p.groups[g][k].id, p.groups[g][k].gapRecoveredAt)
      {
        assert OnRecord(w, p.groups[g][k].id, p.groups[g][k].gapRecoveredAt);
      }
      if w.gap.unresolvedSince.Some? {
        forall g, k | 0 <= g < p.next && g < |p.groups| && 0 <= k < |p.groups[g]| && p.groups[g][k].id in p.reasons
          ensures ReasonHolds(w', p.groups[g][k], p.reasons[p.groups[g][k].id])
        {
          assert ReasonHolds(w, p.groups[g][k], p.reasons[p.groups[g][k].id]);
        }
      }
      GroupKept(w, w');
    }
  }

  lemma GroupKept(w: World, w': World)
    requires GroupAcked(w) && SameRecords(w, w') && w.poll.Some? && w'.poll.Some?
    requires var p, p' := w.poll.value, w'.poll.value;
             && p'.groups == p.groups && p'.next == p.next
             && (p'.stage.Matching? ==> p.stage.Matching? && p'.stage == p.stage.(done := p'.stage.done))
    ensures GroupAcked(w')
  {
    if InGroup(w') && w'.poll.value.stage.Matching? && w'.gap.unresolvedSince.Some? && !IsRetried(w') {
      var rows, search := Members(w), w.poll.value.stage.search;
      forall k | 0 <= k < |rows| && !(Searched(rows, w.CountingFrom(), search) || rows[k].baseline)
        ensures OnRecord(w', rows[k].id, rows[k].gapRecoveredAt)
      {
        assert OnRecord(w, rows[k].id, rows[k].gapRecoveredAt);
      }
    }
  }

  predicate IsEdit(step: Step) {
    step.RuleAdded? || step.RuleEdited? || step.RuleDeleted?
  }

  lemma EditKeepsInv(w: World, step: Step)
    requires Inv(w) && IsEdit(step) && Enabled(w, step)
    ensures Inv(After(w, step))
  {
    RecordsKept(w, After(w, step));
  }

  lemma SelectionKeepsInv(w: World, full: bool, groups: seq<seq<Row>>)
    requires Inv(w) && Enabled(w, RowsSelected(full, groups))
    ensures Inv(After(w, RowsSelected(full, groups)))
  {
    var w' := After(w, RowsSelected(full, groups));
    forall id | id in w'.rules ensures RuleInv(w', id) {
      assert RuleInv(w, id);
    }
    forall g, k | 0 <= g < |groups| && 0 <= k < |groups[g]| ensures OnRecord(w', groups[g][k].id, groups[g][k].gapRecoveredAt) {
      assert RuleInv(w, groups[g][k].id);
    }
  }

  /** A new gap is later than every acknowledgement, so none of them counts for it. */
  lemma IngestKeepsRecord(w: World, gap: bool, id: RuleId, gapRecoveredAt: Option<int>)
    requires Inv(w) && Enabled(w, FeedIngested(gap)) && OnRecord(w, id, gapRecoveredAt)
    ensures OnRecord(After(w, FeedIngested(gap)), id, gapRecoveredAt)
  {
  }

  lemma IngestKeepsInv(w: World, gap: bool)
    requires Inv(w) && Enabled(w, FeedIngested(gap))
    ensures Inv(After(w, FeedIngested(gap)))
  {
    var w', p := After(w, FeedIngested(gap)), w.poll.value;
    forall id | id in w'.rules ensures RuleInv(w', id) {
      assert RuleInv(w, id);
      IngestKeepsRecord(w, gap, id, w.rules[id].gapRecoveredAt);
    }
    forall g, k | 0 <= g < |p.groups| && 0 <= k < |p.groups[g]| ensures OnRecord(w', p.groups[g][k].id, p.groups[g][k].gapRecoveredAt) {
      assert OnRecord(w, p.groups[g][k].id, p.groups[g][k].gapRecoveredAt);
      IngestKeepsRecord(w, gap, p.groups[g][k].id, p.groups[g][k].gapRecoveredAt);
    }
  }

  // ----- A group is searched

  lemma {:induction false} NewAckOf(
    acks: map<RuleId, Ack>, rows: seq<Row>, bySearch: seq<Row>, byBaseline: seq<Row>, since: int, startedAt: int, k: nat)
    requires k < |rows| && forall i, j | 0 <= i < j < |rows| :: rows[i].id != rows[j].id
    ensures var new' := NewAcks(acks, rows, bySearch, byBaseline, since, startedAt);
            var id := rows[k].id;
            if rows[k] in bySearch || rows[k] in byBaseline
            then id in new' && new'[id] == Ack(rows[k].terms, since, startedAt, rows[k] in bySearch)
            else (id in new' <==> id in acks) && (id in acks ==> new'[id] == acks[id])
  {
    if k > 0 {
      NewAckOf(acks, rows[1..], bySearch, byBaseline, since, startedAt, k - 1);
    } else {
      OldAckOf(acks, rows[1..], bySearch, byBaseline, since, startedAt, rows[0].id);
    }
  }

  lemma {:induction false} OldAckOf(
    acks: map<RuleId, Ack>, rows: seq<Row>, bySearch: seq<Row>, byBaseline: seq<Row>, since: int, startedAt: int, id: RuleId)
    requires forall i | 0 <= i < |rows| :: rows[i].id != id
    ensures var new' := NewAcks(acks, rows, bySearch, byBaseline, since, startedAt);
            (id in new' <==> id in acks) && (id in acks ==> new'[id] == acks[id])
  {
    if rows != [] {
      OldAckOf(acks, rows[1..], bySearch, byBaseline, since, startedAt, id);
    }
  }

  lemma {:induction false} NewAcksAreOfRows(
    acks: map<RuleId, Ack>, rows: seq<Row>, bySearch: seq<Row>, byBaseline: seq<Row>, since: int, startedAt: int, id: RuleId)
    requires id in NewAcks(acks, rows, bySearch, byBaseline, since, startedAt)
    ensures var ack := NewAcks(acks, rows, bySearch, byBaseline, since, startedAt)[id];
            (id in acks && ack == acks[id]) || ack.startedAt == startedAt
  {
    if rows != [] && !(rows[0].id == id && (rows[0] in bySearch || rows[0] in byBaseline)) {
      NewAcksAreOfRows(acks, rows[1..], bySearch, byBaseline, since, startedAt, id);
    }
  }

  /** The acknowledged rows are rows of the group, and what is acknowledged is there. */
  lemma AcknowledgedAreRows(ids: set<RuleId>, rows: seq<Row>, after: Option<int>, search: Search, row: Row)
    requires IsAcknowledged(ids, rows, after, search, row)
    ensures row in rows && row.id in ids && (row.baseline || Searched(rows, after, search))
  {
    BeforeRows(rows, ids);
    BeforeRows(Baselines(rows), ids);
    BaselineRows(rows, row);
    if row in BySearch(ids, rows, after, search) {
      var i :| 0 <= i < |Before(rows, ids)| && Before(rows, ids)[i] == row;
      assert rows[i] == row;
    } else {
      var i :| 0 <= i < |Before(Baselines(rows), ids)| && Before(Baselines(rows), ids)[i] == row;
      assert Baselines(rows)[i] == row;
    }
  }

  lemma MemberAcknowledged(rules: map<RuleId, Rule>, rows: seq<Row>, after: Option<int>, startedAt: int, search: Search, k: nat)
    requires k < |rows| && rows[k].id in rules && forall i, j | 0 <= i < j < |rows| :: rows[i].id != rows[j].id
    ensures var rules', id := Acknowledged(rules, rows, after, startedAt, search), rows[k].id;
            id in rules' && rules'[id] ==
              if IsAcknowledged(rules.Keys, rows, after, search, rows[k]) then rules[id].(gapRecoveredAt := Some(startedAt)) else rules[id]
  {
    MarkedTwice(rules, BySearch(rules.Keys, rows, after, search), ByBaseline(rules.Keys, rows), startedAt);
    forall row | IsAcknowledged(rules.Keys, rows, after, search, row) && row.id == rows[k].id ensures row == rows[k] {
      AcknowledgedAreRows(rules.Keys, rows, after, search, row);
    }
  }

  lemma OtherNotAcknowledged(rules: map<RuleId, Rule>, rows: seq<Row>, after: Option<int>, startedAt: int, search: Search, id: RuleId)
    requires id in rules && forall i | 0 <= i < |rows| :: rows[i].id != id
    ensures var rules' := Acknowledged(rules, rows, after, startedAt, search); id in rules' && rules'[id] == rules[id]
  {
    MarkedTwice(rules, BySearch(rules.Keys, rows, after, search), ByBaseline(rules.Keys, rows), startedAt);
    forall row | IsAcknowledged(rules.Keys, rows, after, search, row) ensures row.id != id {
      AcknowledgedAreRows(rules.Keys, rows, after, search, row);
    }
  }

  predicate Awaiting(w: World, search: Search) {
    Inv(w) && Enabled(w, GroupSearched(search)) && w.gap.unresolvedSince.Some?
  }

  lemma DistinctMembers(w: World)
    requires Inv(w) && InGroup(w)
    ensures forall i, j | 0 <= i < j < |Members(w)| :: Members(w)[i].id != Members(w)[j].id
  {
  }

  /** The row of the present group is acknowledged by a search with this outcome. */
  predicate Acks(w: World, search: Search, row: Row)
    requires InGroup(w)
  {
    IsAcknowledged(w.rules.Keys, Members(w), w.CountingFrom(), search, row)
  }

  /** What the search of the present group does to one rule: it is acknowledged, or left alone. */
  lemma RuleAfterSearch(w: World, search: Search, id: RuleId)
    requires Awaiting(w, search)
    ensures var w', rows := After(w, GroupSearched(search)), Members(w);
            && (id in w'.rules <==> id in w.rules)
            && (forall k | 0 <= k < |rows| && rows[k].id == id && Acks(w, search, rows[k]) ::
                  && id in w.rules && id in w'.acks
                  && w'.acks[id] == Ack(rows[k].terms, w.gap.unresolvedSince.value, w.poll.value.stage.startedAt,
                                        rows[k] in BySearch(w.rules.Keys, rows, w.CountingFrom(), search))
                  && w'.rules[id] == w.rules[id].(gapRecoveredAt := Some(w.poll.value.stage.startedAt)))
            && ((forall k | 0 <= k < |rows| && rows[k].id == id :: !Acks(w, search, rows[k])) ==>
                  && (id in w'.acks <==> id in w.acks) && (id in w.acks ==> w'.acks[id] == w.acks[id])
                  && (id in w.rules ==> w'.rules[id] == w.rules[id]))
  {
    DistinctMembers(w);
    var rows, ids, startedAt, after := Members(w), w.rules.Keys, w.poll.value.stage.startedAt, w.CountingFrom();
    var bySearch, byBaseline, since := BySearch(ids, rows, after, search), ByBaseline(ids, rows), w.gap.unresolvedSince.value;
    MarkedTwice(w.rules, bySearch, byBaseline, startedAt);
    if k :| 0 <= k < |rows| && rows[k].id == id {
      NewAckOf(w.acks, rows, bySearch, byBaseline, since, startedAt, k);
      if Acks(w, search, rows[k]) {
        AcknowledgedAreRows(ids, rows, after, search, rows[k]);
      }
      if id in w.rules {
        MemberAcknowledged(w.rules, rows, after, startedAt, search, k);
      }
    } else {
      OldAckOf(w.acks, rows, bySearch, byBaseline, since, startedAt, id);
      if id in w.rules {
        OtherNotAcknowledged(w.rules, rows, after, startedAt, search, id);
      }
    }
  }

  lemma SearchKeepsRule(w: World, search: Search, id: RuleId)
    requires Awaiting(w, search)
    ensures RuleInv(After(w, GroupSearched(search)), id)
  {
    RuleAfterSearch(w, search, id);
    if id in w.rules {
      assert RuleInv(w, id);
    }
  }

  lemma SearchKeepsRecord(w: World, search: Search, id: RuleId, gapRecoveredAt: Option<int>)
    requires Awaiting(w, search) && OnRecord(w, id, gapRecoveredAt)
    requires forall k | 0 <= k < |Members(w)| && Members(w)[k].id == id :: !Acks(w, search, Members(w)[k])
    ensures OnRecord(After(w, GroupSearched(search)), id, gapRecoveredAt)
  {
    RuleAfterSearch(w, search, id);
  }

  lemma SearchKeepsReason(w: World, search: Search, g: nat, k: nat)
    requires Awaiting(w, search)
    requires var p := w.poll.value;
             && g < p.next && k < |p.groups[g]| && p.groups[g][k].id in p.reasons
             && ReasonHolds(w, p.groups[g][k], p.reasons[p.groups[g][k].id])
    ensures var p := w.poll.value;
            ReasonHolds(After(w, GroupSearched(search)), p.groups[g][k], p.reasons[p.groups[g][k].id])
  {
    var p := w.poll.value;
    forall i | 0 <= i < |Members(w)| ensures Members(w)[i].id != p.groups[g][k].id {
      assert Members(w)[i] == p.groups[p.next][i];
    }
    RuleAfterSearch(w, search, p.groups[g][k].id);
  }

  lemma SearchKeepsGroup(w: World, search: Search, k: nat)
    requires Awaiting(w, search) && k < |Members(w)|
    requires var outcome := Outcome(w.rules.Keys, Members(w), w.CountingFrom(), search);
             After(w, GroupSearched(search)).poll.Some? && !NeedsRetry(Members(w), w.CountingFrom(), outcome)
    ensures var w', rows := After(w, GroupSearched(search)), Members(w);
            var searched := Searched(rows, w.CountingFrom(), search);
            if searched || rows[k].baseline
            then rows[k].id in w'.acks
                 && w'.acks[rows[k].id] == Ack(rows[k].terms, w.gap.unresolvedSince.value, w.poll.value.stage.startedAt, searched)
            else OnRecord(w', rows[k].id, rows[k].gapRecoveredAt)
  {
    DistinctMembers(w);
    var rows, ids, after := Members(w), w.rules.Keys, w.CountingFrom();
    RuleAfterSearch(w, search, rows[k].id);
    BeforeRows(rows, ids);
    BeforeRows(Baselines(rows), ids);
    BaselineRows(rows, rows[k]);
    assert rows[k] in rows;
    assert OnRecord(w, w.poll.value.groups[w.poll.value.next][k].id, rows[k].gapRecoveredAt);
    if !(Searched(rows, after, search) || rows[k].baseline) && Acks(w, search, rows[k]) {
      AcknowledgedAreRows(ids, rows, after, search, rows[k]);
    }
  }

  lemma SearchKeepsRows(w: World, search: Search)
    requires Awaiting(w, search) && After(w, GroupSearched(search)).poll.Some?
    ensures var w' := After(w, GroupSearched(search)); RowsOnRecord(w', w'.poll.value)
  {
    var w', p, rows := After(w, GroupSearched(search)), w.poll.value, Members(w);
    forall g, k | p.next < g < |p.groups| && 0 <= k < |p.groups[g]|
      ensures OnRecord(w', p.groups[g][k].id, p.groups[g][k].gapRecoveredAt)
    {
      forall i | 0 <= i < |rows| ensures rows[i].id != p.groups[g][k].id {
        assert rows[i] == p.groups[p.next][i];
      }
      assert OnRecord(w, p.groups[g][k].id, p.groups[g][k].gapRecoveredAt);
      SearchKeepsRecord(w, search, p.groups[g][k].id, p.groups[g][k].gapRecoveredAt);
    }
  }

  lemma SearchKeepsReasons(w: World, search: Search)
    requires Awaiting(w, search) && After(w, GroupSearched(search)).poll.Some?
    ensures var w' := After(w, GroupSearched(search)); ReasonsHold(w', w'.poll.value)
  {
    var w', p := After(w, GroupSearched(search)), w.poll.value;
    forall g, k | 0 <= g < p.next && 0 <= k < |p.groups[g]| && p.groups[g][k].id in p.reasons
      ensures ReasonHolds(w', p.groups[g][k], p.reasons[p.groups[g][k].id])
    {
      SearchKeepsReason(w, search, g, k);
    }
  }

  lemma SearchKeepsPoll(w: World, search: Search)
    requires Awaiting(w, search) && After(w, GroupSearched(search)).poll.Some?
    ensures var w' := After(w, GroupSearched(search)); PollInv(w', w'.poll.value)
  {
    var w', p := After(w, GroupSearched(search)), w.poll.value;
    SearchKeepsRows(w, search);
    SearchKeepsReasons(w, search);
    MarkedTwice(w.rules, BySearch(w.rules.Keys, Members(w), w.CountingFrom(), search), ByBaseline(w.rules.Keys, Members(w)),
                p.stage.startedAt);
  }

  lemma SearchKeepsInv(w: World, search: Search)
    requires Inv(w) && Enabled(w, GroupSearched(search))
    ensures Inv(After(w, GroupSearched(search)))
  {
    var w' := After(w, GroupSearched(search));
    if w.gap.unresolvedSince.None? {
      forall id | id in w'.rules ensures RuleInv(w', id) {
        assert RuleInv(w, id);
      }
    } else {
      var rows := Members(w);
      forall id | id in w'.rules ensures RuleInv(w', id) {
        SearchKeepsRule(w, search, id);
      }
      forall id | id in w'.acks ensures w'.acks[id].startedAt <= w'.lastSearchAt {
        NewAcksAreOfRows(w.acks, rows, BySearch(w.rules.Keys, rows, w.CountingFrom(), search), ByBaseline(w.rules.Keys, rows),
                         w.gap.unresolvedSince.value, w.poll.value.stage.startedAt, id);
      }
      if w'.poll.Some? {
        SearchKeepsPoll(w, search);
        if !IsRetried(w') {
          forall k: nat | k < |rows|
            ensures if Searched(rows, w.CountingFrom(), search) || rows[k].baseline
                    then rows[k].id in w'.acks
                         && w'.acks[rows[k].id] == Ack(rows[k].terms, w.gap.unresolvedSince.value, w.poll.value.stage.startedAt,
                                                       Searched(rows, w.CountingFrom(), search))
                    else OnRecord(w', rows[k].id, rows[k].gapRecoveredAt)
          {
            SearchKeepsGroup(w, search, k);
          }
        }
      }
    }
  }

  // ----- A group ends

  lemma {:induction false} ReasonsOf(w: World, rows: seq<Row>, searched: bool, search: Search)
    requires forall i, j | 0 <= i < j < |rows| :: rows[i].id != rows[j].id
    ensures var reasons := Reasons(w, rows, searched, search);
            && (forall id | id in reasons :: exists k :: 0 <= k < |rows| && rows[k].id == id)
            && (forall k | 0 <= k < |rows| :: rows[k].id in reasons && reasons[rows[k].id] == ReasonFor(w, rows[k], searched, search))
  {
    if rows != [] {
      ReasonsOf(w, rows[1..], searched, search);
      assert forall k | 1 <= k < |rows| :: rows[k] == rows[1..][k - 1];
    }
  }

  /** The present group ends and the poll goes on. */
  predicate Ending(w: World, failed: bool) {
    Inv(w) && Enabled(w, GroupEnded(failed)) && w.gap.unresolvedSince.Some? && After(w, GroupEnded(failed)).poll.Some?
  }

  function ReasonAfter(w: World, row: Row): Option<Reason>
    requires InGroup(w) && w.poll.value.stage.Matching?
  {
    var search := w.poll.value.stage.search;
    if IsRetried(w) then None else Some(ReasonFor(w, row, Searched(Members(w), w.CountingFrom(), search), search))
  }

  lemma ReasonForHolds(w: World, failed: bool, k: nat)
    requires Ending(w, failed) && k < |Members(w)|
    ensures var row := Members(w)[k]; !IsRetried(w) ==> ReasonAfter(w, row).Some? && ReasonHolds(w, row, ReasonAfter(w, row).value)
  {
    assert Members(w)[k] in Members(w);
  }

  /** What the reasons say after a matched group: its own rows by their outcome, the others as before. */
  lemma ReasonsAfterGroup(w: World)
    requires Ending(w, false)
    ensures var p, p' := w.poll.value, After(w, GroupEnded(false)).poll.value;
            && (forall id | id in p'.reasons :: id in p.reasons || exists k :: 0 <= k < |Members(w)| && Members(w)[k].id == id)
            && (forall g, k | 0 <= g < p.next && 0 <= k < |p.groups[g]| ::
                  && (p.groups[g][k].id in p'.reasons <==> p.groups[g][k].id in p.reasons)
                  && (p.groups[g][k].id in p.reasons ==> p'.reasons[p.groups[g][k].id] == p.reasons[p.groups[g][k].id]))
            && (forall k | 0 <= k < |Members(w)| ::
                  var reason := ReasonAfter(w, Members(w)[k]);
                  && (Members(w)[k].id in p'.reasons <==> reason.Some?)
                  && (reason.Some? ==> p'.reasons[Members(w)[k].id] == reason.value))
  {
    DistinctMembers(w);
    var p := w.poll.value;
    ReasonsOf(w, Members(w), Searched(Members(w), w.CountingFrom(), p.stage.search), p.stage.search);
    forall k | 0 <= k < |Members(w)| ensures Members(w)[k].id !in p.reasons {
      assert Members(w)[k] == p.groups[p.next][k];
    }
    forall g, k, i | 0 <= g < p.next && 0 <= k < |p.groups[g]| && 0 <= i < |Members(w)|
      ensures p.groups[g][k].id != Members(w)[i].id
    {
      assert Members(w)[i] == p.groups[p.next][i];
    }
  }

  lemma ReasonsHoldAfterGroup(w: World, failed: bool, g: nat, k: nat)
    requires Ending(w, failed) && g <= w.poll.value.next && k < |w.poll.value.groups[g]|
    ensures var w' := After(w, GroupEnded(failed));
            var row, p' := w.poll.value.groups[g][k], w'.poll.value;
            row.id in p'.reasons ==> ReasonHolds(w', row, p'.reasons[row.id])
  {
    var p := w.poll.value;
    if !failed {
      ReasonsAfterGroup(w);
      if g == p.next {
        ReasonForHolds(w, failed, k);
      }
    } else if g == p.next {
      assert !InGroups(p.groups, 0, p.next, p.groups[g][k].id);
    }
  }

  /** The row has something to recover: it is off its silent baseline and was not acknowledged since the latest gap. */
  predicate HasToCatchUp(row: Row, since: Option<int>) {
    !row.baseline && (row.gapRecoveredAt.Some? && since.Some? ==> row.gapRecoveredAt.value < since.value)
  }

  predicate SomeHasToCatchUp(rows: seq<Row>, since: Option<int>) {
    exists row :: row in rows && HasToCatchUp(row, since)
  }

  predicate SomeIsGone(rows: seq<Row>, rules: map<RuleId, Rule>) {
    exists row :: row in rows && row.id !in rules
  }

  /**
   * What a group's search counts. It is made exactly if the gap is open and some row has to catch up, and is to be
   * repeated exactly if it failed for a reason that may pass, or was complete with a rule of the group deleted
   * meanwhile. The lane ends exactly if the gap is open and the rule of a row on its baseline was deleted.
   */
  lemma SearchCountsExactly(w: World, search: Search)
    requires Enabled(w, GroupSearched(search))
    ensures var p, rows, poll' := w.poll.value, Members(w), After(w, GroupSearched(search)).poll;
            var open := w.gap.unresolvedSince.Some?;
            var made := open && SomeHasToCatchUp(rows, w.CountingFrom());
            var gone := made && search.Complete? && SomeIsGone(rows, w.rules);
            && (poll'.None? <==> open && exists row :: row in rows && row.baseline && row.id !in w.rules)
            && (poll'.Some? ==>
                  && poll'.value.attempts == p.attempts + (if made then 1 else 0)
                  && poll'.value.retries == p.retries + (if gone || (made && search == Failed(false)) then 1 else 0)
                  && poll'.value.stage == Matching(p.stage.startedAt, if gone then Failed(false) else search, 0)
                  && poll'.value.next == p.next && poll'.value.groups == p.groups && poll'.value.full == p.full)
  {
    var rows, ids, after := Members(w), w.rules.Keys, w.CountingFrom();
    forall row ensures row in Baselines(rows) <==> row in rows && row.baseline {
      BaselineRows(rows, row);
    }
    assert forall row :: Pending(row, after) <==> HasToCatchUp(row, after);
    assert AnyPending(rows, after) <==> SomeHasToCatchUp(rows, after);
    assert AllThere(rows, ids) <==> !SomeIsGone(rows, w.rules);
  }

  /**
   * How a group ends. It reports an error exactly if it failed, or had to search under an open gap and the search was
   * not complete; reporting it for a deleted rule ends the lane. A failure under an open gap is to be looked at again.
   */
  lemma GroupEndsExactly(w: World, failed: bool)
    requires Enabled(w, GroupEnded(failed))
    ensures var p, rows, poll' := w.poll.value, Members(w), After(w, GroupEnded(failed)).poll;
            var open := w.gap.unresolvedSince.Some?;
            var reports := failed || (open && SomeHasToCatchUp(rows, w.CountingFrom()) && !p.stage.search.Complete?);
            && (poll'.None? <==> reports && SomeIsGone(rows, w.rules))
            && (poll'.Some? ==>
                  && poll'.value.next == p.next + 1 && poll'.value.stage == Between && poll'.value.attempts == p.attempts
                  && poll'.value.retries == p.retries + (if failed && open then 1 else 0))
  {
    var rows, after := Members(w), w.CountingFrom();
    assert forall row :: Pending(row, after) <==> HasToCatchUp(row, after);
    assert AnyPending(rows, after) <==> SomeHasToCatchUp(rows, after);
    assert AllThere(rows, w.rules.Keys) <==> !SomeIsGone(rows, w.rules);
  }

  lemma RetriesAfterMatched(w: World)
    requires Ending(w, false)
    ensures var p' := After(w, GroupEnded(false)).poll.value; p'.retries == 0 <==> AllHaveReasons(p')
  {
    var p, p', rows := w.poll.value, After(w, GroupEnded(false)).poll.value, Members(w);
    ReasonsAfterGroup(w);
    assert forall k | 0 <= k < |rows| :: rows[k] == p'.groups[p.next][k] && (rows[k].id in p'.reasons <==> !IsRetried(w));
  }

  lemma RetriesAfterFailure(w: World)
    requires Ending(w, true)
    ensures var p' := After(w, GroupEnded(true)).poll.value; p'.retries == 0 <==> AllHaveReasons(p')
  {
    var p, p', rows := w.poll.value, After(w, GroupEnded(true)).poll.value, Members(w);
    assert rows[0] == p'.groups[p.next][0];
    assert !InGroups(p.groups, 0, p.next, rows[0].id);
  }

  lemma RetriesCountMissingReasons(w: World, failed: bool)
    requires Ending(w, failed)
    ensures var p' := After(w, GroupEnded(failed)).poll.value; p'.retries == 0 <==> AllHaveReasons(p')
  {
    if failed {
      RetriesAfterFailure(w);
    } else {
      RetriesAfterMatched(w);
    }
  }

  lemma EndKeepsReasons(w: World, failed: bool)
    requires Ending(w, failed)
    ensures var w' := After(w, GroupEnded(failed)); ReasonsHold(w', w'.poll.value)
  {
    var w' := After(w, GroupEnded(failed));
    var p, p' := w.poll.value, w'.poll.value;
    forall g, k | 0 <= g < p'.next && 0 <= k < |p'.groups[g]| && p'.groups[g][k].id in p'.reasons
      ensures ReasonHolds(w', p'.groups[g][k], p'.reasons[p'.groups[g][k].id])
    {
      ReasonsHoldAfterGroup(w, failed, g, k);
    }
    forall id | id in p'.reasons ensures InGroups(p'.groups, 0, p'.next, id) {
      if !failed {
        ReasonsAfterGroup(w);
      }
      if id !in p.reasons {
        var k :| 0 <= k < |Members(w)| && Members(w)[k].id == id;
        assert p'.groups[p.next][k].id == id;
      }
    }
  }

  lemma EndKeepsInv(w: World, failed: bool)
    requires Inv(w) && Enabled(w, GroupEnded(failed))
    ensures Inv(After(w, GroupEnded(failed)))
  {
    var w' := After(w, GroupEnded(failed));
    forall id | id in w'.rules ensures RuleInv(w', id) {
      assert RuleInv(w, id);
    }
    if w'.poll.Some? {
      var p, p' := w.poll.value, w'.poll.value;
      forall g, k | p'.next <= g < |p'.groups| && 0 <= k < |p'.groups[g]|
        ensures OnRecord(w', p'.groups[g][k].id, p'.groups[g][k].gapRecoveredAt)
      {
        assert OnRecord(w, p.groups[g][k].id, p.groups[g][k].gapRecoveredAt);
      }
      if w.gap.unresolvedSince.Some? {
        EndKeepsReasons(w, failed);
        RetriesCountMissingReasons(w, failed);
      }
    }
  }

  lemma MatchKeepsInv(w: World)
    requires Inv(w) && Enabled(w, RowMatched)
    ensures Inv(After(w, RowMatched))
  {
    RecordsKept(w, After(w, RowMatched));
  }

  lemma StepKeepsInv(w: World, step: Step)
    requires Inv(w) && Enabled(w, step)
    ensures Inv(After(w, step))
  {
    match step
    case RowsSelected(full, groups) => SelectionKeepsInv(w, full, groups);
    case FeedIngested(gap) => IngestKeepsInv(w, gap);
    case GroupStarted => GroupStartKeepsInv(w);
    case GroupSearched(search) => SearchKeepsInv(w, search);
    case RowMatched => MatchKeepsInv(w);
    case GroupEnded(failed) => EndKeepsInv(w, failed);
    case PollFinished => CloseKeepsInv(w);
    case Wait(_) => RecordsKept(w, After(w, step));
    case FeedFailed => RecordsKept(w, After(w, step));
    case Restarted(_) => RecordsKept(w, After(w, step));
    case RuleAdded(_, _, _) => EditKeepsInv(w, step);
    case RuleEdited(_, _, _, _) => EditKeepsInv(w, step);
    case RuleDeleted(_) => EditKeepsInv(w, step);
  }

  /** Records and reasons stay when only later searches begin. */
  lemma RecordLater(w: World, w': World, id: RuleId, gapRecoveredAt: Option<int>)
    requires OnRecord(w, id, gapRecoveredAt) && w'.gap == w.gap && w'.acks == w.acks && w'.lastSearchAt >= w.lastSearchAt
    ensures OnRecord(w', id, gapRecoveredAt)
  {
  }

  lemma ReasonsLater(w: World, w': World, p: Poll, p': Poll)
    requires ReasonsHold(w, p) && w'.gap == w.gap && w'.acks == w.acks && p' == p.(stage := p'.stage)
    ensures ReasonsHold(w', p')
  {
    forall g, k | 0 <= g < p.next && g < |p.groups| && 0 <= k < |p.groups[g]| && p.groups[g][k].id in p.reasons
      ensures ReasonHolds(w', p.groups[g][k], p.reasons[p.groups[g][k].id])
    {
      assert ReasonHolds(w, p.groups[g][k], p.reasons[p.groups[g][k].id]);
    }
  }

  lemma GroupStartKeepsInv(w: World)
    requires Inv(w) && Enabled(w, GroupStarted)
    ensures Inv(After(w, GroupStarted))
  {
    var w', p := After(w, GroupStarted), w.poll.value;
    forall id | id in w'.rules ensures RuleInv(w', id) {
      assert RuleInv(w, id);
      RecordLater(w, w', id, w.rules[id].gapRecoveredAt);
    }
    forall g, k | p.next <= g < |p.groups| && 0 <= k < |p.groups[g]|
      ensures OnRecord(w', p.groups[g][k].id, p.groups[g][k].gapRecoveredAt)
    {
      RecordLater(w, w', p.groups[g][k].id, p.groups[g][k].gapRecoveredAt);
    }
    if w.gap.unresolvedSince.Some? {
      ReasonsLater(w, w', p, w'.poll.value);
    }
  }

  lemma CloseKeepsInv(w: World)
    requires Inv(w) && Enabled(w, PollFinished)
    ensures Inv(After(w, PollFinished))
  {
    var w' := After(w, PollFinished);
    forall id | id in w'.rules ensures RuleInv(w', id) {
      assert RuleInv(w, id);
    }
  }

  lemma {:induction false} RunKeepsInv(w: World, steps: seq<Step>)
    requires Inv(w) && Admissible(w, steps)
    ensures Inv(Run(w, steps))
    decreases |steps|
  {
    if steps != [] {
      StepKeepsInv(w, steps[0]);
      RunKeepsInv(After(w, steps[0]), steps[1..]);
    }
  }

  // ----- When a gap closes

  /** The poll ends, and with it the gap. */
  predicate Closes(w: World) {
    Enabled(w, PollFinished) && w.gap.unresolvedSince.Some? && After(w, PollFinished).gap.unresolvedSince.None?
  }

  predicate IsInside(w: World) {
    InGroup(w) && w.poll.value.stage.Matching? ==> w.poll.value.stage.done <= |Members(w)|
  }

  lemma {:induction false} RunStaysInside(w: World, steps: seq<Step>)
    requires Admissible(w, steps) && IsInside(w)
    ensures IsInside(Run(w, steps))
    decreases |steps|
  {
    if steps != [] {
      RunStaysInside(After(w, steps[0]), steps[1..]);
    }
  }

  lemma PollGoesOn(w: World, p: Poll, search: Search)
    requires w.poll == Some(p) && p.next <= |p.groups| && IsInside(w)
    requires p.stage.Searching? || p.stage.Matching? ==> p.next < |p.groups|
    ensures || Enabled(w, FeedFailed) || Enabled(w, GroupStarted) || Enabled(w, GroupSearched(search)) || Enabled(w, RowMatched)
            || Enabled(w, GroupEnded(false)) || Enabled(w, PollFinished)
  {
  }

  /** In any run a poll under way can always be taken a step further, and time may pass and the process stop at any moment. */
  lemma PollIsNeverStuck(start: World, steps: seq<Step>, search: Search, revision: Option<nat>, ms: nat)
    requires Start(start) && Admissible(start, steps)
    ensures var w := Run(start, steps);
            && Enabled(w, Wait(ms)) && Enabled(w, Restarted(revision))
            && (w.poll.Some? ==>
                  || Enabled(w, FeedFailed) || Enabled(w, GroupStarted) || Enabled(w, GroupSearched(search)) || Enabled(w, RowMatched)
                  || Enabled(w, GroupEnded(false)) || Enabled(w, PollFinished))
            && (w.poll.Some? && w.poll.value.stage.Selecting? ==> Enabled(After(w, Wait(1)), FeedIngested(false)))
  {
    RunKeepsInv(start, steps);
    RunStaysInside(start, steps);
    if Run(start, steps).poll.Some? {
      PollGoesOn(Run(start, steps), Run(start, steps).poll.value, search);
    }
  }

  /**
   * Gap closing is justified. Whenever a poll of any run closes an open gap, it is a full poll, and every
   * rule it selected was on its silent baseline, or is behind a complete search (or silent baseline) that
   * began after the latest detection and reached back to the start of this very gap, or its catch-up failed
   * in a way no retry can fix.
   */
  lemma GapClosingIsJustified(start: World, steps: seq<Step>, g: nat, k: nat)
    requires Start(start) && Admissible(start, steps)
    requires var w := Run(start, steps); Closes(w) && g < |w.poll.value.groups| && k < |w.poll.value.groups[g]|
    ensures var w := Run(start, steps);
            var row, p := w.poll.value.groups[g][k], w.poll.value;
            p.full && row.id in p.reasons && ReasonHolds(w, row, p.reasons[row.id])
  {
    RunKeepsInv(start, steps);
  }

  /** And it closes whenever it may: a full poll in which every selected rule has such a reason. */
  lemma GapClosesExactlyWhenSettled(start: World, steps: seq<Step>)
    requires Start(start) && Admissible(start, steps)
    requires var w := Run(start, steps); Enabled(w, PollFinished) && w.gap.unresolvedSince.Some?
    ensures var w := Run(start, steps);
            After(w, PollFinished).gap.unresolvedSince.None? <==> w.poll.value.full && AllHaveReasons(w.poll.value)
  {
    RunKeepsInv(start, steps);
  }

  /** A later gap makes every earlier acknowledgement stale: no rule counts as caught up when the gap has just been found. */
  lemma NewGapNeedsNewSearches(start: World, steps: seq<Step>, id: RuleId)
    requires Start(start) && Admissible(start, steps)
    requires var w := Run(start, steps); Enabled(w, FeedIngested(true)) && w.gap.fetchedAt.Some? && id in w.rules
    ensures var w := After(Run(start, steps), FeedIngested(true));
            w.gap.lastGapAt.Some? && !CaughtUpAfter(w.rules[id].gapRecoveredAt, w.gap.lastGapAt)
  {
    RunKeepsInv(start, steps);
    assert RuleInv(Run(start, steps), id);
  }

  // ----- Which rules a gap closes over

  /** Something acknowledged stands behind these terms of the rule, for the open gap. */
  predicate CoveredFor(w: World, id: RuleId, terms: Terms) {
    id in w.acks && OverThisGap(w.gap, w.acks[id]) && w.acks[id].terms == terms
  }

  /** This poll found that the rule cannot catch up with these terms. */
  predicate HopelessFor(w: World, id: RuleId, terms: Terms) {
    && w.poll.Some? && id in w.poll.value.reasons && w.poll.value.reasons[id].CannotCatchUp?
    && w.poll.value.reasons[id].terms == terms
  }

  /** An active rule, past its baseline, for whose present terms nothing stands over the open gap. */
  predicate Uncovered(w: World, id: RuleId) {
    && w.gap.unresolvedSince.Some? && id in w.rules && w.rules[id].active && !IsBaseline(w.rules[id], w.revision)
    && !CoveredFor(w, id, w.rules[id].terms)
  }

  /** It is owed a search over the open gap. A gap that closes meanwhile closes over the rule. */
  predicate Owed(w: World, id: RuleId) {
    Uncovered(w, id) && !HopelessFor(w, id, w.rules[id].terms)
  }

  /** The row with which the present group acknowledges the rule. */
  predicate AcknowledgesWith(w: World, search: Search, id: RuleId, row: Row)
    requires InGroup(w)
  {
    row in Members(w) && row.id == id && Acks(w, search, row)
  }

  predicate AcknowledgesRule(w: World, search: Search, id: RuleId)
    requires InGroup(w)
  {
    exists row | row in Members(w) :: AcknowledgesWith(w, search, id, row)
  }

  /** The present group's search is found to fail the rule for good. */
  predicate FoundHopeless(w: World, id: RuleId, terms: Terms)
    requires InGroup(w)
  {
    && w.poll.value.stage.Matching?
    && exists row | row in Members(w) ::
         row.id == id && row.terms == terms && ReasonAfter(w, row).Some? && ReasonAfter(w, row).value.CannotCatchUp?
  }

  /** What makes a rule owed a search, and what keeps it so, in terms of the state before the step. */
  predicate OwedByStep(w: World, step: Step, id: RuleId)
    requires Enabled(w, step)
  {
    match step
    case Wait(_) => Owed(w, id)
    case RuleAdded(added, _, _) => added != id && Owed(w, id)
    case RuleEdited(edited, terms, withTrackers, active) =>
      if edited != id then Owed(w, id)
      else
        && w.gap.unresolvedSince.Some? && !withTrackers && active && !IsBaseline(w.rules[id], w.revision)
        && !CoveredFor(w, id, terms) && !HopelessFor(w, id, terms)
    case RuleDeleted(deleted) => deleted != id && Owed(w, id)
    case RowsSelected(_, _) => Uncovered(w, id)
    case FeedIngested(gap) =>
      if gap && w.gap.fetchedAt.Some? then id in w.rules && w.rules[id].active && !IsBaseline(w.rules[id], w.revision)
      else Uncovered(w, id)
    case FeedFailed => Uncovered(w, id)
    case GroupStarted => Owed(w, id)
    case GroupSearched(search) =>
      if w.gap.unresolvedSince.Some? && AcknowledgesRule(w, search, id) then
        && id in w.rules && w.rules[id].active && !IsBaseline(w.rules[id], w.revision)
        && forall row | row in Members(w) && AcknowledgesWith(w, search, id, row) :: row.terms != w.rules[id].terms
      else Uncovered(w, id) && (After(w, step).poll.Some? ==> Owed(w, id))
    case RowMatched =>
      var matched := Members(w)[w.poll.value.stage.done].id;
      if matched !in w.rules then Uncovered(w, id)
      else if matched != id then Owed(w, id)
      else
        && w.gap.unresolvedSince.Some? && w.rules[id].active && !CoveredFor(w, id, w.rules[id].terms)
        && !HopelessFor(w, id, w.rules[id].terms)
    case GroupEnded(failed) =>
      && Uncovered(w, id)
      && (After(w, step).poll.Some? ==>
            && Owed(w, id)
            && !(!failed && FoundHopeless(w, id, w.rules[id].terms)))
    case PollFinished => After(w, step).gap.unresolvedSince.Some? && Uncovered(w, id)
    case Restarted(revision) => Uncovered(w.(revision := revision), id)
  }

  lemma OneMember(w: World, id: RuleId, row: Row) returns (k: nat)
    requires Inv(w) && InGroup(w) && row in Members(w) && row.id == id
    ensures k < |Members(w)| && Members(w)[k] == row
    ensures forall other | other in Members(w) && other.id == id :: other == row
  {
    DistinctMembers(w);
    k :| 0 <= k < |Members(w)| && Members(w)[k] == row;
    forall other | other in Members(w) && other.id == id ensures other == row {
      var i :| 0 <= i < |Members(w)| && Members(w)[i] == other;
    }
  }

  lemma NoReasonYet(w: World, search: Search, id: RuleId)
    requires Awaiting(w, search) && exists k :: 0 <= k < |Members(w)| && Members(w)[k].id == id
    ensures id !in w.poll.value.reasons
  {
    var k :| 0 <= k < |Members(w)| && Members(w)[k].id == id;
    assert w.poll.value.groups[w.poll.value.next][k].id == id;
    assert ReasonsHold(w, w.poll.value);
  }

  lemma OwedIfAcknowledged(w: World, search: Search, id: RuleId, row: Row)
    requires Awaiting(w, search) && AcknowledgesWith(w, search, id, row)
    ensures Owed(After(w, GroupSearched(search)), id) <==> OwedByStep(w, GroupSearched(search), id)
  {
    var w' := After(w, GroupSearched(search));
    var k := OneMember(w, id, row);
    RuleAfterSearch(w, search, id);
    NoReasonYet(w, search, id);
    assert CoveredFor(w', id, w.rules[id].terms) <==> row.terms == w.rules[id].terms;
    assert AcknowledgesRule(w, search, id);
  }

  lemma OwedIfNotAcknowledged(w: World, search: Search, id: RuleId)
    requires Awaiting(w, search) && !AcknowledgesRule(w, search, id)
    ensures Owed(After(w, GroupSearched(search)), id) <==> OwedByStep(w, GroupSearched(search), id)
  {
    forall k | 0 <= k < |Members(w)| && Members(w)[k].id == id ensures !Acks(w, search, Members(w)[k]) {
      assert Members(w)[k] in Members(w) && !AcknowledgesWith(w, search, id, Members(w)[k]);
    }
    RuleAfterSearch(w, search, id);
  }

  lemma OwedAfterSearch(w: World, search: Search, id: RuleId)
    requires Inv(w) && Enabled(w, GroupSearched(search))
    ensures Owed(After(w, GroupSearched(search)), id) <==> OwedByStep(w, GroupSearched(search), id)
  {
    if w.gap.unresolvedSince.Some? {
      if AcknowledgesRule(w, search, id) {
        var row :| row in Members(w) && AcknowledgesWith(w, search, id, row);
        OwedIfAcknowledged(w, search, id, row);
      } else {
        OwedIfNotAcknowledged(w, search, id);
      }
    }
  }

  lemma ReasonOfMember(w: World, id: RuleId, row: Row)
    requires Ending(w, false) && row in Members(w) && row.id == id
    ensures id !in w.poll.value.reasons
    ensures var reasons := After(w, GroupEnded(false)).poll.value.reasons;
            && (id in reasons <==> ReasonAfter(w, row).Some?)
            && (ReasonAfter(w, row).Some? ==> reasons[id] == ReasonAfter(w, row).value)
  {
    var k := OneMember(w, id, row);
    ReasonsAfterGroup(w);
    assert w.poll.value.groups[w.poll.value.next][k].id == id;
  }

  lemma ReasonOfOther(w: World, id: RuleId)
    requires Ending(w, false) && forall row | row in Members(w) :: row.id != id
    ensures var reasons, reasons' := w.poll.value.reasons, After(w, GroupEnded(false)).poll.value.reasons;
            (id in reasons' <==> id in reasons) && (id in reasons ==> reasons'[id] == reasons[id])
  {
    DistinctMembers(w);
    var stage := w.poll.value.stage;
    ReasonsOf(w, Members(w), Searched(Members(w), w.CountingFrom(), stage.search), stage.search);
  }

  lemma HopelessAfterGroup(w: World, failed: bool, id: RuleId, terms: Terms)
    requires Ending(w, failed)
    ensures HopelessFor(After(w, GroupEnded(failed)), id, terms) <==>
            HopelessFor(w, id, terms) || (!failed && FoundHopeless(w, id, terms))
  {
    if !failed {
      if row :| row in Members(w) && row.id == id {
        var _ := OneMember(w, id, row);
        ReasonOfMember(w, id, row);
      } else {
        ReasonOfOther(w, id);
      }
    }
  }

  lemma OwedAfterGroup(w: World, failed: bool, id: RuleId)
    requires Inv(w) && Enabled(w, GroupEnded(failed))
    ensures Owed(After(w, GroupEnded(failed)), id) <==> OwedByStep(w, GroupEnded(failed), id)
  {
    if Uncovered(w, id) && After(w, GroupEnded(failed)).poll.Some? {
      HopelessAfterGroup(w, failed, id, w.rules[id].terms);
    }
  }

  lemma OwedAfterMatch(w: World, id: RuleId)
    requires Inv(w) && Enabled(w, RowMatched)
    ensures Owed(After(w, RowMatched), id) <==> OwedByStep(w, RowMatched, id)
  {
  }

  lemma OwedAfter(w: World, step: Step, id: RuleId)
    requires Inv(w) && Enabled(w, step)
    ensures Owed(After(w, step), id) <==> OwedByStep(w, step, id)
  {
    match step
    case GroupSearched(search) => OwedAfterSearch(w, search, id);
    case GroupEnded(failed) => OwedAfterGroup(w, failed, id);
    case RowMatched => OwedAfterMatch(w, id);
    case _ =>
  }

  /**
   * Exactly what makes a rule owed a search and what settles it, step by step, over the rule's present terms.
   * It is owed one when a gap is found while it is past its baseline; when its terms are edited to ones nothing
   * stands for, without its trackers; when it is enabled so; and when a row that was selected before an edit
   * takes the baseline that the edit gave it. It is settled by an acknowledgement for its present terms, a
   * search of them that cannot succeed, a new baseline, disabling or deleting it, and the end of the gap.
   */
  lemma OwedExactly(start: World, steps: seq<Step>, step: Step, id: RuleId)
    requires Start(start) && Admissible(start, steps) && Enabled(Run(start, steps), step)
    ensures Owed(After(Run(start, steps), step), id) <==> OwedByStep(Run(start, steps), step, id)
  {
    RunKeepsInv(start, steps);
    OwedAfter(Run(start, steps), step, id);
  }

  /** The terms that the rule's reason speaks for: those acknowledged, or those that cannot be caught up. */
  function SettledTerms(reason: Reason): Terms {
    match reason
    case OnBaseline(ack) => ack.terms
    case CaughtUpNow(ack) => ack.terms
    case CaughtUpBefore(ack) => ack.terms
    case CannotCatchUp(_, terms) => terms
  }

  /**
   * Exactly the rules that a closing gap closes over. Of those the poll selected they are the active ones past
   * their baseline whose present terms are not those their reason speaks for. Every other one was added or
   * enabled after the selection.
   */
  lemma GapClosesOver(start: World, steps: seq<Step>, id: RuleId)
    requires Start(start) && Admissible(start, steps)
    requires var w := Run(start, steps); Closes(w) && id in w.rules && w.rules[id].active
    ensures var w := Run(start, steps);
            var p, rule := w.poll.value, w.rules[id];
            if InGroups(p.groups, 0, |p.groups|, id) then
              && id in p.reasons
              && (Owed(w, id) <==>
                    && !IsBaseline(rule, w.revision) && rule.terms != SettledTerms(p.reasons[id])
                    && (p.reasons[id].CannotCatchUp? ==> !CoveredFor(w, id, rule.terms)))
            else
              && id in p.joined
              && (Owed(w, id) <==> !IsBaseline(rule, w.revision) && !CoveredFor(w, id, rule.terms))
  {
    RunKeepsInv(start, steps);
    var w := Run(start, steps);
    var p := w.poll.value;
    if g, k :| 0 <= g < |p.groups| && 0 <= k < |p.groups[g]| && p.groups[g][k].id == id {
      GapClosingIsJustified(start, steps, g, k);
    }
  }

  // ----- Edits that pass no rule over

  /** The rule's acknowledgement counts for the open gap. */
  predicate Counts(w: World, id: RuleId) {
    w.gap.unresolvedSince.Some? && id in w.rules && CaughtUpAfter(w.rules[id].gapRecoveredAt, w.CountingFrom())
  }

  /** It does so for other terms than the rule has. */
  predicate Misled(w: World, id: RuleId) {
    Counts(w, id) && id in w.acks && w.acks[id].terms != w.rules[id].terms
  }

  /** The poll has not finished matching the group of the rule. */
  predicate Ahead(w: World, id: RuleId) {
    w.poll.Some? && InGroups(w.poll.value.groups, w.poll.value.next, |w.poll.value.groups|, id)
  }

  /**
   * Terms change only with the trackers or while no acknowledgement counts, and never while the rule is ahead of
   * a poll. No rule is added under the id of one ahead.
   */
  predicate Careful(w: World, step: Step) {
    && (step.RuleEdited? && step.id in w.rules && step.terms != w.rules[step.id].terms ==>
          (step.withTrackers || !Counts(w, step.id)) && !Ahead(w, step.id))
    && (step.RuleAdded? ==> !Ahead(w, step.id))
  }

  /** Careful, and while a poll works the terms of a rule past its baseline change, and it is enabled, only with its trackers. */
  predicate Safe(w: World, step: Step) {
    && Careful(w, step)
    && (step.RuleEdited? && step.id in w.rules && w.poll.Some? ==>
          var rule := w.rules[step.id];
          step.withTrackers || IsBaseline(rule, w.revision) || (step.terms == rule.terms && (rule.active || !step.active)))
  }

  predicate AllCareful(w: World, steps: seq<Step>)
    requires Admissible(w, steps)
    decreases |steps|
  {
    steps == [] || (Careful(w, steps[0]) && AllCareful(After(w, steps[0]), steps[1..]))
  }

  predicate AllSafe(w: World, steps: seq<Step>)
    requires Admissible(w, steps)
    decreases |steps|
  {
    steps == [] || (Safe(w, steps[0]) && AllSafe(After(w, steps[0]), steps[1..]))
  }

  lemma {:induction false} SafeIsCareful(w: World, steps: seq<Step>)
    requires Admissible(w, steps) && AllSafe(w, steps)
    ensures AllCareful(w, steps)
    decreases |steps|
  {
    if steps != [] {
      SafeIsCareful(After(w, steps[0]), steps[1..]);
    }
  }


  /** Its row has the rule's present terms, and was acknowledged, if it counts, for those. */
  predicate RowFits(w: World, row: Row) {
    && (row.id in w.rules ==> w.rules[row.id].terms == row.terms)
    && (w.gap.unresolvedSince.Some? && CaughtUpAfter(row.gapRecoveredAt, w.CountingFrom()) && row.id in w.acks ==>
          w.acks[row.id].terms == row.terms)
  }

  predicate NoneMisled(w: World) {
    && (forall id | id in w.rules :: !Misled(w, id))
    && (w.poll.Some? ==>
          var p := w.poll.value;
          forall g, k | p.next <= g < |p.groups| && 0 <= k < |p.groups[g]| :: RowFits(w, p.groups[g][k]))
  }

  lemma MemberStaysFit(w: World, search: Search, g: nat, k: nat)
    requires Awaiting(w, search) && NoneMisled(w) && g < |w.poll.value.groups| && g >= w.poll.value.next && k < |w.poll.value.groups[g]|
    ensures RowFits(After(w, GroupSearched(search)), w.poll.value.groups[g][k])
  {
    var p := w.poll.value;
    var row := p.groups[g][k];
    assert RowFits(w, row);
    RuleAfterSearch(w, search, row.id);
    forall i | 0 <= i < |Members(w)| && Members(w)[i].id == row.id ensures Members(w)[i] == row {
      assert Members(w)[i] == p.groups[p.next][i];
    }
  }

  lemma SearchMisleadsNone(w: World, search: Search)
    requires Awaiting(w, search) && NoneMisled(w)
    ensures NoneMisled(After(w, GroupSearched(search)))
  {
    var w' := After(w, GroupSearched(search));
    var p := w.poll.value;
    forall id | id in w'.rules ensures !Misled(w', id) {
      RuleAfterSearch(w, search, id);
      forall i | 0 <= i < |Members(w)| && Members(w)[i].id == id ensures RowFits(w, Members(w)[i]) {
        assert Members(w)[i] == p.groups[p.next][i];
      }
    }
    forall g, k | p.next <= g < |p.groups| && 0 <= k < |p.groups[g]| ensures RowFits(w', p.groups[g][k]) {
      MemberStaysFit(w, search, g, k);
    }
  }

  lemma SelectionMisleadsNone(w: World, full: bool, groups: seq<seq<Row>>)
    requires Inv(w) && NoneMisled(w) && Enabled(w, RowsSelected(full, groups))
    ensures NoneMisled(After(w, RowsSelected(full, groups)))
  {
    var w' := After(w, RowsSelected(full, groups));
    forall id | id in w'.rules ensures !Misled(w', id) {
      assert !Misled(w, id);
    }
    forall g, k | 0 <= g < |groups| && 0 <= k < |groups[g]| ensures RowFits(w', groups[g][k]) {
      assert !Misled(w, groups[g][k].id);
    }
  }

  lemma IngestMisleadsNone(w: World, gap: bool)
    requires Inv(w) && NoneMisled(w) && Enabled(w, FeedIngested(gap))
    ensures NoneMisled(After(w, FeedIngested(gap)))
  {
    var w', p := After(w, FeedIngested(gap)), w.poll.value;
    forall id | id in w'.rules ensures !Misled(w', id) {
      assert !Misled(w, id) && RuleInv(w, id);
    }
    forall g, k | 0 <= g < |p.groups| && 0 <= k < |p.groups[g]| ensures RowFits(w', p.groups[g][k]) {
      assert RowFits(w, p.groups[g][k]) && OnRecord(w, p.groups[g][k].id, p.groups[g][k].gapRecoveredAt);
    }
  }

  lemma EditMisleadsNone(w: World, step: Step)
    requires NoneMisled(w) && IsEdit(step) && Enabled(w, step) && Careful(w, step)
    ensures NoneMisled(After(w, step))
  {
    var w' := After(w, step);
    forall id | id in w'.rules ensures !Misled(w', id) {
      assert id in w.rules ==> !Misled(w, id);
    }
    if w.poll.Some? {
      var p := w.poll.value;
      forall g, k | p.next <= g < |p.groups| && 0 <= k < |p.groups[g]| ensures RowFits(w', p.groups[g][k]) {
        assert RowFits(w, p.groups[g][k]);
        assert p.groups[g][k].id == step.id ==> InGroups(p.groups, p.next, |p.groups|, step.id);
      }
    }
  }

  lemma StepMisleadsNone(w: World, step: Step)
    requires Inv(w) && NoneMisled(w) && Enabled(w, step) && Careful(w, step)
    ensures NoneMisled(After(w, step))
  {
    if IsEdit(step) {
      EditMisleadsNone(w, step);
    } else if step.RowsSelected? {
      SelectionMisleadsNone(w, step.full, step.groups);
    } else if step.FeedIngested? {
      IngestMisleadsNone(w, step.gap);
    } else if step.GroupSearched? && w.gap.unresolvedSince.Some? {
      SearchMisleadsNone(w, step.search);
    } else {
      var w' := After(w, step);
      forall id | id in w'.rules ensures !Misled(w', id) {
        assert !Misled(w, id);
      }
      if w'.poll.Some? {
        var p := w'.poll.value;
        forall g, k | p.next <= g < |p.groups| && 0 <= k < |p.groups[g]| ensures RowFits(w', p.groups[g][k]) {
          assert RowFits(w, p.groups[g][k]);
        }
      }
    }
  }

  lemma {:induction false} RunMisleadsNone(w: World, steps: seq<Step>)
    requires Inv(w) && NoneMisled(w) && Admissible(w, steps) && AllCareful(w, steps)
    ensures NoneMisled(Run(w, steps))
    decreases |steps|
  {
    if steps != [] {
      StepKeepsInv(w, steps[0]);
      StepMisleadsNone(w, steps[0]);
      RunMisleadsNone(After(w, steps[0]), steps[1..]);
    }
  }


  /** Of the groups behind the poll, no rule counted as caught up by a search of other terms. */
  predicate ReasonsFit(w: World) {
    w.poll.Some? ==>
      var p := w.poll.value;
      forall g, k | 0 <= g < p.next && g < |p.groups| && 0 <= k < |p.groups[g]| :: ReasonFits(p, p.groups[g][k])
  }

  predicate ReasonFits(p: Poll, row: Row) {
    row.id in p.reasons && p.reasons[row.id].CaughtUpBefore? ==> p.reasons[row.id].ack.terms == row.terms
  }

  lemma GroupEndFits(w: World, failed: bool)
    requires Inv(w) && NoneMisled(w) && ReasonsFit(w) && Enabled(w, GroupEnded(failed))
    ensures ReasonsFit(After(w, GroupEnded(failed)))
  {
    var w', p := After(w, GroupEnded(failed)), w.poll.value;
    if w'.poll.Some? && w.gap.unresolvedSince.Some? {
      forall g, k | 0 <= g <= p.next && 0 <= k < |p.groups[g]| ensures ReasonFits(w'.poll.value, p.groups[g][k]) {
        var row := p.groups[g][k];
        if failed {
          assert g == p.next ==> !InGroups(p.groups, 0, p.next, row.id);
        } else if g == p.next {
          ReasonOfMember(w, row.id, row);
          assert RowFits(w, row);
        } else {
          ReasonsAfterGroup(w);
          assert ReasonFits(p, row);
        }
      }
    }
  }

  lemma StepFits(w: World, step: Step)
    requires Inv(w) && NoneMisled(w) && ReasonsFit(w) && Enabled(w, step)
    ensures ReasonsFit(After(w, step))
  {
    if step.GroupEnded? {
      GroupEndFits(w, step.failed);
    } else if After(w, step).poll.Some? && w.poll.Some? {
      var p, p' := w.poll.value, After(w, step).poll.value;
      forall g, k | 0 <= g < p'.next && g < |p'.groups| && 0 <= k < |p'.groups[g]| ensures ReasonFits(p', p'.groups[g][k]) {
        assert ReasonFits(p, p.groups[g][k]);
      }
    }
  }

  lemma {:induction false} RunFits(w: World, steps: seq<Step>)
    requires Inv(w) && NoneMisled(w) && ReasonsFit(w) && Admissible(w, steps) && AllCareful(w, steps)
    ensures ReasonsFit(Run(w, steps))
    decreases |steps|
  {
    if steps != [] {
      StepKeepsInv(w, steps[0]);
      StepMisleadsNone(w, steps[0]);
      StepFits(w, steps[0]);
      RunFits(After(w, steps[0]), steps[1..]);
    }
  }

  /** If terms are only edited carefully, a gap that closes was searched for the terms of every selected rule that needed it. */
  lemma CarefulEditsPassNoRuleOver(start: World, steps: seq<Step>, g: nat, k: nat)
    requires Start(start) && Admissible(start, steps) && AllCareful(start, steps)
    requires var w := Run(start, steps); Closes(w) && g < |w.poll.value.groups| && k < |w.poll.value.groups[g]|
    ensures var w := Run(start, steps);
            var row, reasons := w.poll.value.groups[g][k], w.poll.value.reasons;
            row.id in reasons && ReasonHolds(w, row, reasons[row.id]) && SettledTerms(reasons[row.id]) == row.terms
  {
    RunFits(start, steps);
    GapClosingIsJustified(start, steps, g, k);
    var w := Run(start, steps);
    assert ReasonFits(w.poll.value, w.poll.value.groups[g][k]);
  }

  /** No rule behind the poll is owed a search, and every active one that it did not select is on its baseline. */
  predicate NoneOwed(w: World) {
    w.poll.Some? ==>
      var p := w.poll.value;
      && (w.gap.unresolvedSince.Some? ==> forall id | id in p.reasons :: !Owed(w, id))
      && (p.full ==> forall id | id in w.rules && w.rules[id].active && !InGroups(p.groups, 0, |p.groups|, id) ::
            IsBaseline(w.rules[id], w.revision))
  }

  lemma EditLeavesNoneOwed(w: World, step: Step)
    requires Inv(w) && NoneOwed(w) && IsEdit(step) && Enabled(w, step) && Safe(w, step)
    ensures NoneOwed(After(w, step))
  {
    if w.poll.Some? {
      forall id | id in w.poll.value.reasons && w.gap.unresolvedSince.Some? ensures !Owed(After(w, step), id) {
        OwedAfter(w, step, id);
      }
    }
  }

  /** The rules of a group that has ended with a reason, and whose terms were not edited meanwhile, are settled. */
  lemma EndedMemberIsSettled(w: World, id: RuleId)
    requires Ending(w, false) && NoneMisled(w) && ReasonsFit(w)
    requires id in After(w, GroupEnded(false)).poll.value.reasons && id !in w.poll.value.reasons
    ensures !Owed(After(w, GroupEnded(false)), id)
  {
    var w', p := After(w, GroupEnded(false)), w.poll.value;
    ReasonsAfterGroup(w);
    var k :| 0 <= k < |Members(w)| && Members(w)[k].id == id;
    var row := p.groups[p.next][k];
    ReasonsHoldAfterGroup(w, false, p.next, k);
    GroupEndFits(w, false);
    assert RowFits(w, row) && ReasonFits(w'.poll.value, row);
  }

  lemma GroupEndLeavesNoneOwed(w: World, failed: bool)
    requires Inv(w) && NoneMisled(w) && ReasonsFit(w) && NoneOwed(w) && Enabled(w, GroupEnded(failed))
    ensures NoneOwed(After(w, GroupEnded(failed)))
  {
    var w' := After(w, GroupEnded(failed));
    if w'.poll.Some? && w.gap.unresolvedSince.Some? {
      forall id | id in w'.poll.value.reasons ensures !Owed(w', id) {
        if id in w.poll.value.reasons {
          OwedAfterGroup(w, failed, id);
        } else {
          EndedMemberIsSettled(w, id);
        }
      }
    }
  }

  lemma SearchLeavesNoneOwed(w: World, search: Search)
    requires Inv(w) && NoneOwed(w) && Enabled(w, GroupSearched(search))
    ensures NoneOwed(After(w, GroupSearched(search)))
  {
    var w' := After(w, GroupSearched(search));
    if w'.poll.Some? && w.gap.unresolvedSince.Some? {
      var p := w'.poll.value;
      forall id | id in p.reasons ensures !Owed(w', id) {
        OwedAfterSearch(w, search, id);
        if AcknowledgesRule(w, search, id) {
          var row :| row in Members(w) && AcknowledgesWith(w, search, id, row);
          var _ := OneMember(w, id, row);
          NoReasonYet(w, search, id);
        }
      }
      forall id | id in w'.rules && w'.rules[id].active && p.full && !InGroups(p.groups, 0, |p.groups|, id)
        ensures IsBaseline(w'.rules[id], w'.revision)
      {
        RuleAfterSearch(w, search, id);
      }
    }
  }

  lemma MatchLeavesNoneOwed(w: World)
    requires Inv(w) && NoneOwed(w) && Enabled(w, RowMatched)
    ensures NoneOwed(After(w, RowMatched))
  {
    var w' := After(w, RowMatched);
    if w'.poll.Some? {
      var p := w.poll.value;
      var row := p.groups[p.next][p.stage.done];
      assert InGroups(p.groups, 0, |p.groups|, row.id);
      assert w.gap.unresolvedSince.Some? ==> row.id !in p.reasons;
      forall id | id in p.reasons && w.gap.unresolvedSince.Some? ensures !Owed(w', id) {
        OwedAfterMatch(w, id);
      }
    }
  }

  lemma StepLeavesNoneOwed(w: World, step: Step)
    requires Inv(w) && NoneMisled(w) && ReasonsFit(w) && NoneOwed(w) && Enabled(w, step) && Safe(w, step)
    ensures NoneOwed(After(w, step))
  {
    if IsEdit(step) {
      EditLeavesNoneOwed(w, step);
    } else if step.GroupEnded? {
      GroupEndLeavesNoneOwed(w, step.failed);
    } else if step.GroupSearched? {
      SearchLeavesNoneOwed(w, step.search);
    } else if step.RowMatched? {
      MatchLeavesNoneOwed(w);
    }
  }

  lemma {:induction false} RunLeavesNoneOwed(w: World, steps: seq<Step>)
    requires Inv(w) && NoneMisled(w) && ReasonsFit(w) && NoneOwed(w) && Admissible(w, steps) && AllSafe(w, steps)
    ensures NoneOwed(Run(w, steps))
    decreases |steps|
  {
    if steps != [] {
      StepKeepsInv(w, steps[0]);
      StepMisleadsNone(w, steps[0]);
      StepFits(w, steps[0]);
      StepLeavesNoneOwed(w, steps[0]);
      RunLeavesNoneOwed(After(w, steps[0]), steps[1..]);
    }
  }

  /** And if terms change and rules are enabled safely, a gap closes over no rule's present terms. */
  lemma SafeEditsPassNoRuleOver(start: World, steps: seq<Step>, id: RuleId)
    requires Start(start) && Admissible(start, steps) && AllSafe(start, steps) && Closes(Run(start, steps))
    ensures !Owed(Run(start, steps), id)
  {
    var w := Run(start, steps);
    RunLeavesNoneOwed(start, steps);
    if Owed(w, id) {
      GapClosesOver(start, steps, id);
    }
  }

  // ----- A rule deleted while a poll works

  /** A row of the poll's present or later groups, not yet matched, has the id. */
  predicate Unmatched(p: Poll, id: RuleId) {
    exists g, k :: p.next <= g < |p.groups| && 0 <= k < |p.groups[g]| && p.groups[g][k].id == id
                   && (g == p.next && p.stage.Matching? ==> k >= p.stage.done)
  }

  predicate Doomed(w: World, id: RuleId) {
    w.poll.Some? && Unmatched(w.poll.value, id) && id !in w.rules
  }

  lemma SearchAddsNone(w: World, search: Search)
    requires Enabled(w, GroupSearched(search)) && w.gap.unresolvedSince.Some?
    ensures After(w, GroupSearched(search)).rules.Keys == w.rules.Keys
  {
    MarkedTwice(w.rules, BySearch(w.rules.Keys, Members(w), w.CountingFrom(), search), ByBaseline(w.rules.Keys, Members(w)),
                w.poll.value.stage.startedAt);
  }

  lemma StaysDoomed(w: World, step: Step, id: RuleId)
    requires Doomed(w, id) && Enabled(w, step) && !(step.RuleAdded? && step.id == id)
    ensures !step.PollFinished?
    ensures After(w, step).poll.None? || Doomed(After(w, step), id)
  {
    var p := w.poll.value;
    var g, k :| p.next <= g < |p.groups| && 0 <= k < |p.groups[g]| && p.groups[g][k].id == id
                && (g == p.next && p.stage.Matching? ==> k >= p.stage.done);
    if step.GroupEnded? && g == p.next {
      assert p.groups[g][k] in Members(w);
    }
    if After(w, step).poll.Some? {
      var w' := After(w, step);
      var p' := w'.poll.value;
      assert p'.groups == p.groups && p'.next <= g;
      if step.GroupSearched? && w.gap.unresolvedSince.Some? {
        SearchAddsNone(w, step.search);
      }
      assert p'.groups[g][k].id == id && (g == p'.next && p'.stage.Matching? ==> k >= p'.stage.done);
    }
  }

  /**
   * Deleting a rule that the poll has still to match ends the poll when it comes to it, so that whatever else
   * happens before the next poll, the gap stays open. Only adding another one under its id makes up for it.
   */
  lemma {:induction false} DeletionHoldsTheGapOpen(w: World, steps: seq<Step>, id: RuleId)
    requires Admissible(w, steps) && w.gap.unresolvedSince.Some? && (w.poll.None? || Doomed(w, id))
    requires forall i | 0 <= i < |steps| :: !steps[i].RowsSelected? && !(steps[i].RuleAdded? && steps[i].id == id)
    ensures Run(w, steps).gap.unresolvedSince == w.gap.unresolvedSince
    decreases |steps|
  {
    if steps != [] {
      if w.poll.Some? {
        StaysDoomed(w, steps[0], id);
      }
      DeletionHoldsTheGapOpen(After(w, steps[0]), steps[1..], id);
    }
  }

  // ----- Edits at the wrong moment, step by step

  lemma RunFrom(w: World, steps: seq<Step>)
    requires steps != [] && Enabled(w, steps[0]) && Admissible(After(w, steps[0]), steps[1..])
    ensures Admissible(w, steps) && Run(w, steps) == Run(After(w, steps[0]), steps[1..])
  {
  }

  lemma TwoSteps(w: World, first: Step, second: Step)
    requires Enabled(w, first) && Enabled(After(w, first), second)
    ensures Admissible(w, [first, second]) && Run(w, [first, second]) == After(After(w, first), second)
  {
    RunFrom(After(w, first), [second]);
    RunFrom(w, [first, second]);
  }

  const SELECTED := Row(1, 7, false, None)

  function OneRule(): World {
    World(15, None, map[1 := Rule(7, true, true, None, None)], GapState(Some(10), None, None), None, map[], 0)
  }

  /** A poll of the one rule, which has found a gap; before or after the group's search. */
  function OnePoll(rule: Rule, stage: Stage, joined: set<RuleId>): World {
    var searched := stage.Matching?;
    World(15, None, map[1 := rule], GapState(Some(15), Some(10), Some(15)),
          Some(Poll(true, [[SELECTED]], 0, stage, if searched then 1 else 0, 0, joined, map[])),
          if searched then map[1 := Ack(7, 10, 15, true)] else map[], 15)
  }

  lemma PollReachesTheSearch()
    ensures var steps := [RowsSelected(true, [[SELECTED]]), FeedIngested(true), GroupStarted];
            && Start(OneRule()) && Admissible(OneRule(), steps)
            && Run(OneRule(), steps) == OnePoll(Rule(7, true, true, None, None), Searching(15), {})
  {
    var steps := [RowsSelected(true, [[SELECTED]]), FeedIngested(true), GroupStarted];
    var groups: seq<seq<Row>> := [[SELECTED]];
    assert groups[0][0].id == 1 && InGroups(groups, 0, 1, 1);
    var w1 := After(OneRule(), steps[0]);
    var w2 := After(w1, steps[1]);
    RunFrom(w2, steps[2..]);
    RunFrom(w1, steps[1..]);
    RunFrom(OneRule(), steps);
  }

  lemma OneIsSearched(rule: Rule, joined: set<RuleId>)
    ensures Enabled(OnePoll(rule, Searching(15), joined), GroupSearched(Complete))
    ensures After(OnePoll(rule, Searching(15), joined), GroupSearched(Complete)) == OnePoll(rule.(gapRecoveredAt := Some(15)), Matching(15, Complete, 0), joined)
  {
    var w, rows: seq<Row> := OnePoll(rule, Searching(15), joined), [SELECTED];
    assert Members(w) == rows && SELECTED in rows && Pending(SELECTED, w.CountingFrom());
    AcknowledgedIfThere(w.rules, rows, w.CountingFrom(), 15, Complete);
    AcknowledgedRows(w.rules.Keys, rows, w.CountingFrom(), Complete);
    assert NewAcks(map[], rows, BySearch(w.rules.Keys, rows, w.CountingFrom(), Complete), ByBaseline(w.rules.Keys, rows), 10, 15)
        == map[1 := Ack(7, 10, 15, true)];
  }

  function OneReason(): map<RuleId, Reason> {
    map[1 := CaughtUpNow(Ack(7, 10, 15, true))]
  }

  lemma OneGroupEnds(rule: Rule, joined: set<RuleId>)
    ensures var w := OnePoll(rule, Matching(15, Complete, 1), joined);
            && Enabled(w, GroupEnded(false))
            && After(w, GroupEnded(false)) == w.(poll := Some(w.poll.value.(next := 1, stage := Between, reasons := OneReason())))
  {
    var w, rows: seq<Row> := OnePoll(rule, Matching(15, Complete, 1), joined), [SELECTED];
    assert Members(w) == rows && SELECTED in rows && Pending(SELECTED, w.CountingFrom());
    assert rows[1..] == [];
    assert ReasonFor(w, SELECTED, true, Complete) == CaughtUpNow(Ack(7, 10, 15, true));
    assert Reasons(w, rows, true, Complete) == OneReason();
    assert w.poll.value.reasons + OneReason() == OneReason();
  }

  /** However the rule was edited meanwhile, the poll goes on to close the gap. */
  lemma OneIsClosedOver(rule: Rule, joined: set<RuleId>)
    requires rule.active
    ensures var w, steps := OnePoll(rule, Matching(15, Complete, 0), joined), [RowMatched, GroupEnded(false)];
            && Admissible(w, steps) && Closes(Run(w, steps)) && Run(w, steps).rules == Initialized(w.rules, 1, None)
            && Run(w, steps).acks == w.acks && (Owed(Run(w, steps), 1) <==> rule.terms != 7)
  {
    var w, rule' := OnePoll(rule, Matching(15, Complete, 0), joined), Initialized(map[1 := rule], 1, None)[1];
    assert After(w, RowMatched) == OnePoll(rule', Matching(15, Complete, 1), joined);
    OneGroupEnds(rule', joined);
    TwoSteps(w, RowMatched, GroupEnded(false));
  }

  lemma {:induction false} RunInTwo(w: World, first: seq<Step>, second: seq<Step>)
    requires Admissible(w, first) && Admissible(Run(w, first), second)
    ensures Admissible(w, first + second) && Run(w, first + second) == Run(Run(w, first), second)
    decreases |first|
  {
    if first == [] {
      assert first + second == second;
    } else {
      assert (first + second)[0] == first[0] && (first + second)[1..] == first[1..] + second;
      RunInTwo(After(w, first[0]), first[1..], second);
    }
  }

  /** The gap closes over terms that were never searched. */
  predicate ClosesOverOne(steps: seq<Step>) {
    && Admissible(OneRule(), steps)
    && var w := Run(OneRule(), steps); Closes(w) && Owed(w, 1) && w.rules[1].terms == 8 && w.acks == map[1 := Ack(7, 10, 15, true)]
  }

  function ToTheSearch(): seq<Step> {
    [RowsSelected(true, [[SELECTED]]), FeedIngested(true), GroupStarted]
  }

  lemma OneIsPassedOver(second: seq<Step>, rule: Rule, joined: set<RuleId>)
    requires rule.active && rule.terms == 8
    requires Admissible(OnePoll(Rule(7, true, true, None, None), Searching(15), {}), second)
    requires Run(OnePoll(Rule(7, true, true, None, None), Searching(15), {}), second) == OnePoll(rule, Matching(15, Complete, 0), joined)
    ensures ClosesOverOne(ToTheSearch() + (second + [RowMatched, GroupEnded(false)]))
  {
    var w, third := OnePoll(Rule(7, true, true, None, None), Searching(15), {}), [RowMatched, GroupEnded(false)];
    PollReachesTheSearch();
    OneIsClosedOver(rule, joined);
    RunInTwo(w, second, third);
    RunInTwo(OneRule(), ToTheSearch(), second + third);
  }

  /** A rule is edited while its old terms are searched. It is acknowledged and taken past its baseline nevertheless. */
  lemma EditDuringSearchIsPassedOver()
    ensures Start(OneRule())
    ensures ClosesOverOne(ToTheSearch() + ([RuleEdited(1, 8, true, true), GroupSearched(Complete)] + [RowMatched, GroupEnded(false)]))
  {
    var w, edited := OnePoll(Rule(7, true, true, None, None), Searching(15), {}), Rule(8, true, false, None, None);
    assert After(w, RuleEdited(1, 8, true, true)) == OnePoll(edited, Searching(15), {});
    OneIsSearched(edited, {});
    TwoSteps(w, RuleEdited(1, 8, true, true), GroupSearched(Complete));
    OneIsPassedOver([RuleEdited(1, 8, true, true), GroupSearched(Complete)], edited.(gapRecoveredAt := Some(15)), {});
  }

  /** A rule is edited between its search and its matching. Its new baseline is taken by the matching of its old terms. */
  lemma EditDuringMatchingIsPassedOver()
    ensures Start(OneRule())
    ensures ClosesOverOne(ToTheSearch() + ([GroupSearched(Complete), RuleEdited(1, 8, true, true)] + [RowMatched, GroupEnded(false)]))
  {
    var w, edited := OnePoll(Rule(7, true, true, None, None), Searching(15), {}), Rule(8, true, false, None, None);
    OneIsSearched(w.rules[1], {});
    TwoSteps(w, GroupSearched(Complete), RuleEdited(1, 8, true, true));
    OneIsPassedOver([GroupSearched(Complete), RuleEdited(1, 8, true, true)], edited, {});
  }

  lemma OneIsAddedInstead(rule: Rule)
    ensures var w := OnePoll(rule, Matching(15, Complete, 0), {});
            && Enabled(w, RuleDeleted(1)) && Enabled(After(w, RuleDeleted(1)), RuleAdded(1, 8, true))
            && After(After(w, RuleDeleted(1)), RuleAdded(1, 8, true)) == OnePoll(Rule(8, true, false, None, None), Matching(15, Complete, 0), {1})
  {
    var w := OnePoll(rule, Matching(15, Complete, 0), {});
    var w1 := After(w, RuleDeleted(1));
    assert w1.rules == map[];
    var w2 := After(w1, RuleAdded(1, 8, true));
    assert w2.rules == map[1 := Rule(8, true, false, None, None)] && w2.poll.value.joined == {1};
  }

  /**
   * The id of the newest rule is used again when it was deleted. So a rule deleted and another one added between the
   * search and the matching are passed over like an edited one: the new rule's baseline is taken and the gap closes.
   */
  lemma AddedUnderItsIdIsPassedOver()
    ensures Start(OneRule())
    ensures ClosesOverOne(ToTheSearch() + ([GroupSearched(Complete), RuleDeleted(1), RuleAdded(1, 8, true)] + [RowMatched, GroupEnded(false)]))
  {
    var w, added := OnePoll(Rule(7, true, true, None, None), Searching(15), {}), Rule(8, true, false, None, None);
    var steps := [GroupSearched(Complete), RuleDeleted(1), RuleAdded(1, 8, true)];
    OneIsSearched(w.rules[1], {});
    var w1 := After(w, steps[0]);
    assert steps[1..] == [RuleDeleted(1), RuleAdded(1, 8, true)];
    OneIsAddedInstead(w1.rules[1]);
    TwoSteps(w1, RuleDeleted(1), RuleAdded(1, 8, true));
    RunFrom(w, steps);
    OneIsPassedOver(steps, added, {1});
  }
}

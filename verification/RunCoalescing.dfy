/**
 * Who shares a run and who waits for the next one (server/scheduler.ts, runWithScope). A full poll
 * joins the run that is executing; a targeted check waits until none is and then runs itself, so that
 * it always sees rows added or edited before it was requested.
 */
module RunCoalescing {
  import opened Wrappers

  type RequestId = nat
  type RunId = nat

  /** What became of a request: its own run, another's run, waiting, or given up (a run it awaited failed, or the scheduler stopped). */
  datatype Status = Owns(run: RunId) | Joined(run: RunId) | Waiting | GaveUp

  datatype Request = Request(scoped: bool, at: nat, status: Status)

  /** Auxiliary record of a run: when it began, when it selected its rows, whether it has ended. */
  datatype RunRecord = RunRecord(owner: RequestId, startedAt: nat, selectedAt: Option<nat>, ended: bool)

  /** `clock` counts the steps taken. */
  datatype World = World(
    clock: nat, stopping: bool, current: Option<RunId>, requests: map<RequestId, Request>, runs: map<RunId, RunRecord>)

  datatype Step =
    | Requested(id: RequestId, scoped: bool, run: RunId)
    | Woken(id: RequestId, run: RunId)
    | RowsSelected
    | RunEnded(failed: bool)
    | Stopping

  predicate Enabled(w: World, step: Step) {
    match step
    case Requested(id, _, run) => id !in w.requests && run !in w.runs
    case Woken(id, run) => id in w.requests && w.requests[id].status.Waiting? && run !in w.runs
    case RowsSelected => w.current.Some? && w.current.value in w.runs && w.runs[w.current.value].selectedAt.None?
    case RunEnded(_) => w.current.Some? && w.current.value in w.runs
    case Stopping => true
  }

  /** What a request meets between two awaits: it shares the run that executes, waits for it, or runs itself. */
  function StatusFor(stopping: bool, current: Option<RunId>, scoped: bool, run: RunId): Status {
    if stopping then GaveUp
    else if current.None? then Owns(run)
    else if scoped then Waiting
    else Joined(current.value)
  }

  /** The loop of `runWithScope` from one await to the next. */
  function Decide(w: World, id: RequestId, scoped: bool, at: nat, run: RunId): World {
    var status := StatusFor(w.stopping, w.current, scoped, run);
    var w' := w.(requests := w.requests[id := Request(scoped, at, status)]);
    if status.Owns? then w'.(current := Some(run), runs := w.runs[run := RunRecord(id, w.clock, None, false)]) else w'
  }

  function After(w: World, step: Step): World
    requires Enabled(w, step)
  {
    var w1 := w.(clock := w.clock + 1);
    match step
    case Requested(id, scoped, run) => Decide(w1, id, scoped, w1.clock, run)
    case Woken(id, run) => Decide(w1, id, w.requests[id].scoped, w.requests[id].at, run)
    case RowsSelected => w1.(runs := w.runs[w.current.value := w.runs[w.current.value].(selectedAt := Some(w1.clock))])
    case RunEnded(failed) =>
      w1.(current := None, runs := w.runs[w.current.value := w.runs[w.current.value].(ended := true)],
          requests := map id | id in w.requests ::
            if failed && w.requests[id].status.Waiting? then w.requests[id].(status := GaveUp) else w.requests[id])
    case Stopping => w1.(stopping := true)
  }

  /** The scheduler's fields, updated in place. `started` and `ended` are auxiliary: every run so far, in order, and those over. */
  class Runs {
    var stopping: bool
    var running: bool
    var currentRun: Option<RunId>
    ghost var started: seq<RunId>
    ghost var ended: set<RunId>

    /** The run that executes is the last one started, and every other one is over. */
    ghost predicate Valid()
      reads this
    {
      && running == currentRun.Some?
      && (forall i, j | 0 <= i < j < |started| :: started[i] != started[j])
      && (forall run | run in started :: run in ended <==> currentRun != Some(run))
      && (forall run | run in ended :: run in started)
      && (currentRun.Some? ==> started != [] && started[|started| - 1] == currentRun.value)
    }

    constructor ()
      ensures Valid() && !stopping && currentRun == None && started == []
    {
      stopping, running, currentRun := false, false, None;
      started, ended := [], {};
    }

    /**
     * A request that runs itself starts only when every run so far is over; one that joins or waits meets a
     * run started before it that is not. Only full polls join, only targeted checks wait.
     */
    method RunWithScope(scoped: bool, run: RunId) returns (status: Status)
      requires Valid() && run !in started
      modifies this
      ensures Valid() && stopping == old(stopping) && ended == old(ended)
      ensures status.GaveUp? <==> stopping
      ensures status.Owns? ==>
                && status == Owns(run) && started == old(started) + [run] && currentRun == Some(run)
                && forall other | other in old(started) :: other in ended
      ensures !status.Owns? ==> started == old(started) && currentRun == old(currentRun)
      ensures status.Joined? ==> !scoped && status.run in old(started) && status.run !in ended
      ensures status.Waiting? ==> scoped && exists other :: other in old(started) && other !in ended
      ensures status == StatusFor(stopping, old(currentRun), scoped, run)
    {
      if stopping {
        return GaveUp;
      }
      if currentRun.Some? {
        assert currentRun.value in started;
        status := if scoped then Waiting else Joined(currentRun.value);
      } else {
        running, currentRun := true, Some(run);
        started := started + [run];
        status := Owns(run);
      }
    }

    /** After the executing run ends every run started is over, so the next request starts one. */
    method Finish()
      requires Valid() && currentRun.Some?
      modifies this
      ensures Valid() && stopping == old(stopping) && started == old(started)
      ensures forall run | run in started :: run in ended
      ensures forall scoped: bool, run: RunId :: stopping || StatusFor(stopping, currentRun, scoped, run) == Owns(run)
    {
      ended := ended + {currentRun.value};
      running, currentRun := false, None;
    }
  }

  predicate Admissible(w: World, steps: seq<Step>)
    decreases |steps|
  {
    steps == [] || (Enabled(w, steps[0]) && Admissible(After(w, steps[0]), steps[1..]))
  }

  function Run(w: World, steps: seq<Step>): World
    requires Admissible(w, steps)
    decreases |steps|
  {
    if steps == [] then w else Run(After(w, steps[0]), steps[1..])
  }

  predicate Start(w: World) {
    !w.stopping && w.current.None? && w.requests == map[] && w.runs == map[]
  }

  predicate RequestInv(w: World, id: RequestId) {
    id in w.requests ==>
      var r := w.requests[id];
      && r.at <= w.clock
      && (r.scoped ==> !r.status.Joined?) && (r.status.Waiting? ==> r.scoped)
      && (r.status.Owns? ==>
            && r.status.run in w.runs && w.runs[r.status.run].owner == id && w.runs[r.status.run].startedAt >= r.at)
      && (r.status.Joined? ==> r.status.run in w.runs && w.runs[r.status.run].startedAt < r.at)
  }

  predicate RunInv(w: World, run: RunId) {
    run in w.runs ==>
      && w.runs[run].startedAt <= w.clock
      && (w.runs[run].selectedAt.Some? ==> w.runs[run].selectedAt.value > w.runs[run].startedAt)
      && (!w.runs[run].ended <==> w.current == Some(run))
  }

  predicate Inv(w: World) {
    && (w.current.Some? ==> w.current.value in w.runs)
    && (forall id | id in w.requests :: RequestInv(w, id))
    && (forall run | run in w.runs :: RunInv(w, run))
  }

  lemma StepKeepsInv(w: World, step: Step)
    requires Inv(w) && Enabled(w, step)
    ensures Inv(After(w, step))
  {
    var w' := After(w, step);
    forall id | id in w'.requests ensures RequestInv(w', id) {
      assert id in w.requests ==> RequestInv(w, id);
    }
    forall run | run in w'.runs ensures RunInv(w', run) {
      assert run in w.runs ==> RunInv(w, run);
    }
  }

  lemma {:induction false} RunKeepsInv(w: World, steps: seq<Step>)
    requires Inv(w) && Admissible(w, steps)
    ensures Inv(Run(w, steps))
    decreases |steps|
  {
    if steps != [] {
      StepKeepsInv(w, steps[0]);
      RunKeepsInv(After(w, steps[0]), steps[1..]);
    }
  }

  /** At most one run executes at a time. */
  lemma RunsAreExclusive(start: World, steps: seq<Step>, a: RunId, b: RunId)
    requires Start(start) && Admissible(start, steps)
    requires var w := Run(start, steps); a in w.runs && b in w.runs && !w.runs[a].ended && !w.runs[b].ended
    ensures a == b
  {
    RunKeepsInv(start, steps);
    assert RunInv(Run(start, steps), a) && RunInv(Run(start, steps), b);
  }

  predicate NothingFails(steps: seq<Step>) {
    forall k | 0 <= k < |steps| :: !steps[k].Stopping? && steps[k] != RunEnded(true)
  }

  lemma {:induction false} NoRequestGivesUp(w: World, steps: seq<Step>)
    requires Admissible(w, steps) && NothingFails(steps) && !w.stopping
    requires forall id | id in w.requests :: !w.requests[id].status.GaveUp?
    ensures forall id | id in Run(w, steps).requests :: !Run(w, steps).requests[id].status.GaveUp?
    decreases |steps|
  {
    if steps != [] {
      assert steps[0] in steps && NothingFails(steps[1..]);
      NoRequestGivesUp(After(w, steps[0]), steps[1..]);
    }
  }

  /**
   * A targeted check never shares a run. While no run fails and the scheduler is not stopped, it is
   * waiting for the executing run to end, or has a run of its own that began, and selects its rows,
   * no earlier than the request; a full poll has its own run or shares one that was executing.
   */
  lemma TargetedChecksRunAfterTheirRequest(start: World, steps: seq<Step>, id: RequestId)
    requires Start(start) && Admissible(start, steps) && NothingFails(steps) && id in Run(start, steps).requests
    ensures var w := Run(start, steps);
            var r := w.requests[id];
            match r.status
            case Owns(run) =>
              && run in w.runs && w.runs[run].owner == id && w.runs[run].startedAt >= r.at
              && (w.runs[run].selectedAt.Some? ==> w.runs[run].selectedAt.value > r.at)
            case Joined(run) => !r.scoped && run in w.runs && w.runs[run].startedAt < r.at
            case Waiting => r.scoped
            case GaveUp => false
  {
    RunKeepsInv(start, steps);
    NoRequestGivesUp(start, steps);
    var w := Run(start, steps);
    assert RequestInv(w, id);
    if w.requests[id].status.Owns? {
      assert RunInv(w, w.requests[id].status.run);
    }
  }

  /** A waiting check that wakes when no run executes starts its own; an awaited run that fails loses it. */
  lemma WaitingEndsExactlySo(start: World, steps: seq<Step>, id: RequestId, step: Step)
    requires Start(start) && Admissible(start, steps) && Enabled(Run(start, steps), step)
    requires var w := Run(start, steps); id in w.requests && w.requests[id].status.Waiting? && !w.stopping
    ensures var w, w' := Run(start, steps), After(Run(start, steps), step);
            && (w'.requests[id].status.Owns? <==> step.Woken? && step.id == id && w.current.None?)
            && (w'.requests[id].status.GaveUp? <==> step == RunEnded(true))
            && !w'.requests[id].status.Joined?
  {
    RunKeepsInv(start, steps);
    assert RequestInv(Run(start, steps), id);
  }

  /**
   * What a step does to the runs and requests on record. A run selects its rows only while it executes and only
   * once, and ends once; a request that owns a run, shares one or gave up stays as it is.
   */
  lemma RecordsAreKept(start: World, steps: seq<Step>, step: Step)
    requires Start(start) && Admissible(start, steps) && Enabled(Run(start, steps), step)
    ensures var w, w' := Run(start, steps), After(Run(start, steps), step);
            && w'.clock == w.clock + 1 && (w'.stopping <==> w.stopping || step.Stopping?)
            && (forall run | run in w.runs ::
                  && run in w'.runs && w'.runs[run].owner == w.runs[run].owner && w'.runs[run].startedAt == w.runs[run].startedAt
                  && w'.runs[run].selectedAt == (if step.RowsSelected? && w.current == Some(run) then Some(w'.clock) else w.runs[run].selectedAt)
                  && (w'.runs[run].ended <==> w.runs[run].ended || (step.RunEnded? && w.current == Some(run))))
            && (step.RowsSelected? ==> w.runs[w.current.value].selectedAt.None?)
            && (forall id | id in w.requests ::
                  && id in w'.requests && w'.requests[id].scoped == w.requests[id].scoped && w'.requests[id].at == w.requests[id].at
                  && (!w.requests[id].status.Waiting? ==> w'.requests[id] == w.requests[id]))
            && (step.Requested? ==> w'.requests[step.id].at == w'.clock)
  {
    RunKeepsInv(start, steps);
    var w := Run(start, steps);
    forall run | run in w.runs
      ensures After(w, step).runs[run].ended <==> w.runs[run].ended || (step.RunEnded? && w.current == Some(run))
    {
      assert RunInv(w, run);
    }
  }
}

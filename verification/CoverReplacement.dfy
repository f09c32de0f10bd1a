/**
 * Every interleaving of the steps of refreshes, reads and removals of one subscription's cover with those
 * of all others, with faults, crashes and restarts at any point (server/cover-cache.ts:72-168). Only one
 * check of a subscription, and so one refresh of its cover, is under way at a time
 * (server/scheduler.ts:339-352).
 */
module CoverReplacement {
  import opened Wrappers
  import opened CoverCache

  datatype Phase = Fetched | Writing | Written | InPlace | Stored | Cleaned | Faulted

  datatype Job = Job(asset: Asset, previous: Option<Row>, phase: Phase)

  /** A read that has its row, or a removal that has deleted its row. */
  datatype Pending = Pending(row: Row, ticket: nat)

  /** `shown` is auxiliary: the last stored picture, unless removed since. */
  datatype World = World(
    store: Store,
    up: bool,
    job: Option<Job>,
    readers: set<Pending>,
    removals: set<Pending>,
    shown: Option<Asset>)

  datatype Step =
    | Fetch(asset: Asset)
    | WritePart(part: Content)
    | WriteAll
    | Place
    | StoreRow
    | Fault
    | CleanUp(removed: bool)
    | UnlinkPrevious(unlinked: bool)
    | BeginRead(ticket: nat)
    | EndRead(reader: Pending)
    | BeginRemoval(ticket: nat)
    | EndRemoval(removal: Pending, unlinked: bool)
    | Elsewhere(store: Store)
    | Crash
    | Restart(stuck: set<FileName>)

  predicate In(w: World, phase: Phase) {
    w.job.Some? && w.job.value.phase == phase
  }

  function NameOf(sub: Sub, j: Job): FileName {
    Cover(sub, j.asset.content)
  }

  function TemporaryOf(sub: Sub, j: Job): FileName {
    Temporary(sub, j.asset.content, j.asset.nonce)
  }

  function At(j: Job, phase: Phase): Option<Job> {
    Some(j.(phase := phase))
  }

  predicate Owned(n: FileName, sub: Sub) {
    !n.Stray? && n.sub == sub
  }

  function RowOf(s: Store, sub: Sub): Option<Row> {
    if sub in s.rows then Some(s.rows[sub]) else None
  }

  /** The other subscriptions' operations leave this one's row and files alone, and the store sane. */
  ghost predicate LeavesAlone(s: Store, s': Store, sub: Sub) {
    && Sane(s')
    && RowOf(s', sub) == RowOf(s, sub)
    && (forall n: FileName | Owned(n, sub) :: n in s'.files <==> n in s.files)
    && (forall n: FileName | Owned(n, sub) && n in s.files :: s'.files[n] == s.files[n])
  }

  ghost predicate Enabled(w: World, step: Step, sub: Sub) {
    && (w.up <==> !step.Restart?)
    && match step
       case Fetch(_) => w.job.None?
       case WritePart(_) => In(w, Fetched) || In(w, Writing)
       case WriteAll => In(w, Fetched) || In(w, Writing)
       case Place => In(w, Written) && TemporaryOf(sub, w.job.value) in w.store.files
       case StoreRow => In(w, InPlace)
       case Fault => In(w, Fetched) || In(w, Writing) || In(w, Written) || In(w, InPlace)
       case CleanUp(_) => In(w, Stored) || In(w, Faulted)
       case UnlinkPrevious(_) => In(w, Cleaned)
       case BeginRead(_) => sub in w.store.rows
       case EndRead(reader) => reader in w.readers
       case EndRemoval(removal, _) => removal in w.removals
       case Elsewhere(store) => LeavesAlone(w.store, store, sub)
       case BeginRemoval(_) => true
       case Crash => true
       case Restart(_) => true
  }

  ghost function AfterJobStep(w: World, step: Step, sub: Sub): World
    requires Enabled(w, step, sub) && w.job.Some?
  {
    var j := w.job.value;
    match step
    case WritePart(part) => w.(store := WithFile(w.store, TemporaryOf(sub, j), part), job := At(j, Writing))
    case WriteAll => w.(store := WithFile(w.store, TemporaryOf(sub, j), j.asset.content), job := At(j, Written))
    case Place => w.(store := Renamed(w.store, TemporaryOf(sub, j), NameOf(sub, j)), job := At(j, InPlace))
    case StoreRow =>
      w.(store := WithRow(w.store, sub, RowFor(sub, j.asset)), job := At(j, Stored), shown := Some(j.asset))
    case Fault => w.(job := At(j, Faulted))
    case CleanUp(removed) =>
      w.(store := if removed then WithoutFile(w.store, TemporaryOf(sub, j)) else w.store,
         job := if removed && j.phase == Stored then At(j, Cleaned) else None)
    case UnlinkPrevious(unlinked) =>
      w.(store := WithoutPrevious(w.store, j.previous, NameOf(sub, j), unlinked), job := None)
    case _ => w
  }

  ghost function After(w: World, step: Step, sub: Sub): World
    requires Enabled(w, step, sub)
  {
    match step
    case Fetch(asset) => w.(job := Some(Job(asset, RowOf(w.store, sub), Fetched)))
    case BeginRead(ticket) => w.(readers := w.readers + {Pending(w.store.rows[sub], ticket)})
    case EndRead(reader) =>
      var name := reader.row.fileName;
      if name !in w.store.files then w.(store := WithoutRow(w.store, sub), readers := w.readers - {reader})
      else if w.store.files[name].length != reader.row.byteLength then
        w.(store := WithoutRow(w.store, sub), readers := w.readers - {reader}, shown := None,
           removals := w.removals + if sub in w.store.rows then {Pending(w.store.rows[sub], reader.ticket)} else {})
      else w.(readers := w.readers - {reader})
    case BeginRemoval(ticket) =>
      w.(store := WithoutRow(w.store, sub), shown := None,
         removals := w.removals + if sub in w.store.rows then {Pending(w.store.rows[sub], ticket)} else {})
    case EndRemoval(removal, unlinked) =>
      w.(store := if unlinked then WithoutFile(w.store, removal.row.fileName) else w.store,
         removals := w.removals - {removal})
    case Elsewhere(store) => w.(store := store)
    case Crash => w.(up := false, job := None, readers := {}, removals := {})
    case Restart(stuck) => w.(store := Pruned(w.store, stuck), up := true)
    case _ => AfterJobStep(w, step, sub)
  }

  ghost predicate Admissible(w: World, steps: seq<Step>, sub: Sub)
    decreases |steps|
  {
    steps == [] || (Enabled(w, steps[0], sub) && Admissible(After(w, steps[0], sub), steps[1..], sub))
  }

  ghost function Run(w: World, steps: seq<Step>, sub: Sub): World
    requires Admissible(w, steps, sub)
    decreases |steps|
  {
    if steps == [] then w else Run(After(w, steps[0], sub), steps[1..], sub)
  }

  /** A running service without a cover of this subscription and with no operation on it under way. */
  ghost predicate Start(w: World, sub: Sub) {
    w.up && w.job == None && w.readers == {} && w.removals == {} && w.shown == None
    && Sane(w.store) && sub !in w.store.rows
  }

  // ----- What holds in every run

  ghost predicate OwnCover(row: Row, sub: Sub) {
    row.fileName.Cover? && row.fileName.sub == sub && row.byteLength == row.fileName.content.length
  }

  /** No file or row is ever half written, and every operation under way is about whole covers of the subscription. */
  ghost predicate Tidy(w: World, sub: Sub) {
    && Sane(w.store)
    && (!w.up ==> w.job == None && w.readers == {} && w.removals == {})
    && (forall r: Pending | r in w.readers :: OwnCover(r.row, sub))
    && (forall r: Pending | r in w.removals :: OwnCover(r.row, sub))
    && (w.job.Some? ==>
          var j := w.job.value;
          && (j.previous.Some? ==> OwnCover(j.previous.value, sub))
          && (j.phase == Written ==>
                TemporaryOf(sub, j) in w.store.files && w.store.files[TemporaryOf(sub, j)] == j.asset.content))
  }

  lemma StepKeepsTidy(w: World, step: Step, sub: Sub)
    requires Tidy(w, sub) && Enabled(w, step, sub)
    ensures Tidy(After(w, step, sub), sub)
  {
  }

  lemma {:induction false} RunKeepsTidy(w: World, steps: seq<Step>, sub: Sub)
    requires Tidy(w, sub) && Admissible(w, steps, sub)
    ensures Tidy(Run(w, steps, sub), sub)
    decreases |steps|
  {
    if steps != [] {
      StepKeepsTidy(w, steps[0], sub);
      RunKeepsTidy(After(w, steps[0], sub), steps[1..], sub);
    }
  }

  // ----- When the cover is right

  function Cached(a: Option<Asset>): Option<CachedCover> {
    if a.Some? then Some(CoverOf(a.value)) else None
  }

  /** The row is that of the last stored picture, and its file is there; or there is no row. */
  ghost predicate Right(w: World, sub: Sub) {
    match w.shown
    case Some(a) => sub in w.store.rows && w.store.rows[sub] == RowFor(sub, a) && Cover(sub, a.content) in w.store.files
    case None => sub !in w.store.rows
  }

  /** A right cover is shown whole: the last stored picture with its own type, address and time. */
  lemma RightIsShown(w: World, sub: Sub)
    requires Tidy(w, sub) && Right(w, sub)
    ensures Shown(w.store, sub) == Cached(w.shown)
  {
  }

  /** The four ways to lose a cover: reading, removing or unlinking a file at the wrong moment, and storing one that is gone. */
  ghost predicate Harms(w: World, step: Step, sub: Sub)
    requires Enabled(w, step, sub)
  {
    match step
    case EndRead(reader) => sub in w.store.rows && reader.row.fileName !in w.store.files
    case EndRemoval(removal, unlinked) => unlinked && sub in w.store.rows && w.store.rows[sub].fileName == removal.row.fileName
    case UnlinkPrevious(unlinked) =>
      var j := w.job.value;
      unlinked && j.previous.Some? && j.previous.value.fileName != NameOf(sub, j)
      && sub in w.store.rows && w.store.rows[sub].fileName == j.previous.value.fileName
    case StoreRow => NameOf(sub, w.job.value) !in w.store.files
    case _ => false
  }

  /** What makes any cover right again: storing one whose file is there, and removing it. */
  ghost predicate Heals(w: World, step: Step, sub: Sub)
    requires Enabled(w, step, sub)
  {
    || (step.StoreRow? && NameOf(sub, w.job.value) in w.store.files)
    || step.BeginRemoval?
  }

  /** Exactly these steps make a right cover wrong. */
  lemma HarmedExactly(w: World, step: Step, sub: Sub)
    requires Tidy(w, sub) && Right(w, sub) && Enabled(w, step, sub)
    ensures Right(After(w, step, sub), sub) <==> !Harms(w, step, sub)
  {
    StepKeepsTidy(w, step, sub);
  }

  lemma HealedAtOnce(w: World, step: Step, sub: Sub)
    requires Tidy(w, sub) && Enabled(w, step, sub) && Heals(w, step, sub)
    ensures Right(After(w, step, sub), sub)
  {
  }

  /** And at any moment of any run while the service is up, a removal is possible and makes the cover right. */
  lemma RemovalAlwaysHeals(start: World, steps: seq<Step>, ticket: nat, sub: Sub)
    requires Start(start, sub) && Admissible(start, steps, sub) && Run(start, steps, sub).up
    ensures var w := Run(start, steps, sub);
            && Enabled(w, BeginRemoval(ticket), sub) && Heals(w, BeginRemoval(ticket), sub)
            && var w' := After(w, BeginRemoval(ticket), sub); Right(w', sub) && Shown(w'.store, sub) == None
  {
    RunKeepsTidy(start, steps, sub);
    HealedAtOnce(Run(start, steps, sub), BeginRemoval(ticket), sub);
  }

  ghost predicate NoneHarms(w: World, steps: seq<Step>, sub: Sub)
    requires Admissible(w, steps, sub)
    decreases |steps|
  {
    steps == [] || (!Harms(w, steps[0], sub) && NoneHarms(After(w, steps[0], sub), steps[1..], sub))
  }

  lemma {:induction false} StaysRight(w: World, steps: seq<Step>, sub: Sub)
    requires Tidy(w, sub) && Right(w, sub) && Admissible(w, steps, sub) && NoneHarms(w, steps, sub)
    ensures Right(Run(w, steps, sub), sub)
    decreases |steps|
  {
    if steps != [] {
      HarmedExactly(w, steps[0], sub);
      StepKeepsTidy(w, steps[0], sub);
      StaysRight(After(w, steps[0], sub), steps[1..], sub);
    }
  }

  /**
   * In any run without such a step, the cover shown is the whole of the last one stored and not removed, at
   * every moment, down or up.
   */
  lemma ShownIsTheLastStored(start: World, steps: seq<Step>, sub: Sub)
    requires Start(start, sub) && Admissible(start, steps, sub) && NoneHarms(start, steps, sub)
    ensures var w := Run(start, steps, sub); Right(w, sub) && Shown(w.store, sub) == Cached(w.shown)
  {
    StaysRight(start, steps, sub);
    RunKeepsTidy(start, steps, sub);
  }

  /** Whatever happened before, from the next cover stored with its file, or the next removal, on it is so again. */
  lemma CoverHeals(start: World, before: seq<Step>, step: Step, after: seq<Step>, sub: Sub)
    requires Start(start, sub) && Admissible(start, before, sub) && Enabled(Run(start, before, sub), step, sub)
    requires var w := Run(start, before, sub);
             Heals(w, step, sub) && Admissible(After(w, step, sub), after, sub) && NoneHarms(After(w, step, sub), after, sub)
    ensures var w := Run(After(Run(start, before, sub), step, sub), after, sub);
            Right(w, sub) && Shown(w.store, sub) == Cached(w.shown)
  {
    RunKeepsTidy(start, before, sub);
    var w := Run(start, before, sub);
    StepKeepsTidy(w, step, sub);
    HealedAtOnce(w, step, sub);
    StaysRight(After(w, step, sub), after, sub);
    RunKeepsTidy(After(w, step, sub), after, sub);
  }

  /** Of the steps that do no harm to a right cover, only storing a row shows another and only a removal shows none. */
  lemma CoverChangesAtOnce(start: World, steps: seq<Step>, step: Step, sub: Sub)
    requires Start(start, sub) && Admissible(start, steps, sub) && Enabled(Run(start, steps, sub), step, sub)
    requires var w := Run(start, steps, sub); Right(w, sub) && !Harms(w, step, sub)
    ensures var w, w' := Run(start, steps, sub), After(Run(start, steps, sub), step, sub);
            Shown(w'.store, sub) ==
            if step.StoreRow? then Some(CoverOf(w.job.value.asset))
            else if step.BeginRemoval? then None
            else Shown(w.store, sub)
  {
    RunKeepsTidy(start, steps, sub);
    var w := Run(start, steps, sub);
    HarmedExactly(w, step, sub);
    StepKeepsTidy(w, step, sub);
    RightIsShown(After(w, step, sub), sub);
    RightIsShown(w, sub);
  }

  /** In every run a read that finds its file gets the whole of its row's cover, and never one of another length. */
  lemma ReadsAreWhole(start: World, steps: seq<Step>, reader: Pending, sub: Sub)
    requires Start(start, sub) && Admissible(start, steps, sub) && Enabled(Run(start, steps, sub), EndRead(reader), sub)
    ensures var w := Run(start, steps, sub);
            var name := reader.row.fileName;
            && name.Cover?
            && (name in w.store.files ==>
                  && w.store.files[name] == name.content && name.content.length == reader.row.byteLength
                  && After(w, EndRead(reader), sub) == w.(readers := w.readers - {reader}))
  {
    RunKeepsTidy(start, steps, sub);
  }

  /**
   * In every run and wherever a crash hits, the restarted service shows what was shown before it, right or
   * not, and unless files could not be deleted every file left is some subscription's current cover.
   */
  lemma RestartKeepsTheCover(start: World, steps: seq<Step>, stuck: set<FileName>, sub: Sub)
    requires Start(start, sub) && Admissible(start, steps, sub) && Run(start, steps, sub).up
    ensures var w := Run(start, steps, sub);
            var w' := After(After(w, Crash, sub), Restart(stuck), sub);
            && w'.up && w'.job == None && w'.readers == {} && w'.removals == {}
            && Shown(w'.store, sub) == Shown(w.store, sub) && (Right(w', sub) <==> Right(w, sub))
            && (forall n | n in w'.store.files :: n in stuck || exists u :: u in w'.store.rows && w'.store.rows[u].fileName == n)
  {
    RunKeepsTidy(start, steps, sub);
  }

  // ----- A condition to keep

  /** Refreshes and removals do not overlap, and no file is unlinked while a read of it is under way. */
  ghost predicate Orderly(w: World, step: Step)
    requires step.UnlinkPrevious? ==> w.job.Some?
  {
    match step
    case Fetch(_) => w.removals == {}
    case BeginRemoval(_) => w.job.None? && w.removals == {}
    case UnlinkPrevious(unlinked) =>
      var previous := w.job.value.previous;
      unlinked && previous.Some? ==> forall r: Pending | r in w.readers :: r.row.fileName != previous.value.fileName
    case EndRemoval(removal, unlinked) =>
      unlinked ==> forall r: Pending | r in w.readers :: r.row.fileName != removal.row.fileName
    case _ => true
  }

  ghost predicate AllOrderly(w: World, steps: seq<Step>, sub: Sub)
    requires Admissible(w, steps, sub)
    decreases |steps|
  {
    steps == [] || (Orderly(w, steps[0]) && AllOrderly(After(w, steps[0], sub), steps[1..], sub))
  }

  ghost predicate InOrder(w: World, sub: Sub) {
    && Tidy(w, sub) && Right(w, sub)
    && (forall r: Pending | r in w.readers :: r.row.fileName in w.store.files)
    && (w.removals != {} ==> w.job.None? && w.shown.None?)
    && (w.job.Some? ==>
          var j := w.job.value;
          && (j.phase == InPlace ==> NameOf(sub, j) in w.store.files)
          && (j.phase == Stored || j.phase == Cleaned ==> w.shown == Some(j.asset)))
  }

  lemma OrderlyStep(w: World, step: Step, sub: Sub)
    requires InOrder(w, sub) && Enabled(w, step, sub) && Orderly(w, step)
    ensures InOrder(After(w, step, sub), sub)
  {
    StepKeepsTidy(w, step, sub);
  }

  lemma {:induction false} OrderlySteps(w: World, steps: seq<Step>, sub: Sub)
    requires InOrder(w, sub) && Admissible(w, steps, sub) && AllOrderly(w, steps, sub)
    ensures InOrder(Run(w, steps, sub), sub)
    decreases |steps|
  {
    if steps != [] {
      OrderlyStep(w, steps[0], sub);
      OrderlySteps(After(w, steps[0], sub), steps[1..], sub);
    }
  }

  /** A caller that keeps refreshes, removals and reads in this order always has the right cover. */
  lemma OrderlyRunsAreRight(start: World, steps: seq<Step>, sub: Sub)
    requires Start(start, sub) && Admissible(start, steps, sub) && AllOrderly(start, steps, sub)
    ensures var w := Run(start, steps, sub); Right(w, sub) && Shown(w.store, sub) == Cached(w.shown)
  {
    OrderlySteps(start, steps, sub);
  }

  // ----- A read overtaken by a whole refresh

  lemma {:induction false} RunInTwo(w: World, first: seq<Step>, second: seq<Step>, sub: Sub)
    requires Admissible(w, first, sub) && Admissible(Run(w, first, sub), second, sub)
    ensures Admissible(w, first + second, sub) && Run(w, first + second, sub) == Run(Run(w, first, sub), second, sub)
    decreases |first|
  {
    if first == [] {
      assert first + second == second;
    } else {
      assert (first + second)[0] == first[0] && (first + second)[1..] == first[1..] + second;
      RunInTwo(After(w, first[0], sub), first[1..], second, sub);
    }
  }

  lemma OneStep(w: World, step: Step, sub: Sub)
    requires Enabled(w, step, sub)
    ensures Admissible(w, [step], sub) && Run(w, [step], sub) == After(w, step, sub)
  {
    assert [step][1..] == [];
  }

  lemma Append(w: World, steps: seq<Step>, step: Step, sub: Sub)
    requires Admissible(w, steps, sub) && Enabled(Run(w, steps, sub), step, sub)
    ensures Admissible(w, steps + [step], sub) && Run(w, steps + [step], sub) == After(Run(w, steps, sub), step, sub)
  {
    OneStep(Run(w, steps, sub), step, sub);
    RunInTwo(w, steps, [step], sub);
  }

  lemma PictureInPlace(w: World, a: Asset, sub: Sub) returns (steps: seq<Step>)
    requires w.up && w.job.None? && Sane(w.store)
    ensures Admissible(w, steps, sub)
    ensures var w' := Run(w, steps, sub);
            && w' == w.(store := w'.store, job := Some(Job(a, RowOf(w.store, sub), InPlace)))
            && Sane(w'.store) && w'.store.rows == w.store.rows
  {
    steps := [Fetch(a)];
    OneStep(w, Fetch(a), sub);
    Append(w, steps, WriteAll, sub);
    steps := steps + [WriteAll];
    Append(w, steps, Place, sub);
    steps := steps + [Place];
  }

  lemma PlacedAtOnce(w: World, a: Asset, sub: Sub)
    requires w.up && w.job == Some(Job(a, RowOf(w.store, sub), Fetched))
    ensures var w' := After(w, WriteAll, sub);
            && Enabled(w', Place, sub) && w'.job == Some(Job(a, RowOf(w.store, sub), Written))
            && w'.store == WithFile(w.store, Temporary(sub, a.content, a.nonce), a.content)
            && After(w', Place, sub).store == Placed(w.store, sub, a)
            && WithoutFile(Placed(w.store, sub, a), Temporary(sub, a.content, a.nonce)) == Placed(w.store, sub, a)
  {
  }

  /** A refresh under way up to some step, and from there to its end. */
  lemma RefreshFails(w: World, a: Asset, fault: Fault, sub: Sub) returns (steps: seq<Step>)
    requires w.up && w.job.None? && !fault.NoFault? && !fault.CleanupFault?
    ensures Admissible(w, steps, sub)
    ensures Run(w, steps, sub).store == Refreshed(w.store, sub, a, fault, false) && Run(w, steps, sub).job == None
  {
    steps := [Fetch(a)];
    OneStep(w, Fetch(a), sub);
    PlacedAtOnce(Run(w, steps, sub), a, sub);
    var cleaned := true;
    if fault.WriteFault? {
      if fault.left.Some? {
        Append(w, steps, WritePart(fault.left.value), sub);
        steps := steps + [WritePart(fault.left.value)];
        cleaned := false;
      }
    } else {
      Append(w, steps, WriteAll, sub);
      steps := steps + [WriteAll];
      if fault.RowFault? {
        Append(w, steps, Place, sub);
        steps := steps + [Place];
      }
    }
    Append(w, steps, Step.Fault, sub);
    steps := steps + [Step.Fault];
    Append(w, steps, CleanUp(cleaned), sub);
    steps := steps + [CleanUp(cleaned)];
  }

  lemma RefreshStores(w: World, a: Asset, cleaned: bool, unlinked: bool, sub: Sub) returns (steps: seq<Step>)
    requires w.up && w.job.None?
    ensures Admissible(w, steps, sub)
    ensures Run(w, steps, sub).store == Refreshed(w.store, sub, a, if cleaned then NoFault else CleanupFault, unlinked)
    ensures Run(w, steps, sub).job == None
  {
    steps := [Fetch(a)];
    OneStep(w, Fetch(a), sub);
    PlacedAtOnce(Run(w, steps, sub), a, sub);
    Append(w, steps, WriteAll, sub);
    steps := steps + [WriteAll];
    Append(w, steps, Place, sub);
    steps := steps + [Place];
    Append(w, steps, StoreRow, sub);
    steps := steps + [StoreRow];
    Append(w, steps, CleanUp(cleaned), sub);
    steps := steps + [CleanUp(cleaned)];
    if cleaned {
      Append(w, steps, UnlinkPrevious(unlinked), sub);
      steps := steps + [UnlinkPrevious(unlinked)];
    }
  }

  /** Left alone, the steps of a refresh with any fault do to the store what `Cache.Refresh` does. */
  lemma StepsMakeTheRefresh(w: World, a: Asset, fault: Fault, unlinked: bool, sub: Sub) returns (steps: seq<Step>)
    requires w.up && w.job.None?
    ensures Admissible(w, steps, sub)
    ensures Run(w, steps, sub).store == Refreshed(w.store, sub, a, fault, unlinked) && Run(w, steps, sub).job == None
  {
    if fault.NoFault? || fault.CleanupFault? {
      steps := RefreshStores(w, a, fault.NoFault?, unlinked, sub);
    } else {
      steps := RefreshFails(w, a, fault, sub);
    }
  }

  /** An undisturbed refresh: the new row and its file, and the previous row's file gone. */
  lemma WholeRefresh(w: World, a: Asset, sub: Sub) returns (steps: seq<Step>)
    requires w.up && w.job.None? && Sane(w.store)
    ensures Admissible(w, steps, sub)
    ensures var w' := Run(w, steps, sub);
            && w'.up && w'.job.None? && Sane(w'.store) && w'.readers == w.readers && w'.removals == w.removals
            && w'.shown == Some(a) && RowOf(w'.store, sub) == Some(RowFor(sub, a))
            && (sub in w.store.rows && w.store.rows[sub].fileName != Cover(sub, a.content) ==>
                  w.store.rows[sub].fileName !in w'.store.files)
  {
    steps := PictureInPlace(w, a, sub);
    Append(w, steps, StoreRow, sub);
    steps := steps + [StoreRow];
    Append(w, steps, CleanUp(true), sub);
    steps := steps + [CleanUp(true)];
    Append(w, steps, UnlinkPrevious(true), sub);
    steps := steps + [UnlinkPrevious(true)];
  }

  /**
   * Such a run exists: a read that took its row before a refresh and opens its file after it finds the file
   * gone and deletes the row of the new cover, so that no cover is shown.
   */
  lemma AnOvertakenReadLosesTheCover(start: World, a: Asset, b: Asset, sub: Sub) returns (steps: seq<Step>)
    requires Start(start, sub) && a.content != b.content
    ensures Admissible(start, steps, sub)
    ensures var w := Run(start, steps, sub);
            w.shown == Some(b) && Shown(w.store, sub) == None && sub !in w.store.rows && w.readers == {} && w.job.None?
  {
    var first := WholeRefresh(start, a, sub);
    var w1 := Run(start, first, sub);
    var w2 := After(w1, BeginRead(0), sub);
    Append(start, first, BeginRead(0), sub);
    var second := WholeRefresh(w2, b, sub);
    RunInTwo(start, first + [BeginRead(0)], second, sub);
    var w3, reader := Run(w2, second, sub), Pending(RowFor(sub, a), 0);
    assert w3.readers == {reader};
    Append(start, first + [BeginRead(0)] + second, EndRead(reader), sub);
    steps := first + [BeginRead(0)] + second + [EndRead(reader)];
  }
}

/**
 * The notification outbox (server/notification-queue.ts): rows are claimed under a lease, sent, and
 * then completed or rescheduled under the lease's token. Workers may overlap, stall past their lease,
 * or die; users and subscriptions come and go.
 */
module NotificationQueue {
  import opened Wrappers

  type RowId = nat
  type User = nat
  type Token = nat
  type Worker = nat

  const LEASE_MS := 10 * 60_000
  const MAX_RETRY_MS := 6 * 60 * 60_000
  const FIRST_RETRY_MS := 30_000
  const RECEIPT_MS := 7 * 86_400_000

  datatype Row = Row(
    key: nat, user: User, createdAt: int, rowid: nat, nextAttemptAt: int,
    leaseUntil: Option<int>, leaseToken: Option<Token>, attempts: nat, deliveredAt: Option<int>)

  type Rows = map<RowId, Row>

  // ----- Retry delays

  function Pow2(n: nat): (p: nat)
    ensures p >= 1
  {
    if n == 0 then 1 else 2 * Pow2(n - 1)
  }

  function Min(a: int, b: int): int { if a <= b then a else b }

  function Max(a: int, b: int): int { if a >= b then a else b }

  function Backoff(attempts: nat): int
    requires attempts >= 1
  {
    Min(MAX_RETRY_MS, FIRST_RETRY_MS * Pow2(Min(attempts - 1, 10)))
  }

  function Delay(attempts: nat, retryAfterSeconds: nat): int
    requires attempts >= 1
  {
    Max(Backoff(attempts), retryAfterSeconds * 1000)
  }

  lemma {:induction false} Pow2Grows(a: nat, b: nat)
    requires a <= b
    ensures Pow2(a) <= Pow2(b)
    decreases b - a
  {
    if a < b {
      Pow2Grows(a, b - 1);
    }
  }

  /** The cap on the exponent never shows: the delay doubles with every attempt until it reaches six hours. */
  lemma BackoffDoublesUpToTheMaximum(attempts: nat)
    requires attempts >= 1
    ensures Backoff(attempts) == Min(MAX_RETRY_MS, FIRST_RETRY_MS * Pow2(attempts - 1))
    ensures FIRST_RETRY_MS <= Backoff(attempts) <= MAX_RETRY_MS
  {
    assert Pow2(10) == 1024 by {
      assert Pow2(5) == 32;
      assert Pow2(10) == 32 * Pow2(5);
    }
    if attempts - 1 > 10 {
      Pow2Grows(10, attempts - 1);
    }
  }

  /**
   * In numbers: after the first failed send a row waits thirty seconds, after each further one twice as long as
   * before, up to six hours; a hint of the bot's rate limit makes it wait as long as the hint says, if that is longer.
   */
  lemma DelaysDouble(attempts: nat, retryAfterSeconds: nat)
    requires attempts >= 1
    ensures Delay(1, 0) == 30_000
    ensures Delay(attempts + 1, 0) == if 2 * Delay(attempts, 0) <= 21_600_000 then 2 * Delay(attempts, 0) else 21_600_000
    ensures Delay(attempts, retryAfterSeconds) ==
            if 1000 * retryAfterSeconds > Delay(attempts, 0) then 1000 * retryAfterSeconds else Delay(attempts, 0)
  {
    BackoffDoublesUpToTheMaximum(1);
    BackoffDoublesUpToTheMaximum(attempts);
    BackoffDoublesUpToTheMaximum(attempts + 1);
    assert Pow2(attempts) == 2 * Pow2(attempts - 1);
  }

  lemma DelayBounds(attempts: nat, retryAfterSeconds: nat)
    requires attempts >= 1
    ensures Delay(attempts, retryAfterSeconds) >= 30_000 && Delay(attempts, retryAfterSeconds) >= 1000 * retryAfterSeconds
    ensures retryAfterSeconds == 0 ==> Delay(attempts, retryAfterSeconds) <= 21_600_000
    ensures attempts == 1 && retryAfterSeconds <= 30 ==> Delay(attempts, retryAfterSeconds) == 30_000
  {
    BackoffDoublesUpToTheMaximum(attempts);
  }

  // ----- Statements on the table

  predicate Due(row: Row, now: int) {
    row.deliveredAt.None? && row.nextAttemptAt <= now && (row.leaseUntil.None? || row.leaseUntil.value <= now)
  }

  /** Pending, due, of an enabled user, and under no lease that lasts. */
  predicate IsClaimable(row: Row, disabled: set<User>, now: int) {
    && row.deliveredAt.None? && row.user !in disabled && row.nextAttemptAt <= now
    && (row.leaseUntil.Some? ==> row.leaseUntil.value <= now)
  }

  predicate Eligible(rows: Rows, disabled: set<User>, now: int, id: RowId) {
    id in rows && Due(rows[id], now) && rows[id].user !in disabled
  }

  /** ORDER BY next_attempt_at, created_at, rowid */
  predicate Before(a: Row, b: Row) {
    || a.nextAttemptAt < b.nextAttemptAt
    || (a.nextAttemptAt == b.nextAttemptAt &&
        (a.createdAt < b.createdAt || (a.createdAt == b.createdAt && a.rowid < b.rowid)))
  }

  predicate IsNext(rows: Rows, disabled: set<User>, now: int, id: RowId) {
    && Eligible(rows, disabled, now, id)
    && forall other | other in rows && Eligible(rows, disabled, now, other) && other != id :: !Before(rows[other], rows[id])
  }

  function Claimed(rows: Rows, id: RowId, token: Token, now: int): Rows
    requires id in rows
  {
    rows[id := rows[id].(leaseUntil := Some(now + LEASE_MS), leaseToken := Some(token), attempts := rows[id].attempts + 1)]
  }

  predicate HoldsToken(rows: Rows, id: RowId, token: Token) {
    id in rows && rows[id].leaseToken == Some(token)
  }

  function Completed(rows: Rows, id: RowId, token: Token, now: int): Rows {
    if HoldsToken(rows, id, token)
    then rows[id := rows[id].(deliveredAt := Some(now), leaseUntil := None, leaseToken := None)] else rows
  }

  function Deferred(rows: Rows, user: User, until: int): Rows {
    map id | id in rows ::
      if rows[id].user == user && rows[id].deliveredAt.None? then rows[id].(nextAttemptAt := Max(rows[id].nextAttemptAt, until)) else rows[id]
  }

  function Rescheduled(rows: Rows, id: RowId, token: Token, at: int): Rows {
    if HoldsToken(rows, id, token)
    then rows[id := rows[id].(nextAttemptAt := at, leaseUntil := None, leaseToken := None)] else rows
  }

  /** A failed send: back off, and under a rate limit hold back all pending sends of that user's bot. */
  function FailedSend(rows: Rows, id: RowId, user: User, token: Token, attempts: nat, retryAfterSeconds: nat, now: int): Rows
    requires attempts >= 1
  {
    var at := now + Delay(attempts, retryAfterSeconds);
    var rescheduled := Rescheduled(rows, id, token, at);
    if retryAfterSeconds > 0 then Deferred(rescheduled, user, at) else rescheduled
  }

  function Pruned(rows: Rows, now: int): Rows {
    map id | id in rows && !(rows[id].deliveredAt.Some? && rows[id].deliveredAt.value < now - RECEIPT_MS) :: rows[id]
  }

  /** INSERT OR IGNORE by dedupe key. */
  function Enqueued(rows: Rows, id: RowId, key: nat, user: User, rowid: nat, now: int): Rows {
    if id in rows || exists other | other in rows :: rows[other].key == key then rows
    else rows[id := Row(key, user, now, rowid, now, None, None, 0, None)]
  }

  // ----- The queue, updated in place

  datatype Job = Job(id: RowId, user: User, token: Token, attempts: nat, claimedAt: int)

  /** A pending row that is held back is due no sooner than before and than `at`; any other stays as it is. */
  predicate HeldBack(was: Row, row: Row, held: bool, at: int) {
    && row == was.(nextAttemptAt := row.nextAttemptAt)
    && if held && was.deliveredAt.None? then
         && row.nextAttemptAt >= was.nextAttemptAt && row.nextAttemptAt >= at
         && (row.nextAttemptAt == was.nextAttemptAt || row.nextAttemptAt == at)
       else row.nextAttemptAt == was.nextAttemptAt
  }

  /** The lease is over; key, user, order and attempts stay. */
  predicate Released(was: Row, row: Row) {
    row == was.(leaseUntil := None, leaseToken := None, nextAttemptAt := row.nextAttemptAt, deliveredAt := row.deliveredAt)
  }

  /** The row of a failed send, once released: due after its delay. */
  predicate DueAgain(was: Row, row: Row, attempts: nat, retryAfterSeconds: nat, now: int)
    requires attempts >= 1
  {
    && Released(was, row) && row.deliveredAt == was.deliveredAt
    && row.nextAttemptAt == now + Delay(attempts, retryAfterSeconds)
    && row.nextAttemptAt >= now + 30_000 && row.nextAttemptAt >= now + 1000 * retryAfterSeconds
    && (retryAfterSeconds == 0 ==> row.nextAttemptAt <= now + 21_600_000)
    && (attempts == 1 && retryAfterSeconds <= 30 ==> row.nextAttemptAt == now + 30_000)
  }

  lemma FailedSendRow(rows: Rows, job: Job, retryAfterSeconds: nat, now: int, id: RowId)
    requires job.attempts >= 1 && id in rows
    ensures var rows' := FailedSend(rows, job.id, job.user, job.token, job.attempts, retryAfterSeconds, now);
            && id in rows'
            && if HoldsToken(rows, job.id, job.token) && id == job.id
               then DueAgain(rows[id], rows'[id], job.attempts, retryAfterSeconds, now)
               else HeldBack(rows[id], rows'[id], retryAfterSeconds > 0 && rows[id].user == job.user, now + Delay(job.attempts, retryAfterSeconds))
  {
    DelayBounds(job.attempts, retryAfterSeconds);
  }

  lemma FailedSendRows(rows: Rows, job: Job, retryAfterSeconds: nat, now: int)
    requires job.attempts >= 1
    ensures var rows' := FailedSend(rows, job.id, job.user, job.token, job.attempts, retryAfterSeconds, now);
            && rows'.Keys == rows.Keys
            && forall id | id in rows ::
                 if HoldsToken(rows, job.id, job.token) && id == job.id
                 then DueAgain(rows[id], rows'[id], job.attempts, retryAfterSeconds, now)
                 else HeldBack(rows[id], rows'[id], retryAfterSeconds > 0 && rows[id].user == job.user,
                               now + Delay(job.attempts, retryAfterSeconds))
  {
    forall id | id in rows
      ensures var rows' := FailedSend(rows, job.id, job.user, job.token, job.attempts, retryAfterSeconds, now);
              if HoldsToken(rows, job.id, job.token) && id == job.id
              then DueAgain(rows[id], rows'[id], job.attempts, retryAfterSeconds, now)
              else HeldBack(rows[id], rows'[id], retryAfterSeconds > 0 && rows[id].user == job.user,
                            now + Delay(job.attempts, retryAfterSeconds))
    {
      FailedSendRow(rows, job, retryAfterSeconds, now, id);
    }
  }

  class Queue {
    var rows: Rows
    var disabled: set<User>

    /** Claims the first eligible row in order, if there is one. Row order is total because rowids differ. */
    method Claim(token: Token, now: int) returns (job: Option<Job>)
      requires OrderTotal(rows)
      modifies this`rows
      ensures job.None? ==> rows == old(rows) && forall id | id in rows :: !Eligible(rows, disabled, now, id)
      ensures job.Some? ==>
                && IsNext(old(rows), disabled, now, job.value.id)
                && rows == Claimed(old(rows), job.value.id, token, now)
                && job.value == Job(job.value.id, rows[job.value.id].user, token, rows[job.value.id].attempts, now)
      ensures job.Some? ==>
                var id := job.value.id;
                && id in old(rows) && rows.Keys == old(rows).Keys
                && (forall other | other in rows && other != id :: rows[other] == old(rows)[other])
                && var was, row := old(rows)[id], rows[id];
                   && was.deliveredAt.None? && was.user !in disabled && was.nextAttemptAt <= now
                   && (was.leaseUntil.Some? ==> was.leaseUntil.value <= now)
                   && row == was.(leaseUntil := Some(now + 600_000), leaseToken := Some(token), attempts := was.attempts + 1)
                   && forall other | other in old(rows) && other != id && IsClaimable(old(rows)[other], disabled, now) ::
                        var x := old(rows)[other];
                        && was.nextAttemptAt <= x.nextAttemptAt
                        && (was.nextAttemptAt == x.nextAttemptAt ==> was.createdAt <= x.createdAt)
                        && (was.nextAttemptAt == x.nextAttemptAt && was.createdAt == x.createdAt ==> was.rowid <= x.rowid)
      ensures job.None? ==> forall id | id in rows :: !IsClaimable(rows[id], disabled, now)
    {
      var pending := rows.Keys;
      var best: Option<RowId> := None;
      while pending != {}
        invariant pending <= rows.Keys
        invariant best.None? ==> forall id | id in rows && id !in pending :: !Eligible(rows, disabled, now, id)
        invariant best.Some? ==>
                    && Eligible(rows, disabled, now, best.value)
                    && forall id | id in rows && id !in pending && Eligible(rows, disabled, now, id) && id != best.value ::
                         !Before(rows[id], rows[best.value])
        decreases pending
      {
        var id :| id in pending;
        pending := pending - {id};
        if Eligible(rows, disabled, now, id) && (best.None? || Before(rows[id], rows[best.value])) {
          best := Some(id);
        }
      }
      if best.None? {
        return None;
      }
      rows := Claimed(rows, best.value, token, now);
      job := Some(Job(best.value, rows[best.value].user, token, rows[best.value].attempts, now));
    }

    /** Under its own token a worker delivers its row; a superseded one, and every other row, leaves it as it is. */
    method Complete(job: Job, now: int)
      modifies this`rows
      ensures rows.Keys == old(rows).Keys && forall id | id in rows && id != job.id :: rows[id] == old(rows)[id]
      ensures job.id in rows ==>
                var was, row := old(rows)[job.id], rows[job.id];
                && (row != was <==> was.leaseToken == Some(job.token))
                && (row != was ==> row.deliveredAt == Some(now) && Released(was, row) && row.nextAttemptAt == was.nextAttemptAt)
      ensures rows == Completed(old(rows), job.id, job.token, now)
    {
      if job.id in rows && rows[job.id].leaseToken == Some(job.token) {
        rows := rows[job.id := rows[job.id].(deliveredAt := Some(now), leaseUntil := None, leaseToken := None)];
      }
    }

    /**
     * Under its own token a worker releases its row, still pending, for no sooner than the backoff and the
     * hint allow. A hint also holds back every other pending row of the user for as long, without hastening
     * any; rows of others, delivered rows, leases and attempts stay.
     */
    method Fail(job: Job, retryAfterSeconds: nat, now: int)
      requires job.attempts >= 1
      modifies this`rows
      ensures rows.Keys == old(rows).Keys
      ensures forall id | id in rows ::
                if id == job.id && old(rows)[id].leaseToken == Some(job.token)
                then DueAgain(old(rows)[id], rows[id], job.attempts, retryAfterSeconds, now)
                else HeldBack(old(rows)[id], rows[id], retryAfterSeconds > 0 && old(rows)[id].user == job.user,
                              now + Delay(job.attempts, retryAfterSeconds))
      ensures rows == FailedSend(old(rows), job.id, job.user, job.token, job.attempts, retryAfterSeconds, now)
    {
      FailedSendRows(rows, job, retryAfterSeconds, now);
      var at := now + Delay(job.attempts, retryAfterSeconds);
      if job.id in rows && rows[job.id].leaseToken == Some(job.token) {
        rows := rows[job.id := rows[job.id].(nextAttemptAt := at, leaseUntil := None, leaseToken := None)];
      }
      if retryAfterSeconds > 0 {
        rows := Deferred(rows, job.user, at);
      }
    }

    /** Pending rows and receipts of the last seven days survive as they are, and nothing else. */
    method Prune(now: int)
      modifies this`rows
      ensures forall id :: id in rows <==>
                id in old(rows) && (old(rows)[id].deliveredAt.None? || old(rows)[id].deliveredAt.value >= now - 604_800_000)
      ensures forall id | id in rows :: rows[id] == old(rows)[id]
      ensures rows == Pruned(old(rows), now)
    {
      rows := rows - set id | id in rows && rows[id].deliveredAt.Some? && rows[id].deliveredAt.value < now - RECEIPT_MS;
    }
  }

  // ----- Interleaving

  /** Auxiliary: `claims` counts the claims of each row, `tokens` holds every token handed out, `sent` the (row, token) of delivered sends. */
  datatype World = World(
    now: int, rows: Rows, disabled: set<User>, nextRowid: nat, jobs: map<Worker, Job>,
    claims: map<RowId, nat>, tokens: set<Token>, sent: set<(RowId, Token)>)

  datatype Step =
    | Wait(ms: nat)
    | Enqueue(id: RowId, key: nat, user: User)
    | UserToggled(user: User, disable: bool)
    | SubscriptionDeleted(ids: set<RowId>)
    | Claim(worker: Worker, id: RowId, token: Token)
    | SendDelivered(worker: Worker)
    | SendFailed(worker: Worker, retryAfterSeconds: nat)
    | WorkerDied(worker: Worker)
    | Prune

  predicate Enabled(w: World, step: Step) {
    match step
    case Enqueue(id, _, _) => id !in w.claims
    case Claim(worker, id, token) => worker !in w.jobs && token !in w.tokens && IsNext(w.rows, w.disabled, w.now, id)
    case SendDelivered(worker) => worker in w.jobs
    case SendFailed(worker, _) => worker in w.jobs && w.jobs[worker].attempts >= 1
    case _ => true
  }

  function After(w: World, step: Step): World
    requires Enabled(w, step)
  {
    match step
    case Wait(ms) => w.(now := w.now + ms)
    case Enqueue(id, key, user) =>
      w.(rows := Enqueued(w.rows, id, key, user, w.nextRowid, w.now), nextRowid := w.nextRowid + 1, claims := w.claims[id := 0])
    case UserToggled(user, disable) => w.(disabled := if disable then w.disabled + {user} else w.disabled - {user})
    case SubscriptionDeleted(ids) => w.(rows := w.rows - ids)
    case Claim(worker, id, token) =>
      w.(rows := Claimed(w.rows, id, token, w.now),
         jobs := w.jobs[worker := Job(id, w.rows[id].user, token, w.rows[id].attempts + 1, w.now)],
         claims := w.claims[id := (if id in w.claims then w.claims[id] else 0) + 1],
         tokens := w.tokens + {token})
    case SendDelivered(worker) =>
      var job := w.jobs[worker];
      w.(rows := Completed(w.rows, job.id, job.token, w.now), jobs := w.jobs - {worker}, sent := w.sent + {(job.id, job.token)})
    case SendFailed(worker, retryAfter) =>
      var job := w.jobs[worker];
      w.(rows := FailedSend(w.rows, job.id, job.user, job.token, job.attempts, retryAfter, w.now), jobs := w.jobs - {worker})
    case WorkerDied(worker) => w.(jobs := w.jobs - {worker})
    case Prune => w.(rows := Pruned(w.rows, w.now))
  }

  predicate Admissible(w: World, steps: seq<Step>)
    decreases |steps|
  {
    steps == [] || (Enabled(w, steps[0]) && Admissible(After(w, steps[0]), steps[1..]))
  }

  function Run(w: World, steps: seq<Step>): World
    requires Admissible(w, steps)
    decreases |steps|
  {
    if steps == [] then w else Run(After(w, steps[0]), steps[1..])
  }

  predicate Start(w: World) {
    w.rows == map[] && w.jobs == map[] && w.claims == map[] && w.tokens == {} && w.sent == {}
  }

  // ----- The invariant

  ghost predicate RowInv(w: World, id: RowId) {
    id in w.rows ==>
      var row := w.rows[id];
      && row.createdAt <= w.now && row.rowid < w.nextRowid
      && id in w.claims && row.attempts == w.claims[id]
      && (row.leaseToken.Some? <==> row.leaseUntil.Some?)
      && (row.leaseToken.Some? ==> row.leaseToken.value in w.tokens && row.deliveredAt.None?)
      && (row.deliveredAt.Some? ==> exists token :: (id, token) in w.sent)
  }

  /** A worker's lease is its own until it runs out: until then the row carries its token. */
  predicate JobInv(w: World, worker: Worker) {
    worker in w.jobs ==>
      var job := w.jobs[worker];
      && job.token in w.tokens && job.id in w.claims && job.attempts >= 1 && job.claimedAt <= w.now
      && (w.now < job.claimedAt + LEASE_MS && job.id in w.rows ==> w.rows[job.id].leaseToken == Some(job.token))
      && (job.id in w.rows && w.rows[job.id].leaseToken == Some(job.token) ==>
            w.rows[job.id].leaseUntil == Some(job.claimedAt + LEASE_MS) && w.rows[job.id].user == job.user
            && w.rows[job.id].attempts == job.attempts)
  }

  /** Tokens tell jobs apart, and a token stays with its row. */
  predicate TokensInv(w: World) {
    && (forall a, b | a in w.jobs && b in w.jobs && a != b :: w.jobs[a].token != w.jobs[b].token)
    && (forall a, id | a in w.jobs && id in w.rows && w.rows[id].leaseToken == Some(w.jobs[a].token) :: id == w.jobs[a].id)
    && OrderTotal(w.rows)
  }

  predicate OrderTotal(rows: Rows) {
    forall a, b | a in rows && b in rows && a != b :: rows[a].rowid != rows[b].rowid
  }

  ghost predicate Inv(w: World) {
    && TokensInv(w)
    && (forall id :: RowInv(w, id))
    && (forall worker :: JobInv(w, worker))
  }

  // ----- Every step keeps it

  lemma StepKeepsRow(w: World, step: Step, id: RowId)
    requires Inv(w) && Enabled(w, step)
    ensures RowInv(After(w, step), id)
  {
    assert RowInv(w, id);
    if step.SendDelivered? {
      assert JobInv(w, step.worker);
    } else if step.Claim? {
      assert RowInv(w, step.id);
    }
  }

  lemma StepKeepsJob(w: World, step: Step, worker: Worker)
    requires Inv(w) && Enabled(w, step)
    ensures JobInv(After(w, step), worker)
  {
    assert JobInv(w, worker);
    if worker in w.jobs {
      assert RowInv(w, w.jobs[worker].id);
    }
    if step.SendDelivered? || step.SendFailed? {
      assert JobInv(w, step.worker);
    }
  }

  lemma StepKeepsOrder(w: World, step: Step)
    requires Inv(w) && Enabled(w, step)
    ensures OrderTotal(After(w, step).rows)
  {
    forall id | id in w.rows ensures w.rows[id].rowid < w.nextRowid {
      assert RowInv(w, id);
    }
  }

  lemma StepKeepsTokens(w: World, step: Step)
    requires Inv(w) && Enabled(w, step)
    ensures TokensInv(After(w, step))
  {
    StepKeepsOrder(w, step);
    var w' := After(w, step);
    forall worker | worker in w.jobs ensures w.jobs[worker].token in w.tokens {
      assert JobInv(w, worker);
    }
    forall a, id | a in w'.jobs && id in w'.rows && w'.rows[id].leaseToken == Some(w'.jobs[a].token) ensures id == w'.jobs[a].id {
      assert RowInv(w, id);
    }
  }

  lemma {:induction false} RunKeepsInv(w: World, steps: seq<Step>)
    requires Inv(w) && Admissible(w, steps)
    ensures Inv(Run(w, steps))
    decreases |steps|
  {
    if steps != [] {
      var w' := After(w, steps[0]);
      StepKeepsTokens(w, steps[0]);
      forall id ensures RowInv(w', id) {
        StepKeepsRow(w, steps[0], id);
      }
      forall worker ensures JobInv(w', worker) {
        StepKeepsJob(w, steps[0], worker);
      }
      RunKeepsInv(w', steps[1..]);
    }
  }

  // ----- Lease safety

  /** No unexpired lease is stolen, so no two workers ever hold unexpired leases on one row. */
  lemma LeasesAreExclusive(start: World, steps: seq<Step>, a: Worker, b: Worker)
    requires Start(start) && Admissible(start, steps)
    requires var w := Run(start, steps);
             && a in w.jobs && b in w.jobs && w.jobs[a].id == w.jobs[b].id && w.jobs[a].id in w.rows
             && w.now < w.jobs[a].claimedAt + LEASE_MS && w.now < w.jobs[b].claimedAt + LEASE_MS
    ensures a == b
  {
    RunKeepsInv(start, steps);
    var w := Run(start, steps);
    assert JobInv(w, a) && JobInv(w, b);
  }

  lemma FirstInOrder(rows: Rows, ids: set<RowId>) returns (id: RowId)
    requires ids != {} && ids <= rows.Keys
    ensures id in ids && forall other | other in ids && other != id :: !Before(rows[other], rows[id])
    decreases ids
  {
    id :| id in ids;
    if ids != {id} {
      var next := FirstInOrder(rows, ids - {id});
      if !Before(rows[id], rows[next]) {
        id := next;
      }
    }
  }

  /** Whenever a row is due an idle worker can claim one: a first in order exists, and no other state stands in its way. */
  lemma ClaimIsPossible(w: World, due: RowId, worker: Worker, token: Token) returns (id: RowId)
    requires due in w.rows && IsClaimable(w.rows[due], w.disabled, w.now) && worker !in w.jobs && token !in w.tokens
    ensures Enabled(w, Claim(worker, id, token))
    ensures var w' := After(w, Claim(worker, id, token));
            && worker in w'.jobs && id in w'.rows && w'.rows[id].leaseToken == Some(token)
            && w'.jobs[worker] == Job(id, w.rows[id].user, token, w'.rows[id].attempts, w.now)
  {
    var eligible := set other | other in w.rows && Eligible(w.rows, w.disabled, w.now, other);
    assert due in eligible;
    id := FirstInOrder(w.rows, eligible);
  }

  /** A worker that still holds its row counts the claims of it, so its backoff is that of the row's attempts. */
  lemma BackoffIsOfTheRow(start: World, steps: seq<Step>, worker: Worker)
    requires Start(start) && Admissible(start, steps)
    requires var w := Run(start, steps);
             worker in w.jobs && w.jobs[worker].id in w.rows && w.rows[w.jobs[worker].id].leaseToken == Some(w.jobs[worker].token)
    ensures var w := Run(start, steps);
            w.jobs[worker].id in w.claims && w.jobs[worker].attempts == w.claims[w.jobs[worker].id]
  {
    RunKeepsInv(start, steps);
    assert JobInv(Run(start, steps), worker) && RowInv(Run(start, steps), Run(start, steps).jobs[worker].id);
  }

  /** The attempts of a row are the claims made of it, by however many workers. */
  lemma AttemptsCountClaims(start: World, steps: seq<Step>, id: RowId)
    requires Start(start) && Admissible(start, steps) && id in Run(start, steps).rows
    ensures var w := Run(start, steps); id in w.claims && w.rows[id].attempts == w.claims[id]
  {
    RunKeepsInv(start, steps);
    assert RowInv(Run(start, steps), id);
  }

  /** A worker whose row was claimed again leaves it alone: its completion changes nothing, its failure nothing but a rate-limit deferral. */
  lemma SupersededWorkerIsHarmless(start: World, steps: seq<Step>, worker: Worker, retryAfterSeconds: nat)
    requires Start(start) && Admissible(start, steps)
    requires var w := Run(start, steps);
             worker in w.jobs && (w.jobs[worker].id in w.rows ==> w.rows[w.jobs[worker].id].leaseToken != Some(w.jobs[worker].token))
    ensures var w := Run(start, steps);
            && Enabled(w, SendDelivered(worker)) && Enabled(w, SendFailed(worker, retryAfterSeconds))
            && After(w, SendDelivered(worker)).rows == w.rows
            && After(w, SendFailed(worker, 0)).rows == w.rows
            && var rows' := After(w, SendFailed(worker, retryAfterSeconds)).rows;
               && rows'.Keys == w.rows.Keys
               && forall id | id in w.rows ::
                    && rows'[id] == w.rows[id].(nextAttemptAt := rows'[id].nextAttemptAt)
                    && rows'[id].nextAttemptAt >= w.rows[id].nextAttemptAt
                    && (w.rows[id].deliveredAt.Some? ==> rows'[id] == w.rows[id])
  {
    RunKeepsInv(start, steps);
    assert JobInv(Run(start, steps), worker);
  }

  /**
   * The fate of a row in one step of any run: it becomes delivered only by a delivered send under its
   * current token; once delivered it does not change, is not claimed, and goes only by pruning after
   * seven days; while pending it goes only with its subscription.
   */
  lemma FateOfARow(start: World, steps: seq<Step>, step: Step, id: RowId)
    requires Start(start) && Admissible(start, steps) && Enabled(Run(start, steps), step) && id in Run(start, steps).rows
    ensures var w, w' := Run(start, steps), After(Run(start, steps), step);
            var row := w.rows[id];
            && (row.deliveredAt.None? && id in w'.rows && w'.rows[id].deliveredAt.Some? ==>
                  && step.SendDelivered? && w.jobs[step.worker].id == id && row.leaseToken == Some(w.jobs[step.worker].token)
                  && (id, w.jobs[step.worker].token) in w'.sent)
            && (row.deliveredAt.Some? ==>
                  && !(step.Claim? && step.id == id)
                  && (id in w'.rows ==> w'.rows[id] == row)
                  && (id !in w'.rows ==> step.SubscriptionDeleted? || (step.Prune? && row.deliveredAt.value < w.now - RECEIPT_MS)))
            && (row.deliveredAt.None? && id !in w'.rows ==> step.SubscriptionDeleted?)
            && (id !in w'.rows <==>
                  || (step.SubscriptionDeleted? && id in step.ids)
                  || (step.Prune? && row.deliveredAt.Some? && row.deliveredAt.value < w.now - 604_800_000))
  {
    RunKeepsInv(start, steps);
    var w := Run(start, steps);
    assert RowInv(w, id);
  }

  /** Time passes only while nothing else happens, and only a toggle changes who may be sent to. */
  lemma ClockAndUsersChangeExactly(w: World, step: Step, user: User)
    requires Enabled(w, step)
    ensures var w' := After(w, step);
            && w'.now == w.now + (if step.Wait? then step.ms else 0)
            && (user in w'.disabled <==> if step.UserToggled? && step.user == user then step.disable else user in w.disabled)
  {
  }

  /** A worker is busy from its claim until its send ends or it dies. */
  lemma WorkersAreBusyExactly(w: World, step: Step, worker: Worker)
    requires Enabled(w, step)
    ensures var ends := step == SendDelivered(worker) || (step.SendFailed? && step.worker == worker) || step == WorkerDied(worker);
            worker in After(w, step).jobs <==> (worker in w.jobs && !ends) || (step.Claim? && step.worker == worker)
  {
  }

  /**
   * A rate limit holds back every pending row of the user's bot for as long as was asked, and only those:
   * a row enqueued afterwards is due at once.
   */
  lemma RateLimitHoldsBackThePending(
    start: World, steps: seq<Step>, worker: Worker, retryAfterSeconds: nat, id: RowId, key: nat)
    requires Start(start) && Admissible(start, steps) && retryAfterSeconds > 0
    requires var w := Run(start, steps);
             worker in w.jobs && id !in w.claims && forall other | other in w.rows :: w.rows[other].key != key
    ensures var w := Run(start, steps);
            && Enabled(w, SendFailed(worker, retryAfterSeconds))
            && var w' := After(w, SendFailed(worker, retryAfterSeconds));
               && (forall other | other in w'.rows && w'.rows[other].deliveredAt.None? && w'.rows[other].user == w.jobs[worker].user ::
                     w'.rows[other].nextAttemptAt >= w.now + 1000 * retryAfterSeconds)
               && Enabled(w', Enqueue(id, key, w.jobs[worker].user))
               && var w'' := After(w', Enqueue(id, key, w.jobs[worker].user));
                  id in w''.rows && w''.rows[id].user == w.jobs[worker].user && Due(w''.rows[id], w''.now)
  {
    RunKeepsInv(start, steps);
    var w := Run(start, steps);
    assert JobInv(w, worker) && RowInv(w, id);
    var w' := After(w, SendFailed(worker, retryAfterSeconds));
    assert forall other | other in w'.rows :: other in w.rows && w'.rows[other].key == w.rows[other].key;
  }

  // ----- Bounded overtaking

  /** Pending rows ordered before `id`, but for one that a worker is sending. */
  function Ahead(w: World, id: RowId): set<RowId>
    requires id in w.rows
  {
    set other | other in w.rows && w.rows[other].deliveredAt.None? && Before(w.rows[other], w.rows[id])
                && !(exists worker | worker in w.jobs :: w.jobs[worker].id == other)
  }

  function ClaimsIn(steps: seq<Step>): nat {
    if steps == [] then 0 else (if steps[0].Claim? then 1 else 0) + ClaimsIn(steps[1..])
  }

  predicate OneWorker(w: World) {
    forall a, b | a in w.jobs && b in w.jobs :: a == b
  }

  /** A step of a single worker that neither dies nor touches the waiting row or its user. */
  predicate LeavesWaiting(w: World, step: Step, id: RowId)
    requires id in w.rows
  {
    match step
    case Claim(_, claimed, _) => claimed != id && w.jobs == map[]
    case SendFailed(worker, retryAfter) => worker in w.jobs ==> retryAfter == 0 || w.jobs[worker].user != w.rows[id].user
    case UserToggled(user, disable) => user == w.rows[id].user ==> !disable
    case SubscriptionDeleted(ids) => id !in ids
    case WorkerDied(_) => false
    case _ => true
  }

  predicate Waits(w: World, id: RowId) {
    && Eligible(w.rows, w.disabled, w.now, id) && OneWorker(w)
    && (forall worker | worker in w.jobs :: w.jobs[worker].id != id && w.jobs[worker].id in w.claims)
    && (forall worker | worker in w.jobs && w.jobs[worker].id in w.rows ::
          w.rows[w.jobs[worker].id].leaseToken == Some(w.jobs[worker].token))
    && (forall other | other in w.rows :: w.rows[other].createdAt <= w.now && w.rows[other].rowid < w.nextRowid)
  }

  lemma StepLeavesWaiting(w: World, step: Step, id: RowId)
    requires Enabled(w, step) && Waits(w, id) && TokensInv(w) && LeavesWaiting(w, step, id)
    ensures Waits(After(w, step), id)
    ensures After(w, step).rows[id] == w.rows[id]
  {
    if step.SendFailed? {
      var job := w.jobs[step.worker];
      assert w.rows[id].leaseToken != Some(job.token);
    }
  }

  /** When the send of a row ends, the row is delivered or rescheduled at least half a minute ahead. */
  lemma SentRowMovesBehind(w: World, step: Step, id: RowId, worker: Worker)
    requires Enabled(w, step) && Waits(w, id) && TokensInv(w) && LeavesWaiting(w, step, id)
    requires id in After(w, step).rows && After(w, step).rows[id] == w.rows[id]
    requires worker in w.jobs && w.jobs[worker].id in w.rows
    ensures w.jobs[worker].id !in Ahead(After(w, step), id)
  {
    var w', job := After(w, step), w.jobs[worker];
    if step.SendFailed? {
      assert step.worker == worker && w.rows[job.id].leaseToken == Some(job.token);
      BackoffDoublesUpToTheMaximum(job.attempts);
    } else if !step.SendDelivered? {
      assert worker in w'.jobs && w'.jobs[worker].id == job.id;
    }
  }

  /** Each claim sends, and then moves behind, a row that was ahead; nothing else gets ahead. */
  lemma StepShrinksAhead(w: World, step: Step, id: RowId)
    requires Enabled(w, step) && Waits(w, id) && TokensInv(w) && LeavesWaiting(w, step, id)
    requires id in After(w, step).rows && After(w, step).rows[id] == w.rows[id]
    ensures var w' := After(w, step);
            Ahead(w', id) <= Ahead(w, id) && (step.Claim? ==> step.id in Ahead(w, id) && step.id !in Ahead(w', id))
  {
    var w' := After(w, step);
    if step.Claim? {
      assert Before(w.rows[step.id], w.rows[id]);
      assert w'.jobs[step.worker].id == step.id;
      assert forall worker | worker in w'.jobs :: w'.jobs[worker].id == step.id;
    }
    forall other | other in Ahead(w', id) ensures other in Ahead(w, id) {
      if worker :| worker in w.jobs && w.jobs[worker].id == other {
        SentRowMovesBehind(w, step, id, worker);
      }
    }
  }

  predicate AllLeaveWaiting(w: World, steps: seq<Step>, id: RowId)
    requires Admissible(w, steps)
    decreases |steps|
  {
    steps == [] || (id in w.rows && LeavesWaiting(w, steps[0], id) && AllLeaveWaiting(After(w, steps[0]), steps[1..], id))
  }

  lemma {:induction false} OvertakingFrom(w: World, steps: seq<Step>, id: RowId)
    requires Inv(w) && Admissible(w, steps) && Waits(w, id) && AllLeaveWaiting(w, steps, id)
    ensures Waits(Run(w, steps), id) && ClaimsIn(steps) + |Ahead(Run(w, steps), id)| <= |Ahead(w, id)|
    decreases |steps|
  {
    if steps != [] {
      var step, w' := steps[0], After(w, steps[0]);
      StepLeavesWaiting(w, step, id);
      StepShrinksAhead(w, step, id);
      RunKeepsInv(w, [step]);
      assert Run(w, [step]) == w';
      OvertakingFrom(w', steps[1..], id);
      Shrinks(Ahead(w', id), if step.Claim? then Ahead(w, id) - {step.id} else Ahead(w, id));
    }
  }

  /**
   * Bounded overtaking. Once a row waits (due, not leased, its user enabled), with one worker that
   * does not die, and while the row is neither claimed, deferred, deleted nor its user disabled, at
   * most as many claims are made as there were pending rows ordered before it.
   */
  lemma BoundedOvertaking(start: World, before: seq<Step>, steps: seq<Step>, id: RowId)
    requires Start(start) && Admissible(start, before)
    requires var w := Run(start, before); Waits(w, id) && Admissible(w, steps) && AllLeaveWaiting(w, steps, id)
    ensures ClaimsIn(steps) <= |Ahead(Run(start, before), id)|
  {
    RunKeepsInv(start, before);
    OvertakingFrom(Run(start, before), steps, id);
  }

  /** When no row is ahead, the next claim is of the waiting row. */
  lemma NextClaimIsTheWaitingRow(w: World, id: RowId, worker: Worker, claimed: RowId, token: Token)
    requires Waits(w, id) && TokensInv(w) && w.jobs == map[] && Ahead(w, id) == {}
    requires Enabled(w, Claim(worker, claimed, token))
    ensures claimed == id
  {
    var ahead := Ahead(w, id);
    assert claimed == id || claimed in ahead;
  }

  lemma {:induction false} Shrinks(a: set<RowId>, b: set<RowId>)
    requires a <= b
    ensures |a| <= |b|
  {
    if a != {} {
      var x :| x in a;
      Shrinks(a - {x}, b - {x});
    }
  }
}

/** Task rows, every statement that moves one, and runs of any number of callers
    interleaved statement by statement. */
module Lease {
  import opened Outcomes

  /** A primary key. Keys are compared in the one order the database keeps them in. */
  type Id = int

  const MAX_ATTEMPTS_LIMIT := 32767
  const ONE_DAY := 86_400

  datatype Status = READY | RUNNING | FAILED | SUCCESSFUL | LOST | DISCARDED | WAITING

  datatype Row = Row(
    status: Status, epoch: int, attempts: int, maxAttempts: int,
    runAfter: Option<int>, finishedAt: Option<int>,
    lockedBy: Option<int>, lockedAt: Option<int>, leaseExpiresAt: Option<int>)

  type Table = map<Id, Row>

  function Unlocked(r: Row): Row {
    r.(lockedBy := None, lockedAt := None, leaseExpiresAt := None)
  }

  // ---- the columns each action writes ----

  const RETRYABLE_STATUSES: set<Status> := {FAILED, LOST}
  const DISCARDABLE_STATUSES: set<Status> := {READY, FAILED, LOST, WAITING}
  const CANCELLABLE: set<Status> := {READY, WAITING}
  const WRITABLE_STATUSES: set<Status> := {RUNNING, LOST}

  predicate RetryFits(r: Row) { r.attempts < MAX_ATTEMPTS_LIMIT }

  predicate Retryable(r: Row) { r.status in RETRYABLE_STATUSES && RetryFits(r) }

  /** retry()'s UPDATE, with the literal values its read gave it. */
  function RequeuedFrom(r: Row, epochRead: int, attemptsRead: int): Row {
    Unlocked(r).(status := READY, epoch := epochRead + 1, maxAttempts := attemptsRead + 1,
                 runAfter := None, finishedAt := None)
  }

  /** retry_many()'s UPDATE, computed from the row itself. */
  function Requeued(r: Row): Row {
    RequeuedFrom(r, r.epoch, r.attempts)
  }

  function Discarded(r: Row, now: int): Row {
    Unlocked(r).(status := DISCARDED, finishedAt := Some(now))
  }

  /** READY no earlier than now, and no earlier than the row already asked for. */
  function Released(r: Row, now: int): Row {
    r.(status := READY, runAfter := if r.runAfter.Some? && r.runAfter.value > now then r.runAfter else Some(now))
  }

  function Revived(r: Row): Row {
    r.(status := WAITING, epoch := r.epoch + 1, finishedAt := None)
  }

  function Expired(r: Row, now: int): Row {
    r.(leaseExpiresAt := Some(now - ONE_DAY), lockedAt := Some(now - ONE_DAY))
  }

  // ---- steps ----

  /** What a read-then-write call holds between its two statements. */
  datatype Read = Read(id: Id, epoch: int, attempts: int)

  /** What a claim hands its worker: the row's counters as the claim wrote them. */
  datatype Claim = Claim(id: Id, epoch: int, attempts: int, maxAttempts: int)

  /** What a finish writes. A handover, of a stuck thread's task, raises the epoch too. */
  datatype Outcome = Success | Failure(handover: bool) | TryAgain(handover: bool)

  datatype Step =
    // the actions and the waiting moves, one statement each
    | RetryRead(id: Id)
    | RetryWrite(read: Read)
    | RetryStatement(id: Id)
    | DiscardRead(id: Id)
    | DiscardWrite(read: Read, now: int)
    | DiscardStatement(id: Id, now: int)
    | ExpireLease(id: Id, now: int)
    | Release(id: Id, epoch: int, now: int)
    | Cancel(id: Id, epoch: int, now: int)
    | Revive(id: Id, epoch: int)
    // the workers, the reaper, enqueue and prune
    | EnvEnqueue(id: Id, budget: int, waiting: bool)
    | EnvClaim(id: Id, worker: int, now: int, expires: int)
    | EnvFinish(claim: Claim, outcome: Outcome, now: int)
    | EnvRefund(claim: Claim)
    | EnvReapRequeue(id: Id)
    | EnvReapLost(id: Id, now: int)
    | EnvPrune(id: Id)

  /** The steps that are this package's actions, rather than its workers'. */
  predicate IsAction(step: Step) {
    step.RetryRead? || step.RetryWrite? || step.RetryStatement? || step.DiscardRead? || step.DiscardWrite?
    || step.DiscardStatement? || step.ExpireLease? || step.Release? || step.Cancel? || step.Revive?
  }

  /** The row a step is about. */
  function Target(step: Step): Id {
    match step
    case RetryRead(id) => id
    case RetryWrite(read) => read.id
    case RetryStatement(id) => id
    case DiscardRead(id) => id
    case DiscardWrite(read, _) => read.id
    case DiscardStatement(id, _) => id
    case ExpireLease(id, _) => id
    case Release(id, _, _) => id
    case Cancel(id, _, _) => id
    case Revive(id, _) => id
    case EnvEnqueue(id, _, _) => id
    case EnvClaim(id, _, _, _) => id
    case EnvFinish(claim, _, _) => claim.id
    case EnvRefund(claim) => claim.id
    case EnvReapRequeue(id) => id
    case EnvReapLost(id, _) => id
    case EnvPrune(id) => id
  }

  /** The UPDATE a step makes on its row: the new row when its WHERE matches. */
  function Update(step: Step, r: Row): Option<Row> {
    match step
    case RetryWrite(read) =>
      if Retryable(r) && r.epoch == read.epoch then Some(RequeuedFrom(r, read.epoch, read.attempts)) else None
    case RetryStatement(_) =>
      if Retryable(r) then Some(Requeued(r)) else None
    case DiscardWrite(read, now) =>
      if r.status in DISCARDABLE_STATUSES && r.epoch == read.epoch then Some(Discarded(r, now)) else None
    case DiscardStatement(_, now) =>
      if r.status in DISCARDABLE_STATUSES then Some(Discarded(r, now)) else None
    case ExpireLease(_, now) =>
      if r.status == RUNNING && r.lockedAt.Some? then Some(Expired(r, now)) else None
    case Release(_, epoch, now) =>
      if r.status == WAITING && r.epoch == epoch then Some(Released(r, now)) else None
    case Cancel(_, epoch, now) =>
      if r.status in CANCELLABLE && r.epoch == epoch then Some(Discarded(r, now)) else None
    case Revive(_, epoch) =>
      if r.status == DISCARDED && r.epoch == epoch then Some(Revived(r)) else None
    case EnvClaim(_, worker, now, expires) =>
      if r.status == READY && (r.runAfter.Some? ==> r.runAfter.value <= now)
      then Some(r.(status := RUNNING, epoch := r.epoch + 1, attempts := r.attempts + 1,
                   lockedBy := Some(worker), lockedAt := Some(now), leaseExpiresAt := Some(expires)))
      else None
    case EnvFinish(claim, outcome, now) =>
      if r.epoch == claim.epoch && r.status in WRITABLE_STATUSES then
        match outcome
        case Success => Some(Unlocked(r).(status := SUCCESSFUL, finishedAt := Some(now)))
        case Failure(handover) =>
          Some(Unlocked(r).(status := FAILED, finishedAt := Some(now),
                            epoch := if handover then claim.epoch + 1 else r.epoch))
        case TryAgain(handover) =>
          // Decided from the claim the worker holds, before the write.
          if claim.attempts < claim.maxAttempts
          then Some(Unlocked(r).(status := READY, runAfter := Some(now),
                                 epoch := if handover then claim.epoch + 1 else r.epoch))
          else None
      else None
    case EnvRefund(claim) =>
      if r.status == RUNNING && r.epoch == claim.epoch && 1 <= claim.attempts
      then Some(Unlocked(r).(status := READY, epoch := claim.epoch + 1, attempts := claim.attempts - 1))
      else None
    case EnvReapRequeue(_) =>
      if r.status == RUNNING && r.attempts < r.maxAttempts
      then Some(Unlocked(r).(status := READY, epoch := r.epoch + 1))
      else None
    case EnvReapLost(_, now) =>
      if r.status == RUNNING && r.attempts >= r.maxAttempts
      then Some(Unlocked(r).(status := LOST, finishedAt := Some(now)))
      else None
    case _ => None
  }

  // ---- the system ----

  /** The table, the keys ever used, the reads in flight and every claim made, oldest first. */
  datatype System = System(rows: Table, used: set<Id>, taken: set<Read>, claims: seq<Claim>)

  const EMPTY := System(map[], {}, {}, [])

  /** A step that presents a read or a claim can only present one that was made. */
  predicate Presentable(s: System, step: Step) {
    match step
    case RetryWrite(read) => read in s.taken
    case DiscardWrite(read, _) => read in s.taken
    case EnvFinish(claim, _, _) => claim in s.claims
    case EnvRefund(claim) => claim in s.claims
    case _ => true
  }

  /** Whether the step's UPDATE matches its row: what the call returns. */
  predicate Moves(s: System, step: Step) {
    Presentable(s, step) && Target(step) in s.rows && Update(step, s.rows[Target(step)]).Some?
  }

  function NewRow(budget: int, waiting: bool): Row {
    Row(if waiting then WAITING else READY, 0, 0, budget, None, None, None, None, None)
  }

  function Apply(s: System, step: Step): System {
    var id := Target(step);
    match step
    case RetryRead(_) =>
      if id in s.rows && Retryable(s.rows[id])
      then s.(taken := s.taken + {Read(id, s.rows[id].epoch, s.rows[id].attempts)})
      else s
    case DiscardRead(_) =>
      if id in s.rows && s.rows[id].status in DISCARDABLE_STATUSES
      then s.(taken := s.taken + {Read(id, s.rows[id].epoch, s.rows[id].attempts)})
      else s
    case EnvEnqueue(_, budget, waiting) =>
      // A fresh uuid4 each time; the budget was validated.
      if id !in s.used && 1 <= budget <= MAX_ATTEMPTS_LIMIT
      then s.(rows := s.rows[id := NewRow(budget, waiting)], used := s.used + {id})
      else s
    case EnvPrune(_) =>
      if id in s.rows && s.rows[id].status !in {READY, RUNNING, WAITING} then s.(rows := s.rows - {id}) else s
    case _ =>
      if !Moves(s, step) then s
      else
        var after := Update(step, s.rows[id]).value;
        var moved := s.(rows := s.rows[id := after]);
        if step.EnvClaim?
        then moved.(claims := s.claims + [Claim(id, after.epoch, after.attempts, after.maxAttempts)])
        else moved
  }

  function Run(s: System, steps: seq<Step>): System
    decreases |steps|
  {
    if steps == [] then s else Run(Apply(s, steps[0]), steps[1..])
  }
}

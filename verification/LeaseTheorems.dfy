/** What every interleaving keeps. */
module LeaseTheorems {
  import opened Outcomes
  import opened Lease

  // ---- the invariant ----

  /** Nothing handed out is ahead of its row, and what carries the row's current
      epoch carries its current counters too. */
  predicate ReadFresh(s: System, read: Read) {
    && read.id in s.used
    && (read.id in s.rows ==>
      var r := s.rows[read.id];
      read.epoch <= r.epoch && (read.epoch == r.epoch ==> read.attempts == r.attempts))
  }

  predicate ClaimFresh(s: System, c: Claim) {
    && c.id in s.used
    && (c.id in s.rows ==>
      var r := s.rows[c.id];
      c.epoch <= r.epoch && (c.epoch == r.epoch ==> c.attempts == r.attempts && c.maxAttempts == r.maxAttempts))
  }

  predicate SameLease(a: Claim, b: Claim) { a.id == b.id && a.epoch == b.epoch }

  ghost predicate Inv(s: System) {
    && s.rows.Keys <= s.used
    && (forall read <- s.taken :: ReadFresh(s, read))
    && (forall c <- s.claims :: ClaimFresh(s, c))
    && (forall i, j | 0 <= i < j < |s.claims| :: !SameLease(s.claims[i], s.claims[j]))
    && (forall id <- s.rows | s.rows[id].status == RUNNING ::
          exists c <- s.claims :: c.id == id && c.epoch == s.rows[id].epoch)
  }

  // ---- the statements, one by one: which rows they match and every column they leave ----

  /** retry: FAILED or LOST rows with an attempt to grant become READY at the next epoch,
      with one attempt more than they have used as their budget. */
  lemma RetryIs(r: Row, id: Id)
    ensures Update(RetryStatement(id), r) ==
      if (r.status == FAILED || r.status == LOST) && r.attempts < 32767
      then Some(Row(READY, r.epoch + 1, r.attempts, r.attempts + 1, None, None, None, None, None))
      else None
  { }

  /** Its write after a read: that, at the epoch read and from what was read. */
  lemma RetryWriteIs(r: Row, read: Read)
    ensures Update(RetryWrite(read), r) ==
      if (r.status == FAILED || r.status == LOST) && r.attempts < 32767 && r.epoch == read.epoch
      then Some(Row(READY, read.epoch + 1, r.attempts, read.attempts + 1, None, None, None, None, None))
      else None
  { }

  /** discard: any row but a RUNNING, a SUCCESSFUL or a DISCARDED one is closed, its epoch,
      counters and run_after as they were; with a read, at the epoch read. */
  lemma DiscardIs(r: Row, id: Id, read: Read, now: int)
    ensures Update(DiscardStatement(id, now), r) ==
      if r.status == READY || r.status == WAITING || r.status == FAILED || r.status == LOST
      then Some(Row(DISCARDED, r.epoch, r.attempts, r.maxAttempts, r.runAfter, Some(now), None, None, None))
      else None
    ensures Update(DiscardWrite(read, now), r) ==
      if r.epoch == read.epoch then Update(DiscardStatement(id, now), r) else None
  { }

  /** cancel: a READY or WAITING row at its epoch is closed as discard closes it. */
  lemma CancelIs(r: Row, id: Id, epoch: int, now: int)
    ensures Update(Cancel(id, epoch, now), r) ==
      if (r.status == READY || r.status == WAITING) && r.epoch == epoch
      then Some(Row(DISCARDED, r.epoch, r.attempts, r.maxAttempts, r.runAfter, Some(now), None, None, None))
      else None
  { }

  /** release: a WAITING row at its epoch becomes READY there, for the later of now and the
      time it asked for; nothing else of it changes. */
  lemma ReleaseIs(r: Row, id: Id, epoch: int, now: int)
    ensures Update(Release(id, epoch, now), r) ==
      if r.status == WAITING && r.epoch == epoch
      then
        var at := if r.runAfter == None || r.runAfter.value <= now then now else r.runAfter.value;
        Some(Row(READY, r.epoch, r.attempts, r.maxAttempts, Some(at), r.finishedAt,
                 r.lockedBy, r.lockedAt, r.leaseExpiresAt))
      else None
  { }

  /** revive: a DISCARDED row at its epoch waits at the next, no longer finished, its
      counters and run_after as they were. */
  lemma ReviveIs(r: Row, id: Id, epoch: int)
    ensures Update(Revive(id, epoch), r) ==
      if r.status == DISCARDED && r.epoch == epoch
      then Some(Row(WAITING, r.epoch + 1, r.attempts, r.maxAttempts, r.runAfter, None,
                    r.lockedBy, r.lockedAt, r.leaseExpiresAt))
      else None
  { }

  /** expire_lease: a RUNNING row that has its lock time gets both lease times a day ago. */
  lemma ExpireLeaseIs(r: Row, id: Id, now: int)
    ensures Update(ExpireLease(id, now), r) ==
      if r.status == RUNNING && r.lockedAt != None
      then
        var dayAgo := Some(now - 24 * 60 * 60);
        Some(Row(RUNNING, r.epoch, r.attempts, r.maxAttempts, r.runAfter, r.finishedAt, r.lockedBy, dayAgo, dayAgo))
      else None
  { }

  /** A claim takes a READY row that is due, raising its epoch and its attempts by one. */
  lemma ClaimIs(r: Row, id: Id, worker: int, now: int, expires: int)
    ensures Update(EnvClaim(id, worker, now, expires), r) ==
      if r.status == READY && (r.runAfter == None || r.runAfter.value <= now)
      then Some(Row(RUNNING, r.epoch + 1, r.attempts + 1, r.maxAttempts, r.runAfter, r.finishedAt,
                    Some(worker), Some(now), Some(expires)))
      else None
  { }

  /** A finish writes on a RUNNING or LOST row at the claim's epoch, and raises the epoch
      only when it hands the task over; a refund of a RUNNING row takes the attempt back. */
  lemma FinishIs(r: Row, claim: Claim, handover: bool, now: int)
    ensures var held := r.epoch == claim.epoch && (r.status == RUNNING || r.status == LOST);
      var next := if handover then r.epoch + 1 else r.epoch;
      && Update(EnvFinish(claim, Success, now), r) ==
        (if held
         then Some(Row(SUCCESSFUL, r.epoch, r.attempts, r.maxAttempts, r.runAfter, Some(now), None, None, None))
         else None)
      && Update(EnvFinish(claim, Failure(handover), now), r) ==
        (if held
         then Some(Row(FAILED, next, r.attempts, r.maxAttempts, r.runAfter, Some(now), None, None, None))
         else None)
      && Update(EnvFinish(claim, TryAgain(handover), now), r) ==
        (if held && claim.attempts < claim.maxAttempts
         then Some(Row(READY, next, r.attempts, r.maxAttempts, Some(now), r.finishedAt, None, None, None))
         else None)
    ensures Update(EnvRefund(claim), r) ==
      if r.epoch == claim.epoch && r.status == RUNNING && 1 <= claim.attempts
      then Some(Row(READY, r.epoch + 1, claim.attempts - 1, r.maxAttempts, r.runAfter, r.finishedAt, None, None, None))
      else None
  { }

  /** A reaper requeues a RUNNING row with attempts left at the next epoch, and gives one
      without up as LOST where it is. */
  lemma ReapIs(r: Row, id: Id, now: int)
    ensures Update(EnvReapRequeue(id), r) ==
      if r.status == RUNNING && r.attempts < r.maxAttempts
      then Some(Row(READY, r.epoch + 1, r.attempts, r.maxAttempts, r.runAfter, r.finishedAt, None, None, None))
      else None
    ensures Update(EnvReapLost(id, now), r) ==
      if r.status == RUNNING && r.attempts >= r.maxAttempts
      then Some(Row(LOST, r.epoch, r.attempts, r.maxAttempts, r.runAfter, Some(now), None, None, None))
      else None
  { }

  /** In a run each row changes by the statements made on it and by nothing else; only a
      prune deletes one, and only when it is settled. */
  lemma OnlyItsStatementMovesARow(s: System, step: Step, id: Id)
    requires Inv(s) && id in s.rows
    ensures var t, r := Apply(s, step), s.rows[id];
      if step == EnvPrune(id) && r.status != READY && r.status != RUNNING && r.status != WAITING
      then id !in t.rows
      else
        && id in t.rows
        && t.rows[id] ==
          if Target(step) == id && Presentable(s, step) && Update(step, r).Some? then Update(step, r).value else r
  { }

  // ---- one statement ----

  /** No UPDATE lowers the epoch, and one that leaves it leaves both counters. */
  lemma UpdateRaisesEpochOrKeepsCounters(step: Step, r: Row)
    requires Update(step, r).Some?
    ensures var after := Update(step, r).value;
      || (after.epoch == r.epoch && after.attempts == r.attempts && after.maxAttempts == r.maxAttempts)
      || after.epoch == r.epoch + 1
  { }

  /** Only a claim makes a row RUNNING. */
  lemma OnlyClaimsRun(step: Step, r: Row)
    requires Update(step, r).Some? && Update(step, r).value.status == RUNNING
    ensures step.EnvClaim? || (step.ExpireLease? && r.status == RUNNING && Update(step, r).value.epoch == r.epoch)
  { }

  lemma {:induction false} InvKept(s: System, step: Step)
    requires Inv(s)
    ensures Inv(Apply(s, step))
  {
    var t := Apply(s, step);
    var id := Target(step);
    if step.EnvEnqueue? || step.EnvPrune? || step.RetryRead? || step.DiscardRead? {
      forall c <- t.claims ensures ClaimFresh(t, c) { assert ClaimFresh(s, c); }
      forall read <- t.taken ensures ReadFresh(t, read) { assert read in s.taken ==> ReadFresh(s, read); }
    } else if Moves(s, step) {
      MoveKeepsInv(s, step);
    }
  }

  lemma MoveKeepsInv(s: System, step: Step)
    requires Inv(s) && Moves(s, step)
    ensures Inv(Apply(s, step))
  {
    var t := Apply(s, step);
    var id := Target(step);
    UpdateRaisesEpochOrKeepsCounters(step, s.rows[id]);
    forall read <- t.taken ensures ReadFresh(t, read) { assert ReadFresh(s, read); }
    forall c <- s.claims ensures ClaimFresh(t, c) { assert ClaimFresh(s, c); }
    forall i, j | 0 <= i < j < |t.claims| ensures !SameLease(t.claims[i], t.claims[j]) {
      assert t.claims[i] in s.claims;
      assert ClaimFresh(s, t.claims[i]);
    }
    forall k <- t.rows | t.rows[k].status == RUNNING
      ensures exists c <- t.claims :: c.id == k && c.epoch == t.rows[k].epoch
    {
      if step.EnvClaim? && k == id {
        assert t.claims[|s.claims|] in t.claims;
      } else {
        if k == id { OnlyClaimsRun(step, s.rows[id]); }
        assert s.rows[k].status == RUNNING && s.rows[k].epoch == t.rows[k].epoch;
        var c :| c in s.claims && c.id == k && c.epoch == s.rows[k].epoch;
        assert c in t.claims;
      }
    }
  }

  lemma {:induction false} InvOverRuns(s: System, steps: seq<Step>)
    requires Inv(s)
    ensures Inv(Run(s, steps))
    decreases |steps|
  {
    if steps != [] {
      InvKept(s, steps[0]);
      InvOverRuns(Apply(s, steps[0]), steps[1..]);
    }
  }

  // ---- the fence ----

  /** A row once created is gone or at an epoch no lower, whatever runs in between;
      gone rows stay gone. */
  predicate NoLower(before: System, after: System, id: Id) {
    && before.used <= after.used
    && (id in before.used && id !in before.rows ==> id !in after.rows)
    && (id in before.rows && id in after.rows ==> before.rows[id].epoch <= after.rows[id].epoch)
  }

  lemma StepNeverLowers(s: System, step: Step, id: Id)
    requires Inv(s)
    ensures NoLower(s, Apply(s, step), id)
  {
    if Moves(s, step) { UpdateRaisesEpochOrKeepsCounters(step, s.rows[Target(step)]); }
  }

  lemma {:induction false} EpochNeverDecreases(s: System, steps: seq<Step>, id: Id)
    requires Inv(s)
    ensures NoLower(s, Run(s, steps), id)
    decreases |steps|
  {
    if steps != [] {
      var t := Apply(s, steps[0]);
      StepNeverLowers(s, steps[0], id);
      InvKept(s, steps[0]);
      EpochNeverDecreases(t, steps[1..], id);
    }
  }

  /** Once the row is past the epoch e or gone, nothing pinned to e ever matches it again. */
  predicate Past(s: System, id: Id, e: int) {
    id in s.used && (id in s.rows ==> e < s.rows[id].epoch)
  }

  predicate PinnedTo(step: Step, id: Id, e: int) {
    && Target(step) == id
    && match step
       case RetryWrite(read) => read.epoch == e
       case DiscardWrite(read, _) => read.epoch == e
       case Release(_, epoch, _) => epoch == e
       case Cancel(_, epoch, _) => epoch == e
       case Revive(_, epoch) => epoch == e
       case EnvFinish(claim, _, _) => claim.epoch == e
       case EnvRefund(claim) => claim.epoch == e
       case _ => false
  }

  lemma PastIsForEver(s: System, steps: seq<Step>, id: Id, e: int, step: Step)
    requires Inv(s) && Past(s, id, e) && PinnedTo(step, id, e)
    ensures Past(Run(s, steps), id, e) && !Moves(Run(s, steps), step)
  {
    EpochNeverDecreases(s, steps, id);
  }

  /** In every reachable state no two claims ever made share an epoch, and a RUNNING
      row's epoch is one claim's. */
  lemma OneClaimPerEpoch(steps: seq<Step>)
    ensures var s := Run(EMPTY, steps);
      && (forall i, j | 0 <= i < j < |s.claims| :: !SameLease(s.claims[i], s.claims[j]))
      && (forall id <- s.rows | s.rows[id].status == RUNNING ::
            exists c <- s.claims :: c.id == id && c.epoch == s.rows[id].epoch)
  {
    InvOverRuns(EMPTY, steps);
  }

  /** A finish or refund by any holder but the latest matches nothing: now, and after any run. */
  lemma StaleHolderIsFencedOut(s: System, steps: seq<Step>, stale: Claim, newer: Claim, step: Step)
    requires Inv(s)
    requires stale in s.claims && newer in s.claims && stale.id == newer.id && stale.epoch < newer.epoch
    requires PinnedTo(step, stale.id, stale.epoch)
    ensures !Moves(Run(s, steps), step)
  {
    assert ClaimFresh(s, newer);
    PastIsForEver(s, steps, stale.id, stale.epoch, step);
  }

  /** Any run of this package's actions leaves a RUNNING row RUNNING, at its epoch
      and with its counters: only the lease columns may move. */
  lemma {:induction false} ActionsNeverMoveRunning(s: System, steps: seq<Step>, id: Id)
    requires id in s.rows && s.rows[id].status == RUNNING
    requires forall step <- steps :: IsAction(step)
    ensures id in Run(s, steps).rows
    ensures var r, after := s.rows[id], Run(s, steps).rows[id];
      after == r.(lockedAt := after.lockedAt, leaseExpiresAt := after.leaseExpiresAt)
    decreases |steps|
  {
    if steps != [] {
      assert IsAction(steps[0]);
      ActionsNeverMoveRunning(Apply(s, steps[0]), steps[1..], id);
    }
  }

  // ---- retry ----

  /** Two retries that read the same epoch: once one has moved the row, no run
      leads to a state where the other does. */
  lemma AtMostOneRetryPerEpoch(s: System, winner: Read, steps: seq<Step>, other: Read)
    requires Inv(s) && Moves(s, RetryWrite(winner))
    requires other.id == winner.id && other.epoch == winner.epoch
    ensures !Moves(Run(Apply(s, RetryWrite(winner)), steps), RetryWrite(other))
  {
    InvKept(s, RetryWrite(winner));
    PastIsForEver(Apply(s, RetryWrite(winner)), steps, winner.id, winner.epoch, RetryWrite(other));
  }

  /** retry() is a read and then, after anything at all, a compare-and-set of stale
      literals. Whenever that write matches it does what the one-statement form
      does: the attempts it read are the row's attempts still. */
  lemma RetryRefinesOneStatement(s: System, between: seq<Step>, id: Id)
    requires Inv(s) && id in s.rows && Retryable(s.rows[id])
    ensures var read := Read(id, s.rows[id].epoch, s.rows[id].attempts);
      var t := Run(Apply(s, RetryRead(id)), between);
      Moves(t, RetryWrite(read)) ==>
        Moves(t, RetryStatement(id)) && Apply(t, RetryWrite(read)) == Apply(t, RetryStatement(id))
  {
    var read := Read(id, s.rows[id].epoch, s.rows[id].attempts);
    InvKept(s, RetryRead(id));
    InvOverRuns(Apply(s, RetryRead(id)), between);
    var t := Run(Apply(s, RetryRead(id)), between);
    if Moves(t, RetryWrite(read)) { assert ReadFresh(t, read); }
  }

  /** And it does match whenever nothing in between touched the row. */
  lemma RetrySucceedsUndisturbed(s: System, between: seq<Step>, id: Id)
    requires Inv(s) && id in s.rows && Retryable(s.rows[id])
    ensures var read := Read(id, s.rows[id].epoch, s.rows[id].attempts);
      var t := Run(Apply(s, RetryRead(id)), between);
      id in t.rows && t.rows[id] == s.rows[id] ==> Moves(t, RetryWrite(read))
  {
    ReadsStay(Apply(s, RetryRead(id)), between);
  }

  lemma {:induction false} ReadsStay(s: System, steps: seq<Step>)
    ensures s.taken <= Run(s, steps).taken
    decreases |steps|
  {
    if steps != [] { ReadsStay(Apply(s, steps[0]), steps[1..]); }
  }

  // ---- WAITING ----

  /** The row has left WAITING at epoch e: gone, past e, or at e and not WAITING. */
  predicate LeftWaiting(s: System, id: Id, e: int) {
    id in s.used && (id in s.rows ==> e < s.rows[id].epoch || (e == s.rows[id].epoch && s.rows[id].status != WAITING))
  }

  lemma {:induction false} LeftWaitingIsForEver(s: System, steps: seq<Step>, id: Id, e: int)
    requires Inv(s) && LeftWaiting(s, id, e)
    ensures LeftWaiting(Run(s, steps), id, e)
    decreases |steps|
  {
    if steps != [] {
      InvKept(s, steps[0]);
      StepNeverLowers(s, steps[0], id);
      LeftWaitingIsForEver(Apply(s, steps[0]), steps[1..], id, e);
    }
  }

  /** For one row and epoch at most one release ever succeeds. */
  lemma AtMostOneReleasePerEpoch(s: System, id: Id, e: int, now: int, steps: seq<Step>, later: int)
    requires Inv(s) && Moves(s, Release(id, e, now))
    ensures !Moves(Run(Apply(s, Release(id, e, now)), steps), Release(id, e, later))
  {
    InvKept(s, Release(id, e, now));
    LeftWaitingIsForEver(Apply(s, Release(id, e, now)), steps, id, e);
  }

  /** A release or cancel decided at epoch e matches nothing once a claim or a
      revival has moved the row past e, whatever happens afterwards. */
  lemma StaleDecisionsMatchNothing(s: System, id: Id, e: int, mover: Step, steps: seq<Step>, now: int)
    requires Inv(s) && id in s.rows && e <= s.rows[id].epoch
    requires Target(mover) == id && (mover.EnvClaim? || mover.Revive?) && Moves(s, mover)
    ensures var t := Run(Apply(s, mover), steps);
      !Moves(t, Release(id, e, now)) && !Moves(t, Cancel(id, e, now)) && !Moves(t, Revive(id, e))
  {
    InvKept(s, mover);
    var t := Apply(s, mover);
    PastIsForEver(t, steps, id, e, Release(id, e, now));
    PastIsForEver(t, steps, id, e, Cancel(id, e, now));
    PastIsForEver(t, steps, id, e, Revive(id, e));
  }

  // ---- the columns agree with the status ----

  const SETTLED: set<Status> := {FAILED, SUCCESSFUL, LOST, DISCARDED}

  /** A row has a finish time exactly when it is settled, and a holder and a lease
      exactly while it runs; a lost one had no attempt left. */
  predicate Tidy(r: Row) {
    && (r.finishedAt.Some? <==> r.status in SETTLED)
    && (r.lockedBy.Some? <==> r.status == RUNNING)
    && (r.lockedAt.Some? <==> r.status == RUNNING)
    && (r.leaseExpiresAt.Some? <==> r.status == RUNNING)
    && (r.status == LOST ==> r.attempts >= r.maxAttempts)
  }

  ghost predicate AllTidy(s: System) {
    forall id <- s.rows :: Tidy(s.rows[id])
  }

  lemma StepKeepsTidy(s: System, step: Step)
    requires Inv(s) && AllTidy(s)
    ensures AllTidy(Apply(s, step))
  {
    if Moves(s, step) {
      var r := s.rows[Target(step)];
      assert Tidy(r);
      if step.EnvFinish? { assert ClaimFresh(s, step.claim); }
      assert Tidy(Update(step, r).value);
    }
  }

  /** No interleaving leaves a row whose columns contradict its status. */
  lemma {:induction false} RowsStayTidy(s: System, steps: seq<Step>)
    requires Inv(s) && AllTidy(s)
    ensures AllTidy(Run(s, steps))
    decreases |steps|
  {
    if steps != [] {
      InvKept(s, steps[0]);
      StepKeepsTidy(s, steps[0]);
      RowsStayTidy(Apply(s, steps[0]), steps[1..]);
    }
  }

  /** A successful row is never changed again, by anyone. */
  lemma {:induction false} SuccessIsFinal(s: System, steps: seq<Step>, id: Id)
    requires Inv(s) && id in s.rows && s.rows[id].status == SUCCESSFUL
    ensures var t := Run(s, steps); id in t.rows ==> t.rows[id] == s.rows[id]
    decreases |steps|
  {
    if steps != [] {
      var t := Apply(s, steps[0]);
      InvKept(s, steps[0]);
      if id in t.rows {
        SuccessIsFinal(t, steps[1..], id);
      } else {
        EpochNeverDecreases(t, steps[1..], id);
      }
    }
  }

  /** What an operator's retry grants: the attempts stay, and the next claim is the
      last the new budget allows. */
  lemma RetryGrantsOneAttempt(r: Row, id: Id, worker: int, now: int)
    requires Retryable(r)
    ensures var requeued := Update(RetryStatement(id), r).value;
      var claimed := Update(EnvClaim(id, worker, now, now), requeued);
      && requeued.attempts == r.attempts
      && claimed.Some? && claimed.value.attempts == r.attempts + 1 == claimed.value.maxAttempts
      && Update(EnvReapRequeue(id), claimed.value).None?
  { }

  /** A release never brings a task forward: it runs no earlier than now and no
      earlier than it asked to, and at one of the two. */
  lemma ReleaseNeverBringsForward(r: Row, id: Id, now: int)
    requires r.status == WAITING
    ensures var released := Update(Release(id, r.epoch, now), r);
      && released.Some? && released.value.runAfter.Some?
      && now <= released.value.runAfter.value
      && (r.runAfter.Some? ==> r.runAfter.value <= released.value.runAfter.value)
      && (released.value.runAfter == Some(now) || released.value.runAfter == r.runAfter)
  { }

  // ---- the attempt budget ----

  predicate InBudget(r: Row) {
    && 0 <= r.attempts <= r.maxAttempts <= MAX_ATTEMPTS_LIMIT
    && (r.status == READY || r.status == WAITING ==> r.attempts < r.maxAttempts)
  }

  ghost predicate AllInBudget(s: System) {
    forall id <- s.rows :: InBudget(s.rows[id])
  }

  /** The one guard revive_many() does not have: the row has an attempt left. */
  predicate ReviveFits(s: System, step: Step) {
    step.Revive? && Moves(s, step) ==> s.rows[step.id].attempts < s.rows[step.id].maxAttempts
  }

  /** From a state in budget, a step stays in budget exactly when it is not the
      revival of a row whose attempts are spent. */
  lemma StepKeepsBudgetIff(s: System, step: Step)
    requires Inv(s) && AllInBudget(s)
    ensures AllInBudget(Apply(s, step)) <==> ReviveFits(s, step)
  {
    var t := Apply(s, step);
    var id := Target(step);
    if step.EnvFinish? || step.EnvRefund? {
      if Moves(s, step) { assert ClaimFresh(s, step.claim); }
    }
    if step.RetryWrite? {
      if Moves(s, step) { assert ReadFresh(s, step.read); }
    }
    if ReviveFits(s, step) {
      forall k <- t.rows ensures InBudget(t.rows[k]) {
        assert k in s.rows ==> InBudget(s.rows[k]);
      }
    } else {
      assert !InBudget(t.rows[id]);
    }
  }

  /** Every state the run passes through is in budget. */
  ghost predicate RunInBudget(s: System, steps: seq<Step>)
    decreases |steps|
  {
    AllInBudget(s) && (steps != [] ==> RunInBudget(Apply(s, steps[0]), steps[1..]))
  }

  /** Every revival the run makes finds an attempt left. */
  ghost predicate RevivesFit(s: System, steps: seq<Step>)
    decreases |steps|
  {
    steps != [] ==> ReviveFits(s, steps[0]) && RevivesFit(Apply(s, steps[0]), steps[1..])
  }

  /** A run keeps attempts within the budget, and waiting or ready rows below it,
      exactly when each of its revivals finds an attempt left. */
  lemma {:induction false} BudgetHoldsExactlyWhenRevivesFit(s: System, steps: seq<Step>)
    requires Inv(s) && AllInBudget(s)
    ensures RunInBudget(s, steps) <==> RevivesFit(s, steps)
    decreases |steps|
  {
    if steps != [] {
      InvKept(s, steps[0]);
      StepKeepsBudgetIff(s, steps[0]);
      if ReviveFits(s, steps[0]) {
        BudgetHoldsExactlyWhenRevivesFit(Apply(s, steps[0]), steps[1..]);
      }
    }
  }

  lemma {:induction false} WithoutRevivesTheBudgetHolds(s: System, steps: seq<Step>)
    requires Inv(s) && AllInBudget(s)
    requires forall step <- steps :: !step.Revive?
    ensures RunInBudget(s, steps)
    decreases |steps|
  {
    if steps != [] {
      assert !steps[0].Revive?;
      InvKept(s, steps[0]);
      StepKeepsBudgetIff(s, steps[0]);
      WithoutRevivesTheBudgetHolds(Apply(s, steps[0]), steps[1..]);
    }
  }

  lemma RunOneMore(s: System, step: Step, rest: seq<Step>)
    ensures Run(s, [step] + rest) == Run(Apply(s, step), rest)
  {
    assert ([step] + rest)[1..] == rest;
  }

  lemma RunNoMore(s: System)
    ensures Run(s, []) == s
  { }

  /** The step that breaks it: any row discarded from FAILED or LOST with its
      attempts spent goes over its budget once revived, released and claimed. */
  lemma RevivingASpentRowBreaksTheBudget(s: System, id: Id, worker: int, now: int)
    requires id in s.rows && s.rows[id].status in RETRYABLE_STATUSES
    requires s.rows[id].attempts == s.rows[id].maxAttempts
    requires s.rows[id].runAfter.Some? ==> s.rows[id].runAfter.value <= now
    ensures var e := s.rows[id].epoch;
      var last := [Release(id, e + 1, now)] + ([EnvClaim(id, worker, now, now)] + []);
      var t := Run(s, [DiscardStatement(id, now)] + ([Revive(id, e)] + last));
      id in t.rows && t.rows[id].status == RUNNING && t.rows[id].attempts == t.rows[id].maxAttempts + 1
  {
    hide Run;
    var e := s.rows[id].epoch;
    var claim := [EnvClaim(id, worker, now, now)] + [];
    RunOneMore(s, DiscardStatement(id, now), [Revive(id, e)] + ([Release(id, e + 1, now)] + claim));
    var s1 := Apply(s, DiscardStatement(id, now));
    RunOneMore(s1, Revive(id, e), [Release(id, e + 1, now)] + claim);
    var s2 := Apply(s1, Revive(id, e));
    RunOneMore(s2, Release(id, e + 1, now), claim);
    var s3 := Apply(s2, Release(id, e + 1, now));
    RunOneMore(s3, EnvClaim(id, worker, now, now), []);
    RunNoMore(Apply(s3, EnvClaim(id, worker, now, now)));
  }

  /** Such rows exist: a task with one attempt that fails. */
  lemma ASpentRowIsReachable(id: Id)
    ensures var finish := [EnvFinish(Claim(id, 1, 1, 1), Failure(false), 1)] + [];
      var s := Run(EMPTY, [EnvEnqueue(id, 1, false)] + ([EnvClaim(id, 7, 0, 9)] + finish));
      && id in s.rows && s.rows[id].status == FAILED && s.rows[id].attempts == s.rows[id].maxAttempts
      && s.rows[id].runAfter == None
  {
    var finish := [EnvFinish(Claim(id, 1, 1, 1), Failure(false), 1)] + [];
    RunOneMore(EMPTY, EnvEnqueue(id, 1, false), [EnvClaim(id, 7, 0, 9)] + finish);
    var s1 := Apply(EMPTY, EnvEnqueue(id, 1, false));
    RunOneMore(s1, EnvClaim(id, 7, 0, 9), finish);
    var s2 := Apply(s1, EnvClaim(id, 7, 0, 9));
    assert s2.claims[0] == Claim(id, 1, 1, 1);
    RunOneMore(s2, EnvFinish(Claim(id, 1, 1, 1), Failure(false), 1), []);
  }
}

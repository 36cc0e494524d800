/** The process supervisor: its state, its loop, and a second thread that may ask it
    to stop wherever its lock is not held. Child exits, clock readings and signals
    are nondeterministic; the clock never runs backwards. */
module SupervisorLoop {
  import opened Outcomes
  import opened SupervisorRules
  import opened SupervisorTurns

  /** Some slot: the loops below do not depend on the order of a dictionary. */
  method Any<T>(slots: set<T>) returns (slot: T)
    requires slots != {}
    ensures slot in slots
  {
    slot :| slot in slots;
  }

  class Supervisor {
    const processes: nat
    const restartDelay: real
    const restartCap: int
    const restartWindow: real
    const backoffMax: real
    const backoffReset: real
    const killGrace: real

    /** Process of each running slot. */
    var children: map<int, int>
    var startedAt: map<int, real>
    var exitCodes: map<int, int>
    var restartDue: map<int, real>
    var deaths: map<int, seq<real>>
    var backoff: map<int, real>
    var stopping: bool
    var capTripped: bool
    var signalsSeen: nat
    var killAt: Option<real>
    var signals: seq<int>
    var nextProcess: int

    // The outside world: the monotonic clock, and the processes that have exited.
    var clock: real
    var exited: set<int>

    // What has happened so far.
    ghost var starts: seq<int>
    ghost var startsWhenStopped: nat
    ghost var history: map<int, seq<real>>
    ghost var delays: map<int, nat>
    ghost var sent: seq<(int, int)>

    predicate Slot(index: int) { 0 <= index < processes }

    // ---- what every step keeps ----

    /** Stopped means nothing is due and nothing was started since. */
    ghost predicate StopHolds()
      reads this`stopping, this`restartDue, this`starts, this`startsWhenStopped
    {
      stopping ==> restartDue == map[] && |starts| == startsWhenStopped
    }

    /** A slot that was started is running or has its last exit recorded; no process number
        was given out twice. */
    ghost predicate Accounted()
      reads this`children, this`restartDue, this`exitCodes, this`starts, this`nextProcess
    {
      && (forall index <- children :: Slot(index) && children[index] < nextProcess)
      && (forall index <- restartDue :: Slot(index))
      && (forall index <- exitCodes :: Slot(index))
      && (forall index <- starts :: index in children || index in exitCodes)
    }

    ghost predicate DeathsHold()
      reads this`deaths, this`history, this`clock, this`capTripped, this`stopping
    {
      QueuesHold() && CapHolds()
    }

    /** Starting one slot, or collecting its exit, keeps the rest of the account. */
    twostate lemma LaunchedIsAccounted(index: int)
      requires old(Accounted()) && Slot(index)
      requires children == old(children)[index := old(nextProcess)] && nextProcess == old(nextProcess) + 1
      requires exitCodes == old(exitCodes) - {index} && restartDue == old(restartDue) - {index}
      requires starts == old(starts) + [index]
      ensures Accounted()
    { }

    twostate lemma CollectedIsAccounted(index: int)
      requires old(Accounted()) && Slot(index) && index in exitCodes
      requires children == old(children) - {index} && exitCodes == old(exitCodes)[index := exitCodes[index]]
      requires restartDue.Keys <= old(restartDue).Keys && starts == old(starts) && nextProcess == old(nextProcess)
      ensures Accounted()
    { }

    /** Each death queue is the window, at its slot's last death, of all the deaths that
        count; no window before that one was over the cap. */
    ghost predicate QueuesHold()
      reads this`deaths, this`history, this`clock
    {
      Queues(history, deaths, clock, restartWindow, restartCap)
    }

    /** The cap is tripped exactly while some queue is over it, and then stopping. */
    ghost predicate CapHolds()
      reads this`deaths, this`capTripped, this`stopping
    {
      if capTripped then stopping && exists index <- deaths :: |deaths[index]| > restartCap
      else forall index <- deaths :: |deaths[index]| <= restartCap
    }

    /** The stored backoff is the delay after as many restarts as there were since the reset. */
    ghost predicate BackoffHolds()
      reads this`backoff, this`delays
    {
      && backoff.Keys == delays.Keys
      && forall index <- backoff ::
        1 <= delays[index] && backoff[index] == Delay(restartDelay, backoffMax, delays[index])
    }

    ghost predicate Valid()
      reads this
    {
      StopHolds() && Accounted() && DeathsHold() && BackoffHolds()
    }

    /** While not stopping, every slot is in exactly one of the running children and the due restarts. */
    ghost predicate Placed()
      reads this`stopping, this`children, this`restartDue
    {
      !stopping ==> forall index | Slot(index) :: (index in children) != (index in restartDue)
    }

    // ---- one slot's account ----

    function TermsNow(): Terms { Terms(restartDelay, backoffMax, backoffReset) }

    ghost function AccountOf(index: int): Account
      reads this`history, this`delays, this`startedAt, this`restartDue
    {
      Account(
        Past(history, index),
        if index in delays then delays[index] else 0,
        if index in startedAt then Some(startedAt[index]) else None,
        if index in restartDue then Some(restartDue[index]) else None)
    }

    ghost function SlotsNow(): Slots
      reads this`children, this`exitCodes, this`history, this`delays, this`startedAt, this`restartDue
      reads this`clock, this`starts, this`nextProcess, this`stopping
    {
      Slots(children, exitCodes, map index | 0 <= index < processes :: AccountOf(index),
            clock, starts, nextProcess, stopping)
    }

    ghost function WatchNow(): Watch
      reads this`children, this`exited, this`sent, this`killAt, this`signalsSeen, this`clock, this`stopping
    {
      Watch(children, exited, sent, killAt, signalsSeen, clock, stopping)
    }

    /** An exit of the slot has just been accounted for, at the time it is now. */
    twostate predicate Counted(index: int, recycled: bool)
      reads this
    {
      AccountedFor(old(AccountOf(index)), AccountOf(index), recycled, clock, clock, TermsNow())
    }

    constructor (processes: nat, restartDelay: real, restartCap: int, restartWindow: real,
                 backoffMax: real, backoffReset: real, killGrace: real)
      ensures Valid() && !stopping && starts == [] && children == map[] && restartDue == map[] && exitCodes == map[]
      ensures this.processes == processes
    {
      this.processes, this.restartDelay := processes, restartDelay;
      this.restartCap, this.restartWindow := restartCap, restartWindow;
      this.backoffMax, this.backoffReset, this.killGrace := backoffMax, backoffReset, killGrace;
      children, startedAt, exitCodes, restartDue, deaths, backoff := map[], map[], map[], map[], map[], map[];
      stopping, capTripped, signalsSeen, killAt, signals, nextProcess := false, false, 0, None, [], 0;
      clock, exited, starts, startsWhenStopped, history, delays, sent := 0.0, {}, [], 0, map[], map[], [];
    }

    // ---- the outside world ----

    /** time.monotonic() */
    method ReadClock() returns (now: real)
      modifies this`clock
      ensures now == clock && old(clock) <= clock
      ensures old(DeathsHold()) ==> DeathsHold()
      ensures old(Valid()) ==> Valid()
    {
      var passed: real := *;
      if 0.0 <= passed { clock := clock + passed; }
      now := clock;
    }

    /** proc.poll(): None while the process runs, a code once it has exited. */
    method Poll(process: int) returns (code: Option<int>)
      modifies this`exited
      ensures old(exited) <= exited
      ensures code.None? <==> process !in exited
    {
      var c: int := *;
      if * { exited := exited + {process}; }
      code := if process in exited then Some(c) else None;
    }

    /** Another thread's request_stop may land here. */
    method OtherThread()
      modifies this`stopping, this`restartDue, this`startsWhenStopped
      ensures
        || (stopping == old(stopping) && restartDue == old(restartDue) && startsWhenStopped == old(startsWhenStopped))
        || (stopping && restartDue == map[]
            && startsWhenStopped == if old(stopping) then old(startsWhenStopped) else |starts|)
      ensures old(stopping) ==> stopping
      ensures old(StopHolds()) ==> StopHolds()
      ensures old(Accounted()) ==> Accounted()
      ensures old(DeathsHold()) ==> DeathsHold()
      ensures old(Placed()) ==> Placed()
      ensures old(Valid()) ==> Valid()
    {
      if * { RequestStop(); }
    }

    /** Signals the handler recorded meanwhile. */
    method SignalsArrive()
      modifies this`signals
      ensures old(signals) <= signals
    {
      if * { signals := signals + [SIGTERM]; }
    }

    // ---- what a step does to the slots ----

    twostate lemma NothingDisturbed()
      requires children == old(children) && exitCodes == old(exitCodes) && starts == old(starts)
      requires nextProcess == old(nextProcess) && old(clock) <= clock && (old(stopping) ==> stopping)
      requires !stopping ==> restartDue == old(restartDue)
      requires history == old(history) && delays == old(delays) && startedAt == old(startedAt)
      ensures Undisturbed(old(SlotsNow()), SlotsNow())
    { }

    twostate lemma NothingReaped()
      requires children == old(children) && exitCodes == old(exitCodes) && starts == old(starts)
      requires nextProcess == old(nextProcess) && old(clock) <= clock && (old(stopping) ==> stopping)
      requires !stopping ==> restartDue == old(restartDue)
      requires history == old(history) && delays == old(delays) && startedAt == old(startedAt)
      ensures OnlyReaped(old(SlotsNow()), SlotsNow(), TermsNow())
    {
      if !stopping {
        assert SlotsNow().accounts == old(SlotsNow().accounts);
        assert Reaped(old(SlotsNow()), SlotsNow(), TermsNow());
      }
    }

    twostate lemma NothingStarted()
      requires children == old(children) && exitCodes == old(exitCodes) && starts == old(starts)
      requires nextProcess == old(nextProcess) && old(clock) <= clock && (old(stopping) ==> stopping)
      requires !stopping ==> restartDue == old(restartDue)
      requires history == old(history) && delays == old(delays) && startedAt == old(startedAt)
      ensures OnlyStarted(old(SlotsNow()), SlotsNow())
    {
      NoneStarted(old(SlotsNow()), SlotsNow());
    }

    twostate lemma OneMoreStarted(index: int)
      requires Slot(index) && index in old(restartDue) && old(restartDue)[index] <= clock && index !in old(children)
      requires children == old(children)[index := old(nextProcess)] && exitCodes == old(exitCodes) - {index}
      requires starts == old(starts) + [index] && nextProcess == old(nextProcess) + 1
      requires restartDue == old(restartDue) - {index} && old(clock) <= clock && !old(stopping)
      requires history == old(history) && delays == old(delays)
      requires index in startedAt && startedAt == old(startedAt)[index := startedAt[index]]
      ensures OnlyStarted(old(SlotsNow()), SlotsNow())
    {
      hide OnlyStarted;
      forall i | i != index ensures AccountOf(i) == old(AccountOf(i)) { }
      OneStarted(old(SlotsNow()), SlotsNow(), index);
    }

    twostate lemma NothingSentOn()
      requires old(stopping) ==> children == old(children)
      requires old(exited) <= exited && sent == old(sent) && killAt == old(killAt)
      requires signalsSeen == old(signalsSeen) && old(clock) <= clock && (old(stopping) ==> stopping)
      ensures Carried(old(WatchNow()), WatchNow())
    { }

    twostate lemma ChildrenOnlyGo()
      requires forall i <- children :: i in old(children) && children[i] == old(children)[i]
      requires old(exited) <= exited && OnlyAdded(old(sent), sent, SIGTERM) && killAt == old(killAt)
      requires signalsSeen == old(signalsSeen) && old(clock) <= clock && (old(stopping) ==> stopping)
      ensures Carried(old(WatchNow()), WatchNow())
    { }

    // ---- stopping ----

    method RequestStop()
      modifies this`stopping, this`restartDue, this`startsWhenStopped
      ensures stopping && restartDue == map[] && Placed()
      ensures startsWhenStopped == if old(stopping) then old(startsWhenStopped) else |starts|
      ensures old(StopHolds()) ==> StopHolds()
      ensures old(Accounted()) ==> Accounted()
      ensures old(DeathsHold()) ==> DeathsHold()
    {
      if !stopping { startsWhenStopped := |starts|; }
      stopping := true;
      restartDue := map[];
    }

    /** Every child that is still running gets the signal, and nothing else is sent. */
    method SignalChildren(signum: int)
      modifies this`exited, this`sent
      ensures old(sent) <= sent && old(exited) <= exited
      ensures forall k | |old(sent)| <= k < |sent| :: sent[k].0 in children && sent[k].1 == signum
      ensures OnlyAdded(old(sent), sent, signum)
      ensures forall index <- children :: children[index] !in exited ==> (index, signum) in sent[|old(sent)|..]
    {
      var todo := children.Keys;
      while todo != {}
        invariant todo <= children.Keys
        invariant old(sent) <= sent && old(exited) <= exited
        invariant forall k | |old(sent)| <= k < |sent| :: sent[k].0 in children && sent[k].1 == signum
        invariant forall index <- children :: index !in todo && children[index] !in exited ==>
          (index, signum) in sent[|old(sent)|..]
        decreases todo
      {
        var index := Any(todo);
        todo := todo - {index};
        var code := Poll(children[index]);
        if code.None? {
          ghost var before := sent[|old(sent)|..];
          sent := sent + [(index, signum)];
          assert sent[|old(sent)|..] == before + [(index, signum)];
        }
      }
    }

    // ---- starting ----

    /** Popen and the bookkeeping of a started child, under the lock. */
    method Launch(index: int)
      requires !stopping && Accounted() && Slot(index)
      modifies this`children, this`startedAt, this`exitCodes, this`restartDue, this`starts, this`nextProcess, this`clock
      ensures Accounted() && old(clock) <= clock
      ensures old(DeathsHold()) ==> DeathsHold()
      ensures starts == old(starts) + [index] && children == old(children)[index := old(nextProcess)]
      ensures exitCodes == old(exitCodes) - {index} && restartDue == old(restartDue) - {index}
      ensures startedAt == old(startedAt)[index := clock] && nextProcess == old(nextProcess) + 1
    {
      hide *;
      children := children[index := nextProcess];
      nextProcess := nextProcess + 1;
      starts := starts + [index];
      var now := ReadClock();
      startedAt := startedAt[index := now];
      exitCodes := exitCodes - {index};
      restartDue := restartDue - {index};
      LaunchedIsAccounted(index);
    }

    /** Starts the slot's process unless stopping. The stop flag is tested and the
        child recorded under one lock, so a stop from another thread comes before
        the start or after it, and then the new child is signalled here. */
    method Start(index: int, lockHeld: bool)
      requires Valid() && Slot(index)
      modifies this`children, this`startedAt, this`exitCodes, this`restartDue, this`starts, this`nextProcess
      modifies this`clock, this`stopping, this`startsWhenStopped, this`sent
      ensures Valid() && old(clock) <= clock && OnlyAdded(old(sent), sent, SIGTERM)
      ensures nextProcess == old(nextProcess) + if old(stopping) then 0 else 1
      ensures old(stopping) ==>
        && stopping && starts == old(starts) && children == old(children)
        && exitCodes == old(exitCodes) && restartDue == old(restartDue)
      ensures !old(stopping) ==>
        && starts == old(starts) + [index] && children == old(children)[index := old(nextProcess)]
        && exitCodes == old(exitCodes) - {index}
      ensures !old(stopping) ==> index in startedAt && startedAt == old(startedAt)[index := startedAt[index]]
      ensures !old(stopping) ==> restartDue == if stopping then map[] else old(restartDue) - {index}
      ensures !old(stopping) && lockHeld ==> !stopping
      ensures if !old(stopping) && stopping then (index, SIGTERM) in sent[|old(sent)|..] else sent == old(sent)
    {
      hide DeathsHold, BackoffHolds;
      if stopping { return; }
      Launch(index);
      if !lockHeld { OtherThread(); }
      if stopping { sent := sent + [(index, SIGTERM)]; }
    }

    /** One slot whose restart is due, under the lock. */
    method StartOneDue(index: int)
      requires Valid() && Placed() && !stopping && index in restartDue && restartDue[index] <= clock
      modifies this`children, this`startedAt, this`exitCodes, this`restartDue, this`starts, this`nextProcess
      modifies this`clock, this`stopping, this`startsWhenStopped, this`sent
      ensures Valid() && Placed() && !stopping && !SlotsNow().stopping && old(clock) <= clock && sent == old(sent)
      ensures index in children && restartDue == old(restartDue) - {index} && old(children).Keys <= children.Keys
      ensures OnlyStarted(old(SlotsNow()), SlotsNow())
    {
      hide DeathsHold, BackoffHolds, StopHolds, Accounted, OnlyStarted;
      SlotOfDue(index);
      Start(index, true);
      OneMoreStarted(index);
    }

    /** Starts every slot whose restart is due, holding the lock throughout. */
    method StartDue()
      requires Valid() && Placed()
      modifies this`children, this`startedAt, this`exitCodes, this`restartDue, this`starts, this`nextProcess
      modifies this`clock, this`stopping, this`startsWhenStopped, this`sent
      ensures Valid() && Placed() && (old(stopping) ==> stopping) && old(clock) <= clock && sent == old(sent)
      ensures stopping ==> starts == old(starts) && children == old(children) && exitCodes == old(exitCodes)
      ensures !stopping ==> forall index <- restartDue :: old(clock) < restartDue[index]
      ensures Carried(old(WatchNow()), WatchNow())
      ensures OnlyStarted(old(SlotsNow()), SlotsNow())
    {
      hide *;
      OtherThread();
      NothingStarted();
      NothingSentOn();
      if stopping { return; }
      var now := ReadClock();
      NothingStarted();
      var todo := restartDue.Keys;
      while todo != {}
        invariant Valid() && Placed() && !stopping && old(clock) <= now <= clock && sent == old(sent)
        invariant todo <= restartDue.Keys
        invariant forall index <- restartDue :: index in todo || now < restartDue[index]
        invariant OnlyStarted(old(SlotsNow()), SlotsNow())
        decreases todo
      {
        var index := Any(todo);
        todo := todo - {index};
        if now >= restartDue[index] {
          ghost var before := SlotsNow();
          StartOneDue(index);
          StartedTwice(old(SlotsNow()), before, SlotsNow());
        }
      }
      NothingSentOn();
    }

    lemma SlotOfDue(index: int)
      requires Accounted() && index in restartDue
      ensures Slot(index)
    { }

    // ---- exits ----

    /** A SIGTERM death while stopping is recorded as 0: the child had not begun. */
    method RecordExit(index: int, code: int)
      modifies this`exitCodes
      ensures exitCodes == old(exitCodes)[index := if stopping && code == -SIGTERM then 0 else code]
    {
      exitCodes := exitCodes[index := if stopping && code == -SIGTERM then 0 else code];
    }

    /** The delay is the capped doubling for the restarts since the last reset. */
    method NextDelay(index: int, now: real) returns (delay: real)
      requires BackoffHolds()
      modifies this`backoff, this`delays
      ensures BackoffHolds()
      ensures var reset := (if index in startedAt then now - startedAt[index] else 0.0) >= backoffReset;
        var k := if reset || index !in old(delays) then 0 else old(delays)[index];
        && k == RestartsBefore(old(AccountOf(index)), now, backoffReset)
        && delay == Delay(restartDelay, backoffMax, k) && delays == old(delays)[index := k + 1]
    {
      var lived := if index in startedAt then now - startedAt[index] else 0.0;
      if lived >= backoffReset {
        backoff := backoff - {index};
        delays := delays - {index};
      }
      ghost var k := if index in delays then delays[index] else 0;
      delay := if index in backoff then backoff[index] else restartDelay;
      NextDelayDoubles(restartDelay, backoffMax, k);
      backoff := backoff[index := Min(delay * 2.0, backoffMax)];
      delays := delays[index := k + 1];
    }

    /** Drops expired deaths from the front of the queue. */
    method Prune(queue: seq<real>, now: real) returns (kept: seq<real>)
      requires InOrder(queue)
      ensures kept == Recent(queue, now, restartWindow)
    {
      kept := queue;
      while kept != [] && now - kept[0] > restartWindow
        invariant InOrder(kept)
        invariant Recent(kept, now, restartWindow) == Recent(queue, now, restartWindow)
        decreases |kept|
      {
        RecentFromTheFront(kept, now, restartWindow);
        kept := kept[1..];
      }
      AllRecent(kept, now, restartWindow);
    }

    /** A death that counts joins its slot's queue; over says whether it is one too many. */
    method RecordDeath(index: int, now: real) returns (over: bool)
      requires DeathsHold() && !capTripped && now == clock
      modifies this`deaths, this`history
      ensures history == old(history)[index := Past(old(history), index) + [now]]
      ensures deaths == old(deaths)[index := AtLastDeath(history[index], restartWindow)]
      ensures over <==> |deaths[index]| > restartCap
      ensures QueuesHold()
    {
      OneMoreQueue(history, deaths, now, restartWindow, restartCap, index);
      hide Queues, AtLastDeath, Recent, InOrder;
      var kept := Prune(Past(deaths, index) + [now], now);
      history := history[index := Past(history, index) + [now]];
      deaths := deaths[index := kept];
      over := |kept| > restartCap;
    }

    /** Polls one child, and if it has exited takes it off and records how: as a failure
        unless it ended well, or by the SIGTERM of a stop before it had begun. */
    method CollectExit(index: int) returns (code: Option<int>)
      requires Valid() && index in children
      modifies this`children, this`exitCodes, this`restartDue, this`stopping, this`startsWhenStopped, this`exited
      ensures Valid() && (old(stopping) ==> stopping) && old(exited) <= exited
      ensures index in children <==> old(children)[index] !in exited
      ensures code.None? ==>
        && children == old(children) && exitCodes == old(exitCodes)
        && restartDue == old(restartDue) && stopping == old(stopping)
      ensures code.Some? ==> children == old(children) - {index}
      ensures code.Some? ==> index in exitCodes && exitCodes == old(exitCodes)[index := exitCodes[index]]
      ensures code.Some? && !stopping ==> exitCodes[index] == code.value && restartDue == old(restartDue)
      ensures code.Some? ==>
        exitCodes[index] == code.value || (stopping && code.value == -15 && exitCodes[index] == 0)
      ensures code.Some? && old(stopping) ==>
        (exitCodes[index] !in {0, 75} <==> code.value !in {0, 75, -15})
    {
      hide DeathsHold, BackoffHolds, StopHolds, Accounted, Placed;
      SlotOfChild(index);
      code := Poll(children[index]);
      if code.None? { return; }
      children := children - {index};
      OtherThread();
      RecordExit(index, code.value);
      OtherThread();
      CollectedIsAccounted(index);
    }

    /** Puts the slot back for a restart after the delay, unless a stop came first. */
    method Reschedule(index: int, delay: real)
      requires Valid() && Slot(index)
      modifies this`restartDue, this`stopping, this`startsWhenStopped
      ensures Valid() && (old(stopping) ==> stopping)
      ensures if stopping then restartDue == map[] else restartDue == old(restartDue)[index := clock + delay]
    {
      OtherThread();
      if !stopping { restartDue := restartDue[index := clock + delay]; }
    }

    /** One death too many of a slot stops everything and forwards the stop. */
    method StopOverCap(index: int)
      requires StopHolds() && Accounted() && QueuesHold() && BackoffHolds()
      requires index in deaths && |deaths[index]| > restartCap
      modifies this`restartDue, this`stopping, this`startsWhenStopped, this`capTripped, this`exited, this`sent
      ensures Valid() && capTripped && stopping && restartDue == map[]
      ensures old(exited) <= exited && OnlyAdded(old(sent), sent, SIGTERM)
      ensures forall i <- children :: children[i] !in exited ==> (i, SIGTERM) in sent[|old(sent)|..]
    {
      hide QueuesHold, BackoffHolds;
      capTripped := true;
      RequestStop();
      assert stopping && capTripped && index in deaths && |deaths[index]| > restartCap;
      assert CapHolds();
      SignalChildren(SIGTERM);
    }

    twostate lemma SameRestarts(new index: int, new now: real)
      requires delays == old(delays) && startedAt == old(startedAt)
      ensures RestartsBefore(AccountOf(index), now, backoffReset) ==
        RestartsBefore(old(AccountOf(index)), now, backoffReset)
    { }

    /** A death counted at this time, and the restart after its backoff. */
    twostate lemma OneDeath(index: int)
      requires index in history && index in delays && index in restartDue
      requires history[index] == Past(old(history), index) + [clock]
      requires delays[index] == RestartsBefore(old(AccountOf(index)), clock, backoffReset) + 1
      requires restartDue[index] == clock + Delay(restartDelay, backoffMax, delays[index] - 1)
      ensures Counted(index, false)
    {
      hide Delay, RestartsBefore;
      ADeathIsAccountedFor(old(AccountOf(index)), AccountOf(index), clock, clock, clock, TermsNow());
    }

    /** A death that counts: one too many stops everything, and otherwise the slot is
        due again after its backoff. */
    method CountDeath(index: int)
      requires Valid() && !stopping && Slot(index)
      modifies this`restartDue, this`deaths, this`history, this`backoff, this`delays
      modifies this`stopping, this`startsWhenStopped, this`capTripped, this`clock, this`exited, this`sent
      ensures Valid() && old(exited) <= exited && old(clock) <= clock && OnlyAdded(old(sent), sent, SIGTERM)
      ensures capTripped ==> stopping && index in deaths && |deaths[index]| > restartCap
      ensures stopping ==> restartDue == map[]
      ensures !stopping ==>
        && index in restartDue && index in history && index in delays && Counted(index, false)
        && restartDue == old(restartDue)[index := restartDue[index]]
        && history == old(history)[index := history[index]] && delays == old(delays)[index := delays[index]]
    {
      hide QueuesHold, BackoffHolds, AtLastDeath, StopHolds, Accounted, Counted, Delay, AccountOf, RestartsBefore,
        OnlyAdded;
      NothingSent(sent);
      var now := ReadClock();
      var over := RecordDeath(index, now);
      if over {
        StopOverCap(index);
      } else {
        assert DeathsHold();
        SameRestarts(index, now);
        var delay := NextDelay(index, now);
        Reschedule(index, delay);
        if !stopping { OneDeath(index); }
      }
    }

    /** A worker that recycled itself: no death, and due again after the first delay. */
    method Recycle(index: int)
      requires Valid() && !stopping && Slot(index)
      modifies this`restartDue, this`stopping, this`startsWhenStopped, this`clock
      ensures Valid() && old(clock) <= clock
      ensures if stopping then restartDue == map[] else
        && index in restartDue && Counted(index, true)
        && restartDue == old(restartDue)[index := restartDue[index]]
    {
      hide DeathsHold, BackoffHolds, StopHolds, Accounted, AccountedFor;
      var now := ReadClock();
      Reschedule(index, restartDelay);
      if !stopping {
        ARecycleIsAccountedFor(old(AccountOf(index)), AccountOf(index), clock, clock, TermsNow());
      }
    }

    /** What a collected exit means for its slot: a recycle or a death. */
    method CountExit(index: int, code: int)
      requires Valid() && !stopping && !capTripped && Slot(index)
      modifies this`restartDue, this`deaths, this`history, this`backoff, this`delays
      modifies this`stopping, this`startsWhenStopped, this`capTripped, this`clock, this`exited, this`sent
      ensures Valid() && old(exited) <= exited && old(clock) <= clock && OnlyAdded(old(sent), sent, SIGTERM)
      ensures capTripped ==> stopping && index in deaths && |deaths[index]| > restartCap
      ensures stopping ==> restartDue == map[]
      ensures !stopping ==>
        && index in restartDue && Counted(index, code == RECYCLE_EXIT_CODE)
        && restartDue == old(restartDue)[index := restartDue[index]]
        && (history == old(history) || (index in history && history == old(history)[index := history[index]]))
        && (delays == old(delays) || (index in delays && delays == old(delays)[index := delays[index]]))
    {
      hide *;
      NothingSent(sent);
      if code == RECYCLE_EXIT_CODE {
        Recycle(index);
      } else {
        CountDeath(index);
      }
    }

    /** What a collected exit changes: what is counted, when the supervisor goes on. */
    twostate lemma OneCollected(index: int)
      requires Slot(index) && index in old(children) && index in exitCodes
      requires children == old(children) - {index} && exitCodes == old(exitCodes)[index := exitCodes[index]]
      requires starts == old(starts) && nextProcess == old(nextProcess) && startedAt == old(startedAt)
      requires old(clock) <= clock && (old(stopping) ==> stopping && history == old(history) && delays == old(delays))
      requires !stopping ==>
        && index in restartDue && restartDue == old(restartDue)[index := restartDue[index]]
        && (history == old(history) || (index in history && history == old(history)[index := history[index]]))
        && (delays == old(delays) || (index in delays && delays == old(delays)[index := delays[index]]))
        && Counted(index, exitCodes[index] == RECYCLE_EXIT_CODE)
      ensures OnlyReaped(old(SlotsNow()), SlotsNow(), TermsNow())
    {
      hide AccountedFor, Reaped;
      if !stopping {
        forall i | i != index ensures AccountOf(i) == old(AccountOf(i)) { }
        StillAccountedFor(old(AccountOf(index)), AccountOf(index), AccountOf(index),
                          exitCodes[index] == RECYCLE_EXIT_CODE, clock, clock, old(clock), clock, TermsNow());
        OneReaped(old(SlotsNow()), SlotsNow(), index, TermsNow());
      }
    }

    /** One child of the polling pass. */
    method ReapOne(index: int)
      requires Valid() && Placed() && index in children
      modifies this`children, this`exitCodes, this`restartDue, this`deaths, this`history, this`backoff, this`delays
      modifies this`stopping, this`startsWhenStopped, this`capTripped, this`clock, this`exited, this`sent
      ensures Valid() && Placed()
      ensures old(stopping) ==> stopping && capTripped == old(capTripped)
      ensures old(capTripped) ==> capTripped
      ensures children == old(children) || (children == old(children) - {index} && index in exitCodes)
      ensures index in children <==> old(children)[index] !in exited
      ensures old(exited) <= exited && old(clock) <= clock && Carried(old(WatchNow()), WatchNow())
      ensures !stopping && index !in children ==>
        index in restartDue && index in exitCodes && Counted(index, exitCodes[index] == RECYCLE_EXIT_CODE)
      ensures OnlyReaped(old(SlotsNow()), SlotsNow(), TermsNow())
      ensures !stopping ==> forall i <- old(restartDue) :: i in restartDue && restartDue[i] == old(restartDue)[i]
      ensures capTripped && !old(capTripped) ==> index in deaths && |deaths[index]| > restartCap
    {
      hide Valid, AccountOf, AccountedFor, OnlyReaped, SlotsNow, OnlyAdded, Carried, WatchNow;
      NothingSent(sent);
      SlotOfChild(index);
      var code := CollectExit(index);
      ChildrenOnlyGo();
      if code.None? {
        NothingReaped();
        return;
      }
      if stopping {
        OneCollected(index);
        return;
      }
      NotTripped();
      CountExit(index, code.value);
      OneCollected(index);
      ChildrenOnlyGo();
    }

    lemma NothingSent(sent: seq<(int, int)>)
      ensures OnlyAdded(sent, sent, SIGTERM)
    { }

    lemma SlotOfChild(index: int)
      requires Valid() && (index in children || index in exitCodes)
      ensures Slot(index)
    { }

    lemma NotTripped()
      requires Valid() && !stopping
      ensures !capTripped
    { }

    /** Every child there was when the pass began, polled once: one that had exited by
        then is collected, and no restart that was due is lost. */
    method ReapExited()
      requires Valid() && Placed()
      modifies this`children, this`exitCodes, this`restartDue, this`deaths, this`history, this`backoff, this`delays
      modifies this`stopping, this`startsWhenStopped, this`capTripped, this`clock, this`exited, this`sent
      ensures Valid() && Placed()
      ensures old(stopping) ==> stopping && capTripped == old(capTripped)
      ensures old(capTripped) ==> capTripped
      ensures old(clock) <= clock && forall index <- children :: children[index] !in old(exited)
      ensures OnlyReaped(old(SlotsNow()), SlotsNow(), TermsNow())
      ensures Carried(old(WatchNow()), WatchNow())
      ensures !stopping ==> forall i <- old(restartDue) :: i in restartDue && restartDue[i] == old(restartDue)[i]
    {
      hide StopHolds, Accounted, DeathsHold, BackoffHolds, Placed, OnlyReaped, SlotsNow, TermsNow, AccountOf, Carried,
        WatchNow;
      OtherThread();
      NothingReaped();
      NothingSentOn();
      var todo := children.Keys;
      while todo != {}
        invariant Valid() && Placed() && todo <= children.Keys
        invariant old(stopping) ==> stopping && capTripped == old(capTripped)
        invariant old(capTripped) ==> capTripped
        invariant old(exited) <= exited && old(clock) <= clock
        invariant forall index <- children :: index in todo || children[index] !in old(exited)
        invariant OnlyReaped(old(SlotsNow()), SlotsNow(), TermsNow())
        invariant Carried(old(WatchNow()), WatchNow())
        invariant !stopping ==> forall i <- old(restartDue) :: i in restartDue && restartDue[i] == old(restartDue)[i]
        decreases todo
      {
        var index := Any(todo);
        todo := todo - {index};
        ghost var before, watched := SlotsNow(), WatchNow();
        ReapOne(index);
        OnlyReapedTwice(old(SlotsNow()), before, SlotsNow(), TermsNow());
        CarriedTwice(old(WatchNow()), watched, WatchNow());
      }
    }

    // ---- signals ----

    /** SIGKILL for the children still running once the grace after the second signal is over. */
    method KillOverdue()
      modifies this`killAt, this`clock, this`exited, this`sent
      ensures (old(Valid()) ==> Valid()) && (old(Placed()) ==> Placed())
      ensures old(exited) <= exited && forall k | |old(sent)| <= k < |sent| :: sent[k].0 in children
      ensures GraceEnded(old(WatchNow()), WatchNow())
      ensures Undisturbed(old(SlotsNow()), SlotsNow())
    {
      hide Undisturbed, SlotsNow;
      NothingDisturbed();
      if killAt.None? { return; }
      var now := ReadClock();
      NothingDisturbed();
      if now < killAt.value { return; }
      killAt := None;
      SignalChildren(FORCE_SIGNAL);
    }

    /** One signal: the first stops, the second starts the grace, a third ends it at
        once, and each is forwarded as SIGTERM. */
    method HandleOne()
      requires Valid()
      modifies this`signalsSeen, this`killAt, this`clock, this`exited, this`sent
      modifies this`stopping, this`restartDue, this`startsWhenStopped
      ensures Valid() && stopping && signalsSeen == old(signalsSeen) + 1
      ensures old(clock) <= clock
      ensures killAt ==
        if signalsSeen == 1 then old(killAt)
        else if old(killAt).None? then Some(clock + killGrace)
        else Some(clock)
      ensures OnlyAdded(old(sent), sent, SIGTERM) && old(exited) <= exited
      ensures Forwarded(WatchNow(), |old(sent)|, SIGTERM)
    {
      hide StopHolds, Accounted, DeathsHold, BackoffHolds;
      signalsSeen := signalsSeen + 1;
      if signalsSeen == 1 {
        // Only said in the log.
      } else if killAt.None? {
        var now := ReadClock();
        killAt := Some(now + killGrace);
      } else {
        var now := ReadClock();
        killAt := Some(now);
      }
      RequestStop();
      SignalChildren(SIGTERM);
    }

    /** Acts on the recorded signals, oldest first. */
    method ProcessSignals()
      requires Valid()
      modifies this`signals, this`signalsSeen, this`killAt, this`clock, this`exited, this`sent
      modifies this`stopping, this`restartDue, this`startsWhenStopped
      ensures Valid() && signals == [] && old(signalsSeen) + |old(signals)| <= signalsSeen
      ensures old(stopping) || signalsSeen > old(signalsSeen) ==> stopping
      ensures old(Placed()) ==> Placed()
      ensures signalsSeen == old(signalsSeen) ==> restartDue == old(restartDue)
      ensures old(exited) <= exited && old(clock) <= clock
      ensures Signalled(old(WatchNow()), WatchNow(), killGrace)
      ensures Undisturbed(old(SlotsNow()), SlotsNow())
    {
      hide StopHolds, Accounted, DeathsHold, BackoffHolds, OnlyAdded, Forwarded, Undisturbed, SlotsNow, Signalled;
      NoSignal(WatchNow(), killGrace);
      SignalsArrive();
      ghost var arrived := |signals|;
      while signals != []
        invariant Valid() && (old(stopping) || signalsSeen > old(signalsSeen) ==> stopping)
        invariant old(exited) <= exited && old(clock) <= clock
        invariant signalsSeen + |signals| == old(signalsSeen) + arrived && old(signalsSeen) <= signalsSeen
        invariant signalsSeen == old(signalsSeen) ==> stopping == old(stopping) && restartDue == old(restartDue)
        invariant Signalled(old(WatchNow()), WatchNow(), killGrace)
        decreases |signals|
      {
        signals := signals[1..];
        ghost var before := WatchNow();
        HandleOne();
        OneMoreSignal(old(WatchNow()), before, WatchNow(), killGrace);
      }
      NothingDisturbed();
    }

    // ---- lifecycle ----

    /** The code to exit with: 1 when the cap tripped, else the first failing slot's, else 0. */
    method ExitCode() returns (code: int)
      requires Accounted()
      ensures code == 0 <==> !capTripped && forall index <- exitCodes :: exitCodes[index] in {0, 75}
      ensures capTripped ==> code == 1
      ensures !capTripped && code != 0 ==>
        exists index :: FirstFailure(exitCodes, index) && code == ShellCode(exitCodes[index])
    {
      code := 0;
      var index := 0;
      while index < processes
        invariant 0 <= index <= processes
        invariant forall i | 0 <= i < index && i in exitCodes :: !IsFailure(exitCodes[i])
      {
        if index in exitCodes && IsFailure(exitCodes[index]) { break; }
        index := index + 1;
      }
      if index < processes {
        assert FirstFailure(exitCodes, index);
        code := exitCodes[index];
      }
      if code < 0 { code := 128 - code; }
      if capTripped { code := 1; }
    }

    /** Starts every slot, unless a stop comes in between. */
    method StartAll()
      requires Valid() && children == map[] && restartDue == map[] && starts == [] && exitCodes == map[]
      modifies this
      ensures Valid() && Placed()
      ensures old(stopping) ==> stopping && starts == old(starts)
      ensures !stopping ==> forall index | Slot(index) :: index in children
    {
      hide Valid, Signalled, Undisturbed, SlotsNow, WatchNow, OnlyAdded;
      var index := 0;
      while index < processes
        invariant 0 <= index <= processes
        invariant Valid() && restartDue == map[]
        invariant old(stopping) ==> stopping && starts == old(starts)
        invariant !stopping ==> forall i | 0 <= i < index :: i in children
        invariant forall i <- children :: i < index
      {
        ProcessSignals();
        if stopping { break; }
        OtherThread();
        Start(index, false);
        assert restartDue == map[];
        index := index + 1;
      }
    }

    // ---- the two loops ----

    lemma SlotsAre()
      requires Valid() && Placed()
      ensures SlotsNow().children == children && SlotsNow().next == nextProcess && SlotsNow().clock == clock
      ensures SlotsNow().stopping == stopping && forall i <- children :: children[i] < nextProcess
      ensures !stopping ==> forall i <- SlotsNow().accounts :: SlotsNow().accounts[i].due.Some? ==> i !in children
    { }

    lemma LaterMeansNotOverdue(since: real)
      requires forall i <- restartDue :: since < restartDue[i]
      ensures NoneOverdue(SlotsNow(), since)
    { }

    twostate lemma ExitedAreOff()
      requires EachCollected(old(SlotsNow()), SlotsNow(), old(exited), TermsNow())
      ensures old(starts) <= starts
      ensures forall i <- old(children) :: old(children)[i] in old(exited) ==>
        if i in children then i in starts[|old(starts)|..] && children[i] != old(children)[i] else i in exitCodes
    {
      hide AccountedFor;
    }

    /** One step of the loop. A recorded signal is acted on. A child that had exited when the
        step began is collected, and a child is either collected or as it was. Unless
        stopping, a slot whose restart was due then is running after it. A grace that was
        over then ends in SIGKILL. */
    method Pass()
      requires Valid() && Placed()
      modifies this
      ensures Valid() && Placed() && (old(stopping) || old(signals) != [] ==> stopping)
      ensures old(starts) <= starts && (old(stopping) ==> starts == old(starts))
      ensures forall index <- old(children) :: old(children)[index] in old(exited) ==>
        if index in children then index in starts[|old(starts)|..] && children[index] != old(children)[index]
        else index in exitCodes
      ensures EachCollected(old(SlotsNow()), SlotsNow(), old(exited), TermsNow())
      ensures DueIsRunning(old(SlotsNow()), SlotsNow())
      ensures signals == [] && old(signalsSeen) + |old(signals)| <= signalsSeen
      ensures TurnSent(old(WatchNow()), WatchNow())
    {
      hide *;
      SlotsAre();
      ProcessSignals();
      ghost var told, heard := SlotsNow(), WatchNow();
      ReapExited();
      ghost var reaped, between := SlotsNow(), WatchNow();
      SlotsAre();
      StartDue();
      if !stopping { LaterMeansNotOverdue(reaped.clock); }
      ghost var started, ready := SlotsNow(), WatchNow();
      SlotsAre();
      KillOverdue();
      PassIsDone(old(SlotsNow()), told, reaped, started, SlotsNow(), old(exited), TermsNow());
      ExitedAreOff();
      CarriedTwice(heard, between, ready);
      PassSent(old(WatchNow()), heard, ready, WatchNow(), killGrace);
    }

    lemma NumbersSoFar()
      ensures OldOnes(children, children, nextProcess, {})
    { }

    twostate lemma TurnIsForward()
      requires TurnSent(old(WatchNow()), WatchNow())
      ensures old(sent) <= sent && old(exited) <= exited && old(clock) <= clock
    { }

    /** The loop while there is something to wait for. When it ends, or has used its passes,
        none of the processes that had exited before it is still among the children. */
    method Supervise(passes: nat) returns (ended: bool)
      requires Valid() && Placed()
      modifies this
      ensures Valid() && Placed() && (old(stopping) ==> stopping && starts == old(starts))
      ensures ended <==> children == map[] && (stopping || restartDue == map[])
      ensures passes > 0 ==> OldOnes(old(children), children, old(nextProcess), old(exited))
    {
      hide *;
      NumbersSoFar();
      ghost var before, first := children, nextProcess;
      var left := passes;
      while left > 0 && (children != map[] || (restartDue != map[] && !stopping))
        invariant Valid() && Placed() && first <= nextProcess && old(exited) <= exited
        invariant old(stopping) ==> stopping && starts == old(starts)
        invariant OldOnes(before, children, first, if left < passes then old(exited) else {})
        decreases left
      {
        ghost var slots, mid, gone := SlotsNow(), children, exited;
        SlotsAre();
        label Turn:
        Pass();
        SlotsAre();
        TurnIsForward@Turn();
        PassLeavesOldOnes(slots, SlotsNow(), gone, TermsNow());
        OldOnesTwice(before, mid, children, first, slots.next, if left < passes then old(exited) else {}, gone);
        FewerOldOnes(before, children, first, gone, old(exited));
        left := left - 1;
      }
      NoOldOnes(before, first, old(exited));
      ended := children == map[] && (stopping || restartDue == map[]);
    }

    /** One step of the drain. A recorded signal is acted on, a grace that is over ends in
        SIGKILL, and a child that had exited when the step began is collected; nothing is
        started and nothing counted. */
    method DrainTurn()
      requires Valid() && Placed() && stopping
      modifies this
      ensures Valid() && Placed() && stopping && starts == old(starts)
      ensures signals == [] && old(signalsSeen) + |old(signals)| <= signalsSeen
      ensures OnlyReaped(old(SlotsNow()), SlotsNow(), TermsNow())
      ensures forall index <- children :: children[index] !in old(exited)
      ensures forall index <- children :: index in old(children) && children[index] == old(children)[index]
      ensures TurnSent(old(WatchNow()), WatchNow())
    {
      hide *;
      SlotsAre();
      WatchIs();
      ProcessSignals();
      ghost var told, heard := SlotsNow(), WatchNow();
      KillOverdue();
      ghost var killed, ended := SlotsNow(), WatchNow();
      ReapExited();
      DrainReaps(old(SlotsNow()), told, killed, SlotsNow(), TermsNow());
      ReapedChildren();
      DrainSent(old(WatchNow()), heard, ended, WatchNow(), killGrace);
    }

    twostate lemma ReapedChildren()
      requires OnlyReaped(old(SlotsNow()), SlotsNow(), TermsNow())
      ensures forall i <- children :: i in old(children) && children[i] == old(children)[i]
    {
      hide Reaped;
    }

    lemma SentToAll(before: nat, signum: int)
      requires before <= |sent| && forall i <- children :: children[i] !in exited ==> (i, signum) in sent[before..]
      ensures Forwarded(WatchNow(), before, signum)
    { }

    lemma WatchIs()
      ensures var w := WatchNow(); w.children == children && w.exited == exited && w.sent == sent
      ensures WatchNow().killAt == killAt && WatchNow().clock == clock && WatchNow().stopping == stopping
    { }

    /** The stop that leaves no child behind: nothing is started any more, every child still
        running is signalled, and it is over only when the last child has been collected. */
    method Drain(passes: nat) returns (drained: bool)
      requires Valid() && Placed()
      modifies this
      ensures Valid() && Placed() && stopping && starts == old(starts)
      ensures drained ==> children == map[]
      ensures !drained ==> passes == 0 || children != map[]
      ensures OnlyReaped(old(SlotsNow()), SlotsNow(), TermsNow())
      ensures passes > 0 ==> forall index <- children :: children[index] !in old(exited)
      ensures Forwarded(WatchNow(), |old(sent)|, SIGTERM)
      ensures passes > 0 && old(killAt).Some? && old(killAt).value <= old(clock) ==>
        Forwarded(WatchNow(), |old(sent)|, 9)
    {
      hide StopHolds, Accounted, DeathsHold, BackoffHolds, Placed, OnlyReaped, SlotsNow, TermsNow, WatchNow,
        Forwarded, TurnSent, OnlyAdded;
      RequestStop();
      SignalChildren(SIGTERM);
      NothingReaped();
      SentToAll(|old(sent)|, SIGTERM);
      drained := false;
      var left := passes;
      while left > 0 && !drained
        invariant Valid() && Placed() && stopping && starts == old(starts)
        invariant if drained then children == map[] && left < passes else left < passes ==> children != map[]
        invariant OnlyReaped(old(SlotsNow()), SlotsNow(), TermsNow())
        invariant old(exited) <= exited && old(clock) <= clock && |old(sent)| <= |sent|
        invariant if left == passes then killAt == old(killAt)
          else forall index <- children :: children[index] !in old(exited)
        invariant Forwarded(WatchNow(), |old(sent)|, SIGTERM)
        invariant left < passes && old(killAt).Some? && old(killAt).value <= old(clock) ==>
          Forwarded(WatchNow(), |old(sent)|, FORCE_SIGNAL)
        decreases left
      {
        ghost var slots, watch := SlotsNow(), WatchNow();
        WatchIs();
        label Turn:
        DrainTurn();
        WatchIs();
        TurnIsForward@Turn();
        OnlyReapedTwice(old(SlotsNow()), slots, SlotsNow(), TermsNow());
        TurnForwards(watch, WatchNow(), |old(sent)|);
        drained := children == map[];
        left := left - 1;
      }
    }

    lemma EveryExitKnown()
      requires Accounted() && children == map[]
      ensures forall index <- starts :: index in exitCodes
    { }

    /** run(), for so many polling passes in each loop; None when they did not suffice. */
    method Run(passes: nat) returns (code: Option<int>)
      requires Valid() && children == map[] && restartDue == map[] && starts == [] && exitCodes == map[]
      modifies this
      ensures Valid() && Placed()
      ensures old(stopping) ==> starts == old(starts)
      ensures code.None? ==> passes == 0 || children != map[] || (restartDue != map[] && !stopping)
      ensures code.Some? ==> stopping && children == map[] && forall index <- starts :: index in exitCodes
      ensures code.Some? ==>
        (code.value == 0 <==> !capTripped && forall index <- exitCodes :: exitCodes[index] in {0, 75})
      ensures code.Some? && capTripped ==> code.value == 1
      ensures code.Some? && !capTripped && code.value != 0 ==>
        exists index :: FirstFailure(exitCodes, index)
          && code.value == if exitCodes[index] < 0 then 128 - exitCodes[index] else exitCodes[index]
    {
      hide StopHolds, Accounted, DeathsHold, BackoffHolds, SlotsNow, WatchNow, TermsNow, OnlyReaped, Forwarded, OldOnes;
      StartAll();
      var ended := Supervise(passes);
      if !ended { return None; }
      var drained := Drain(passes);
      if !drained { return None; }
      EveryExitKnown();
      var reported := ExitCode();
      code := Some(reported);
    }
  }

  /** A supervisor, or None for the refusal of fewer than one process. */
  method Create(processes: int, restartDelay: real, restartCap: int, restartWindow: real,
                backoffMax: real, backoffReset: real, killGrace: real) returns (s: Option<Supervisor>)
    ensures s.Some? <==> 1 <= processes
    ensures s.Some? ==> fresh(s.value) && s.value.Valid() && s.value.processes == processes
    ensures s.Some? ==> !s.value.stopping && s.value.starts == [] && s.value.exitCodes == map[]
    ensures s.Some? ==> s.value.children == map[] && s.value.restartDue == map[]
  {
    if processes < 1 { return None; }
    var made := new Supervisor(processes, restartDelay, restartCap, restartWindow, backoffMax, backoffReset, killGrace);
    s := Some(made);
  }
}

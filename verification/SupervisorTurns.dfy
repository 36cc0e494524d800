/** What a turn of the supervisor's loops does to the slots and sends to the children,
    on the values before and after it. */
module SupervisorTurns {
  import opened Outcomes
  import opened SupervisorRules

  // ---- one slot's account ----

  /** What is kept of a slot: its deaths that count, the restarts since the last reset,
      when its process started, and when its restart is due. */
  datatype Account = Account(deaths: seq<real>, restarts: nat, startedAt: Option<real>, due: Option<real>)

  /** The first delay, its ceiling, and how long a process lives for a reset. */
  datatype Terms = Terms(base: real, ceiling: real, reset: real)

  /** The restarts a death at this time comes after: none when the process lived long enough. */
  function RestartsBefore(a: Account, now: real, reset: real): nat {
    var lived := if a.startedAt.Some? then now - a.startedAt.value else 0.0;
    if lived >= reset then 0 else a.restarts
  }

  /** An exit was accounted for between two clock readings: a recycle changes nothing and
      restarts after the first delay, and a death is counted at its time and restarts
      after its backoff. */
  predicate AccountedFor(before: Account, after: Account, recycled: bool, from: real, to: real, terms: Terms) {
    if recycled then
      && after.deaths == before.deaths && after.restarts == before.restarts
      && (after.due.Some? ==> from <= after.due.value - terms.base <= to)
    else
      && after.deaths != []
      && var at := after.deaths[|after.deaths| - 1];
        && from <= at <= to && after.deaths == before.deaths + [at]
        && after.restarts == RestartsBefore(before, at, terms.reset) + 1
        && (after.due.Some? ==> after.due.value == at + Delay(terms.base, terms.ceiling, after.restarts - 1))
  }

  lemma StillAccountedFor(before: Account, after: Account, later: Account, recycled: bool,
                          from: real, to: real, earliest: real, latest: real, terms: Terms)
    requires AccountedFor(before, after, recycled, from, to, terms) && earliest <= from && to <= latest
    requires later.deaths == after.deaths && later.restarts == after.restarts
    requires later.due.Some? ==> later.due == after.due
    ensures AccountedFor(before, later, recycled, earliest, latest, terms)
  {
    hide Delay, RestartsBefore;
  }

  lemma ADeathIsAccountedFor(before: Account, after: Account, at: real, from: real, to: real, terms: Terms)
    requires from <= at <= to && after.deaths == before.deaths + [at]
    requires after.restarts == RestartsBefore(before, at, terms.reset) + 1
    requires after.due == Some(at + Delay(terms.base, terms.ceiling, after.restarts - 1))
    ensures AccountedFor(before, after, false, from, to, terms)
  { }

  lemma ARecycleIsAccountedFor(before: Account, after: Account, from: real, to: real, terms: Terms)
    requires after.deaths == before.deaths && after.restarts == before.restarts
    requires after.due.Some? && from <= after.due.value - terms.base <= to
    ensures AccountedFor(before, after, true, from, to, terms)
  { }

  /** The supervisor's slots at one time: the running children, the last exits, every slot's
      account, the starts so far, the next process number, and whether it is stopping. */
  datatype Slots = Slots(children: map<int, int>, exitCodes: map<int, int>, accounts: map<int, Account>,
                         clock: real, starts: seq<int>, next: int, stopping: bool)

  /** From a to b some children were collected and nothing else happened: each that is gone
      is due again with its exit recorded and accounted for. */
  predicate Reaped(a: Slots, b: Slots, terms: Terms) {
    && a.accounts.Keys == b.accounts.Keys && a.clock <= b.clock && b.children.Keys <= a.children.Keys
    && (forall i <- a.accounts :: i !in a.children || i in b.children ==> b.accounts[i] == a.accounts[i])
    && (forall i <- a.exitCodes :: i !in a.children ==> i in b.exitCodes && b.exitCodes[i] == a.exitCodes[i])
    && (forall i <- a.children :: i !in b.children ==>
      && i in a.accounts && i in b.exitCodes && b.accounts[i].due.Some?
      && AccountedFor(a.accounts[i], b.accounts[i], b.exitCodes[i] == RECYCLE_EXIT_CODE, a.clock, b.clock, terms))
  }

  lemma NoneReaped(a: Slots, terms: Terms)
    ensures Reaped(a, a, terms)
  { }

  lemma OneReaped(a: Slots, b: Slots, index: int, terms: Terms)
    requires index in a.children && index in a.accounts && index in b.accounts && index in b.exitCodes
    requires b.children == a.children - {index} && b.exitCodes == a.exitCodes[index := b.exitCodes[index]]
    requires a.accounts.Keys == b.accounts.Keys && a.clock <= b.clock && b.accounts[index].due.Some?
    requires forall i <- a.accounts :: i != index ==> b.accounts[i] == a.accounts[i]
    requires AccountedFor(a.accounts[index], b.accounts[index], b.exitCodes[index] == RECYCLE_EXIT_CODE,
                          a.clock, b.clock, terms)
    ensures Reaped(a, b, terms)
  {
    hide AccountedFor;
  }

  lemma ReapedTwice(a: Slots, mid: Slots, b: Slots, terms: Terms)
    requires Reaped(a, mid, terms) && Reaped(mid, b, terms)
    ensures Reaped(a, b, terms)
  {
    hide AccountedFor;
    forall i | i in a.children && i !in b.children
      ensures i in a.accounts && i in b.exitCodes && b.accounts[i].due.Some?
      ensures AccountedFor(a.accounts[i], b.accounts[i], b.exitCodes[i] == RECYCLE_EXIT_CODE, a.clock, b.clock, terms)
    {
      var recycled := b.exitCodes[i] == RECYCLE_EXIT_CODE;
      if i in mid.children {
        StillAccountedFor(mid.accounts[i], b.accounts[i], b.accounts[i], recycled,
                          mid.clock, b.clock, a.clock, b.clock, terms);
      } else {
        StillAccountedFor(a.accounts[i], mid.accounts[i], b.accounts[i], recycled,
                          a.clock, mid.clock, a.clock, b.clock, terms);
      }
    }
  }

  /** From a to b no child came or went. */
  predicate Undisturbed(a: Slots, b: Slots) {
    && b.children == a.children && b.exitCodes == a.exitCodes && b.starts == a.starts && b.next == a.next
    && a.accounts.Keys == b.accounts.Keys && a.clock <= b.clock
    && (!b.stopping ==> b.accounts == a.accounts && !a.stopping)
    && forall i <- a.accounts ::
      b.accounts[i].deaths == a.accounts[i].deaths && b.accounts[i].restarts == a.accounts[i].restarts
  }

  /** From a to b children were only collected, and while stopping nothing is counted. */
  predicate OnlyReaped(a: Slots, b: Slots, terms: Terms) {
    && b.starts == a.starts && b.next == a.next && a.accounts.Keys == b.accounts.Keys && a.clock <= b.clock
    && (forall i <- b.children :: i in a.children && b.children[i] == a.children[i])
    && (forall i <- a.children :: i in b.children || i in b.exitCodes)
    && a.exitCodes.Keys <= b.exitCodes.Keys
    && (a.stopping ==> b.stopping && forall i <- a.accounts ::
      b.accounts[i].deaths == a.accounts[i].deaths && b.accounts[i].restarts == a.accounts[i].restarts)
    && (!b.stopping ==> Reaped(a, b, terms))
  }

  lemma OnlyReapedTwice(a: Slots, mid: Slots, b: Slots, terms: Terms)
    requires OnlyReaped(a, mid, terms) && OnlyReaped(mid, b, terms)
    ensures OnlyReaped(a, b, terms)
  {
    hide Reaped;
    if !b.stopping { ReapedTwice(a, mid, b, terms); }
  }

  predicate WasDue(a: Account, now: real) { a.due.Some? && a.due.value <= now }

  predicate StartedWhenDue(a: Slots, b: Slots, i: int)
    requires a.starts <= b.starts && i in b.children
  {
    i in b.starts[|a.starts|..] && a.next <= b.children[i] && i in a.accounts && WasDue(a.accounts[i], b.clock)
  }

  /** From a to b slots that were due were started. */
  predicate OnlyStarted(a: Slots, b: Slots) {
    && a.starts <= b.starts && a.next <= b.next && a.accounts.Keys == b.accounts.Keys && a.clock <= b.clock
    && (!b.stopping ==> !a.stopping)
    && (forall i <- a.children :: i in b.children && b.children[i] == a.children[i])
    && (forall i <- b.children :: i in a.children || StartedWhenDue(a, b, i))
    && (forall i <- a.exitCodes ::
      i in a.children || i in b.children || (i in b.exitCodes && b.exitCodes[i] == a.exitCodes[i]))
    && (!b.stopping ==> forall i <- a.accounts ::
      && b.accounts[i].deaths == a.accounts[i].deaths && b.accounts[i].restarts == a.accounts[i].restarts
      && (b.accounts[i].due.Some? ==> b.accounts[i].due == a.accounts[i].due)
      && (a.accounts[i].due.Some? ==> b.accounts[i].due.Some? || i in b.children))
  }

  /** The process slot i had at a was collected by b. Its exit is recorded, or the slot was
      started again; and unless stopping, the exit was accounted for and the slot is due or
      runs. */
  predicate Collected(a: Slots, b: Slots, i: int, terms: Terms) {
    && i in a.children && a.starts <= b.starts
    && (if i in b.children then b.children[i] != a.children[i] && i in b.starts[|a.starts|..] else i in b.exitCodes)
    && (!b.stopping ==>
      && i in a.accounts && i in b.accounts
      && if i in b.children
         then exists recycled :: AccountedFor(a.accounts[i], b.accounts[i], recycled, a.clock, b.clock, terms)
         else b.accounts[i].due.Some? && AccountedFor(
           a.accounts[i], b.accounts[i], b.exitCodes[i] == RECYCLE_EXIT_CODE, a.clock, b.clock, terms))
  }

  lemma NoneStarted(a: Slots, b: Slots)
    requires b.starts == a.starts && b.next == a.next && a.accounts.Keys == b.accounts.Keys && a.clock <= b.clock
    requires b.children == a.children && b.exitCodes == a.exitCodes
    requires !b.stopping ==> !a.stopping && b.accounts == a.accounts
    ensures OnlyStarted(a, b)
  { }

  lemma OneStarted(a: Slots, b: Slots, index: int)
    requires index in a.accounts && WasDue(a.accounts[index], b.clock) && index !in a.children
    requires b.starts == a.starts + [index] && b.next == a.next + 1 && a.clock <= b.clock && !a.stopping
    requires b.children == a.children[index := a.next] && b.exitCodes == a.exitCodes - {index}
    requires a.accounts.Keys == b.accounts.Keys
    requires forall i <- a.accounts :: i != index ==> b.accounts[i] == a.accounts[i]
    requires b.accounts[index].deaths == a.accounts[index].deaths
    requires b.accounts[index].restarts == a.accounts[index].restarts && b.accounts[index].due == None
    ensures OnlyStarted(a, b)
  { }

  lemma StartedTwice(a: Slots, mid: Slots, b: Slots)
    requires OnlyStarted(a, mid) && OnlyStarted(mid, b) && !b.stopping
    ensures OnlyStarted(a, b)
  {
    assert b.starts[|a.starts|..] == b.starts[|a.starts|..|mid.starts|] + b.starts[|mid.starts|..];
    assert mid.starts[|a.starts|..] == b.starts[|a.starts|..|mid.starts|];
  }

  predicate SameProcess(a: Slots, b: Slots, i: int) {
    i in a.children && i in b.children && b.children[i] == a.children[i]
  }

  /** What a polling pass does to the children: each is collected or the same process still;
      one that had exited before the pass is collected; and any other is a new process. */
  predicate EachCollected(a: Slots, b: Slots, exited: set<int>, terms: Terms) {
    && a.next <= b.next && a.starts <= b.starts
    && (forall i <- a.children :: SameProcess(a, b, i) || Collected(a, b, i, terms))
    && (forall i <- a.children :: a.children[i] in exited ==> Collected(a, b, i, terms))
    && (forall i <- b.children :: SameProcess(a, b, i) || a.next <= b.children[i])
  }

  /** Every restart still due is later. */
  predicate NoneOverdue(b: Slots, since: real) {
    forall i <- b.accounts :: b.accounts[i].due.Some? ==> since < b.accounts[i].due.value
  }

  /** Unless stopping, a slot whose restart was due at a runs at b. */
  predicate DueIsRunning(a: Slots, b: Slots) {
    !b.stopping ==> forall i <- a.accounts :: WasDue(a.accounts[i], a.clock) ==> i in b.children
  }

  lemma DueRuns(a: Slots, p: Slots, r: Slots, s: Slots, b: Slots, terms: Terms)
    requires Undisturbed(a, p) && OnlyReaped(p, r, terms) && OnlyStarted(r, s) && Undisturbed(s, b)
    requires !a.stopping ==> forall i <- a.accounts :: a.accounts[i].due.Some? ==> i !in a.children
    requires !s.stopping ==> NoneOverdue(s, r.clock)
    ensures DueIsRunning(a, b)
  {
    hide AccountedFor;
    if !b.stopping {
      forall i | i in a.accounts && WasDue(a.accounts[i], a.clock) ensures i in b.children {
        assert r.accounts[i] == a.accounts[i];
      }
    }
  }

  /** What the four parts of a polling pass make of a child. */
  lemma PassCollects(a: Slots, p: Slots, r: Slots, s: Slots, b: Slots, i: int, terms: Terms)
    requires Undisturbed(a, p) && OnlyReaped(p, r, terms) && OnlyStarted(r, s) && Undisturbed(s, b)
    requires i in a.children && a.children[i] < a.next
    ensures i in r.children ==> i in b.children && b.children[i] == a.children[i]
    ensures i !in r.children ==> Collected(a, b, i, terms)
  {
    hide AccountedFor;
    if i !in r.children && !b.stopping {
      var recycled := r.exitCodes[i] == RECYCLE_EXIT_CODE;
      StillAccountedFor(p.accounts[i], r.accounts[i], b.accounts[i], recycled,
                        p.clock, r.clock, a.clock, b.clock, terms);
    }
  }

  /** What they make of all the children, and of the restarts that were due. */
  lemma PassIsDone(a: Slots, p: Slots, r: Slots, s: Slots, b: Slots, exited: set<int>, terms: Terms)
    requires Undisturbed(a, p) && OnlyReaped(p, r, terms) && OnlyStarted(r, s) && Undisturbed(s, b)
    requires forall i <- a.children :: a.children[i] < a.next
    requires forall i <- r.children :: r.children[i] !in exited
    requires !a.stopping ==> forall i <- a.accounts :: a.accounts[i].due.Some? ==> i !in a.children
    requires !s.stopping ==> NoneOverdue(s, r.clock)
    ensures EachCollected(a, b, exited, terms) && DueIsRunning(a, b)
  {
    DueRuns(a, p, r, s, b, terms);
    hide Collected, Reaped, DueIsRunning;
    forall i | i in a.children
      ensures SameProcess(a, b, i) || Collected(a, b, i, terms)
      ensures a.children[i] in exited ==> Collected(a, b, i, terms)
    {
      PassCollects(a, p, r, s, b, i, terms);
    }
  }

  /** A turn of the drain only collects. */
  lemma DrainReaps(a: Slots, p: Slots, q: Slots, b: Slots, terms: Terms)
    requires Undisturbed(a, p) && Undisturbed(p, q) && OnlyReaped(q, b, terms) && a.stopping
    ensures OnlyReaped(a, b, terms)
  { }

  /** Of the processes there were before `next`, only ones that are not among these still run. */
  predicate OldOnes(before: map<int, int>, now: map<int, int>, next: int, gone: set<int>) {
    forall i <- now :: now[i] < next ==> i in before && now[i] == before[i] && now[i] !in gone
  }

  lemma PassLeavesOldOnes(a: Slots, b: Slots, exited: set<int>, terms: Terms)
    requires EachCollected(a, b, exited, terms)
    ensures a.next <= b.next && OldOnes(a.children, b.children, a.next, exited)
  {
    hide AccountedFor;
  }

  lemma FewerOldOnes(before: map<int, int>, now: map<int, int>, next: int, gone: set<int>, fewer: set<int>)
    requires OldOnes(before, now, next, gone) && fewer <= gone
    ensures OldOnes(before, now, next, fewer)
  { }

  lemma NoOldOnes(before: map<int, int>, next: int, gone: set<int>)
    ensures OldOnes(before, map[], next, gone)
  { }

  lemma OldOnesTwice(before: map<int, int>, mid: map<int, int>, now: map<int, int>, next: int, later: int,
                     gone: set<int>, more: set<int>)
    requires OldOnes(before, mid, next, gone) && OldOnes(mid, now, later, more) && next <= later && gone <= more
    ensures OldOnes(before, now, next, more)
  { }

  // ---- signals sent ----

  /** Nothing but this signal was sent, to whichever slots. */
  predicate OnlyAdded(before: seq<(int, int)>, after: seq<(int, int)>, signum: int) {
    before <= after && forall k | |before| <= k < |after| :: after[k].1 == signum
  }

  lemma OnlyAddedTwice(a: seq<(int, int)>, b: seq<(int, int)>, c: seq<(int, int)>, signum: int)
    requires OnlyAdded(a, b, signum) && OnlyAdded(b, c, signum)
    ensures OnlyAdded(a, c, signum) && a <= b <= c
  { }

  /** What signals are about: the running children and the processes known to have exited,
      what was sent, when SIGKILL is due, how many signals were acted on, the clock, and
      whether the supervisor is stopping. */
  datatype Watch = Watch(children: map<int, int>, exited: set<int>, sent: seq<(int, int)>, killAt: Option<real>,
                         seen: nat, clock: real, stopping: bool)

  /** Every child still running has been sent this since there were so many. */
  predicate Forwarded(w: Watch, before: nat, signum: int) {
    before <= |w.sent| && forall i <- w.children :: w.children[i] !in w.exited ==> (i, signum) in w.sent[before..]
  }

  /** When signals leave SIGKILL due: not at all or as before, at once for a third signal, or
      after the grace for a second. */
  predicate KillTimed(a: Watch, b: Watch, grace: real) {
    && (b.seen == a.seen ==> b.killAt == a.killAt)
    && (a.killAt.Some? ==> b.killAt.Some? && (b.killAt == a.killAt || b.killAt.value <= b.clock))
    && (a.killAt.None? && b.killAt.Some? ==>
      || (a.clock + grace <= b.killAt.value <= b.clock + grace && 2 <= b.seen)
      || (b.killAt.value <= b.clock && 3 <= b.seen && a.seen + 2 <= b.seen))
    && (b.seen > a.seen && 2 <= b.seen ==> b.killAt.Some?)
  }

  /** Nothing but signals was acted on: each stops, times SIGKILL and is sent on. */
  predicate Signalled(a: Watch, b: Watch, grace: real) {
    && b.children == a.children && a.exited <= b.exited && a.clock <= b.clock && a.seen <= b.seen
    && KillTimed(a, b, grace) && OnlyAdded(a.sent, b.sent, SIGTERM)
    && if b.seen == a.seen then b.sent == a.sent && b.stopping == a.stopping
       else b.stopping && Forwarded(b, |a.sent|, SIGTERM)
  }

  /** Children were collected or started, and a stop may have been forwarded. */
  predicate Carried(a: Watch, b: Watch) {
    && a.exited <= b.exited && a.clock <= b.clock && b.seen == a.seen && b.killAt == a.killAt
    && OnlyAdded(a.sent, b.sent, SIGTERM)
    && (a.stopping ==> b.stopping && forall i <- b.children :: i in a.children && b.children[i] == a.children[i])
  }

  /** A grace that is over now has ended with SIGKILL sent to every running child; until
      then it is kept, and nothing is sent. */
  predicate GraceEnded(a: Watch, b: Watch) {
    && b.children == a.children && a.exited <= b.exited && a.clock <= b.clock
    && b.seen == a.seen && b.stopping == a.stopping
    && b.killAt == (if a.killAt.Some? && a.killAt.value <= b.clock then None else a.killAt)
    && if b.killAt == a.killAt then b.sent == a.sent
       else OnlyAdded(a.sent, b.sent, FORCE_SIGNAL) && Forwarded(b, |a.sent|, FORCE_SIGNAL)
  }

  /** What one turn of the loop sends. A signal acted on stops and reaches every child still
      running. A grace that was over is over no more, and one that ended has sent SIGKILL to
      every child still running; otherwise nothing but SIGTERM was sent. */
  predicate TurnSent(a: Watch, b: Watch) {
    && a.sent <= b.sent && a.seen <= b.seen && a.exited <= b.exited && a.clock <= b.clock
    && (b.seen > a.seen ==> b.stopping && Forwarded(b, |a.sent|, SIGTERM))
    && (b.killAt.Some? ==> a.clock < b.killAt.value)
    && (a.killAt.Some? && a.killAt.value <= a.clock ==> b.killAt.None?)
    && (b.killAt.None? && (a.killAt.Some? || (a.seen < b.seen && 2 <= b.seen)) ==>
      Forwarded(b, |a.sent|, FORCE_SIGNAL))
    && (b.killAt.Some? || (a.killAt.None? && b.seen == a.seen) ==> OnlyAdded(a.sent, b.sent, SIGTERM))
  }

  /** What every running child was sent stays sent while children only go. */
  lemma StillForwarded(a: Watch, b: Watch, before: nat, signum: int)
    requires Forwarded(a, before, signum) && a.sent <= b.sent && a.exited <= b.exited
    requires forall i <- b.children :: i in a.children && b.children[i] == a.children[i]
    ensures Forwarded(b, before, signum)
  {
    forall i | i in b.children && b.children[i] !in b.exited ensures (i, signum) in b.sent[before..] {
      assert (i, signum) in a.sent[before..];
      assert b.sent[before..] == a.sent[before..] + b.sent[|a.sent|..];
    }
  }

  lemma ForwardedSince(w: Watch, earlier: nat, later: nat, signum: int)
    requires earlier <= later && Forwarded(w, later, signum)
    ensures Forwarded(w, earlier, signum)
  {
    assert w.sent[earlier..] == w.sent[earlier..later] + w.sent[later..];
  }

  lemma NoSignal(a: Watch, grace: real)
    ensures Signalled(a, a, grace)
  { }

  /** One signal more: the first says nothing of SIGKILL, a second starts the grace, and a
      later one ends it. */
  lemma OneMoreSignal(a: Watch, mid: Watch, b: Watch, grace: real)
    requires Signalled(a, mid, grace) && b.seen == mid.seen + 1 && b.stopping && b.children == mid.children
    requires mid.exited <= b.exited && mid.clock <= b.clock && OnlyAdded(mid.sent, b.sent, SIGTERM)
    requires Forwarded(b, |mid.sent|, SIGTERM)
    requires b.killAt ==
      if b.seen == 1 then mid.killAt else if mid.killAt.None? then Some(b.clock + grace) else Some(b.clock)
    ensures Signalled(a, b, grace)
  {
    hide Forwarded;
    OnlyAddedTwice(a.sent, mid.sent, b.sent, SIGTERM);
    ForwardedSince(b, |a.sent|, |mid.sent|, SIGTERM);
  }

  /** What was sent to every child before a turn that starts none, and SIGKILL when the
      grace was over by then. */
  lemma TurnForwards(a: Watch, b: Watch, before: nat)
    requires TurnSent(a, b) && before <= |a.sent|
    requires forall i <- b.children :: i in a.children && b.children[i] == a.children[i]
    ensures forall signum :: Forwarded(a, before, signum) ==> Forwarded(b, before, signum)
    ensures a.killAt.Some? && a.killAt.value <= a.clock ==> Forwarded(b, before, FORCE_SIGNAL)
  {
    forall signum | Forwarded(a, before, signum) ensures Forwarded(b, before, signum) {
      StillForwarded(a, b, before, signum);
    }
    if a.killAt.Some? && a.killAt.value <= a.clock { ForwardedSince(b, before, |a.sent|, FORCE_SIGNAL); }
  }

  lemma CarriedTwice(a: Watch, b: Watch, c: Watch)
    requires Carried(a, b) && Carried(b, c)
    ensures Carried(a, c)
  {
    OnlyAddedTwice(a.sent, b.sent, c.sent, SIGTERM);
  }

  /** A turn of the main loop: signals, collecting and starting, and the end of the grace. */
  lemma PassSent(a: Watch, p: Watch, s: Watch, b: Watch, grace: real)
    requires Signalled(a, p, grace) && Carried(p, s) && GraceEnded(s, b)
    ensures TurnSent(a, b)
  {
    hide Forwarded;
    OnlyAddedTwice(a.sent, p.sent, s.sent, SIGTERM);
    if b.killAt != s.killAt { ForwardedSince(b, |a.sent|, |s.sent|, FORCE_SIGNAL); }
    if p.seen > a.seen { StillForwarded(p, b, |a.sent|, SIGTERM); }
  }

  /** A turn of the drain: signals, the end of the grace, and collecting. */
  lemma DrainSent(a: Watch, p: Watch, q: Watch, b: Watch, grace: real)
    requires Signalled(a, p, grace) && GraceEnded(p, q) && Carried(q, b) && a.stopping
    ensures TurnSent(a, b)
  {
    hide Forwarded;
    if q.killAt == p.killAt { OnlyAddedTwice(a.sent, q.sent, b.sent, SIGTERM); }
    if q.killAt != p.killAt {
      ForwardedSince(q, |a.sent|, |p.sent|, FORCE_SIGNAL);
      StillForwarded(q, b, |a.sent|, FORCE_SIGNAL);
    }
    if p.seen > a.seen { StillForwarded(p, b, |a.sent|, SIGTERM); }
  }
}

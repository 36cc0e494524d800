/** The arithmetic of the supervisor: which deaths count, how long a restart waits,
    and which exit code is reported. */
module SupervisorRules {
  const SIGTERM := 15
  const FORCE_SIGNAL := 9
  const RECYCLE_EXIT_CODE := 75

  // ---- deaths in the window ----

  predicate InOrder(times: seq<real>) {
    forall i, j | 0 <= i < j < |times| :: times[i] <= times[j]
  }

  /** The deaths that are no more than `window` before now. */
  function Recent(times: seq<real>, now: real, window: real): seq<real>
    decreases |times|
  {
    if times == [] then []
    else
      var n := |times| - 1;
      Recent(times[..n], now, window) + (if now - times[n] <= window then [times[n]] else [])
  }

  /** The window at the last death of a history. */
  function AtLastDeath(history: seq<real>, window: real): seq<real> {
    if history == [] then [] else Recent(history, history[|history| - 1], window)
  }

  lemma {:induction false} RecentIsPartOf(times: seq<real>, now: real, window: real)
    ensures forall t <- Recent(times, now, window) :: t in times && now - t <= window
    decreases |times|
  {
    if times != [] { RecentIsPartOf(times[..|times| - 1], now, window); }
  }

  /** Of an ordered history it is the last deaths: all those in the window, none before. */
  lemma {:induction false} RecentIsTheTail(times: seq<real>, now: real, window: real) returns (k: nat)
    requires InOrder(times)
    ensures k <= |times| && Recent(times, now, window) == times[k..]
    ensures forall i | 0 <= i < |times| :: k <= i <==> now - times[i] <= window
    decreases |times|
  {
    if times == [] {
      k := 0;
    } else {
      var n := |times| - 1;
      var before := RecentIsTheTail(times[..n], now, window);
      assert times[..n] + [times[n]] == times;
      k := TailOneMore(times[..n], times[n], now, window, before);
    }
  }

  lemma TailOneMore(most: seq<real>, last: real, now: real, window: real, before: nat) returns (k: nat)
    requires InOrder(most + [last]) && before <= |most|
    requires forall i | 0 <= i < |most| :: before <= i <==> now - most[i] <= window
    ensures k <= |most| + 1
    ensures (most + [last])[k..] == most[before..] + (if now - last <= window then [last] else [])
    ensures forall i | 0 <= i < |most| + 1 :: k <= i <==> now - (most + [last])[i] <= window
  {
    var times := most + [last];
    assert forall i | 0 <= i < |most| :: times[i] == most[i] && times[i] <= times[|most|];
    k := if now - last <= window then before else |times|;
    assert before < |most| ==> now - most[before] <= window && most[before] <= last;
  }

  lemma AppendedInOrder(times: seq<real>, now: real)
    requires InOrder(times) && forall t <- times :: t <= now
    ensures InOrder(times + [now])
  {
    assert forall i | 0 <= i < |times| :: times[i] in times;
  }

  lemma {:induction false} RecentInOrder(times: seq<real>, now: real, window: real)
    requires InOrder(times)
    ensures InOrder(Recent(times, now, window))
    decreases |times|
  {
    if times != [] {
      var n := |times| - 1;
      RecentInOrder(times[..n], now, window);
      RecentIsPartOf(times[..n], now, window);
      forall t | t in Recent(times[..n], now, window) ensures t <= times[n] {
        var i :| 0 <= i < n && times[..n][i] == t;
      }
      AppendedInOrder(Recent(times[..n], now, window), times[n]);
    }
  }

  /** Pruning at an earlier death loses nothing a later window holds. */
  lemma {:induction false} RecentTwice(times: seq<real>, earlier: real, now: real, window: real)
    requires earlier <= now
    ensures Recent(Recent(times, earlier, window), now, window) == Recent(times, now, window)
    decreases |times|
  {
    if times != [] {
      var n := |times| - 1;
      RecentTwice(times[..n], earlier, now, window);
      var kept := Recent(times[..n], earlier, window);
      var extended := kept + [times[n]];
      assert extended[..|extended| - 1] == kept && extended[|extended| - 1] == times[n] && kept + [] == kept;
      assert Recent(times, earlier, window) == if earlier - times[n] <= window then extended else kept;
    }
  }

  /** The window of a queue is its first death's share and the window of the rest. */
  lemma {:induction false} RecentFromTheFront(queue: seq<real>, now: real, window: real)
    requires queue != []
    ensures Recent(queue, now, window) ==
      (if now - queue[0] <= window then [queue[0]] else []) + Recent(queue[1..], now, window)
    decreases |queue|
  {
    var n := |queue| - 1;
    if n > 0 {
      RecentFromTheFront(queue[..n], now, window);
      assert queue[1..][..n - 1] == queue[..n][1..] && queue[1..][n - 1] == queue[n];
    }
  }

  /** Of an ordered queue whose first death is recent, every death is. */
  lemma {:induction false} AllRecent(queue: seq<real>, now: real, window: real)
    requires InOrder(queue) && (queue != [] ==> now - queue[0] <= window)
    ensures Recent(queue, now, window) == queue
    decreases |queue|
  {
    if queue != [] {
      var n := |queue| - 1;
      AllRecent(queue[..n], now, window);
      assert queue[0] <= queue[n] && queue[..n] + [queue[n]] == queue;
    }
  }

  /** One more death: the queue of the old window, extended and pruned, is the window
      of the whole history. */
  lemma OneMoreDeath(history: seq<real>, queue: seq<real>, now: real, window: real)
    requires InOrder(history) && (forall t <- history :: t <= now)
    requires queue == AtLastDeath(history, window)
    ensures Recent(queue + [now], now, window) == AtLastDeath(history + [now], window)
    ensures InOrder(history + [now]) && InOrder(queue + [now])
  {
    assert (history + [now])[..|history|] == history;
    assert (queue + [now])[..|queue|] == queue;
    AppendedInOrder(history, now);
    if history != [] {
      var last := history[|history| - 1];
      assert last in history;
      RecentTwice(history, last, now, window);
      RecentIsPartOf(history, last, window);
      RecentInOrder(history, last, window);
      AppendedInOrder(queue, now);
    }
  }

  /** No death of the history but possibly the last was over the cap. */
  predicate UnderCapUntil(history: seq<real>, window: real, cap: int, n: nat) {
    forall k | 0 < k <= n && k <= |history| :: |AtLastDeath(history[..k], window)| <= cap
  }

  /** A slot's deaths, none in the future, and its queue, which is their window at the
      last; no window before that one was over the cap. */
  predicate QueueOf(history: seq<real>, queue: seq<real>, clock: real, window: real, cap: int) {
    && history != [] && InOrder(history)
    && (forall t <- history :: t <= clock)
    && queue == AtLastDeath(history, window)
    && UnderCapUntil(history, window, cap, |history| - 1)
  }

  predicate Queues(histories: map<int, seq<real>>, queues: map<int, seq<real>>, clock: real, window: real, cap: int) {
    && queues.Keys == histories.Keys
    && forall index <- histories :: QueueOf(histories[index], queues[index], clock, window, cap)
  }

  lemma CapUntilNow(past: seq<real>, now: real, queue: seq<real>, window: real, cap: int)
    requires queue == AtLastDeath(past, window)
    requires past != [] ==> UnderCapUntil(past, window, cap, |past| - 1) && |queue| <= cap
    ensures UnderCapUntil(past + [now], window, cap, |past|)
  {
    hide AtLastDeath;
    forall k | 0 < k <= |past| ensures |AtLastDeath((past + [now])[..k], window)| <= cap {
      assert (past + [now])[..k] == past[..k];
      if k == |past| { assert past[..k] == past; }
    }
  }

  function Past<T>(histories: map<int, seq<T>>, index: int): seq<T> {
    if index in histories then histories[index] else []
  }

  /** A death of one slot keeps every slot's queue, while none was over the cap. */
  lemma OneMoreQueue(histories: map<int, seq<real>>, queues: map<int, seq<real>>, now: real, window: real,
          cap: int, index: int)
    requires Queues(histories, queues, now, window, cap) && forall i <- queues :: |queues[i]| <= cap
    ensures var past := Past(histories, index) + [now];
      var queue := AtLastDeath(past, window);
      && Recent(Past(queues, index) + [now], now, window) == queue && InOrder(Past(queues, index) + [now])
      && Queues(histories[index := past], queues[index := queue], now, window, cap)
  {
    var past, queue := Past(histories, index), Past(queues, index);
    OneMoreQueueOf(past, queue, now, window, cap);
    hide QueueOf, AtLastDeath, Recent, InOrder;
  }

  lemma OneMoreQueueOf(past: seq<real>, queue: seq<real>, now: real, window: real, cap: int)
    requires (past == [] && queue == []) || (QueueOf(past, queue, now, window, cap) && |queue| <= cap)
    ensures QueueOf(past + [now], AtLastDeath(past + [now], window), now, window, cap)
    ensures Recent(queue + [now], now, window) == AtLastDeath(past + [now], window) && InOrder(queue + [now])
  {
    hide AtLastDeath, Recent;
    NoDeathsYet(window);
    OneMoreDeath(past, queue, now, window);
    CapUntilNow(past, now, queue, window, cap);
  }

  lemma NoDeathsYet(window: real)
    ensures AtLastDeath([], window) == []
  { }

  // ---- restart delays ----

  function Doubled(delay: real, k: nat): real {
    if k == 0 then delay else 2.0 * Doubled(delay, k - 1)
  }

  function Min(a: real, b: real): real { if a <= b then a else b }

  /** The delay before the restart that follows k earlier ones since the last reset: the
      first, and then its doublings under the ceiling. (Under a negative ceiling, which
      nothing refuses, the delays go on down from the first one under it.) */
  function Delay(base: real, ceiling: real, k: nat): real {
    if k == 0 then base
    else if 0.0 <= ceiling then Min(Doubled(base, k), ceiling)
    else Doubled(Min(2.0 * base, ceiling), k - 1)
  }

  lemma {:induction false} DoubledKeepsTheSign(delay: real, k: nat)
    ensures 0.0 <= delay ==> 0.0 <= Doubled(delay, k)
    ensures delay < 0.0 ==> Doubled(delay, k) <= delay
    decreases k
  {
    if k > 0 { DoubledKeepsTheSign(delay, k - 1); }
  }

  /** Doubling the last delay under the ceiling, as is done after every death, gives
      the next of these delays. */
  lemma NextDelayDoubles(base: real, ceiling: real, k: nat)
    ensures Min(Delay(base, ceiling, k) * 2.0, ceiling) == Delay(base, ceiling, k + 1)
  {
    if k > 0 && ceiling < 0.0 {
      var first := Min(2.0 * base, ceiling);
      DoubledKeepsTheSign(first, k - 1);
      assert Doubled(first, k) == 2.0 * Doubled(first, k - 1) <= Doubled(first, k - 1) <= first <= ceiling;
    } else {
      assert Doubled(base, k + 1) == 2.0 * Doubled(base, k);
      assert Doubled(Min(2.0 * base, ceiling), 0) == Min(2.0 * base, ceiling);
    }
  }

  lemma {:induction false} DoubledFromTheSecond(base: real, k: nat)
    ensures Doubled(2.0 * base, k) == Doubled(base, k + 1)
    decreases k
  {
    if k > 0 { DoubledFromTheSecond(base, k - 1); }
  }

  /** The k-th delay is min(base * 2^k, ceiling) for every k exactly when the base is
      within the ceiling: the first delay is never capped. */
  lemma DelayIsCappedDoublingIff(base: real, ceiling: real)
    ensures base <= ceiling <==> forall k: nat :: Delay(base, ceiling, k) == Min(Doubled(base, k), ceiling)
  {
    if base > ceiling {
      assert Delay(base, ceiling, 0) != Min(Doubled(base, 0), ceiling);
    } else {
      forall k: nat ensures Delay(base, ceiling, k) == Min(Doubled(base, k), ceiling) {
        if k > 0 && ceiling < 0.0 {
          DoubledFromTheSecond(base, k - 1);
          DoubledKeepsTheSign(base, k);
        }
      }
    }
  }

  // ---- the exit code ----

  predicate IsFailure(code: int) { code != 0 && code != RECYCLE_EXIT_CODE }

  /** A child killed by a signal reports 128 + the signal, as a shell does. */
  function ShellCode(code: int): int {
    if code < 0 then 128 - code else code
  }

  /** index is the lowest slot whose last exit was a failure. */
  predicate FirstFailure(exitCodes: map<int, int>, index: int) {
    && index in exitCodes && IsFailure(exitCodes[index])
    && forall other <- exitCodes :: other < index ==> !IsFailure(exitCodes[other])
  }

  /** The slots' last exits, of which index's is a failure no other is worse than. */
  predicate IsWorst(exitCodes: map<int, int>, index: int)
    requires index in exitCodes
  {
    forall other <- exitCodes :: IsFailure(exitCodes[other]) ==>
      ShellCode(exitCodes[other]) <= ShellCode(exitCodes[index])
  }

  predicate OfSlots(exitCodes: map<int, int>, processes: nat) {
    forall index <- exitCodes :: 0 <= index < processes
  }

  /** The reported failure is the first slot's, and is the worst one whatever happened
      only when there is one slot: with two, the second may have ended worse. */
  lemma FirstIsWorstExactlyForOneSlot(processes: nat)
    ensures processes <= 1 <==>
      forall exitCodes: map<int, int>, index | OfSlots(exitCodes, processes) && FirstFailure(exitCodes, index) ::
        IsWorst(exitCodes, index)
  {
    if processes > 1 {
      var exitCodes := map[0 := 1, 1 := 137];
      assert OfSlots(exitCodes, processes) && FirstFailure(exitCodes, 0) && 1 in exitCodes;
      assert !IsWorst(exitCodes, 0);
    }
  }
}

/** Row locks taken by any number of concurrent calls. A call is a list of
    transactions, each locking its keys one after another and releasing them all
    when it ends; a _many call is one transaction over all its chunks, release_many
    one for each chunk, and a single-row write one of a single key. */
module LockOrder {
  import opened Lease
  import opened Ordering

  /** The transactions still to finish; the first `held` keys of the first are locked. */
  datatype Call = Call(txs: seq<seq<Id>>, held: nat) {
    predicate Done() { txs == [] }

    /** All its locks are taken: the next step ends the transaction. */
    predicate Committing() { txs != [] && held >= |txs[0]| }

    function Wanted(): Id
      requires !Done() && !Committing()
    {
      txs[0][held]
    }

    predicate Holds(key: Id) {
      txs != [] && exists n | 0 <= n < held && n < |txs[0]| :: txs[0][n] == key
    }

    /** Steps this call has left to take. */
    function Work(): int {
      Total(txs) - held
    }
  }

  function Total(txs: seq<seq<Id>>): nat {
    if txs == [] then 0 else |txs[0]| + 1 + Total(txs[1..])
  }

  type State = seq<Call>

  predicate Free(s: State, key: Id, i: nat) {
    forall j | 0 <= j < |s| && j != i :: !s[j].Holds(key)
  }

  predicate CanStep(s: State, i: nat) {
    i < |s| && !s[i].Done() && (s[i].Committing() || Free(s, s[i].Wanted(), i))
  }

  function Step(s: State, i: nat): State
    requires CanStep(s, i)
  {
    var c := s[i];
    if c.Committing() then s[i := Call(c.txs[1..], 0)] else s[i := c.(held := c.held + 1)]
  }

  predicate AllDone(s: State) {
    forall i | 0 <= i < |s| :: s[i].Done()
  }

  // ---- the invariant ----

  /** What sorting and deduplicating give every call. */
  predicate Ordered(c: Call) {
    forall n | 0 <= n < |c.txs| :: Ascending(c.txs[n])
  }

  predicate InFlight(c: Call) {
    (c.txs == [] ==> c.held == 0) && (c.txs != [] ==> c.held <= |c.txs[0]|)
  }

  /** No row is locked by two calls. */
  ghost predicate Exclusive(s: State) {
    forall i, j, key | 0 <= i < j < |s| && s[i].Holds(key) :: !s[j].Holds(key)
  }

  ghost predicate Good(s: State) {
    && (forall i | 0 <= i < |s| :: Ordered(s[i]) && InFlight(s[i]))
    && Exclusive(s)
  }

  /** A call before its first statement: no lock held. */
  predicate Fresh(s: State) {
    forall i | 0 <= i < |s| :: Ordered(s[i]) && s[i].held == 0
  }

  lemma FreshIsGood(s: State)
    requires Fresh(s)
    ensures Good(s)
  { }

  lemma StepKeepsGood(s: State, i: nat)
    requires Good(s) && CanStep(s, i)
    ensures Good(Step(s, i))
  {
    var t := Step(s, i);
    forall key | t[i].Holds(key) ensures s[i].Holds(key) || (!s[i].Committing() && key == s[i].Wanted()) { }
    forall a, b, key | 0 <= a < b < |t| && t[a].Holds(key) ensures !t[b].Holds(key) {
      if a != i { assert s[a].Holds(key); }
    }
  }

  // ---- no deadlock ----

  predicate Bounded(s: State, bound: Id) {
    forall i, n, k | 0 <= i < |s| && 0 <= n < |s[i].txs| && 0 <= k < |s[i].txs[n]| :: s[i].txs[n][k] < bound
  }

  lemma HeldKeysAreBelowTheWantedOne(c: Call, key: Id)
    requires Ordered(c) && InFlight(c) && !c.Done() && !c.Committing() && c.Holds(key)
    ensures key < c.Wanted()
  {
    assert Ascending(c.txs[0]);
  }

  /** Follow the locks from any unfinished call: each blocker waits for a higher
      key than the one before, so the chain ends at a call that can step. */
  lemma {:induction false} SomeoneCanStep(s: State, i: nat, bound: Id) returns (j: nat)
    requires Good(s) && i < |s| && !s[i].Done()
    requires Bounded(s, bound)
    ensures CanStep(s, j)
    decreases if s[i].Committing() then 0 else bound - s[i].Wanted()
  {
    j := i;
    if !CanStep(s, i) {
      var key := s[i].Wanted();
      var holder :| 0 <= holder < |s| && holder != i && s[holder].Holds(key);
      if s[holder].Committing() {
        j := holder;
      } else {
        HeldKeysAreBelowTheWantedOne(s[holder], key);
        assert s[holder].txs[0][s[holder].held] < bound;
        j := SomeoneCanStep(s, holder, bound);
      }
    }
  }

  lemma {:induction false} KeysHaveABound(keys: seq<Id>) returns (bound: Id)
    ensures forall k | 0 <= k < |keys| :: keys[k] < bound
    decreases |keys|
  {
    if keys == [] {
      bound := 0;
    } else {
      var rest := KeysHaveABound(keys[1..]);
      bound := if rest > keys[0] then rest else keys[0] + 1;
      assert forall k | 1 <= k < |keys| :: keys[k] == keys[1..][k - 1];
    }
  }

  lemma {:induction false} TxsHaveABound(txs: seq<seq<Id>>) returns (bound: Id)
    ensures forall n, k | 0 <= n < |txs| && 0 <= k < |txs[n]| :: txs[n][k] < bound
    decreases |txs|
  {
    if txs == [] {
      bound := 0;
    } else {
      var first := KeysHaveABound(txs[0]);
      var rest := TxsHaveABound(txs[1..]);
      bound := if rest > first then rest else first;
      assert forall n | 1 <= n < |txs| :: txs[n] == txs[1..][n - 1];
    }
  }

  lemma {:induction false} StatesHaveABound(s: State) returns (bound: Id)
    ensures Bounded(s, bound)
    decreases |s|
  {
    if s == [] {
      bound := 0;
    } else {
      var first := TxsHaveABound(s[0].txs);
      var rest := StatesHaveABound(s[1..]);
      bound := if rest > first then rest else first;
      assert forall i | 1 <= i < |s| :: s[i] == s[1..][i - 1];
    }
  }

  // ---- runs ----

  /** A schedule of steps, each of which can be taken when its turn comes. */
  predicate Runs(s: State, schedule: seq<nat>)
    decreases |schedule|
  {
    schedule != [] ==> CanStep(s, schedule[0]) && Runs(Step(s, schedule[0]), schedule[1..])
  }

  function After(s: State, schedule: seq<nat>): State
    requires Runs(s, schedule)
    decreases |schedule|
  {
    if schedule == [] then s else After(Step(s, schedule[0]), schedule[1..])
  }

  function WorkLeft(s: State): int {
    if s == [] then 0 else s[0].Work() + WorkLeft(s[1..])
  }

  lemma {:induction false} ReplacingChangesWork(s: State, i: nat, c: Call)
    requires i < |s|
    ensures WorkLeft(s[i := c]) == WorkLeft(s) - s[i].Work() + c.Work()
    decreases |s|
  {
    if i == 0 {
      assert s[i := c][1..] == s[1..];
    } else {
      assert s[i := c][1..] == s[1..][i - 1 := c];
      ReplacingChangesWork(s[1..], i - 1, c);
    }
  }

  lemma StepDoesOneUnitOfWork(s: State, i: nat)
    requires Good(s) && CanStep(s, i)
    ensures WorkLeft(Step(s, i)) == WorkLeft(s) - 1
  {
    var c := s[i];
    ReplacingChangesWork(s, i, if c.Committing() then Call(c.txs[1..], 0) else c.(held := c.held + 1));
  }

  lemma {:induction false} DoneIsNoWork(s: State)
    requires Good(s) && AllDone(s)
    ensures WorkLeft(s) == 0
    decreases |s|
  {
    if s != [] {
      assert forall i | 0 <= i < |s[1..]| :: s[1..][i] == s[i + 1];
      DoneIsNoWork(s[1..]);
    }
  }

  lemma {:induction false} RunsStayGood(s: State, schedule: seq<nat>)
    requires Good(s) && Runs(s, schedule)
    ensures Good(After(s, schedule))
    ensures WorkLeft(After(s, schedule)) == WorkLeft(s) - |schedule|
    decreases |schedule|
  {
    if schedule != [] {
      StepKeepsGood(s, schedule[0]);
      StepDoesOneUnitOfWork(s, schedule[0]);
      RunsStayGood(Step(s, schedule[0]), schedule[1..]);
    }
  }

  /** Deadlock freedom: from calls that start with no lock held and lock in key
      order, every reachable state is either finished or can step. */
  lemma NeverDeadlocks(s: State, schedule: seq<nat>)
    requires Fresh(s) && Runs(s, schedule)
    ensures var t := After(s, schedule); AllDone(t) || exists j :: CanStep(t, j)
    ensures Exclusive(After(s, schedule))
  {
    FreshIsGood(s);
    RunsStayGood(s, schedule);
    var t := After(s, schedule);
    if !AllDone(t) {
      var i :| 0 <= i < |t| && !t[i].Done();
      var bound := StatesHaveABound(t);
      var j := SomeoneCanStep(t, i, bound);
    }
  }

  /** And every schedule ends: one that cannot be extended has taken every lock of
      every call, in a number of steps fixed by the calls alone. */
  lemma EveryScheduleFinishes(s: State, schedule: seq<nat>)
    requires Fresh(s) && Runs(s, schedule)
    requires forall j :: !CanStep(After(s, schedule), j)
    ensures AllDone(After(s, schedule)) && |schedule| == WorkLeft(s)
  {
    NeverDeadlocks(s, schedule);
    FreshIsGood(s);
    RunsStayGood(s, schedule);
    DoneIsNoWork(After(s, schedule));
  }

  /** The order is what does it: two calls that lock the same two rows in opposite
      orders reach a state where neither can step. */
  lemma UnsortedCallsCanDeadlock(a: Id, b: Id)
    requires a != b
    ensures var s := [Call([[a, b]], 0), Call([[b, a]], 0)];
      && Runs(s, [0, 1])
      && !AllDone(After(s, [0, 1]))
      && forall j :: !CanStep(After(s, [0, 1]), j)
  {
    var s := [Call([[a, b]], 0), Call([[b, a]], 0)];
    var s1 := Step(s, 0);
    assert s1 == [Call([[a, b]], 1), Call([[b, a]], 0)];
    assert s1[0].txs[0][0] == a && !s1[0].Holds(b);
    var s2 := Step(s1, 1);
    assert s2 == [Call([[a, b]], 1), Call([[b, a]], 1)];
    assert [0, 1][1..] == [1];
    assert After(s, [0, 1]) == s2;
    assert s2[0].txs[0][0] == a && s2[1].txs[0][0] == b;
    assert s2[0].Holds(a) && s2[1].Holds(b);
  }
}

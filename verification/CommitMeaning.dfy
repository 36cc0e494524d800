/** What the commit callbacks of one attempt mean, without savepoint ids or lists that
    are edited in place: which registrations survive the blocks that were undone, and
    which callbacks a commit then calls, in which order. */
module CommitMeaning {
  type Db = nat

  /** How the code of a callback ends. */
  datatype Ending = Returns | Raises | Interrupts

  /** A callback: what it does when it is called, how it ends, and the databases whose
      transaction it leaves marked for rollback. Equal callbacks are the same function. */
  datatype Callback = Callback(name: nat, robust: bool, body: seq<Op>, ending: Ending, marks: set<Db>)

  /** What code does to the callbacks: register one, run a block of its own that is
      released or undone, or break a connection for good. */
  datatype Op =
    | OnCommit(db: Db, callback: Callback)
    | Block(db: Db, body: seq<Op>, undone: bool)
    | Break(db: Db)

  // ---- what survives ----

  /** The registrations on one database that are left after the code: an undone block
      leaves none of its own there. */
  function Registered(ops: seq<Op>, db: Db): seq<Callback> {
    if ops == [] then [] else RegisteredBy(ops[0], db) + Registered(ops[1..], db)
  }

  function RegisteredBy(op: Op, db: Db): seq<Callback> {
    match op
    case OnCommit(d, callback) => if d == db then [callback] else []
    case Block(d, body, undone) => if d == db && undone then [] else Registered(body, db)
    case Break(_) => []
  }

  /** The connections the code breaks. */
  function Breaks(ops: seq<Op>): set<Db> {
    if ops == [] then {} else BreaksBy(ops[0]) + Breaks(ops[1..])
  }

  function BreaksBy(op: Op): set<Db> {
    match op
    case OnCommit(_, _) => {}
    case Block(_, body, _) => Breaks(body)
    case Break(db) => {db}
  }

  /** What a callback leaves registered: nothing when it raised, and nothing where it
      left the transaction marked for rollback. */
  function Kept(callback: Callback, db: Db): seq<Callback> {
    if callback.ending != Returns || db in callback.marks then [] else Registered(callback.body, db)
  }

  function KeptByAll(calls: seq<Callback>, db: Db): seq<Callback> {
    if calls == [] then [] else KeptByAll(calls[..|calls| - 1], db) + Kept(calls[|calls| - 1], db)
  }

  lemma KeptByOneMore(calls: seq<Callback>, callback: Callback, db: Db)
    ensures KeptByAll(calls + [callback], db) == KeptByAll(calls, db) + Kept(callback, db)
  {
    assert (calls + [callback])[..|calls|] == calls;
  }

  // ---- one generation ----

  datatype Stop = Going | Failed(callback: Callback) | Interrupted(callback: Callback)

  datatype Round = Round(calls: seq<Callback>, broken: set<Db>, stop: Stop)

  /** A call fails when it raises, or returns with a live transaction marked for rollback. */
  predicate Fails(callback: Callback, order: seq<Db>, broken: set<Db>) {
    || callback.ending == Raises
    || (callback.ending == Returns && exists db <- order ::
      db in callback.marks && db !in broken + Breaks(callback.body))
  }

  /** Where a call stops the commit: an interrupt always, a failure unless robust. */
  function StopAt(callback: Callback, order: seq<Db>, broken: set<Db>): Stop {
    if callback.ending == Interrupts then Interrupted(callback)
    else if Fails(callback, order, broken) && !callback.robust then Failed(callback)
    else Going
  }

  /** The callbacks of one generation called in order, up to the first that stops it. */
  function RunRound(pending: seq<Callback>, order: seq<Db>, broken: set<Db>): (round: Round)
    ensures round.calls <= pending && broken <= round.broken
    ensures round.stop == Going ==> round.calls == pending
  {
    if pending == [] then Round([], broken, Going)
    else
      var stop := StopAt(pending[0], order, broken);
      var after := broken + Breaks(pending[0].body);
      if stop != Going then Round([pending[0]], after, stop)
      else
        var rest := RunRound(pending[1..], order, after);
        Round([pending[0]] + rest.calls, rest.broken, rest.stop)
  }

  // ---- generation after generation ----

  /** What waits on the live connections, a database at a time. */
  function Pending(order: seq<Db>, own: map<Db, seq<Callback>>, broken: set<Db>): seq<Callback>
  {
    if order == [] then []
    else (if order[0] in broken || order[0] !in own then [] else own[order[0]]) + Pending(order[1..], own, broken)
  }

  function Next(order: seq<Db>, calls: seq<Callback>): map<Db, seq<Callback>> {
    map db | db in order :: KeptByAll(calls, db)
  }

  /** A whole commit: the pending callbacks, then the ones they left, and so on. */
  function Commit(order: seq<Db>, own: map<Db, seq<Callback>>, broken: set<Db>): (round: Round)
    ensures broken <= round.broken
    decreases Height(Pending(order, own, broken))
  {
    var pending := Pending(order, own, broken);
    if pending == [] then Round([], broken, Going)
    else
      var round := RunRound(pending, order, broken);
      if round.stop != Going then round
      else
        NextIsLower(order, pending, round.broken);
        var rest := Commit(order, Next(order, pending), round.broken);
        Round(pending + rest.calls, rest.broken, rest.stop)
  }

  // Callbacks nest finitely, so the generations come to an end.

  function Max(a: nat, b: nat): nat { if a < b then b else a }

  function Height(callbacks: seq<Callback>): nat {
    if callbacks == [] then 0 else Max(1 + OpsHeight(callbacks[0].body), Height(callbacks[1..]))
  }

  function OpsHeight(ops: seq<Op>): nat {
    if ops == [] then 0 else Max(OpHeight(ops[0]), OpsHeight(ops[1..]))
  }

  function OpHeight(op: Op): nat {
    match op
    case OnCommit(_, callback) => 1 + OpsHeight(callback.body)
    case Block(_, body, _) => OpsHeight(body)
    case Break(_) => 0
  }

  lemma {:induction false} HeightOfBoth(a: seq<Callback>, b: seq<Callback>)
    ensures Height(a + b) == Max(Height(a), Height(b))
  {
    if a == [] {
      assert a + b == b;
    } else {
      HeightOfBoth(a[1..], b);
      assert (a + b)[1..] == a[1..] + b;
    }
  }

  lemma {:induction false} RegisteredIsLower(ops: seq<Op>, db: Db)
    ensures Height(Registered(ops, db)) <= OpsHeight(ops)
    decreases ops
  {
    if ops != [] {
      HeightOfBoth(RegisteredBy(ops[0], db), Registered(ops[1..], db));
      RegisteredIsLower(ops[1..], db);
      if ops[0].Block? { RegisteredIsLower(ops[0].body, db); }
    }
  }

  lemma {:induction false} KeptIsLower(calls: seq<Callback>, db: Db)
    ensures calls != [] ==> Height(KeptByAll(calls, db)) < Height(calls)
    decreases |calls|
  {
    if calls != [] {
      var most, last := calls[..|calls| - 1], calls[|calls| - 1];
      assert most + [last] == calls;
      HeightOfBoth(most, [last]);
      HeightOfBoth(KeptByAll(most, db), Kept(last, db));
      KeptIsLower(most, db);
      RegisteredIsLower(last.body, db);
    }
  }

  lemma {:induction false} NextIsLower(order: seq<Db>, calls: seq<Callback>, broken: set<Db>)
    requires calls != []
    ensures Height(Pending(order, Next(order, calls), broken)) < Height(calls)
  {
    PendingIsLower(order, order, calls, broken);
  }

  lemma {:induction false} PendingIsLower(part: seq<Db>, order: seq<Db>, calls: seq<Callback>, broken: set<Db>)
    requires calls != [] && forall db <- part :: db in order
    ensures Height(Pending(part, Next(order, calls), broken)) < Height(calls)
    decreases part
  {
    if part != [] {
      var own := Next(order, calls);
      KeptIsLower(calls, part[0]);
      PendingIsLower(part[1..], order, calls, broken);
      HeightOfBoth(if part[0] in broken then [] else own[part[0]], Pending(part[1..], own, broken));
    }
  }

  // ---- up to the first call that stops it ----

  function BrokenAfter(broken: set<Db>, calls: seq<Callback>): set<Db>
    decreases |calls|
  {
    if calls == [] then broken else BrokenAfter(broken + Breaks(calls[0].body), calls[1..])
  }

  /** Every callback of a round went on except possibly the last, which is the one the
      round stopped at. */
  lemma {:induction false} RoundStopsAtTheFirst(pending: seq<Callback>, order: seq<Db>, broken: set<Db>)
    ensures var round := RunRound(pending, order, broken);
      && round.broken == BrokenAfter(broken, round.calls)
      && (round.stop == Going ==> round.calls == pending)
      && (round.stop != Going ==> round.calls != [])
      && (forall k | 0 <= k < |round.calls| ::
        StopAt(round.calls[k], order, BrokenAfter(broken, round.calls[..k]))
          == if k == |round.calls| - 1 then round.stop else Going)
    decreases |pending|
  {
    if pending != [] && StopAt(pending[0], order, broken) == Going {
      var after := broken + Breaks(pending[0].body);
      RoundStopsAtTheFirst(pending[1..], order, after);
      var round, rest := RunRound(pending, order, broken), RunRound(pending[1..], order, after);
      assert round.calls[1..] == rest.calls;
      forall k | 0 < k < |round.calls|
        ensures BrokenAfter(broken, round.calls[..k]) == BrokenAfter(after, rest.calls[..k - 1])
      {
        assert round.calls[..k][1..] == rest.calls[..k - 1];
      }
    }
  }

  // ---- in which order, and what stops it ----

  /** Registrations keep the order of the code, and an undone block leaves none of its own
      on its database. */
  lemma {:induction false} RegisteredInOrder(a: seq<Op>, b: seq<Op>, db: Db)
    ensures Registered(a + b, db) == Registered(a, db) + Registered(b, db)
    ensures forall c :: Registered([OnCommit(db, c)], db) == [c]
    ensures forall d, c | d != db :: Registered([OnCommit(d, c)], db) == []
    ensures forall d, body, undone ::
      Registered([Block(d, body, undone)], db) == if undone && d == db then [] else Registered(body, db)
    ensures forall d :: Registered([Break(d)], db) == []
    decreases |a|
  {
    if a == [] {
      assert a + b == b;
    } else {
      RegisteredInOrder(a[1..], b, db);
      assert (a + b)[1..] == a[1..] + b;
    }
  }

  /** A commit calls one database's callbacks after another's, in the order given, and
      leaves out the broken ones. */
  lemma {:induction false} PendingInOrder(a: seq<Db>, b: seq<Db>, own: map<Db, seq<Callback>>, broken: set<Db>)
    ensures Pending(a + b, own, broken) == Pending(a, own, broken) + Pending(b, own, broken)
    ensures forall db | db in own && db !in broken :: Pending([db], own, broken) == own[db]
    ensures forall db | db in broken :: Pending([db], own, broken) == []
    decreases |a|
  {
    if a == [] {
      assert a + b == b;
    } else {
      PendingInOrder(a[1..], b, own, broken);
      assert (a + b)[1..] == a[1..] + b;
    }
  }

  /** A callback a commit goes on after: it did not interrupt, and is robust or did not
      raise. One it stops at: an interrupt, or a failure that is not robust. */
  predicate Passed(c: Callback) { c.ending != Interrupts && (c.robust || c.ending == Returns) }

  predicate StoppedAt(c: Callback, stop: Stop) {
    match stop
    case Going => false
    case Interrupted(callback) => c == callback && c.ending == Interrupts
    case Failed(callback) =>
      c == callback && !c.robust && (c.ending == Raises || (c.ending == Returns && c.marks != {}))
  }

  /** All the calls passed, except that a stop is at the last one. */
  predicate StopsAtTheLast(calls: seq<Callback>, stop: Stop) {
    && (stop == Going ==> forall k | 0 <= k < |calls| :: Passed(calls[k]))
    && (stop != Going ==> calls != [] && StoppedAt(calls[|calls| - 1], stop))
    && (stop != Going ==> forall k | 0 <= k < |calls| - 1 :: Passed(calls[k]))
  }

  /** Which call stops, written out: also one that returned with a live connection marked. */
  lemma OneCallStops(c: Callback, order: seq<Db>, broken: set<Db>)
    ensures RunRound([c], order, broken).calls == [c]
    ensures RunRound([c], order, broken).stop ==
      if c.ending == Interrupts then Interrupted(c)
      else if c.robust then Going
      else if c.ending == Raises || exists db <- order :: db in c.marks && db !in broken && db !in Breaks(c.body)
      then Failed(c)
      else Going
  { }

  lemma {:induction false} RoundStopsAtTheLast(pending: seq<Callback>, order: seq<Db>, broken: set<Db>)
    ensures var round := RunRound(pending, order, broken); StopsAtTheLast(round.calls, round.stop)
    decreases |pending|
  {
    if pending != [] { RoundStopsAtTheLast(pending[1..], order, broken + Breaks(pending[0].body)); }
  }

  /** A commit begins with what was pending, goes on while its calls pass, and what stops
      it is its last call. */
  lemma {:induction false} CommitStopsAtTheLast(order: seq<Db>, own: map<Db, seq<Callback>>, broken: set<Db>)
    ensures var round, pending := Commit(order, own, broken), Pending(order, own, broken);
      && StopsAtTheLast(round.calls, round.stop)
      && (round.calls <= pending || pending <= round.calls)
      && (round.stop == Going ==> pending <= round.calls)
    decreases Height(Pending(order, own, broken))
  {
    hide Passed, StoppedAt, Height, Pending, Next;
    var pending := Pending(order, own, broken);
    if pending != [] {
      var round := RunRound(pending, order, broken);
      RoundStopsAtTheLast(pending, order, broken);
      if round.stop == Going {
        NextIsLower(order, pending, round.broken);
        CommitStopsAtTheLast(order, Next(order, pending), round.broken);
      }
    }
  }

  // ---- exactly once ----

  /** A callback and all those it leads to, as far as they survive on these databases. */
  function Family(callback: Callback, dbs: set<Db>): multiset<Callback> {
    multiset{callback} + Offspring(callback, dbs)
  }

  function Offspring(callback: Callback, dbs: set<Db>): multiset<Callback>
    decreases callback, 0
  {
    if callback.ending == Returns then FamilyOfOps(callback.body, dbs - callback.marks, dbs) else multiset{}
  }

  /** The families of the registrations the code leaves on `on`. */
  function FamilyOfOps(ops: seq<Op>, on: set<Db>, dbs: set<Db>): multiset<Callback> {
    if ops == [] then multiset{} else FamilyOfOp(ops[0], on, dbs) + FamilyOfOps(ops[1..], on, dbs)
  }

  function FamilyOfOp(op: Op, on: set<Db>, dbs: set<Db>): multiset<Callback> {
    match op
    case OnCommit(db, callback) =>
      if db in on then multiset{callback} + Offspring(callback, dbs) else multiset{}
    case Block(db, body, undone) => FamilyOfOps(body, if undone then on - {db} else on, dbs)
    case Break(_) => multiset{}
  }

  function Families(callbacks: seq<Callback>, dbs: set<Db>): multiset<Callback> {
    if callbacks == [] then multiset{} else Family(callbacks[0], dbs) + Families(callbacks[1..], dbs)
  }

  lemma {:induction false} FamiliesOfBoth(a: seq<Callback>, b: seq<Callback>, dbs: set<Db>)
    ensures Families(a + b, dbs) == Families(a, dbs) + Families(b, dbs)
  {
    hide Family;
    if a == [] {
      assert a + b == b;
    } else {
      FamiliesOfBoth(a[1..], b, dbs);
      assert (a + b)[1..] == a[1..] + b;
    }
  }

  lemma FamiliesOfNone(dbs: set<Db>)
    ensures Families([], dbs) == multiset{}
  { }

  lemma {:induction false} OnNothing(ops: seq<Op>, dbs: set<Db>)
    ensures FamilyOfOps(ops, {}, dbs) == multiset{}
    decreases ops
  {
    if ops != [] {
      OnNothing(ops[1..], dbs);
      if ops[0].Block? {
        OnNothing(ops[0].body, dbs);
        assert {} - {ops[0].db} == {};
      }
    }
  }

  lemma {:induction false} OnBoth(ops: seq<Op>, a: set<Db>, b: set<Db>, dbs: set<Db>)
    requires a !! b
    ensures FamilyOfOps(ops, a + b, dbs) == FamilyOfOps(ops, a, dbs) + FamilyOfOps(ops, b, dbs)
    decreases ops
  {
    hide FamilyOfOp;
    if ops != [] {
      OnBoth(ops[1..], a, b, dbs);
      OnBothBy(ops[0], a, b, dbs);
    }
  }

  lemma {:induction false} OnBothBy(op: Op, a: set<Db>, b: set<Db>, dbs: set<Db>)
    requires a !! b
    ensures FamilyOfOp(op, a + b, dbs) == FamilyOfOp(op, a, dbs) + FamilyOfOp(op, b, dbs)
    decreases op
  {
    hide FamilyOfOps, Offspring;
    if op.Block? {
      var d := {op.db};
      OnBoth(op.body, a, b, dbs);
      OnBoth(op.body, a - d, b - d, dbs);
      assert (a - d) + (b - d) == (a + b) - d;
    }
  }

  lemma {:induction false} OnOne(ops: seq<Op>, db: Db, dbs: set<Db>)
    ensures FamilyOfOps(ops, {db}, dbs) == Families(Registered(ops, db), dbs)
    decreases ops
  {
    hide FamilyOfOp, RegisteredBy, Family;
    if ops != [] {
      OnOne(ops[1..], db, dbs);
      OnOneBy(ops[0], db, dbs);
      FamiliesOfBoth(RegisteredBy(ops[0], db), Registered(ops[1..], db), dbs);
    }
  }

  lemma {:induction false} OnOneBy(op: Op, db: Db, dbs: set<Db>)
    ensures FamilyOfOp(op, {db}, dbs) == Families(RegisteredBy(op, db), dbs)
    decreases op
  {
    hide FamilyOfOps, Registered, Offspring;
    if op.Block? {
      OnOne(op.body, db, dbs);
      OnNothing(op.body, dbs);
      assert {db} - {op.db} == if op.db == db then {} else {db};
    }
  }

  predicate Distinct(order: seq<Db>) {
    forall i, j | 0 <= i < j < |order| :: order[i] != order[j]
  }

  function Live(order: seq<Db>, broken: set<Db>): set<Db> {
    set db | db in order && db !in broken
  }

  /** Spread over the live databases, the registrations left are those left on all of them. */
  lemma {:induction false} SpreadOverDatabases(order: seq<Db>, own: map<Db, seq<Callback>>, broken: set<Db>,
          ops: seq<Op>, dbs: set<Db>, lost: set<Db>)
    requires Distinct(order)
    requires forall db <- order :: db in own && own[db] == if db in lost then [] else Registered(ops, db)
    ensures Families(Pending(order, own, broken), dbs) == FamilyOfOps(ops, Live(order, broken) - lost, dbs)
    decreases order
  {
    hide FamilyOfOps, Families;
    if order == [] {
      FamiliesOfNone(dbs);
      OnNothing(ops, dbs);
      assert Live(order, broken) - lost == {};
    } else {
      var db, rest := order[0], order[1..];
      SpreadOverDatabases(rest, own, broken, ops, dbs, lost);
      FamiliesOfBoth(if db in broken then [] else own[db], Pending(rest, own, broken), dbs);
      var others := Live(rest, broken) - lost;
      if db in broken || db in lost {
        FamiliesOfNone(dbs);
        assert Live(order, broken) - lost == others;
      } else {
        OnOne(ops, db, dbs);
        OnBoth(ops, {db}, others, dbs);
        assert Live(order, broken) - lost == {db} + others;
      }
    }
  }

  lemma {:induction false} PendingAdds(order: seq<Db>, a: map<Db, seq<Callback>>, b: map<Db, seq<Callback>>,
          both: map<Db, seq<Callback>>, broken: set<Db>, dbs: set<Db>)
    requires forall db <- order :: db in a && db in b && db in both && both[db] == a[db] + b[db]
    ensures Families(Pending(order, both, broken), dbs) ==
      Families(Pending(order, a, broken), dbs) + Families(Pending(order, b, broken), dbs)
    decreases order
  {
    hide Families;
    if order == [] {
      FamiliesOfNone(dbs);
    } else {
      var db, rest := order[0], order[1..];
      PendingAdds(rest, a, b, both, broken, dbs);
      if db !in broken {
        FamiliesOfBoth(a[db], Pending(rest, a, broken), dbs);
        FamiliesOfBoth(b[db], Pending(rest, b, broken), dbs);
        FamiliesOfBoth(both[db], Pending(rest, both, broken), dbs);
        FamiliesOfBoth(a[db], b[db], dbs);
      } else {
        EmptyFirst(rest, a, broken);
        EmptyFirst(rest, b, broken);
        EmptyFirst(rest, both, broken);
      }
    }
  }

  lemma EmptyFirst(rest: seq<Db>, own: map<Db, seq<Callback>>, broken: set<Db>)
    ensures [] + Pending(rest, own, broken) == Pending(rest, own, broken)
  { }

  function OffspringOfAll(calls: seq<Callback>, dbs: set<Db>): multiset<Callback> {
    if calls == [] then multiset{} else OffspringOfAll(calls[..|calls| - 1], dbs) + Offspring(calls[|calls| - 1], dbs)
  }

  /** What one callback leaves on the live databases is its offspring there. */
  lemma KeptIsOffspring(order: seq<Db>, callback: Callback, own: map<Db, seq<Callback>>, broken: set<Db>)
    requires Distinct(order) && forall db <- order :: db in own && own[db] == Kept(callback, db)
    ensures Families(Pending(order, own, broken), Live(order, broken)) == Offspring(callback, Live(order, broken))
  {
    hide Families, FamilyOfOps, Registered;
    var live := Live(order, broken);
    var lost := if callback.ending == Returns then callback.marks else live + set db | db in order;
    SpreadOverDatabases(order, own, broken, callback.body, live, lost);
    if callback.ending != Returns {
      OnNothing(callback.body, live);
      assert live - lost == {};
    }
  }

  /** The next generation is made of the offspring of this one. */
  lemma {:induction false} NextIsOffspring(order: seq<Db>, calls: seq<Callback>, broken: set<Db>)
    requires Distinct(order)
    ensures Families(Pending(order, Next(order, calls), broken), Live(order, broken)) ==
      OffspringOfAll(calls, Live(order, broken))
    decreases |calls|
  {
    hide Families, FamilyOfOps, Offspring, Kept;
    var live := Live(order, broken);
    if calls == [] {
      SpreadOverDatabases(order, Next(order, calls), broken, [], live, {});
      NothingRegistered(live - {}, live);
    } else {
      var most, last := calls[..|calls| - 1], calls[|calls| - 1];
      var own := map db | db in order :: Kept(last, db);
      NextIsOffspring(order, most, broken);
      KeptIsOffspring(order, last, own, broken);
      PendingAdds(order, Next(order, most), own, Next(order, calls), broken, live);
    }
  }

  lemma NothingRegistered(on: set<Db>, dbs: set<Db>)
    ensures FamilyOfOps([], on, dbs) == multiset{}
  { }

  lemma {:induction false} FamiliesAreCallsAndOffspring(calls: seq<Callback>, dbs: set<Db>)
    ensures Families(calls, dbs) == multiset(calls) + OffspringOfAll(calls, dbs)
    decreases |calls|
  {
    hide Offspring;
    if calls != [] {
      var most, last := calls[..|calls| - 1], calls[|calls| - 1];
      assert most + [last] == calls;
      FamiliesAreCallsAndOffspring(most, dbs);
      FamiliesOfBoth(most, [last], dbs);
      assert Families([last], dbs) == Family(last, dbs);
    }
  }

  lemma {:induction false} OffspringShrinks(calls: seq<Callback>, fewer: set<Db>, dbs: set<Db>)
    requires fewer <= dbs
    ensures OffspringOfAll(calls, fewer) <= OffspringOfAll(calls, dbs)
    decreases |calls|
  {
    hide FamilyOfOps;
    if calls != [] {
      var last := calls[|calls| - 1];
      OffspringShrinks(calls[..|calls| - 1], fewer, dbs);
      OpsShrink(last.body, fewer - last.marks, dbs - last.marks, fewer, dbs);
    }
  }

  lemma {:induction false} OpsShrink(ops: seq<Op>, onFewer: set<Db>, on: set<Db>, fewer: set<Db>, dbs: set<Db>)
    requires onFewer <= on && fewer <= dbs
    ensures FamilyOfOps(ops, onFewer, fewer) <= FamilyOfOps(ops, on, dbs)
    decreases ops
  {
    hide FamilyOfOp;
    if ops != [] {
      OpsShrink(ops[1..], onFewer, on, fewer, dbs);
      OpShrinks(ops[0], onFewer, on, fewer, dbs);
    }
  }

  lemma {:induction false} OpShrinks(op: Op, onFewer: set<Db>, on: set<Db>, fewer: set<Db>, dbs: set<Db>)
    requires onFewer <= on && fewer <= dbs
    ensures FamilyOfOp(op, onFewer, fewer) <= FamilyOfOp(op, on, dbs)
    decreases op
  {
    hide FamilyOfOps;
    match op
    case OnCommit(_, callback) =>
      OpsShrink(callback.body, fewer - callback.marks, dbs - callback.marks, fewer, dbs);
    case Block(db, body, undone) =>
      OpsShrink(body, if undone then onFewer - {db} else onFewer, if undone then on - {db} else on, fewer, dbs);
    case Break(_) =>
  }

  lemma LiveShrinks(order: seq<Db>, broken: set<Db>, more: set<Db>)
    requires broken <= more
    ensures Live(order, more) <= Live(order, broken)
  { }

  /** A commit calls every callback at most once, and only those the pending ones lead
      to. When nothing stops it and no connection breaks, it calls each of them once. */
  lemma {:induction false} EachCallbackOnce(order: seq<Db>, own: map<Db, seq<Callback>>, broken: set<Db>)
    requires Distinct(order)
    ensures var round := Commit(order, own, broken);
      var families := Families(Pending(order, own, broken), Live(order, broken));
      && multiset(round.calls) <= families
      && (round.stop == Going && round.broken == broken ==> multiset(round.calls) == families)
    decreases Height(Pending(order, own, broken))
  {
    hide Families, OffspringOfAll, Height, Pending, RunRound, Live, KeptByAll;
    var pending, live := Pending(order, own, broken), Live(order, broken);
    FamiliesAreCallsAndOffspring(pending, live);
    if pending == [] {
      FamiliesOfNone(live);
      return;
    }
    var round := RunRound(pending, order, broken);
    if round.stop == Going {
      NextIsLower(order, pending, round.broken);
      EachCallbackOnce(order, Next(order, pending), round.broken);
      NextIsOffspring(order, pending, round.broken);
      assert Live(order, round.broken) <= live by { LiveShrinks(order, broken, round.broken); }
      OffspringShrinks(pending, Live(order, round.broken), live);
      var rest := Commit(order, Next(order, pending), round.broken);
      assert Commit(order, own, broken) == Round(pending + rest.calls, rest.broken, rest.stop);
      assert multiset(pending + rest.calls) == multiset(pending) + multiset(rest.calls);
      if rest.broken == broken { assert round.broken == broken; }
    } else {
      assert pending == round.calls + pending[|round.calls|..];
    }
  }

  // ---- one attempt ----

  /** The body's commit is left out when a connection was lost or cannot go on. */
  predicate Skips(order: seq<Db>, lost: bool, broken: set<Db>) {
    lost || exists db <- order :: db in broken
  }

  /** What the body leaves on each database: nothing where its savepoint was rolled back. */
  function LeftByBody(order: seq<Db>, body: seq<Op>, rolledBack: set<Db>): map<Db, seq<Callback>> {
    map db | db in order :: if db in rolledBack then [] else Registered(body, db)
  }

  /** What waits when the outcome has been written. */
  function LeftByOutcome(order: seq<Db>, waiting: map<Db, seq<Callback>>, outcome: seq<Op>): map<Db, seq<Callback>> {
    map db | db in order :: (if db in waiting then waiting[db] else []) + Registered(outcome, db)
  }

  /** How an attempt's body and the write of its outcome go. The body fails when it raises or
      its savepoints cannot be released. The write raises when it fails by itself, and when
      the worker's own database is one that is held and broken. */
  datatype Course = Course(body: seq<Op>, rolledBack: set<Db>, lost: bool, interrupted: bool, fails: bool,
                           outcome: seq<Op>, worker: Db, raises: bool)

  predicate Lands(course: Course, order: seq<Db>, broken: set<Db>) {
    !course.raises && !(course.worker in order && course.worker in broken)
  }

  /** The body's commit, and the databases that are broken then. */
  function BodyRound(order: seq<Db>, course: Course, broken: set<Db>): Round {
    var left, after := LeftByBody(order, course.body, course.rolledBack), broken + Breaks(course.body);
    if course.interrupted || Skips(order, course.lost, after) then Round([], after, Going)
    else Commit(order, left, after)
  }

  /** What the body's commit left waiting: everything when it was left out. */
  function Waiting(order: seq<Db>, course: Course, broken: set<Db>): map<Db, seq<Callback>> {
    if Skips(order, course.lost, broken + Breaks(course.body)) then LeftByBody(order, course.body, course.rolledBack)
    else map[]
  }

  /** The calls of one attempt: those of the body's commit, then, unless an interrupt or
      the outcome's write that raised went past it, those of the commit of its outcome. */
  function AttemptRound(order: seq<Db>, course: Course, broken: set<Db>): Round {
    var first := BodyRound(order, course, broken);
    if course.interrupted || first.stop.Interrupted? || !Lands(course, order, first.broken) then first
    else
      var waiting := LeftByOutcome(order, Waiting(order, course, broken), course.outcome);
      var second := Commit(order, waiting, first.broken + Breaks(course.outcome));
      Round(first.calls + second.calls, second.broken, if first.stop != Going then first.stop else second.stop)
  }

  /** The callback the attempt is recorded as failing with: none when its body failed by itself. */
  function Recorded(order: seq<Db>, course: Course, broken: set<Db>): Stop {
    var stop := BodyRound(order, course, broken).stop;
    if stop.Failed? && !course.fails then stop else Going
  }

  /** The callback whose error or interrupt reaches the caller of run_tasks(). */
  function Raised(order: seq<Db>, course: Course, broken: set<Db>): Stop {
    var first := BodyRound(order, course, broken);
    if first.stop.Interrupted? then first.stop
    else if course.interrupted || !Lands(course, order, first.broken) then Going
    else
      var waiting := LeftByOutcome(order, Waiting(order, course, broken), course.outcome);
      Commit(order, waiting, first.broken + Breaks(course.outcome)).stop
  }

  /** The body's callbacks are called by a commit of their own, first, when no connection was
      lost or is broken then; otherwise they wait for the outcome's and are called with it. */
  lemma WhenTheBodyCommits(order: seq<Db>, course: Course, broken: set<Db>)
    requires !course.interrupted
    ensures var left, after := LeftByBody(order, course.body, course.rolledBack), broken + Breaks(course.body);
      var whole := AttemptRound(order, course, broken);
      if !course.lost && forall db <- order :: db !in after then Commit(order, left, after).calls <= whole.calls
      else if Lands(course, order, after) then
        whole.calls == Commit(order, LeftByOutcome(order, left, course.outcome), after + Breaks(course.outcome)).calls
      else whole.calls == []
  {
    hide Commit, Breaks, LeftByBody, LeftByOutcome, Lands;
  }

  /** A callback error that reaches the caller is the attempt's last call, an interrupt or
      a failure that is not robust. One that is recorded was called and is such a failure,
      and is recorded only for a body that did not fail. With neither, every call passed. */
  lemma AttemptStops(order: seq<Db>, course: Course, broken: set<Db>)
    ensures var calls, recorded, raised :=
        AttemptRound(order, course, broken).calls, Recorded(order, course, broken), Raised(order, course, broken);
      && (raised != Going ==> calls != [] && StoppedAt(calls[|calls| - 1], raised))
      && (recorded != Going ==>
        recorded.Failed? && recorded.callback in calls && StoppedAt(recorded.callback, recorded))
      && (course.fails ==> recorded == Going)
      && (!course.fails && recorded == Going && raised == Going ==> forall c <- calls :: Passed(c))
      && (!course.fails ==>
        AttemptRound(order, course, broken).stop == if recorded != Going then recorded else raised)
  {
    hide Commit, Passed, Breaks, Lands, Skips, LeftByBody, LeftByOutcome;
    var first := BodyRound(order, course, broken);
    CommitStopsAtTheLast(order, LeftByBody(order, course.body, course.rolledBack), broken + Breaks(course.body));
    var waiting := LeftByOutcome(order, Waiting(order, course, broken), course.outcome);
    CommitStopsAtTheLast(order, waiting, first.broken + Breaks(course.outcome));
    if first.stop != Going { assert first.calls[|first.calls| - 1] in AttemptRound(order, course, broken).calls; }
  }

  /** The attempt got to the commit of its outcome. */
  predicate RanItsCourse(order: seq<Db>, course: Course, broken: set<Db>) {
    var first := BodyRound(order, course, broken);
    !course.interrupted && !first.stop.Interrupted? && Lands(course, order, first.broken)
  }

  /** The families a commit may call, of what code left; all of them when it is not
      stopped and nothing breaks. */
  lemma CommitOfOps(order: seq<Db>, own: map<Db, seq<Callback>>, ops: seq<Op>, without: set<Db>, broken: set<Db>,
                    atFirst: set<Db>)
    requires Distinct(order) && atFirst <= broken
    requires forall db <- order :: db in own && own[db] == if db in without then [] else Registered(ops, db)
    ensures var round := Commit(order, own, broken);
      var live := Live(order, atFirst);
      && multiset(round.calls) <= FamilyOfOps(ops, live - without, live)
      && (round.stop == Going && round.broken == atFirst ==>
        multiset(round.calls) == FamilyOfOps(ops, live - without, live))
  {
    hide Families, FamilyOfOps, Commit, Pending, Registered, Live;
    var live := Live(order, broken);
    EachCallbackOnce(order, own, broken);
    SpreadOverDatabases(order, own, broken, ops, live, without);
    LiveShrinks(order, atFirst, broken);
    OpsShrink(ops, live - without, Live(order, atFirst) - without, live, Live(order, atFirst));
    if Commit(order, own, broken).broken == atFirst { assert broken == atFirst; }
  }

  /** The same for what two pieces of code left. */
  lemma CommitOfBoth(order: seq<Db>, body: seq<Op>, without: set<Db>, outcome: seq<Op>, broken: set<Db>,
          atFirst: set<Db>)
    requires Distinct(order) && atFirst <= broken
    ensures var round := Commit(order, LeftByOutcome(order, LeftByBody(order, body, without), outcome), broken);
      var live := Live(order, atFirst);
      var all := FamilyOfOps(body, live - without, live) + FamilyOfOps(outcome, live, live);
      && multiset(round.calls) <= all
      && (round.stop == Going && round.broken == atFirst ==> multiset(round.calls) == all)
  {
    hide Families, FamilyOfOps, Commit, Pending, Registered, Live;
    var left, late := LeftByBody(order, body, without), LeftByOutcome(order, map[], outcome);
    var own, live, first := LeftByOutcome(order, left, outcome), Live(order, broken), Live(order, atFirst);
    EachCallbackOnce(order, own, broken);
    LateIsRegistered(order, outcome);
    PendingAdds(order, left, late, own, broken, live);
    SpreadOverDatabases(order, left, broken, body, live, without);
    SpreadOverDatabases(order, late, broken, outcome, live, {});
    LiveShrinks(order, atFirst, broken);
    OpsShrink(body, live - without, first - without, live, first);
    assert live - {} == live;
    OpsShrink(outcome, live, first, live, first);
    if Commit(order, own, broken).broken == atFirst { assert broken == atFirst; }
  }

  lemma LateIsRegistered(order: seq<Db>, outcome: seq<Op>)
    ensures var late := LeftByOutcome(order, map[], outcome);
      forall db <- order :: db in late && late[db] == Registered(outcome, db)
  {
    assert forall db <- order :: [] + Registered(outcome, db) == Registered(outcome, db);
  }

  /** An attempt calls nothing twice, and nothing but what the body left where it was not
      rolled back, what the outcome left, and what these led to. When it ran its course,
      nothing stopped it and no connection broke, it calls all of that. */
  lemma AttemptCallsEachOnce(order: seq<Db>, course: Course, broken: set<Db>)
    requires Distinct(order)
    ensures var round := AttemptRound(order, course, broken);
      var live := Live(order, broken);
      var all := FamilyOfOps(course.body, live - course.rolledBack, live) + FamilyOfOps(course.outcome, live, live);
      && multiset(round.calls) <= all
      && (RanItsCourse(order, course, broken) && round.stop == Going && round.broken == broken ==>
        multiset(round.calls) == all)
  {
    hide FamilyOfOps, Commit, Registered, Live, Breaks, Skips, Lands;
    var left, after := LeftByBody(order, course.body, course.rolledBack), broken + Breaks(course.body);
    var live, late := Live(order, broken), Breaks(course.outcome);
    var first := BodyRound(order, course, broken);
    if course.interrupted {
    } else if Skips(order, course.lost, after) {
      CommitOfBoth(order, course.body, course.rolledBack, course.outcome, after + late, broken);
      var second := Commit(order, LeftByOutcome(order, left, course.outcome), after + late);
      assert [] + second.calls == second.calls;
    } else {
      CommitOfOps(order, left, course.body, course.rolledBack, after, broken);
      if RanItsCourse(order, course, broken) {
        LateIsRegistered(order, course.outcome);
        var left := LeftByOutcome(order, map[], course.outcome);
        CommitOfOps(order, left, course.outcome, {}, first.broken + late, broken);
        assert live - {} == live;
        var second := Commit(order, LeftByOutcome(order, map[], course.outcome), first.broken + late);
        assert multiset(first.calls + second.calls) == multiset(first.calls) + multiset(second.calls);
        if second.broken == broken { assert first.broken == broken; }
      }
    }
  }

  /** A body that breaks the worker's own connection: its commit is left out and the
      outcome's write raises, so nothing is called. */
  lemma BrokenWorkerCallsNothing(order: seq<Db>, course: Course, broken: set<Db>)
    requires course.worker in order && course.worker in broken + Breaks(course.body)
    ensures AttemptRound(order, course, broken).calls == []
  { }
}

/** One attempt of run_tasks() on the connections its caller holds inside atomic blocks:
    the list of callbacks shared with the caller, the savepoint ids that decide what a
    rollback removes from it, and the commit that stands in for a worker's. */
module AttemptCallbacks {
  import opened CommitMeaning

  /** An entry of run_on_commit: the savepoints it was registered under, and its callback. */
  datatype Hook = Hook(sids: set<nat>, callback: Callback)

  function Calls(hooks: seq<Hook>): (calls: seq<Callback>)
    ensures |calls| == |hooks| && forall i | 0 <= i < |hooks| :: calls[i] == hooks[i].callback
  {
    seq(|hooks|, i requires 0 <= i < |hooks| => hooks[i].callback)
  }

  /** What a rollback of one savepoint leaves of the list. */
  function Without(hooks: seq<Hook>, id: nat): seq<Hook> {
    if hooks == [] then []
    else
      var n := |hooks| - 1;
      Without(hooks[..n], id) + (if id in hooks[n].sids then [] else [hooks[n]])
  }

  predicate NewTo(hooks: seq<Hook>, id: nat) { forall h <- hooks :: id !in h.sids }

  /** The list was only appended to, under these savepoints; on a live connection the
      entries appended are these callbacks. */
  predicate Grew(before: seq<Hook>, after: seq<Hook>, sids: set<nat>, added: seq<Callback>, live: bool) {
    && before <= after
    && (forall i | |before| <= i < |after| :: sids <= after[i].sids)
    && (live ==> Calls(after[|before|..]) == added)
  }

  lemma GrewTwice(a: seq<Hook>, b: seq<Hook>, c: seq<Hook>, sids: set<nat>, first: seq<Callback>,
                  second: seq<Callback>, liveThen: bool, live: bool)
    requires Grew(a, b, sids, first, liveThen) && Grew(b, c, sids, second, live) && (live ==> liveThen)
    ensures Grew(a, c, sids, first + second, live)
  {
    assert c[|a|..] == b[|a|..] + c[|b|..];
  }

  lemma OwnTail(before: seq<Hook>, after: seq<Hook>, sids: set<nat>, callers: seq<Callback>, added: seq<Callback>)
    requires Grew(before, after, sids, added, true) && callers <= Calls(before)
    ensures |callers| <= |before| && |callers| <= |after|
    ensures Calls(after)[|callers|..] == Calls(before)[|callers|..] + added
  {
    var n := |callers|;
    assert Calls(after)[n..] == Calls(before)[n..] + Calls(after[|before|..]);
  }

  lemma {:induction false} KeptWithout(hooks: seq<Hook>, id: nat)
    requires NewTo(hooks, id)
    ensures Without(hooks, id) == hooks
    decreases |hooks|
  {
    if hooks != [] {
      var n := |hooks| - 1;
      assert hooks[..n] + [hooks[n]] == hooks && hooks[n] in hooks;
      KeptWithout(hooks[..n], id);
    }
  }

  /** Undoing a block whose id is new removes exactly what was registered in it. */
  lemma {:induction false} UndoneIsDropped(before: seq<Hook>, after: seq<Hook>, id: nat)
    requires before <= after && NewTo(before, id)
    requires forall i | |before| <= i < |after| :: id in after[i].sids
    ensures Without(after, id) == before
    decreases |after|
  {
    if |after| == |before| {
      KeptWithout(after, id);
    } else {
      UndoneIsDropped(before, after[..|after| - 1], id);
    }
  }

  /** Every list grew, by its own entry of `added`. */
  predicate AllGrew(before: map<Db, seq<Hook>>, after: map<Db, seq<Hook>>, open: map<Db, set<nat>>,
                    added: map<Db, seq<Callback>>, broken: set<Db>) {
    && before.Keys == after.Keys == open.Keys == added.Keys
    && forall db <- before :: Grew(before[db], after[db], open[db], added[db], db !in broken)
  }

  lemma AllGrewTwice(a: map<Db, seq<Hook>>, b: map<Db, seq<Hook>>, c: map<Db, seq<Hook>>, open: map<Db, set<nat>>,
                     first: map<Db, seq<Callback>>, second: map<Db, seq<Callback>>, both: map<Db, seq<Callback>>,
                     brokenThen: set<Db>, broken: set<Db>)
    requires AllGrew(a, b, open, first, brokenThen) && AllGrew(b, c, open, second, broken) && brokenThen <= broken
    requires both.Keys == first.Keys && forall db <- both :: both[db] == first[db] + second[db]
    ensures AllGrew(a, c, open, both, broken)
  {
    forall db | db in a ensures Grew(a[db], c[db], open[db], both[db], db !in broken) {
      GrewTwice(a[db], b[db], c[db], open[db], first[db], second[db], db !in brokenThen, db !in broken);
    }
  }

  /** Around a block with a new id the lists grow by what the block leaves: nothing on
      its own database when it is undone. */
  lemma BlockGrows(before: map<Db, seq<Hook>>, within: map<Db, seq<Hook>>, after: map<Db, seq<Hook>>,
                   open: map<Db, set<nat>>,
                   db: Db, id: nat, added: map<Db, seq<Callback>>, undone: bool, broken: set<Db>)
    requires db in open && AllGrew(before, within, open[db := open[db] + {id}], added, broken)
    requires NewTo(before[db], id)
    requires after == if undone && db !in broken then within[db := Without(within[db], id)] else within
    ensures AllGrew(before, after, open, if undone then added[db := []] else added, broken)
  {
    hide Grew;
    forall d | d in before
      ensures Grew(before[d], after[d], open[d], if undone && d == db then [] else added[d], d !in broken)
    {
      if d == db { BlockGrowsHere(before[d], within[d], after[d], id, open[d], added[d], undone, d !in broken); }
    }
  }

  lemma BlockGrowsHere(before: seq<Hook>, within: seq<Hook>, after: seq<Hook>, id: nat, sids: set<nat>,
                       added: seq<Callback>, undone: bool, live: bool)
    requires Grew(before, within, sids + {id}, added, live) && NewTo(before, id)
    requires after == if undone && live then Without(within, id) else within
    ensures Grew(before, after, sids, if undone then [] else added, live)
  {
    if undone && live { UndoneIsDropped(before, within, id); }
  }

  /** What code leaves registered on each of these databases. */
  function LeftBy(ops: seq<Op>, dbs: set<Db>): map<Db, seq<Callback>> {
    map db | db in dbs :: Registered(ops, db)
  }

  function LeftByOp(op: Op, dbs: set<Db>): map<Db, seq<Callback>> {
    map db | db in dbs :: RegisteredBy(op, db)
  }

  /** The same around savepoints on `conns`, those on `undone` rolled back. */
  function LeftAround(ops: seq<Op>, conns: seq<Db>, undone: set<Db>, dbs: set<Db>): map<Db, seq<Callback>> {
    map db | db in dbs :: if db in conns && db in undone then [] else Registered(ops, db)
  }

  /** On a broken connection it does not matter what was added. */
  lemma SameWhenBroken(before: map<Db, seq<Hook>>, after: map<Db, seq<Hook>>, open: map<Db, set<nat>>,
                       db: Db, added: map<Db, seq<Callback>>, broken: set<Db>)
    requires AllGrew(before, after, open, added, broken) && db in broken && db in open
    ensures AllGrew(before, after, open, added[db := []], broken)
  { }

  lemma RegisterGrows(hooks: map<Db, seq<Hook>>, open: map<Db, set<nat>>, db: Db, callback: Callback, broken: set<Db>)
    requires hooks.Keys == open.Keys
    ensures var after := if db in hooks then hooks[db := hooks[db] + [Hook(open[db], callback)]] else hooks;
      AllGrew(hooks, after, open, LeftByOp(OnCommit(db, callback), open.Keys), broken)
  {
    if db in hooks {
      var hook := Hook(open[db], callback);
      assert Calls([hook]) == [callback] && (hooks[db] + [hook])[|hooks[db]|..] == [hook];
    }
  }

  lemma LeftByBlock(db: Db, body: seq<Op>, undone: bool, dbs: set<Db>)
    ensures LeftByOp(Block(db, body, undone), dbs) ==
      if undone && db in dbs then LeftBy(body, dbs)[db := []] else LeftBy(body, dbs)
  { }

  lemma LeftAroundNothing(ops: seq<Op>, undone: set<Db>, dbs: set<Db>)
    ensures LeftAround(ops, [], undone, dbs) == LeftBy(ops, dbs)
  { }

  lemma LeftAroundOneMore(ops: seq<Op>, conns: seq<Db>, undone: set<Db>, dbs: set<Db>)
    requires Distinct(conns) && conns != [] && conns[0] in dbs
    ensures var inner := LeftAround(ops, conns[1..], undone, dbs);
      LeftAround(ops, conns, undone, dbs) == if conns[0] in undone then inner[conns[0] := []] else inner
  {
    hide Registered;
    assert forall db :: db in conns <==> db == conns[0] || db in conns[1..];
  }

  lemma ClosedAgain(open: map<Db, set<nat>>, db: Db, id: nat)
    requires db in open && id !in open[db]
    ensures var within := open[db := open[db] + {id}]; within[db := within[db] - {id}] == open
  {
    assert open[db] + {id} - {id} == open[db];
  }

  function KeptBy(callback: Callback, dbs: set<Db>): map<Db, seq<Callback>> {
    map db | db in dbs :: Kept(callback, db)
  }

  lemma KeptByWithin(callback: Callback, order: seq<Db>, dbs: set<Db>)
    requires dbs == set db | db in order
    ensures var undone := if callback.ending != Returns then dbs else callback.marks;
      KeptBy(callback, dbs) == LeftAround(callback.body, order, undone, dbs)
  {
    hide Registered;
  }

  lemma {:induction false} StillOld(hooks: seq<Hook>, id: nat)
    ensures forall h <- Without(hooks, id) :: h in hooks
    decreases |hooks|
  {
    if hooks != [] { StillOld(hooks[..|hooks| - 1], id); }
  }

  /** The lists with the attempt's own entries cut off, on the live connections of `taken`. */
  function Cut(hooks: map<Db, seq<Hook>>, callers: map<Db, seq<Callback>>, taken: seq<Db>,
               broken: set<Db>): map<Db, seq<Hook>> {
    map db | db in hooks ::
      if db in taken && db !in broken && db in callers && |callers[db]| <= |hooks[db]|
      then hooks[db][..|callers[db]|]
      else hooks[db]
  }

  lemma CutOneMore(hooks: map<Db, seq<Hook>>, callers: map<Db, seq<Callback>>, order: seq<Db>, i: nat, broken: set<Db>)
    requires i < |order| && Distinct(order) && order[i] in hooks && order[i] in callers
    ensures var before, db := Cut(hooks, callers, order[..i], broken), order[i];
      && before[db] == hooks[db]
      && Cut(hooks, callers, order[..i + 1], broken)
        == if db !in broken && |callers[db]| <= |hooks[db]| then before[db := hooks[db][..|callers[db]|]] else before
  {
    assert order[..i + 1] == order[..i] + [order[i]];
    assert order[i] !in order[..i];
  }

  /** `round` is what has been called of the pending callbacks, and what is to come. */
  predicate SoFar(pending: seq<Callback>, i: nat, order: seq<Db>, broken: set<Db>, round: Round)
    requires i <= |pending|
  {
    var rest := RunRound(pending[i..], order, broken);
    round == Round(pending[..i] + rest.calls, rest.broken, rest.stop)
  }

  lemma NoCallYet(pending: seq<Callback>, order: seq<Db>, broken: set<Db>)
    ensures SoFar(pending, 0, order, broken, RunRound(pending, order, broken))
  {
    assert pending[0..] == pending;
  }

  lemma AllCalled(pending: seq<Callback>, order: seq<Db>, broken: set<Db>, round: Round)
    requires SoFar(pending, |pending|, order, broken, round)
    ensures round == Round(pending, broken, Going) && pending[..|pending|] == pending
  { }

  lemma OneMoreCall(pending: seq<Callback>, i: nat, order: seq<Db>, broken: set<Db>, round: Round)
    requires i < |pending| && SoFar(pending, i, order, broken, round)
    ensures var stop, after := StopAt(pending[i], order, broken), broken + Breaks(pending[i].body);
      if stop == Going then SoFar(pending, i + 1, order, after, round)
      else round == Round(pending[..i + 1], after, stop)
  {
    hide StopAt, Breaks;
    assert pending[i..][1..] == pending[i + 1..] && pending[..i + 1] == pending[..i] + [pending[i]];
  }

  /** The log has grown by the first i of these calls. */
  predicate Logged(before: seq<Callback>, now: seq<Callback>, calls: seq<Callback>, i: nat) {
    i <= |calls| && now == before + calls[..i]
  }

  lemma OneMoreLogged(before: seq<Callback>, now: seq<Callback>, calls: seq<Callback>, i: nat)
    requires i < |calls| && Logged(before, now, calls, i)
    ensures Logged(before, now + [calls[i]], calls, i + 1) && calls[..i + 1] == calls[..i] + [calls[i]]
  { }

  lemma AllLogged(before: seq<Callback>, now: seq<Callback>, calls: seq<Callback>, i: nat)
    requires Logged(before, now, calls, i)
    ensures now == before + calls[..i]
  { }

  lemma StopOf(callback: Callback, order: seq<Db>, broken: set<Db>)
    ensures StopAt(callback, order, broken) ==
      if callback.ending == Interrupts then Interrupted(callback)
      else if Fails(callback, order, broken) && !callback.robust then Failed(callback)
      else Going
  { }

  /** What has been taken of the pending callbacks, the lists of the rest still to come. */
  ghost predicate TakenSoFar(taken: seq<Callback>, i: nat, order: seq<Db>, own: map<Db, seq<Callback>>,
          broken: set<Db>) {
    && i <= |order|
    && taken + Pending(order[i..], own, broken) == Pending(order, own, broken)
  }

  lemma NothingTaken(order: seq<Db>, own: map<Db, seq<Callback>>, broken: set<Db>)
    ensures TakenSoFar([], 0, order, own, broken)
  {
    assert order[0..] == order && [] + Pending(order, own, broken) == Pending(order, own, broken);
  }

  lemma OneMoreTaken(taken: seq<Callback>, i: nat, order: seq<Db>, own: map<Db, seq<Callback>>, broken: set<Db>)
    requires i < |order| && TakenSoFar(taken, i, order, own, broken) && (order[i] in broken || order[i] in own)
    ensures TakenSoFar(if order[i] in broken then taken else taken + own[order[i]], i + 1, order, own, broken)
  {
    assert order[i..] == [order[i]] + order[i + 1..];
    var rest := Pending(order[i + 1..], own, broken);
    assert [] + rest == rest;
    if order[i] !in broken { assert taken + (own[order[i]] + rest) == (taken + own[order[i]]) + rest; }
  }

  lemma AllTaken(taken: seq<Callback>, order: seq<Db>, own: map<Db, seq<Callback>>, broken: set<Db>)
    requires TakenSoFar(taken, |order|, order, own, broken)
    ensures taken == Pending(order, own, broken)
  {
    assert taken + [] == taken;
  }

  /** With these callbacks called, what is to come of the commit leads to `goal`. */
  ghost predicate LeadsTo(goal: Round, called: seq<Callback>, order: seq<Db>, own: map<Db, seq<Callback>>,
          broken: set<Db>) {
    var rest := CommitMeaning.Commit(order, own, broken);
    goal == Round(called + rest.calls, rest.broken, rest.stop)
  }

  lemma CommitStops(goal: Round, called: seq<Callback>, order: seq<Db>, own: map<Db, seq<Callback>>, broken: set<Db>)
    requires LeadsTo(goal, called, order, own, broken)
    ensures var pending := Pending(order, own, broken);
      var round := RunRound(pending, order, broken);
      if pending == [] then goal == Round(called, broken, Going)
      else round.stop != Going ==> goal == Round(called + round.calls, round.broken, round.stop)
  {
    assert called + [] == called;
  }

  lemma {:induction false} SamePending(order: seq<Db>, a: map<Db, seq<Callback>>, b: map<Db, seq<Callback>>,
          broken: set<Db>)
    requires forall db <- order :: db in a && db in b && (db in broken || a[db] == b[db])
    ensures Pending(order, a, broken) == Pending(order, b, broken)
  {
    if order != [] { SamePending(order[1..], a, b, broken); }
  }

  lemma CommitGoesOn(goal: Round, called: seq<Callback>, order: seq<Db>, own: map<Db, seq<Callback>>,
                     broken: set<Db>, next: map<Db, seq<Callback>>)
    requires LeadsTo(goal, called, order, own, broken)
    requires var pending := Pending(order, own, broken);
      var round := RunRound(pending, order, broken);
      && pending != [] && round.stop == Going
      && forall db <- order :: db in next && (db in round.broken || next[db] == Next(order, pending)[db])
    ensures var pending := Pending(order, own, broken);
      var round := RunRound(pending, order, broken);
      && LeadsTo(goal, called + pending, order, next, round.broken)
      && Height(Pending(order, next, round.broken)) < Height(pending)
  {
    NextInOrder(order, Pending(order, own, broken));
    hide RunRound, Height, Pending, Next, CommitMeaning.Commit;
    var pending := Pending(order, own, broken);
    var round := RunRound(pending, order, broken);
    CommitUnfolds(order, own, broken);
    SamePending(order, next, Next(order, pending), round.broken);
    NextIsLower(order, pending, round.broken);
    SameCommit(order, next, Next(order, pending), round.broken);
    var rest := CommitMeaning.Commit(order, next, round.broken);
    assert called + (pending + rest.calls) == (called + pending) + rest.calls;
  }

  lemma NextInOrder(order: seq<Db>, calls: seq<Callback>)
    ensures forall db <- order :: db in Next(order, calls)
  { }

  lemma CommitUnfolds(order: seq<Db>, own: map<Db, seq<Callback>>, broken: set<Db>)
    ensures var pending := Pending(order, own, broken);
      var round := RunRound(pending, order, broken);
      var rest := CommitMeaning.Commit(order, Next(order, pending), round.broken);
      pending != [] && round.stop == Going ==>
        CommitMeaning.Commit(order, own, broken) == Round(pending + rest.calls, rest.broken, rest.stop)
  {
    hide RunRound, Height, Pending, Next;
  }

  lemma SameCommit(order: seq<Db>, a: map<Db, seq<Callback>>, b: map<Db, seq<Callback>>, broken: set<Db>)
    requires Pending(order, a, broken) == Pending(order, b, broken)
    ensures CommitMeaning.Commit(order, a, broken) == CommitMeaning.Commit(order, b, broken)
  {
    hide RunRound, Height, Pending, Next;
  }

  class Attempt {
    const order: seq<Db>
    const callers: map<Db, seq<Callback>>

    var hooks: map<Db, seq<Hook>>
    var open: map<Db, set<nat>>
    var nextId: nat
    var broken: set<Db>
    var moved: bool
    /** The callbacks called so far. */
    ghost var called: seq<Callback>
    /** The caller's own entries, as they were when the attempt began. */
    ghost const base: map<Db, seq<Hook>>

    ghost predicate Valid()
      reads this`hooks, this`open, this`nextId
    {
      && Distinct(order)
      && hooks.Keys == open.Keys == callers.Keys == base.Keys == (set db | db in order)
      && (forall db <- base :: callers[db] == Calls(base[db]))
      && (forall db <- hooks, h <- hooks[db], id <- h.sids :: id < nextId)
      && (forall db <- open, id <- open[db] :: id < nextId)
    }

    /** The attempt begins: the callbacks pending on its connections are the caller's. */
    constructor (order: seq<Db>, hooks: map<Db, seq<Hook>>, open: map<Db, set<nat>>, nextId: nat, broken: set<Db>)
      requires Distinct(order) && hooks.Keys == open.Keys == set db | db in order
      requires forall db <- hooks, h <- hooks[db], id <- h.sids :: id < nextId
      requires forall db <- open, id <- open[db] :: id < nextId
      ensures Valid() && !moved && this.hooks == hooks && this.open == open && this.broken == broken && called == []
      ensures this.order == order && base == hooks
    {
      this.order, this.hooks, this.open, this.nextId, this.broken := order, hooks, open, nextId, broken;
      callers := map db | db in hooks :: Calls(hooks[db]);
      moved, called, base := false, [], hooks;
    }

    // ---- registering, and blocks ----

    method Enter(db: Db) returns (id: nat)
      requires Valid() && db in open
      modifies this`open, this`nextId
      ensures Valid() && id == old(nextId) && nextId == id + 1
      ensures open == old(open)[db := old(open)[db] + {id}] && id !in old(open)[db]
      ensures db in hooks && NewTo(hooks[db], id)
    {
      id := nextId;
      nextId := nextId + 1;
      open := open[db := open[db] + {id}];
    }

    method Leave(db: Db, id: nat, undone: bool)
      requires Valid() && db in open
      modifies this`open, this`hooks
      ensures Valid() && open == old(open)[db := old(open)[db] - {id}]
      ensures hooks == if undone && db !in broken then old(hooks)[db := Without(old(hooks)[db], id)] else old(hooks)
    {
      open := open[db := open[db] - {id}];
      if undone && db !in broken {
        StillOld(hooks[db], id);
        hooks := hooks[db := Without(hooks[db], id)];
      }
    }

    /** Runs code: every list is appended to, and what is appended on a live connection
        is what the code leaves registered there. */
    method Execute(ops: seq<Op>)
      requires Valid()
      modifies this`hooks, this`open, this`nextId, this`broken
      ensures Valid() && open == old(open)
      ensures broken == old(broken) + Breaks(ops)
      ensures AllGrew(old(hooks), hooks, open, LeftBy(ops, open.Keys), broken)
      decreases ops, 1
    {
      hide Valid, AllGrew, RegisteredBy, BreaksBy;
      if ops == [] {
        NothingGrew();
        return;
      }
      ExecuteOne(ops[0]);
      ghost var middle, brokenThen := hooks, broken;
      Execute(ops[1..]);
      AllGrewTwice(old(hooks), middle, hooks, open, LeftByOp(ops[0], open.Keys), LeftBy(ops[1..], open.Keys),
        LeftBy(ops, open.Keys), brokenThen, broken);
    }

    lemma NothingGrew()
      requires Valid()
      ensures AllGrew(hooks, hooks, open, LeftBy([], open.Keys), broken)
    { }

    /** transaction.on_commit() */
    method Register(db: Db, callback: Callback)
      requires Valid()
      modifies this`hooks
      ensures Valid()
      ensures AllGrew(old(hooks), hooks, open, LeftByOp(OnCommit(db, callback), open.Keys), broken)
    {
      RegisterGrows(hooks, open, db, callback, broken);
      hide AllGrew, LeftByOp, Calls;
      if db in hooks {
        hooks := hooks[db := hooks[db] + [Hook(open[db], callback)]];
      }
    }

    method ExecuteOne(op: Op)
      requires Valid()
      modifies this`hooks, this`open, this`nextId, this`broken
      ensures Valid() && open == old(open)
      ensures broken == old(broken) + BreaksBy(op)
      ensures AllGrew(old(hooks), hooks, open, LeftByOp(op, open.Keys), broken)
      decreases op, 0
    {
      match op
      case OnCommit(db, callback) => Register(db, callback);
      case Block(db, body, undone) =>
        RunBlock(db, body, undone);
      case Break(db) => broken := broken + {db};
    }

    /** A savepoint around the code, on a live connection of the attempt. */
    method RunBlock(db: Db, body: seq<Op>, undone: bool)
      requires Valid()
      modifies this`hooks, this`open, this`nextId, this`broken
      ensures Valid() && open == old(open)
      ensures broken == old(broken) + Breaks(body)
      ensures AllGrew(old(hooks), hooks, open, LeftByOp(Block(db, body, undone), open.Keys), broken)
      decreases body, 2
    {
      hide Valid, AllGrew, Without, Breaks, LeftBy, NewTo;
      LeftByBlock(db, body, undone, open.Keys);
      hide LeftByOp;
      if db !in open || db in broken {
        Execute(body);
        if db in open { SameWhenBroken(old(hooks), hooks, open, db, LeftBy(body, open.Keys), broken); }
        return;
      }
      var id := Enter(db);
      Execute(body);
      ghost var within := hooks;
      Leave(db, id, undone);
      ClosedAgain(old(open), db, id);
      BlockGrows(old(hooks), within, hooks, open, db, id, LeftBy(body, open.Keys), undone, broken);
    }

    /** Runs code inside a savepoint of its own on each of these connections that is
        live, and undoes the savepoints on the databases named. */
    method Within(conns: seq<Db>, ops: seq<Op>, undone: set<Db>)
      requires Valid() && Distinct(conns) && forall db <- conns :: db in open
      modifies this`hooks, this`open, this`nextId, this`broken
      ensures Valid() && open == old(open)
      ensures broken == old(broken) + Breaks(ops)
      ensures AllGrew(old(hooks), hooks, open, LeftAround(ops, conns, undone, open.Keys), broken)
      decreases |conns|
    {
      hide Valid, AllGrew, Without, Breaks, LeftAround, NewTo;
      if conns == [] {
        Execute(ops);
        LeftAroundNothing(ops, undone, open.Keys);
        return;
      }
      var db := conns[0];
      ghost var left := LeftAround(ops, conns[1..], undone, open.Keys);
      LeftAroundOneMore(ops, conns, undone, open.Keys);
      if db in broken {
        Within(conns[1..], ops, undone);
        if db in undone { SameWhenBroken(old(hooks), hooks, open, db, left, broken); }
        return;
      }
      var id := Enter(db);
      Within(conns[1..], ops, undone);
      ghost var within := hooks;
      Leave(db, id, db in undone);
      ClosedAgain(old(open), db, id);
      BlockGrows(old(hooks), within, hooks, open, db, id, left, db in undone, broken);
    }

    /** Runs one callback in savepoints of its own, and says whether it failed. */
    method Call(callback: Callback) returns (failed: bool)
      requires Valid()
      modifies this`hooks, this`open, this`nextId, this`broken, this`called
      ensures Valid() && open == old(open)
      ensures broken == old(broken) + Breaks(callback.body) && called == old(called) + [callback]
      ensures failed == Fails(callback, order, old(broken))
      ensures AllGrew(old(hooks), hooks, open, KeptBy(callback, open.Keys), broken)
    {
      DatabasesInOrder();
      KeptByWithin(callback, order, open.Keys);
      hide *;
      var undone := if callback.ending != Returns then open.Keys else callback.marks;
      called := called + [callback];
      Within(order, callback.body, undone);
      var marked := exists db <- order :: db in callback.marks && db !in broken;
      FailsWhen(callback, old(broken), marked);
      failed := callback.ending == Raises || (callback.ending == Returns && marked);
    }

    lemma FailsWhen(callback: Callback, before: set<Db>, marked: bool)
      requires broken == before + Breaks(callback.body)
      requires marked <==> exists db <- order :: db in callback.marks && db !in broken
      ensures Fails(callback, order, before) <==> callback.ending == Raises || (callback.ending == Returns && marked)
    { }

    lemma DatabasesInOrder()
      requires Valid()
      ensures Distinct(order) && open.Keys == (set db | db in order) && forall db <- order :: db in open
    { }

    // ---- the caller's callbacks ----

    /** The caller's callbacks are still the first entries of every live list. */
    ghost predicate Intact()
      requires Valid()
      reads this`hooks, this`open, this`nextId, this`broken
    {
      forall db <- order :: db !in broken ==> callers[db] <= Calls(hooks[db])
    }

    /** The caller's entries are unchanged, and come first, on every connection. */
    ghost predicate Holding()
      requires Valid()
      reads this`hooks, this`open, this`nextId
    {
      forall db <- base :: base[db] <= hooks[db]
    }

    /** Nothing of the attempt is pending on a live connection. */
    ghost predicate Cleared()
      requires Valid()
      reads this`hooks, this`open, this`nextId, this`broken
    {
      forall db <- order :: db !in broken ==> Calls(hooks[db]) == callers[db]
    }

    lemma HoldingIsIntact()
      requires Valid() && Holding()
      ensures Intact() && (Cleared() ==> forall db <- base :: db !in broken ==> hooks[db] == base[db])
    {
      forall db | db in order ensures |hooks[db]| >= |base[db]| && callers[db] <= Calls(hooks[db]) {
        assert base[db] <= hooks[db];
      }
      if Cleared() {
        forall db | db in base && db !in broken ensures hooks[db] == base[db] {
          assert Calls(hooks[db]) == callers[db] && base[db] <= hooks[db];
        }
      }
    }

    /** The attempt's own callbacks: the entries after the caller's. */
    ghost function Own(): map<Db, seq<Callback>>
      requires Valid()
      reads this`hooks, this`open, this`nextId
    {
      map db | db in hooks :: if |callers[db]| <= |hooks[db]| then Calls(hooks[db])[|callers[db]|..] else []
    }

    /** On every live connection, the attempt's own callbacks are these. */
    ghost predicate OwnIs(own: map<Db, seq<Callback>>)
      requires Valid()
      reads this`hooks, this`open, this`nextId, this`broken
    {
      forall db <- order :: db !in broken ==> Own()[db] == if db in own then own[db] else []
    }

    lemma ClearedOwnsNothing()
      requires Valid() && Cleared()
      ensures OwnIs(map[])
    { }

    /** Whether the caller's callbacks are where they were; once they were not, never again. */
    method Check() returns (ok: bool)
      requires Valid()
      modifies this`moved
      ensures ok <==> !old(moved) && Intact()
      ensures moved == !ok
    {
      if moved { return false; }
      var i := 0;
      while i < |order|
        invariant 0 <= i <= |order| && !moved
        invariant forall db <- order[..i] :: db !in broken ==> callers[db] <= Calls(hooks[db])
      {
        var db := order[i];
        if db !in broken && !(callers[db] <= Calls(hooks[db])) {
          moved := true;
          return false;
        }
        i := i + 1;
      }
      ok := true;
    }

    /** Cuts the attempt's callbacks off one list and returns them. */
    method Take(db: Db) returns (mine: seq<Callback>)
      requires Valid() && db in hooks && |callers[db]| <= |hooks[db]|
      modifies this`hooks
      ensures Valid() && hooks == old(hooks)[db := old(hooks)[db][..|callers[db]|]]
      ensures mine == Calls(old(hooks)[db])[|callers[db]|..]
    {
      var count := |callers[db]|;
      mine := Calls(hooks[db])[count..];
      assert forall h <- hooks[db][..count] :: h in hooks[db];
      hooks := hooks[db := hooks[db][..count]];
    }

    /** Cuts the attempt's callbacks off every live list and returns them, a database at a time. */
    method TakeAll() returns (pending: seq<Callback>)
      requires Valid() && Intact()
      modifies this`hooks
      ensures Valid() && Intact() && Cleared() && (old(Holding()) ==> Holding())
      ensures pending == Pending(order, old(Own()), broken)
    {
      OwnOf();
      ghost var own := Own();
      hide Valid, Calls, Cut, Own, Intact, Holding, Cleared, Distinct, TakenSoFar, Pending;
      pending := [];
      NothingTaken(order, own, broken);
      var i := 0;
      CutNothing();
      while i < |order|
        invariant 0 <= i <= |order| && Valid() && hooks == Cut(old(hooks), callers, order[..i], broken)
        invariant TakenSoFar(pending, i, order, own, broken)
      {
        var db := order[i];
        CutOneMore(old(hooks), callers, order, i, broken);
        OneMoreTaken(pending, i, order, own, broken);
        if db !in broken {
          var mine := Take(db);
          pending := pending + mine;
        }
        i := i + 1;
      }
      AllTaken(pending, order, own, broken);
      assert order[..i] == order;
      CutClears();
    }

    lemma CutNothing()
      requires Valid()
      ensures hooks == Cut(hooks, callers, [], broken)
    { }

    lemma OwnOf()
      requires Valid() && Intact()
      ensures Distinct(order) && forall db <- order ::
        && db in hooks && db in callers && db in Own()
        && (db !in broken ==> |callers[db]| <= |hooks[db]| && Own()[db] == Calls(hooks[db])[|callers[db]|..])
    {
      forall db | db in order && db !in broken ensures |callers[db]| <= |hooks[db]| {
        assert callers[db] <= Calls(hooks[db]);
      }
    }

    /** Drops what the attempt registered and nothing ran. */
    method Discard()
      requires Valid()
      modifies this`hooks, this`moved
      ensures Valid() && moved == (old(moved) || !old(Intact()))
      ensures old(Holding()) ==> Holding()
      ensures if moved then hooks == old(hooks) else Intact() && Cleared()
    {
      hide Valid, Intact, Cleared, Holding, Own, Pending;
      if moved { return; }
      var ok := Check();
      if ok {
        var dropped := TakeAll();
      }
    }

    // ---- the commit ----

    /** Calls one generation in order, up to the first call that stops it. */
    method CallAll(pending: seq<Callback>) returns (stop: Stop)
      requires Valid()
      modifies this`hooks, this`open, this`nextId, this`broken, this`called
      ensures Valid() && open == old(open)
      ensures var round := RunRound(pending, order, old(broken));
        && called == old(called) + round.calls && broken == round.broken && stop == round.stop
        && AllGrew(old(hooks), hooks, open, Next(order, round.calls), broken)
    {
      NothingCalled();
      hide Valid, AllGrew, Fails, Breaks, Next, KeptBy, SoFar, Logged, RunRound, StopAt;
      stop := Going;
      ghost var round := RunRound(pending, order, broken);
      NoCallYet(pending, order, broken);
      var i := 0;
      while i < |pending|
        invariant 0 <= i <= |pending| && Valid() && open == old(open)
        invariant Logged(old(called), called, pending, i) && SoFar(pending, i, order, broken, round)
        invariant AllGrew(old(hooks), hooks, open, Next(order, pending[..i]), broken)
      {
        var callback := pending[i];
        ghost var before, brokenThen, calledThen := hooks, broken, called;
        OneMoreCall(pending, i, order, broken, round);
        var failed := Call(callback);
        StopOf(callback, order, brokenThen);
        OneMoreLogged(old(called), calledThen, pending, i);
        NextByOneMore(pending[..i], callback);
        AllGrewTwice(old(hooks), before, hooks, open, Next(order, pending[..i]), KeptBy(callback, open.Keys),
          Next(order, pending[..i + 1]), brokenThen, broken);
        if callback.ending == Interrupts || (failed && !callback.robust) {
          AllLogged(old(called), called, pending, i + 1);
          return if callback.ending == Interrupts then Interrupted(callback) else Failed(callback);
        }
        i := i + 1;
      }
      AllLogged(old(called), called, pending, i);
      AllCalled(pending, order, broken, round);
    }

    lemma NothingCalled()
      requires Valid()
      ensures AllGrew(hooks, hooks, open, Next(order, []), broken)
    { }

    lemma NextByOneMore(calls: seq<Callback>, callback: Callback)
      requires Valid()
      ensures var most, more := Next(order, calls), Next(order, calls + [callback]);
        && most.Keys == more.Keys == open.Keys
        && forall db <- more :: more[db] == most[db] + KeptBy(callback, open.Keys)[db]
    {
      hide KeptByAll;
      forall db | db in order ensures KeptByAll(calls + [callback], db) == KeptByAll(calls, db) + Kept(callback, db) {
        KeptByOneMore(calls, callback, db);
      }
    }

    /** Appending keeps the caller's entries, and after a cut leaves only what was appended. */
    twostate lemma StillHolding(added: map<Db, seq<Callback>>)
      requires old(Valid()) && Valid() && open == old(open) && old(broken) <= broken
      requires AllGrew(old(hooks), hooks, open, added, broken)
      ensures old(Intact()) ==> Intact()
      ensures old(Holding()) ==> Holding()
      ensures old(Cleared()) ==> OwnIs(added)
    {
      hide KeptByAll;
      forall db | db in order
        ensures old(hooks)[db] <= hooks[db] && (db !in broken ==> Calls(hooks[db][|old(hooks)[db]|..]) == added[db])
      {
        assert Grew(old(hooks)[db], hooks[db], open[db], added[db], db !in broken);
      }
      if old(Cleared()) {
        forall db | db in order && db !in broken ensures Own()[db] == added[db] {
          assert |callers[db]| == |old(hooks)[db]|;
          assert Calls(hooks[db])[|callers[db]|..] == Calls(hooks[db][|callers[db]|..]);
        }
      }
    }

    twostate lemma CutClears()
      requires old(Valid()) && Valid() && old(Intact()) && broken == old(broken)
      requires hooks == Cut(old(hooks), callers, order, broken)
      ensures Intact() && Cleared() && (old(Holding()) ==> Holding())
    {
      forall db | db in order && db !in broken ensures Calls(hooks[db]) == callers[db] {
        assert callers[db] <= Calls(old(hooks)[db]);
      }
      if old(Holding()) {
        forall db | db in base ensures base[db] <= hooks[db] {
          assert base[db] <= old(hooks)[db] && callers[db] == Calls(base[db]);
        }
      }
    }

    /** The callbacks of the next generation, unless the caller's have been moved. */
    method TakeGeneration() returns (ok: bool, pending: seq<Callback>)
      requires Valid()
      modifies this`hooks, this`moved
      ensures Valid() && ok == (!old(moved) && old(Intact())) && moved == !ok
      ensures !ok ==> hooks == old(hooks)
      ensures ok ==>
        pending == Pending(order, old(Own()), broken) && Intact() && Cleared() && (old(Holding()) ==> Holding())
    {
      hide Valid, Intact, Cleared, Holding, Own, Pending;
      ok := Check();
      pending := [];
      if ok { pending := TakeAll(); }
    }

    /** Calls that generation; a failure drops what is still waiting. */
    method CallGeneration(pending: seq<Callback>) returns (stop: Stop)
      requires Valid() && !moved && Intact() && Cleared()
      modifies this`hooks, this`open, this`nextId, this`broken, this`moved, this`called
      ensures Valid() && open == old(open) && !moved && Intact() && (old(Holding()) ==> Holding())
      ensures var round := RunRound(pending, order, old(broken));
        && called == old(called) + round.calls && broken == round.broken && stop == round.stop
      ensures stop == Going ==> OwnIs(Next(order, pending))
      ensures stop.Failed? ==> Cleared()
    {
      hide Valid, Intact, Cleared, Holding, OwnIs, RunRound, AllGrew, Next;
      stop := CallAll(pending);
      StillHolding(Next(order, RunRound(pending, order, old(broken)).calls));
      if stop.Failed? { Discard(); }
    }

    /** One turn of the commit loop, of a commit that leads to `goal`. */
    method Generation(ghost goal: Round) returns (goesOn: bool, stop: Stop)
      requires Valid() && LeadsTo(goal, called, order, Own(), broken)
      modifies this`hooks, this`open, this`nextId, this`broken, this`moved, this`called
      ensures Valid() && open == old(open)
      ensures moved == (old(moved) || !old(Intact()))
      ensures moved ==>
        !goesOn && hooks == old(hooks) && broken == old(broken) && called == old(called) && stop == Going
      ensures !moved ==> Intact() && (old(Holding()) ==> Holding())
      ensures goesOn ==> stop == Going && LeadsTo(goal, called, order, Own(), broken)
      ensures goesOn ==> Height(Pending(order, Own(), broken)) < old(Height(Pending(order, Own(), broken)))
      ensures !moved && !goesOn ==> goal == Round(called, broken, stop) && (stop.Interrupted? || Cleared())
    {
      hide Valid, Intact, Holding, Cleared, Own, OwnIs, Height, LeadsTo, Pending, Next, RunRound, CommitMeaning.Commit;
      ghost var own, brokenThen, calledThen := Own(), broken, called;
      CommitStops(goal, called, order, own, broken);
      stop, goesOn := Going, false;
      var ok, pending := TakeGeneration();
      if !ok || pending == [] { return; }
      stop := CallGeneration(pending);
      if stop == Going {
        goesOn := true;
        NextIs(pending);
        CommitGoesOn(goal, calledThen, order, own, brokenThen, Own());
      }
    }

    /** Calls the callbacks the attempt still holds, generation after generation, as a
        commit would. Nothing is called or removed once the caller's have been moved. */
    method Commit() returns (stop: Stop)
      requires Valid()
      modifies this`hooks, this`open, this`nextId, this`broken, this`moved, this`called
      ensures Valid() && open == old(open)
      ensures moved == (old(moved) || !old(Intact()))
      ensures moved ==> hooks == old(hooks) && broken == old(broken) && called == old(called) && stop == Going
      ensures !moved ==>
        var round := CommitMeaning.Commit(order, old(Own()), old(broken));
        called == old(called) + round.calls && broken == round.broken && stop == round.stop
      ensures !moved ==> Intact() && (old(Holding()) ==> Holding()) && (stop.Interrupted? || Cleared())
    {
      ghost var whole := CommitMeaning.Commit(order, Own(), broken);
      ghost var goal := Round(called + whole.calls, whole.broken, whole.stop);
      assert LeadsTo(goal, called, order, Own(), broken);
      hide *;
      var goesOn;
      goesOn, stop := Generation(goal);
      while goesOn
        invariant Valid() && open == old(open)
        invariant moved == (old(moved) || !old(Intact()))
        invariant moved ==>
          !goesOn && hooks == old(hooks) && broken == old(broken) && called == old(called) && stop == Going
        invariant !moved ==> Intact() && (old(Holding()) ==> Holding())
        invariant goesOn ==> LeadsTo(goal, called, order, Own(), broken)
        invariant !moved && !goesOn ==> goal == Round(called, broken, stop) && (stop.Interrupted? || Cleared())
        decreases goesOn, Height(Pending(order, Own(), broken))
      {
        goesOn, stop := Generation(goal);
      }
    }

    lemma NextIs(calls: seq<Callback>)
      requires Valid() && OwnIs(Next(order, calls))
      ensures forall db <- order :: db in Own() && (db in broken || Own()[db] == Next(order, calls)[db])
    {
      hide KeptByAll;
    }

    // ---- the attempt ----

    lemma CommitOfOwn(own: map<Db, seq<Callback>>)
      requires Valid() && OwnIs(own) && forall db <- order :: db in own
      ensures CommitMeaning.Commit(order, Own(), broken) == CommitMeaning.Commit(order, own, broken)
    {
      SamePending(order, Own(), own, broken);
      SameCommit(order, Own(), own, broken);
    }

    lemma AtTheStart()
      requires Valid() && hooks == base
      ensures Intact() && Holding() && Cleared()
      ensures Distinct(order) && open.Keys == set db | db in order
    { }

    lemma LeftByBodyIs(body: seq<Op>, rolledBack: set<Db>)
      requires Valid()
      ensures LeftAround(body, order, rolledBack, open.Keys) == LeftByBody(order, body, rolledBack)
    {
      hide Registered;
    }

    /** The body in a savepoint on every connection, and its commit: left out when a
        connection was lost or is broken, or the body was interrupted, which undoes it. */
    method RunBody(course: Course) returns (stop: Stop)
      requires Valid() && !moved && hooks == base
      modifies this`hooks, this`open, this`nextId, this`broken, this`moved, this`called
      ensures Valid() && open == old(open) && !moved && Intact() && Holding()
      ensures var round := BodyRound(order, course, old(broken));
        called == old(called) + round.calls && broken == round.broken && stop == round.stop
      ensures course.interrupted || stop.Interrupted? || OwnIs(Waiting(order, course, old(broken)))
    {
      BodyRoundIs(course, called);
      hide *;
      stop := Going;
      ExecuteBody(course.body, if course.interrupted then set db | db in order else course.rolledBack);
      if course.interrupted { return; }
      var broke := exists db <- order :: db in broken;
      SkipsWhen(course.lost, broke);
      if course.lost || broke { return; }
      LeftInOrder(course.body, course.rolledBack);
      CommitOfOwn(LeftByBody(order, course.body, course.rolledBack));
      stop := Commit();
      if !stop.Interrupted? { ClearedOwnsNothing(); }
    }

    lemma BodyRoundIs(course: Course, start: seq<Callback>)
      ensures var left, after := LeftByBody(order, course.body, course.rolledBack), broken + Breaks(course.body);
        var round := BodyRound(order, course, broken);
        && (course.interrupted || Skips(order, course.lost, after) ==> round == Round([], after, Going))
        && (!course.interrupted && !Skips(order, course.lost, after) ==>
          round == CommitMeaning.Commit(order, left, after))
        && Waiting(order, course, broken) == (if Skips(order, course.lost, after) then left else map[])
        && start + [] == start
    {
      hide CommitMeaning.Commit, Breaks, Skips, LeftByBody;
    }

    lemma SkipsWhen(lost: bool, broke: bool)
      requires broke <==> exists db <- order :: db in broken
      ensures Skips(order, lost, broken) <==> lost || broke
    { }

    lemma LeftInOrder(body: seq<Op>, rolledBack: set<Db>)
      ensures forall db <- order :: db in LeftByBody(order, body, rolledBack)
    { }

    /** The body in its savepoints. */
    method ExecuteBody(body: seq<Op>, undone: set<Db>)
      requires Valid() && hooks == base
      modifies this`hooks, this`open, this`nextId, this`broken
      ensures Valid() && open == old(open) && Intact() && Holding()
      ensures broken == old(broken) + Breaks(body) && OwnIs(LeftByBody(order, body, undone))
    {
      AtTheStart();
      LeftByBodyIs(body, undone);
      hide Valid, Intact, Holding, Cleared, OwnIs, Own, AllGrew, LeftAround, LeftByBody;
      Within(order, body, undone);
      StillHolding(LeftAround(body, order, undone, open.Keys));
    }

    /** The write of the outcome, whose callbacks join those still waiting, and its commit. */
    method RunOutcome(outcome: seq<Op>, ghost waiting: map<Db, seq<Callback>>) returns (stop: Stop)
      requires Valid() && !moved && Intact() && Holding() && OwnIs(waiting)
      modifies this`hooks, this`open, this`nextId, this`broken, this`moved, this`called
      ensures Valid() && open == old(open) && !moved && Intact() && Holding()
      ensures var round := CommitMeaning.Commit(
          order, LeftByOutcome(order, waiting, outcome), old(broken) + Breaks(outcome));
        called == old(called) + round.calls && broken == round.broken && stop == round.stop
    {
      InOrder(outcome, waiting);
      hide Valid, Intact, Holding, Cleared, OwnIs, Own, AllGrew, LeftBy, LeftByOutcome, CommitMeaning.Commit;
      Execute(outcome);
      OwnGrows(waiting, outcome);
      CommitOfOwn(LeftByOutcome(order, waiting, outcome));
      stop := Commit();
    }

    lemma InOrder(outcome: seq<Op>, waiting: map<Db, seq<Callback>>)
      ensures forall db <- order :: db in LeftByOutcome(order, waiting, outcome)
    { }

    twostate lemma OwnGrows(new waiting: map<Db, seq<Callback>>, new outcome: seq<Op>)
      requires old(Valid()) && Valid() && open == old(open) && old(broken) <= broken
      requires old(Intact()) && old(OwnIs(waiting))
      requires AllGrew(old(hooks), hooks, open, LeftBy(outcome, open.Keys), broken)
      ensures OwnIs(LeftByOutcome(order, waiting, outcome)) && Intact() && (old(Holding()) ==> Holding())
    {
      hide Registered, Calls, Grew;
      StillHolding(LeftBy(outcome, open.Keys));
      forall db | db in order && db !in broken ensures Own()[db] == LeftByOutcome(order, waiting, outcome)[db] {
        assert Grew(old(hooks)[db], hooks[db], open[db], Registered(outcome, db), true);
        OwnTail(old(hooks)[db], hooks[db], open[db], callers[db], Registered(outcome, db));
      }
    }

    /** The write of the outcome that raises: what it registered is left for the end. */
    method RaiseOutcome(outcome: seq<Op>)
      requires Valid() && Intact() && Holding()
      modifies this`hooks, this`open, this`nextId, this`broken
      ensures Valid() && open == old(open) && Intact() && Holding()
    {
      hide Intact, Holding, AllGrew;
      Execute(outcome);
      StillHolding(LeftBy(outcome, open.Keys));
    }

    /** One attempt: the body and its commit, the outcome's write and its commit, and
        whatever happened, the caller's callbacks as they were. What it is recorded as
        failing with, and what reaches the caller, of the callbacks it called. */
    method RunOne(course: Course) returns (recorded: Stop, raised: Stop)
      requires Valid() && !moved && hooks == base
      modifies this`hooks, this`open, this`nextId, this`broken, this`moved, this`called
      ensures Valid() && open == old(open) && !moved
      ensures forall db <- base :: base[db] <= hooks[db] && (db !in broken ==> hooks[db] == base[db])
      ensures called == old(called) + AttemptRound(order, course, old(broken)).calls
      ensures recorded == Recorded(order, course, old(broken)) && raised == Raised(order, course, old(broken))
    {
      AsInAttempt(called, course);
      hide *;
      ghost var waiting := Waiting(order, course, broken);
      var stop := RunBody(course);
      recorded := if stop.Failed? && !course.fails then stop else Going;
      raised := if stop.Interrupted? then stop else Going;
      if !course.interrupted && !stop.Interrupted? {
        var lands := !course.raises && !(course.worker in order && course.worker in broken);
        LandsIs(course, lands);
        if lands {
          raised := RunOutcome(course.outcome, waiting);
        } else {
          RaiseOutcome(course.outcome);
        }
      }
      Discard();
      AtTheEnd();
    }

    lemma LandsIs(course: Course, lands: bool)
      requires lands <==> !course.raises && !(course.worker in order && course.worker in broken)
      ensures lands <==> Lands(course, order, broken)
    { }

    lemma AtTheEnd()
      requires Valid() && Holding() && Cleared()
      ensures forall db <- base :: base[db] <= hooks[db] && (db !in broken ==> hooks[db] == base[db])
    {
      HoldingIsIntact();
    }

    lemma AsInAttempt(start: seq<Callback>, course: Course)
      ensures Recorded(order, course, broken) ==
        var stop := BodyRound(order, course, broken).stop; if stop.Failed? && !course.fails then stop else Going
      ensures var first := BodyRound(order, course, broken);
        var waiting := LeftByOutcome(order, Waiting(order, course, broken), course.outcome);
        var second := CommitMeaning.Commit(order, waiting, first.broken + Breaks(course.outcome));
        start + AttemptRound(order, course, broken).calls ==
          if course.interrupted || first.stop.Interrupted? || !Lands(course, order, first.broken)
          then start + first.calls
          else start + first.calls + second.calls
      ensures var first := BodyRound(order, course, broken);
        var waiting := LeftByOutcome(order, Waiting(order, course, broken), course.outcome);
        Raised(order, course, broken) ==
          if first.stop.Interrupted? then first.stop
          else if course.interrupted || !Lands(course, order, first.broken) then Going
          else CommitMeaning.Commit(order, waiting, first.broken + Breaks(course.outcome)).stop
    {
      hide CommitMeaning.Commit, Breaks, BodyRound, Waiting, LeftByOutcome, Lands;
    }
  }
}

/** The stored table under the bulk calls: chunked statements in one transaction,
    rolled back as a whole, run again after contention, with other sessions
    writing in between. */
module TaskTable {
  import opened Outcomes
  import opened Ordering
  import opened Lease
  import opened BulkMoves
  import opened TableHistory

  /** How one attempt at a transaction ends: its work commits, or the database raises
      at this chunk (past the last chunk: at the commit). */
  datatype Fate = Commits | Contends(chunk: nat) | Fails(chunk: nat)

  datatype DbError = Contention | OtherError

  /** ATTEMPTS when the call opens the transaction itself, 1 inside a caller's. */
  function Tries(callersTransaction: bool): (n: nat)
    ensures 1 <= n
  {
    if callersTransaction then 1 else ATTEMPTS
  }

  /** Which attempt is the last one made: the first that does not contend, or the last allowed. */
  function LastAttempt(fates: seq<Fate>): (k: nat)
    requires fates != []
    ensures k < |fates|
    ensures forall j | 0 <= j < k :: fates[j].Contends?
    ensures fates[k].Contends? ==> k == |fates| - 1
  {
    if !fates[0].Contends? || |fates| == 1 then 0 else 1 + LastAttempt(fates[1..])
  }

  /** The call ends with a commit: some attempt commits after ones that only contended. */
  predicate EndsInCommit(fates: seq<Fate>) {
    fates != [] && fates[LastAttempt(fates)].Commits?
  }

  /** A call with a transaction of its own has three attempts, and outlives two that contend;
      one in a caller's transaction has one. */
  lemma ThreeAttempts(fates: seq<Fate>)
    ensures |fates| == Tries(true) ==> (EndsInCommit(fates) <==> fates[0].Commits?)
    ensures |fates| == Tries(false) ==> |fates| == 3 && (EndsInCommit(fates) <==>
      fates[0].Commits? || (fates[0].Contends? && (fates[1].Commits? || (fates[1].Contends? && fates[2].Commits?))))
  {
    if |fates| == 3 { assert fates[1..][1..] == fates[2..]; }
  }

  // ---- what a transaction leaves ----

  /** The ids of a bulk move, sorted, and how many go into a chunk. */
  datatype Bulk = Bulk(x: Setting, ordered: seq<Id>, size: nat)

  predicate ValidBulk(b: Bulk) { Ascending(b.ordered) && 1 <= b.size }

  /** What is known of a move that went through: the events it and the other sessions
      made, the rows as they were when locked, and the count. */
  datatype Record = Record(events: History, found: Table, changed: int)

  /** The move ran from s to t, event by event: all its chunks in order, and at the end
      the commit when the transaction was its own. */
  ghost predicate Ran(s: State, t: State, o: Record, b: Bulk, own: bool)
    requires ValidBulk(b)
  {
    var open := Replay(s, o.events, b.x);
    && ChunksOf(o.events) == Chunks(b.ordered, b.size)
    && t == (if own then Ended(open) else open)
    && o.found == open.locked && o.changed == Matched(s, o.events, b.x)
  }

  /** What that comes to. Once committed, the table is the serial one: the chunks and the
      other sessions' turns one after another, nobody's write lost. Should a caller's
      transaction roll back instead, nothing but those turns is left. Until then every
      row that was locked is as the move left it, and the count is of the rows moved. */
  ghost predicate Committed(s: State, t: State, o: Record, b: Bulk, own: bool)
    requires ValidBulk(b)
  {
    var open, turn := Replay(s, o.events, b.x), s.turn + Turns(o.events);
    && Ran(s, t, o, b, own)
    && Ended(open) == State(Serial(s.rows, o.events, b.x, s.turn), map[], [], turn)
    && RolledBack(open) == State(Turned(s.rows, b.x.script, s.turn, Turns(o.events)), map[], [], turn)
    && MovedFrom(open.rows, o.found, b.x.f)
    && o.changed == Count(s.rows, o.events, b.x, s.turn)
  }

  /** Nothing was moved: the table is exactly what the other sessions made of it. */
  predicate Untouched(s: State, t: State, script: nat -> Change) {
    s.turn <= t.turn && t == State(Turned(s.rows, script, s.turn, t.turn - s.turn), map[], [], t.turn)
  }

  /** Some of the chunks ran, and were rolled back. */
  ghost predicate Failed(s: State, t: State, events: History, b: Bulk)
    requires ValidBulk(b)
  {
    ChunksOf(events) <= Chunks(b.ordered, b.size) && t == RolledBack(Replay(s, events, b.x))
  }

  lemma RanIsCommitted(s: State, t: State, o: Record, b: Bulk, own: bool)
    requires ValidBulk(b) && Idle(s) && Ran(s, t, o, b, own)
    ensures Committed(s, t, o, b, own) && (own ==> Idle(t))
    ensures 0 <= o.changed <= |Elements(b.ordered)| && o.changed == |Eligible(o.found, b.x.f, Elements(b.ordered))|
  {
    ChunksAreApart(o.events, b.ordered, b.size);
    CommitIsSerialRollbackIsNothing(s, o.events, b.x);
    CountIsOfTheLocked(s, o.events, b.x);
  }

  lemma FailedIsUntouched(s: State, t: State, events: History, b: Bulk)
    requires ValidBulk(b) && Idle(s) && Failed(s, t, events, b)
    ensures Untouched(s, t, b.x.script) && Idle(t)
  {
    ChunksAreApart(events, b.ordered, b.size);
    CommitIsSerialRollbackIsNothing(s, events, b.x);
  }

  lemma UntouchedTwice(s: State, mid: State, t: State, script: nat -> Change)
    requires Untouched(s, mid, script) && Untouched(mid, t, script)
    ensures Untouched(s, t, script) && s.turn <= mid.turn
  {
    hide Turned;
    TurnedOn(s.rows, script, s.turn, mid.turn - s.turn, t.turn - mid.turn);
  }

  lemma OthersTouchNothing(s: State, x: Setting)
    requires Idle(s)
    ensures Untouched(s, After(s, Others, x), x.script) && Idle(After(s, Others, x))
  {
    OthersAtOnce(s, x);
    TurnedOnce(s.rows, x.script, s.turn, 0);
  }

  /** What ran after aborted attempts ran after the other sessions' turns. */
  lemma RanAfterOthers(s: State, mid: State, t: State, o: Record, b: Bulk, own: bool)
    requires ValidBulk(b) && Idle(s) && Untouched(s, mid, b.x.script) && Ran(mid, t, o, b, own)
    ensures Ran(s, t, o.(events := OnlyOthers(mid.turn - s.turn) + o.events), b, own)
  {
    hide Replay, Matched, ChunksOf, Chunks, Turned, Ended, Idle, Turns, Serial, Count;
    var before := OnlyOthers(mid.turn - s.turn);
    OthersAlone(s, mid.turn - s.turn, b.x);
    JoinedReplay(s, before, o.events, b.x);
    JoinedChunks(before, o.events);
  }

  // ---- the single-row statements as moves ----

  /** retry() of one row, in one statement. */
  function RetryMove(): Move {
    (id: Id, r: Row) => Update(RetryStatement(id), r)
  }

  /** discard() of one row, in one statement. */
  function DiscardMove(now: int): Move {
    (id: Id, r: Row) => Update(DiscardStatement(id, now), r)
  }

  /** A requeued row is READY and a discarded one DISCARDED: neither is moved twice. */
  lemma RetryAndDiscardMoveOnce(now: int)
    ensures MovesOnce(RetryMove()) && MovesOnce(DiscardMove(now))
  { }

  /** The moves are the steps of the protocol. */
  lemma MovesAreSteps(s: System, id: Id, now: int)
    ensures Apply(s, RetryStatement(id)) == s.(rows := MoveOne(s.rows, RetryMove(), id))
    ensures Apply(s, DiscardStatement(id, now)) == s.(rows := MoveOne(s.rows, DiscardMove(now), id))
  { }

  /** A write that never changes a row's attempts and leaves its epoch. */
  ghost predicate KeepsCounters(t: Table, after: Table) {
    forall id | id in t && id in after && after[id].epoch == t[id].epoch :: after[id].attempts == t[id].attempts
  }

  /** A FAILED or LOST row that one attempt more can be granted to. */
  predicate ToRetry(r: Row) { (r.status == FAILED || r.status == LOST) && r.attempts < 32767 }

  /** A row that is neither running nor ended for good. */
  predicate ToDiscard(r: Row) { r.status == READY || r.status == WAITING || r.status == FAILED || r.status == LOST }

  lemma RetriedRows(found: Table, ids: set<Id>, after: Table)
    requires MovedFrom(after, found, RetryMove())
    ensures Eligible(found, RetryMove(), ids) == set id | id in found && id in ids && ToRetry(found[id])
    ensures forall id <- found ::
      id in after && after[id] ==
        if ToRetry(found[id])
        then Row(READY, found[id].epoch + 1, found[id].attempts, found[id].attempts + 1, None, None, None, None, None)
        else found[id]
  { }

  lemma DiscardedRows(found: Table, ids: set<Id>, now: int, after: Table)
    requires MovedFrom(after, found, DiscardMove(now))
    ensures Eligible(found, DiscardMove(now), ids) == set id | id in found && id in ids && ToDiscard(found[id])
    ensures forall id <- found ::
      id in after && after[id] ==
        if ToDiscard(found[id])
        then found[id].(status := DISCARDED, finishedAt := Some(now),
                        lockedBy := None, lockedAt := None, leaseExpiresAt := None)
        else found[id]
  { }

  lemma LockedAreMoved(s: State, t: State, o: Record, b: Bulk, own: bool)
    requires ValidBulk(b) && Committed(s, t, o, b, own)
    ensures MovedFrom(Replay(s, o.events, b.x).rows, o.found, b.x.f)
  { }

  class Tasks {
    var rows: Table
    var locked: Table
    var waiting: seq<Change>
    var turn: nat
    const script: nat -> Change

    function Now(): State
      reads this
    {
      State(rows, locked, waiting, turn)
    }

    constructor (rows: Table, script: nat -> Change)
      ensures Now() == State(rows, map[], [], 0) && this.script == script
    {
      this.rows, locked, waiting, turn, this.script := rows, map[], [], 0, script;
    }

    /** The other sessions' turn: what meets a lock waits. */
    method OthersWrite(ghost f: Move)
      modifies this
      ensures Now() == After(old(Now()), Others, Setting(f, script))
    {
      var change := script(turn);
      rows, waiting, turn := Written(rows, change - locked.Keys), Queued(waiting, change, locked.Keys), turn + 1;
    }

    method Commit()
      modifies this
      ensures Now() == Ended(old(Now()))
    {
      rows, locked, waiting := WrittenAll(rows, waiting), map[], [];
    }

    method RollBack()
      modifies this
      ensures Now() == RolledBack(old(Now()))
    {
      rows, locked, waiting := WrittenAll(Undone(rows, locked), waiting), map[], [];
    }

    // ---- one row ----

    /** retry(): a read, a turn of other sessions, and a compare-and-set of what was read,
        which makes the one-statement move or nothing. Other sessions change attempts
        only on a step that raises the epoch, as every step of the protocol does. */
    method Retry(item: Item) returns (ok: bool, ghost written: Table)
      requires Idle(Now())
      requires KeepsCounters(rows, Written(rows, script(turn)))
      modifies this
      ensures written == (if Reads(item, old(rows), RETRYABLE_STATUSES, true)
        then Written(old(rows), script(old(turn))) else old(rows))
      ensures ok <==>
        && Reads(item, old(rows), RETRYABLE_STATUSES, true)
        && item.id in written && Retryable(written[item.id])
        && written[item.id].epoch == old(rows)[item.id].epoch
      ensures rows == if ok then MoveOne(written, RetryMove(), item.id) else written
      ensures Idle(Now()) && turn == old(turn) + if Reads(item, old(rows), RETRYABLE_STATUSES, true) then 1 else 0
    {
      written := rows;
      if item.Malformed? || item.id !in rows || !Retryable(rows[item.id]) {
        return false, written;
      }
      var id := item.id;
      var read := Read(id, rows[id].epoch, rows[id].attempts);
      OthersAtOnce(Now(), Setting(RetryMove(), script));
      OthersWrite(RetryMove());
      written := rows;
      ok := id in rows && Update(RetryWrite(read), rows[id]).Some?;
      if ok { rows := rows[id := Update(RetryWrite(read), rows[id]).value]; }
    }

    /** discard(): a read, then a compare-and-set on the epoch it read. */
    method Discard(item: Item, now: int) returns (ok: bool, ghost written: Table)
      requires Idle(Now())
      modifies this
      ensures written == (if Reads(item, old(rows), DISCARDABLE_STATUSES, false)
        then Written(old(rows), script(old(turn))) else old(rows))
      ensures ok <==>
        && Reads(item, old(rows), DISCARDABLE_STATUSES, false)
        && item.id in written && written[item.id].status in DISCARDABLE_STATUSES
        && written[item.id].epoch == old(rows)[item.id].epoch
      ensures rows == if ok then MoveOne(written, DiscardMove(now), item.id) else written
      ensures Idle(Now()) && turn == old(turn) + if Reads(item, old(rows), DISCARDABLE_STATUSES, false) then 1 else 0
    {
      written := rows;
      if item.Malformed? || item.id !in rows || rows[item.id].status !in DISCARDABLE_STATUSES {
        return false, written;
      }
      var id := item.id;
      var read := Read(id, rows[id].epoch, rows[id].attempts);
      OthersAtOnce(Now(), Setting(DiscardMove(now), script));
      OthersWrite(DiscardMove(now));
      written := rows;
      ok := id in rows && Update(DiscardWrite(read, now), rows[id]).Some?;
      if ok { rows := rows[id := Update(DiscardWrite(read, now), rows[id]).value]; }
    }

    // ---- many rows ----

    /** One chunk: the locking read in key order, then the conditional UPDATE of those rows. */
    method MoveChunk(chunk: seq<Id>, f: Move) returns (changed: nat)
      modifies this
      ensures Now() == After(old(Now()), Chunk(chunk), Setting(f, script))
      ensures changed == |Eligible(old(rows), f, Elements(chunk))|
    {
      changed := |Eligible(rows, f, Elements(chunk))|;
      locked := locked + Rows(rows, Elements(chunk));
      rows := MoveAll(rows, f, Elements(chunk));
    }

    /** One attempt at the transaction, other sessions taking a turn before each
        statement: all the chunks in order, or a rollback of those that ran. `own` is
        whether the call opened the transaction, and so ends it. */
    method Attempt(b: Bulk, fate: Fate, own: bool)
      returns (r: Result<nat, DbError>, found: Table, ghost events: History)
      requires ValidBulk(b) && b.x.script == script
      modifies this
      ensures r.Ok? <==> fate.Commits?
      ensures r.Err? ==> r.error == if fate.Contends? then Contention else OtherError
      ensures r.Ok? ==> Ran(old(Now()), Now(), Record(events, found, r.value), b, own)
      ensures r.Err? ==> Failed(old(Now()), Now(), events, b)
    {
      hide After, Replay, Matched, Chunks, ChunksOf, Elements, Eligible, Ended, RolledBack;
      events := [];
      NothingRanYet(Now(), b);
      var changed, start, index := 0, 0, 0;
      while start < |b.ordered| && (fate.Commits? || index < fate.chunk)
        invariant 0 <= start <= |b.ordered|
        invariant ChunksOf(events) + Chunks(b.ordered[start..], b.size) == Chunks(b.ordered, b.size)
        invariant Now() == Replay(old(Now()), events, b.x) && changed == Matched(old(Now()), events, b.x)
      {
        ReplayOneMore(old(Now()), events, Others, b.x);
        OthersWrite(b.x.f);
        events := events + [Others];
        var end := if |b.ordered| - start <= b.size then |b.ordered| else start + b.size;
        NextChunk(b.ordered, b.size, start, ChunksOf(events));
        ReplayOneMore(old(Now()), events, Chunk(b.ordered[start..end]), b.x);
        var moved := MoveChunk(b.ordered[start..end], b.x.f);
        events := events + [Chunk(b.ordered[start..end])];
        changed := changed + moved;
        start := end;
        index := index + 1;
      }
      ReplayOneMore(old(Now()), events, Others, b.x);
      OthersWrite(b.x.f);
      events := events + [Others];
      found := locked;
      if fate.Commits? {
        NoChunkLeft(b.ordered, b.size, start, ChunksOf(events));
        if own { Commit(); }
        r := Ok(changed);
      } else {
        RollBack();
        r := Err(if fate.Contends? then Contention else OtherError);
      }
    }

    /** _contention.run around a bulk transaction: after contention the whole of it
        runs again from its first chunk. Only an attempt of the call's own does. */
    method RunMove(b: Bulk, fates: seq<Fate>, own: bool)
      returns (r: Result<nat, DbError>, found: Table, ghost events: History)
      requires ValidBulk(b) && b.x.script == script && |fates| == Tries(!own) && (own ==> Idle(Now()))
      modifies this
      ensures var fate := fates[LastAttempt(fates)];
        && (r.Ok? <==> fate.Commits?)
        && (r.Err? ==> r.error == if fate.Contends? then Contention else OtherError)
      ensures r.Ok? ==> Ran(old(Now()), Now(), Record(events, found, r.value), b, own)
      ensures r.Err? ==> if own then Untouched(old(Now()), Now(), script) else Failed(old(Now()), Now(), events, b)
    {
      hide Ran, Failed, Untouched, Idle;
      var attempt := 0;
      r, found, events := Attempt(b, fates[0], own);
      if own && r.Err? { FailedIsUntouched(old(Now()), Now(), events, b); }
      while r.Err? && r.error == Contention && attempt + 1 < Tries(!own)
        invariant attempt < |fates|
        invariant LastAttempt(fates) == attempt + LastAttempt(fates[attempt..])
        invariant r.Ok? <==> fates[attempt].Commits?
        invariant r.Err? ==> r.error == if fates[attempt].Contends? then Contention else OtherError
        invariant r.Ok? ==> Ran(old(Now()), Now(), Record(events, found, r.value), b, own)
        invariant r.Err? ==>
          if own then Untouched(old(Now()), Now(), script) && Idle(Now()) else Failed(old(Now()), Now(), events, b)
        decreases |fates| - attempt
      {
        assert fates[attempt..][1..] == fates[attempt + 1..];
        attempt := attempt + 1;
        ghost var failed := Now();
        OthersTouchNothing(failed, b.x);
        OthersWrite(b.x.f);
        ghost var mid := Now();
        UntouchedTwice(old(Now()), failed, mid, script);
        r, found, events := Attempt(b, fates[attempt], own);
        if r.Ok? {
          RanAfterOthers(old(Now()), mid, Now(), Record(events, found, r.value), b, own);
          events := OnlyOthers(mid.turn - old(turn)) + events;
        } else {
          FailedIsUntouched(mid, Now(), events, b);
          UntouchedTwice(old(Now()), mid, Now(), script);
        }
      }
    }

    /** A bulk move in one transaction, the call's own or a caller's: all the ids' rows
        are moved or none is. */
    method MoveOrNot(b: Bulk, fates: seq<Fate>, own: bool)
      returns (r: Result<nat, DbError>, found: Table, ghost events: History)
      requires ValidBulk(b) && b.x.script == script && |fates| == Tries(!own) && Idle(Now())
      modifies this
      ensures r.Ok? <==> EndsInCommit(fates)
      ensures r.Ok? ==> Committed(old(Now()), Now(), Record(events, found, r.value), b, own)
      ensures r.Ok? ==> r.value == |Eligible(found, b.x.f, Elements(b.ordered))| <= |Elements(b.ordered)|
      ensures r.Err? ==> Untouched(old(Now()), Now(), script)
    {
      hide Ran, Committed, Failed, Untouched, Idle;
      r, found, events := RunMove(b, fates, own);
      if r.Ok? {
        RanIsCommitted(old(Now()), Now(), Record(events, found, r.value), b, own);
      } else if !own {
        FailedIsUntouched(old(Now()), Now(), events, b);
      }
    }

    /** The _many forms: retry_many and discard_many differ in the move alone. Every
        item given is counted as changed or skipped. */
    method MoveMany(raw: seq<Item>, f: Move, size: nat, fates: seq<Fate>, own: bool)
      returns (r: Result<(nat, int), DbError>, found: Table, ghost events: History, ghost b: Bulk)
      requires 1 <= size && |fates| == Tries(!own) && Idle(Now())
      modifies this
      ensures b.x == Setting(f, script) && b.size == size && ValidBulk(b) && Elements(b.ordered) == UsableIds(raw)
      ensures r.Ok? <==> EndsInCommit(fates)
      ensures r.Ok? ==> Committed(old(Now()), Now(), Record(events, found, r.value.0), b, own)
      ensures r.Ok? ==> r.value.0 == |Eligible(found, f, UsableIds(raw))|
      ensures r.Ok? ==> r.value.0 + r.value.1 == |UsableIds(raw)| + |MalformedTexts(raw)| && 0 <= r.value.1
      ensures r.Err? ==> Untouched(old(Now()), Now(), script)
    {
      hide Committed, Untouched, Elements, Idle;
      var ids, malformed := DistinctIds(raw);
      var bulk := Bulk(Setting(f, script), Sort(ids), size);
      b := bulk;
      DistinctCount(ids);
      var moved: Result<nat, DbError>;
      moved, found, events := MoveOrNot(bulk, fates, own);
      match moved {
        case Err(e) => r := Err(e);
        case Ok(changed) => r := Ok((changed, |ids| + malformed - changed));
      }
    }

    /** retry_many(). When nobody else writes it is retry() of each given row in any
        order, any number of times, whatever the chunk size. */
    method RetryMany(raw: seq<Item>, size: nat, fates: seq<Fate>, own: bool)
      returns (r: Result<(nat, int), DbError>, found: Table, ghost events: History, ghost b: Bulk)
      requires 1 <= size && |fates| == Tries(!own) && Idle(Now())
      modifies this
      ensures b.x == Setting(RetryMove(), script) && b.size == size
      ensures ValidBulk(b) && Elements(b.ordered) == UsableIds(raw)
      ensures r.Ok? <==> EndsInCommit(fates)
      ensures r.Ok? ==> Committed(old(Now()), Now(), Record(events, found, r.value.0), b, own)
      ensures r.Ok? ==> r.value.0 + r.value.1 == |UsableIds(raw)| + |MalformedTexts(raw)| && 0 <= r.value.1
      ensures r.Ok? ==> r.value.0 == |set id | id in found && id in UsableIds(raw) && ToRetry(found[id])|
      ensures r.Ok? ==> var after := Replay(old(Now()), events, b.x).rows; forall id <- found ::
        id in after && after[id] ==
          if ToRetry(found[id])
          then Row(READY, found[id].epoch + 1, found[id].attempts, found[id].attempts + 1,
                   None, None, None, None, None)
          else found[id]
      ensures r.Err? ==> Untouched(old(Now()), Now(), script)
      ensures Silent(script) && r.Ok? ==>
        forall ids | Elements(ids) == UsableIds(raw) :: Ended(Now()).rows == MoveEach(old(rows), RetryMove(), ids)
      ensures Silent(script) && r.Err? ==> rows == old(rows)
    {
      hide Committed, Untouched, Elements, MoveEach, Silent, Ended, Idle, Replay, UsableIds, ToRetry;
      r, found, events, b := MoveMany(raw, RetryMove(), size, fates, own);
      RetryAndDiscardMoveOnce(0);
      if r.Ok? {
        LockedAreMoved(old(Now()), Now(), Record(events, found, r.value.0), b, own);
        RetriedRows(found, UsableIds(raw), Replay(old(Now()), events, b.x).rows);
        SilentCommit(old(Now()), Now(), Record(events, found, r.value.0), b, own);
      } else {
        SilentAbort(old(Now()), Now(), script);
      }
    }

    /** discard_many(), likewise. */
    method DiscardMany(raw: seq<Item>, now: int, size: nat, fates: seq<Fate>, own: bool)
      returns (r: Result<(nat, int), DbError>, found: Table, ghost events: History, ghost b: Bulk)
      requires 1 <= size && |fates| == Tries(!own) && Idle(Now())
      modifies this
      ensures b.x == Setting(DiscardMove(now), script) && b.size == size
      ensures ValidBulk(b) && Elements(b.ordered) == UsableIds(raw)
      ensures r.Ok? <==> EndsInCommit(fates)
      ensures r.Ok? ==> Committed(old(Now()), Now(), Record(events, found, r.value.0), b, own)
      ensures r.Ok? ==> r.value.0 + r.value.1 == |UsableIds(raw)| + |MalformedTexts(raw)| && 0 <= r.value.1
      ensures r.Ok? ==> r.value.0 == |set id | id in found && id in UsableIds(raw) && ToDiscard(found[id])|
      ensures r.Ok? ==> var after := Replay(old(Now()), events, b.x).rows; forall id <- found ::
        id in after && after[id] ==
          if ToDiscard(found[id])
          then found[id].(status := DISCARDED, finishedAt := Some(now),
                          lockedBy := None, lockedAt := None, leaseExpiresAt := None)
          else found[id]
      ensures r.Err? ==> Untouched(old(Now()), Now(), script)
      ensures Silent(script) && r.Ok? ==>
        forall ids | Elements(ids) == UsableIds(raw) :: Ended(Now()).rows == MoveEach(old(rows), DiscardMove(now), ids)
      ensures Silent(script) && r.Err? ==> rows == old(rows)
    {
      hide Committed, Untouched, Elements, MoveEach, Silent, Ended, Idle, Replay, UsableIds, ToDiscard;
      r, found, events, b := MoveMany(raw, DiscardMove(now), size, fates, own);
      RetryAndDiscardMoveOnce(now);
      if r.Ok? {
        LockedAreMoved(old(Now()), Now(), Record(events, found, r.value.0), b, own);
        DiscardedRows(found, UsableIds(raw), now, Replay(old(Now()), events, b.x).rows);
        SilentCommit(old(Now()), Now(), Record(events, found, r.value.0), b, own);
      } else {
        SilentAbort(old(Now()), Now(), script);
      }
    }
  }

  /** What the first of a single-row call's two statements finds. */
  predicate Reads(item: Item, t: Table, statuses: set<Status>, fits: bool) {
    item.Usable? && item.id in t && t[item.id].status in statuses && (fits ==> RetryFits(t[item.id]))
  }

  lemma ReadsIs(item: Item, t: Table)
    ensures Reads(item, t, RETRYABLE_STATUSES, true) <==> item.Usable? && item.id in t && ToRetry(t[item.id])
    ensures Reads(item, t, DISCARDABLE_STATUSES, false) <==> item.Usable? && item.id in t && ToDiscard(t[item.id])
  { }

  // ---- lemmas of the loops ----

  lemma NothingRanYet(s: State, b: Bulk)
    requires ValidBulk(b)
    ensures Replay(s, [], b.x) == s && Matched(s, [], b.x) == 0
    ensures ChunksOf([]) + Chunks(b.ordered[0..], b.size) == Chunks(b.ordered, b.size)
  {
    assert b.ordered[0..] == b.ordered;
  }

  lemma ReplayOneMore(s: State, events: History, event: Event, x: Setting)
    ensures Replay(s, events + [event], x) == After(Replay(s, events, x), event, x)
    ensures Matched(s, events + [event], x) == Matched(s, events, x)
      + if event.Others? then 0 else |Eligible(Replay(s, events, x).rows, x.f, Elements(event.keys))|
    ensures ChunksOf(events + [event]) == if event.Others? then ChunksOf(events) else ChunksOf(events) + [event.keys]
  {
    OneMore(events, event);
  }

  lemma NextChunk(ordered: seq<Id>, size: nat, start: nat, before: seq<seq<Id>>)
    requires 1 <= size && start < |ordered| && before + Chunks(ordered[start..], size) == Chunks(ordered, size)
    ensures var end := if |ordered| - start <= size then |ordered| else start + size;
      before + [ordered[start..end]] + Chunks(ordered[end..], size) == Chunks(ordered, size)
  {
    var end := if |ordered| - start <= size then |ordered| else start + size;
    var rest := ordered[start..];
    assert rest[..end - start] == ordered[start..end] && rest[end - start..] == ordered[end..];
  }

  lemma NoChunkLeft(ordered: seq<Id>, size: nat, start: nat, before: seq<seq<Id>>)
    requires 1 <= size && start == |ordered| && before + Chunks(ordered[start..], size) == Chunks(ordered, size)
    ensures before == Chunks(ordered, size)
  { }

  /** When nobody else writes, a committed bulk move is the move of each id, in any order. */
  lemma SilentCommit(s: State, t: State, o: Record, b: Bulk, own: bool)
    requires ValidBulk(b) && Idle(s) && Committed(s, t, o, b, own) && MovesOnce(b.x.f)
    ensures Silent(b.x.script) ==>
      forall ids | Elements(ids) == Elements(b.ordered) :: Ended(t).rows == MoveEach(s.rows, b.x.f, ids)
  {
    ChunksAreApart(o.events, b.ordered, b.size);
    if Silent(b.x.script) {
      SilentIsOneMove(s.rows, o.events, b.x, s.turn);
      forall ids | Elements(ids) == Elements(b.ordered)
        ensures MoveEach(s.rows, b.x.f, ids) == MoveAll(s.rows, b.x.f, Elements(b.ordered))
      {
        BulkIsOneByOne(s.rows, b.x.f, ids);
      }
    }
  }

  lemma SilentAbort(s: State, t: State, script: nat -> Change)
    requires Untouched(s, t, script)
    ensures Silent(script) ==> t.rows == s.rows
  {
    if Silent(script) { SilentTurnsDoNothing(s.rows, script, s.turn, t.turn - s.turn); }
  }
}

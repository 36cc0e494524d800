/** What happens to the table during a bulk call: other sessions write, the call's chunks
    lock rows and move them, and a writer that meets a lock waits for it. */
module TableHistory {
  import opened Outcomes
  import opened Ordering
  import opened Lease
  import opened BulkMoves

  /** What other sessions do to rows at once: the new row, or None for none, from what is
      there when they get to it. */
  type Change = map<Id, Option<Row> -> Option<Row>>

  /** The call's move, and what the other sessions do turn by turn: anything at all. */
  datatype Setting = Setting(f: Move, script: nat -> Change)

  /** The table; the rows the open transaction has locked, as they were then; the writes
      that wait for those rows, oldest first; and the other sessions' next turn. */
  datatype State = State(rows: Table, locked: Table, waiting: seq<Change>, turn: nat)

  /** No transaction is open. */
  predicate Idle(s: State) { s.locked == map[] && s.waiting == [] }

  /** The other sessions take a turn, or one chunk's rows are locked in this order and
      the matching ones updated. */
  datatype Event = Others | Chunk(keys: seq<Id>)

  type History = seq<Event>

  // ---- writes ----

  function At(t: Table, id: Id): Option<Row> { if id in t then Some(t[id]) else None }

  function Put(t: Table, change: Change, id: Id): Option<Row> {
    if id in change then change[id](At(t, id)) else At(t, id)
  }

  function Written(t: Table, change: Change): Table {
    map id | id in t.Keys + change.Keys && Put(t, change, id).Some? :: Put(t, change, id).value
  }

  function WrittenAll(t: Table, waiting: seq<Change>): Table
    decreases |waiting|
  {
    if waiting == [] then t else Written(WrittenAll(t, waiting[..|waiting| - 1]), waiting[|waiting| - 1])
  }

  function Only(change: Change, ids: set<Id>): Change {
    map id | id in change && id in ids :: change[id]
  }

  /** The part of a change that meets a lock joins the queue. */
  function Queued(waiting: seq<Change>, change: Change, ids: set<Id>): seq<Change> {
    if change.Keys !! ids then waiting else waiting + [Only(change, ids)]
  }

  /** The rows of these keys that the table holds. */
  function Rows(t: Table, ids: set<Id>): Table {
    map id | id in t && id in ids :: t[id]
  }

  /** The table with every row that was locked as it was then. */
  function Undone(now: Table, found: Table): Table {
    map id | id in now :: if id in found then found[id] else now[id]
  }

  // ---- the state, event by event ----

  function After(s: State, event: Event, x: Setting): State {
    match event
    case Others =>
      var change := x.script(s.turn);
      State(Written(s.rows, change - s.locked.Keys), s.locked, Queued(s.waiting, change, s.locked.Keys), s.turn + 1)
    case Chunk(keys) =>
      s.(rows := MoveAll(s.rows, x.f, Elements(keys)), locked := s.locked + Rows(s.rows, Elements(keys)))
  }

  /** A commit: the locks go, and those who waited write. */
  function Ended(s: State): State { State(WrittenAll(s.rows, s.waiting), map[], [], s.turn) }

  /** A rollback: what was locked is as it was, the locks go, and those who waited write. */
  function RolledBack(s: State): State {
    State(WrittenAll(Undone(s.rows, s.locked), s.waiting), map[], [], s.turn)
  }

  function Most(events: History): History requires events != [] { events[..|events| - 1] }

  function Last(events: History): Event requires events != [] { events[|events| - 1] }

  function Replay(s: State, events: History, x: Setting): State
    decreases |events|
  {
    if events == [] then s else After(Replay(s, Most(events), x), Last(events), x)
  }

  /** How many rows the chunks' updates matched. */
  function Matched(s: State, events: History, x: Setting): nat
    decreases |events|
  {
    if events == [] then 0
    else
      Matched(s, Most(events), x) +
      match Last(events)
      case Others => 0
      case Chunk(keys) => |Eligible(Replay(s, Most(events), x).rows, x.f, Elements(keys))|
  }

  // ---- the same without locks: one thing after another ----

  function Turns(events: History): nat
    decreases |events|
  {
    if events == [] then 0 else Turns(Most(events)) + (if Last(events).Others? then 1 else 0)
  }

  /** The table when each event is done at once, nobody waiting for anybody. */
  function Serial(t: Table, events: History, x: Setting, from: nat): Table
    decreases |events|
  {
    if events == [] then t
    else
      var before := Serial(t, Most(events), x, from);
      match Last(events)
      case Others => Written(before, x.script(from + Turns(Most(events))))
      case Chunk(keys) => MoveAll(before, x.f, Elements(keys))
  }

  /** How many rows the chunks move, one after another. */
  function Count(t: Table, events: History, x: Setting, from: nat): nat
    decreases |events|
  {
    if events == [] then 0
    else
      Count(t, Most(events), x, from) +
      match Last(events)
      case Others => 0
      case Chunk(keys) => |Eligible(Serial(t, Most(events), x, from), x.f, Elements(keys))|
  }

  /** What the other sessions alone make of the table, in so many turns. */
  function Turned(t: Table, script: nat -> Change, from: nat, turns: nat): Table {
    if turns == 0 then t else Written(Turned(t, script, from, turns - 1), script(from + turns - 1))
  }

  /** The chunks, in order. */
  function ChunksOf(events: History): seq<seq<Id>>
    decreases |events|
  {
    if events == [] then []
    else if Last(events).Chunk? then ChunksOf(Most(events)) + [Last(events).keys]
    else ChunksOf(Most(events))
  }

  function ChunkIds(events: History): set<Id>
    decreases |events|
  {
    if events == [] then {}
    else if Last(events).Chunk? then ChunkIds(Most(events)) + Elements(Last(events).keys)
    else ChunkIds(Most(events))
  }

  /** No key is in two chunks. */
  predicate Apart(events: History)
    decreases |events|
  {
    events != [] ==>
      Apart(Most(events)) && (Last(events).Chunk? ==> Elements(Last(events).keys) !! ChunkIds(Most(events)))
  }

  /** Nothing but so many turns of the other sessions. */
  function OnlyOthers(turns: nat): History { seq(turns, i => Others) }

  // ---- writes that do not meet ----

  lemma SameTable(a: Table, b: Table)
    requires forall id :: At(a, id) == At(b, id)
    ensures a == b
  {
    forall id ensures id in a <==> id in b { assert At(a, id) == At(b, id); }
    forall id | id in a ensures a[id] == b[id] { assert At(a, id) == At(b, id); }
  }

  lemma WrittenAt(t: Table, change: Change, id: Id)
    ensures At(Written(t, change), id) == Put(t, change, id)
  { }

  /** Writing a change in two parts is writing it. */
  lemma WrittenInParts(t: Table, change: Change, ids: set<Id>)
    ensures Written(Written(t, change - ids), Only(change, ids)) == Written(t, change)
  {
    var first := Written(t, change - ids);
    forall id ensures At(Written(first, Only(change, ids)), id) == At(Written(t, change), id) {
      WrittenAt(t, change, id);
      WrittenAt(t, change - ids, id);
      WrittenAt(first, Only(change, ids), id);
    }
    SameTable(Written(first, Only(change, ids)), Written(t, change));
  }

  lemma WritesCommute(t: Table, a: Change, b: Change)
    requires a.Keys !! b.Keys
    ensures Written(Written(t, a), b) == Written(Written(t, b), a)
  {
    forall id ensures At(Written(Written(t, a), b), id) == At(Written(Written(t, b), a), id) {
      WrittenAt(t, a, id);
      WrittenAt(t, b, id);
      WrittenAt(Written(t, a), b, id);
      WrittenAt(Written(t, b), a, id);
    }
    SameTable(Written(Written(t, a), b), Written(Written(t, b), a));
  }

  /** All the waiting writes are to these rows. */
  predicate WaitFor(waiting: seq<Change>, ids: set<Id>) {
    forall i | 0 <= i < |waiting| :: waiting[i].Keys <= ids
  }

  lemma {:induction false} WaitingWritesCommute(t: Table, change: Change, waiting: seq<Change>, ids: set<Id>)
    requires WaitFor(waiting, ids) && change.Keys !! ids
    ensures WrittenAll(Written(t, change), waiting) == Written(WrittenAll(t, waiting), change)
    decreases |waiting|
  {
    hide Written;
    if waiting != [] {
      var n := |waiting| - 1;
      WaitingWritesCommute(t, change, waiting[..n], ids);
      WritesCommute(WrittenAll(t, waiting[..n]), change, waiting[n]);
    }
  }

  lemma {:induction false} WaitingWritesStayAway(t: Table, waiting: seq<Change>, ids: set<Id>, id: Id)
    requires WaitFor(waiting, ids) && id !in ids
    ensures At(WrittenAll(t, waiting), id) == At(t, id)
    decreases |waiting|
  {
    hide Written;
    if waiting != [] {
      var n := |waiting| - 1;
      WaitingWritesStayAway(t, waiting[..n], ids, id);
      WrittenAt(WrittenAll(t, waiting[..n]), waiting[n], id);
    }
  }

  /** Where nothing waits, moving rows and then writing is writing and then moving. */
  lemma {:induction false} MovePassesTheWaiting(t: Table, f: Move, keys: set<Id>, waiting: seq<Change>, ids: set<Id>)
    requires WaitFor(waiting, ids) && keys !! ids
    ensures WrittenAll(MoveAll(t, f, keys), waiting) == MoveAll(WrittenAll(t, waiting), f, keys)
    decreases |waiting|
  {
    hide Written, MoveAll;
    if waiting != [] {
      var n := |waiting| - 1;
      MovePassesTheWaiting(t, f, keys, waiting[..n], ids);
      MovePassesOne(WrittenAll(t, waiting[..n]), f, keys, waiting[n]);
    }
  }

  lemma MovePassesOne(t: Table, f: Move, keys: set<Id>, change: Change)
    requires change.Keys !! keys
    ensures Written(MoveAll(t, f, keys), change) == MoveAll(Written(t, change), f, keys)
  {
    forall id ensures At(Written(MoveAll(t, f, keys), change), id) == At(MoveAll(Written(t, change), f, keys), id) {
      WrittenAt(t, change, id);
      WrittenAt(MoveAll(t, f, keys), change, id);
    }
    SameTable(Written(MoveAll(t, f, keys), change), MoveAll(Written(t, change), f, keys));
  }

  // ---- a transaction and its serial form ----

  /** Every row that was locked has moved from what it was then, where the move matched it. */
  predicate MovedFrom(after: Table, found: Table, f: Move) {
    forall id <- found ::
      && id in after
      && after[id] == if f(id, found[id]).Some? then f(id, found[id]).value else found[id]
  }

  /** An open transaction s, begun at s0: a commit will make the serial table of it, a
      rollback what the other sessions alone do, and till then every locked row is as
      the move left it. */
  ghost predicate Tracks(s0: State, s: State, events: History, x: Setting) {
    && s.turn == s0.turn + Turns(events)
    && WaitFor(s.waiting, s.locked.Keys) && s.locked.Keys <= ChunkIds(events) && s.locked.Keys <= s.rows.Keys
    && MovedFrom(s.rows, s.locked, x.f)
    && WrittenAll(s.rows, s.waiting) == Serial(s0.rows, events, x, s0.turn)
    && WrittenAll(Undone(s.rows, s.locked), s.waiting) == Turned(s0.rows, x.script, s0.turn, Turns(events))
  }

  lemma {:induction false} ReplayTracks(s0: State, events: History, x: Setting)
    requires Idle(s0) && Apart(events)
    ensures Tracks(s0, Replay(s0, events, x), events, x)
    decreases |events|
  {
    hide After, Written, MoveAll, Undone, MovedFrom;
    if events == [] {
      NothingUndone(s0.rows);
      NothingMoved(s0.rows, x.f);
    } else {
      ReplayTracks(s0, Most(events), x);
      if Last(events).Others? {
        OthersTrack(s0, Replay(s0, Most(events), x), events, x);
      } else {
        ChunkTracks(s0, Replay(s0, Most(events), x), events, x);
      }
    }
  }

  lemma NothingUndone(t: Table)
    ensures Undone(t, map[]) == t
  { }

  lemma NothingMoved(t: Table, f: Move)
    ensures MovedFrom(t, map[], f)
  { }

  lemma OthersTrack(s0: State, s: State, events: History, x: Setting)
    requires events != [] && Last(events).Others? && Tracks(s0, s, Most(events), x)
    ensures Tracks(s0, After(s, Last(events), x), events, x)
  {
    hide Written, MoveAll, Undone, MovedFrom, Only;
    var change, ids := x.script(s.turn), s.locked.Keys;
    var away := change - ids;
    QueuedWrites(s.rows, s.waiting, change, ids);
    QueuedWrites(Undone(s.rows, s.locked), s.waiting, change, ids);
    UndoneStays(s.rows, s.locked, away);
    MovedStays(s.rows, s.locked, x.f, away);
    QueuedWaits(s.waiting, change, ids);
    TurnedOnce(s0.rows, x.script, s0.turn, Turns(Most(events)));
  }

  lemma TurnedOnce(t: Table, script: nat -> Change, from: nat, turns: nat)
    ensures Turned(t, script, from, turns + 1) == Written(Turned(t, script, from, turns), script(from + turns))
  { }

  lemma QueuedWaits(waiting: seq<Change>, change: Change, ids: set<Id>)
    requires WaitFor(waiting, ids)
    ensures WaitFor(Queued(waiting, change, ids), ids)
  { }

  /** To write what meets no lock now and the rest at the end is to write it all at the end. */
  lemma QueuedWrites(t: Table, waiting: seq<Change>, change: Change, ids: set<Id>)
    requires WaitFor(waiting, ids)
    ensures WrittenAll(Written(t, change - ids), Queued(waiting, change, ids)) ==
      Written(WrittenAll(t, waiting), change)
  {
    hide Written, Only;
    var away := change - ids;
    WaitingWritesCommute(t, away, waiting, ids);
    if change.Keys !! ids {
      assert away == change;
    } else {
      var queued := waiting + [Only(change, ids)];
      assert queued[..|queued| - 1] == waiting && queued[|queued| - 1] == Only(change, ids);
      WrittenInParts(WrittenAll(t, waiting), change, ids);
    }
  }

  lemma UndoneStays(now: Table, found: Table, away: Change)
    requires away.Keys !! found.Keys
    ensures Undone(Written(now, away), found) == Written(Undone(now, found), away)
  {
    forall id ensures At(Undone(Written(now, away), found), id) == At(Written(Undone(now, found), away), id) {
      WrittenAt(now, away, id);
      WrittenAt(Undone(now, found), away, id);
    }
    SameTable(Undone(Written(now, away), found), Written(Undone(now, found), away));
  }

  lemma MovedStays(now: Table, found: Table, f: Move, away: Change)
    requires MovedFrom(now, found, f) && away.Keys !! found.Keys
    ensures MovedFrom(Written(now, away), found, f) && found.Keys <= Written(now, away).Keys
  {
    forall id | id in found ensures id in Written(now, away) && Written(now, away)[id] == now[id] {
      WrittenAt(now, away, id);
    }
  }

  lemma ChunkTracks(s0: State, s: State, events: History, x: Setting)
    requires events != [] && Last(events).Chunk? && Tracks(s0, s, Most(events), x) && Apart(events)
    ensures Tracks(s0, After(s, Last(events), x), events, x)
  {
    hide Written, MoveAll, Undone, MovedFrom, Rows;
    var keys := Elements(Last(events).keys);
    MovePassesTheWaiting(s.rows, x.f, keys, s.waiting, s.locked.Keys);
    ChunkUndone(s.rows, s.locked, x.f, keys);
  }

  lemma ChunkUndone(now: Table, found: Table, f: Move, keys: set<Id>)
    requires found.Keys !! keys && found.Keys <= now.Keys && MovedFrom(now, found, f)
    ensures var all, after := found + Rows(now, keys), MoveAll(now, f, keys);
      && Undone(after, all) == Undone(now, found) && MovedFrom(after, all, f)
      && found.Keys <= all.Keys <= after.Keys && all.Keys <= found.Keys + keys
  { }

  /** What a transaction leaves: a commit the serial table, a rollback exactly what the
      other sessions' turns alone make of the table it began with. */
  lemma CommitIsSerialRollbackIsNothing(s0: State, events: History, x: Setting)
    requires Idle(s0) && Apart(events)
    ensures var s, turn := Replay(s0, events, x), s0.turn + Turns(events);
      && Ended(s) == State(Serial(s0.rows, events, x, s0.turn), map[], [], turn)
      && RolledBack(s) == State(Turned(s0.rows, x.script, s0.turn, Turns(events)), map[], [], turn)
      && MovedFrom(s.rows, s.locked, x.f)
  {
    ReplayTracks(s0, events, x);
  }

  // ---- the count ----

  /** The rows counted are those the serial form moves, and the locked ones that the move matched. */
  lemma {:induction false} CountIsOfTheLocked(s0: State, events: History, x: Setting)
    requires Idle(s0) && Apart(events)
    ensures Matched(s0, events, x) == Count(s0.rows, events, x, s0.turn)
    ensures Matched(s0, events, x) ==
      |Eligible(Replay(s0, events, x).locked, x.f, ChunkIds(events))| <= |ChunkIds(events)|
    decreases |events|
  {
    hide After, Written, MoveAll, Undone, MovedFrom, Eligible, Tracks;
    EligibleAmong(Replay(s0, events, x).locked, x.f, ChunkIds(events));
    SubsetCount(Eligible(Replay(s0, events, x).locked, x.f, ChunkIds(events)), ChunkIds(events));
    if events == [] {
      NothingEligible(x.f);
    } else {
      var most, last := Most(events), Last(events);
      var s := Replay(s0, most, x);
      CountIsOfTheLocked(s0, most, x);
      ReplayTracks(s0, most, x);
      LockedAfter(s, if last.Chunk? then last.keys else [], x);
      if last.Chunk? { ChunkCounts(s0, s, most, x, Elements(last.keys)); }
    }
  }

  lemma EligibleAmong(t: Table, f: Move, ids: set<Id>)
    ensures Eligible(t, f, ids) <= ids
  { }

  lemma NothingEligible(f: Move)
    ensures Eligible(map[], f, {}) == {}
  { }

  lemma LockedAfter(s: State, keys: seq<Id>, x: Setting)
    ensures After(s, Others, x).locked == s.locked
    ensures After(s, Chunk(keys), x).locked == s.locked + Rows(s.rows, Elements(keys))
  { }

  lemma SameEligible(a: Table, b: Table, f: Move, ids: set<Id>)
    requires forall id | id in ids :: At(a, id) == At(b, id)
    ensures Eligible(a, f, ids) == Eligible(b, f, ids)
  {
    forall id | id in ids ensures id in Eligible(a, f, ids) <==> id in Eligible(b, f, ids) {
      assert At(a, id) == At(b, id);
    }
  }

  lemma ChunkCounts(s0: State, s: State, most: History, x: Setting, keys: set<Id>)
    requires Tracks(s0, s, most, x) && keys !! ChunkIds(most)
    ensures Eligible(s.rows, x.f, keys) == Eligible(Serial(s0.rows, most, x, s0.turn), x.f, keys)
    ensures |Eligible(s.locked + Rows(s.rows, keys), x.f, ChunkIds(most) + keys)|
      == |Eligible(s.locked, x.f, ChunkIds(most))| + |Eligible(s.rows, x.f, keys)|
  {
    hide Written, MoveAll, Undone, MovedFrom;
    forall id | id in keys ensures At(WrittenAll(s.rows, s.waiting), id) == At(s.rows, id) {
      WaitingWritesStayAway(s.rows, s.waiting, s.locked.Keys, id);
    }
    SameEligible(WrittenAll(s.rows, s.waiting), s.rows, x.f, keys);
    EligibleGrows(s.rows, s.locked, x.f, ChunkIds(most), keys);
  }

  lemma EligibleGrows(before: Table, found: Table, f: Move, done: set<Id>, chunk: set<Id>)
    requires done !! chunk && found.Keys <= done
    ensures |Eligible(found + Rows(before, chunk), f, done + chunk)| ==
      |Eligible(found, f, done)| + |Eligible(before, f, chunk)|
  {
    assert Eligible(found + Rows(before, chunk), f, done + chunk) ==
      Eligible(found, f, done) + Eligible(before, f, chunk);
  }

  lemma {:induction false} SubsetCount(a: set<Id>, b: set<Id>)
    requires a <= b
    ensures |a| <= |b|
  {
    assert b == a + (b - a);
  }

  // ---- one history after another ----

  lemma OneMore(events: History, event: Event)
    ensures Most(events + [event]) == events && Last(events + [event]) == event
  { }

  lemma JoinedMost(a: History, b: History)
    requires b != []
    ensures a + b != [] && Most(a + b) == a + Most(b) && Last(a + b) == Last(b) && |Most(b)| < |b|
  { }

  lemma {:induction false} JoinedReplay(s: State, a: History, b: History, x: Setting)
    ensures Replay(s, a + b, x) == Replay(Replay(s, a, x), b, x)
    ensures Matched(s, a + b, x) == Matched(s, a, x) + Matched(Replay(s, a, x), b, x)
    decreases |b|
  {
    hide After, Most, Last, Eligible;
    if b == [] {
      assert a + b == a;
    } else {
      JoinedMost(a, b);
      JoinedReplay(s, a, Most(b), x);
    }
  }

  lemma {:induction false} JoinedSerial(t: Table, a: History, b: History, x: Setting, from: nat)
    ensures Serial(t, a + b, x, from) == Serial(Serial(t, a, x, from), b, x, from + Turns(a))
    ensures Count(t, a + b, x, from) == Count(t, a, x, from) + Count(Serial(t, a, x, from), b, x, from + Turns(a))
    ensures Turns(a + b) == Turns(a) + Turns(b)
    decreases |b|
  {
    hide Written, MoveAll, Most, Last, Eligible;
    if b == [] {
      assert a + b == a;
    } else {
      JoinedMost(a, b);
      JoinedSerial(t, a, Most(b), x, from);
    }
  }

  lemma {:induction false} JoinedChunks(a: History, b: History)
    ensures ChunksOf(a + b) == ChunksOf(a) + ChunksOf(b)
    decreases |b|
  {
    hide Most, Last;
    if b == [] {
      assert a + b == a;
    } else {
      JoinedMost(a, b);
      JoinedChunks(a, Most(b));
    }
  }

  lemma OthersAtOnce(s: State, x: Setting)
    requires Idle(s)
    ensures After(s, Others, x) == State(Written(s.rows, x.script(s.turn)), map[], [], s.turn + 1)
  {
    assert x.script(s.turn) - s.locked.Keys == x.script(s.turn);
  }

  /** With no transaction open, turns of the other sessions are made at once. */
  lemma {:induction false} OthersAlone(s: State, turns: nat, x: Setting)
    requires Idle(s)
    ensures var events := OnlyOthers(turns);
      && Replay(s, events, x) == State(Turned(s.rows, x.script, s.turn, turns), map[], [], s.turn + turns)
      && Serial(s.rows, events, x, s.turn) == Turned(s.rows, x.script, s.turn, turns)
      && Matched(s, events, x) == Count(s.rows, events, x, s.turn) == 0
      && ChunksOf(events) == [] && Turns(events) == turns
    decreases turns
  {
    hide Written, After;
    if turns > 0 {
      OthersAlone(s, turns - 1, x);
      assert OnlyOthers(turns) == OnlyOthers(turns - 1) + [Others];
      OneMore(OnlyOthers(turns - 1), Others);
      OthersAtOnce(Replay(s, OnlyOthers(turns - 1), x), x);
    }
  }

  lemma {:induction false} TurnedOn(t: Table, script: nat -> Change, from: nat, a: nat, b: nat)
    ensures Turned(t, script, from, a + b) == Turned(Turned(t, script, from, a), script, from + a, b)
    decreases b
  {
    hide Written;
    if b > 0 { TurnedOn(t, script, from, a, b - 1); }
  }

  // ---- a table nobody else writes ----

  /** Other sessions that have nothing to write. */
  ghost predicate Silent(script: nat -> Change) {
    forall turn: nat :: script(turn) == map[]
  }

  /** With no other writer the chunks make one bulk move of all their keys. */
  lemma {:induction false} SilentIsOneMove(t: Table, events: History, x: Setting, from: nat)
    requires Silent(x.script) && Apart(events)
    ensures Serial(t, events, x, from) == MoveAll(t, x.f, ChunkIds(events))
    decreases |events|
  {
    hide MoveAll, Eligible, Written;
    if events == [] {
      MovingNothing(t, x.f);
    } else {
      var most, last := Most(events), Last(events);
      SilentIsOneMove(t, most, x, from);
      if last.Chunk? {
        MovesCompose(t, x.f, ChunkIds(most), Elements(last.keys));
      } else {
        WritingNothing(Serial(t, most, x, from), x.script(from + Turns(most)));
      }
    }
  }

  lemma {:induction false} SilentTurnsDoNothing(t: Table, script: nat -> Change, from: nat, turns: nat)
    requires Silent(script)
    ensures Turned(t, script, from, turns) == t
    decreases turns
  {
    hide Written;
    if turns > 0 {
      SilentTurnsDoNothing(t, script, from, turns - 1);
      WritingNothing(t, script(from + turns - 1));
    }
  }

  lemma MovingNothing(t: Table, f: Move)
    ensures MoveAll(t, f, {}) == t
  { }

  lemma WritingNothing(t: Table, change: Change)
    requires change == map[]
    ensures Written(t, change) == t
  { }

  // ---- the chunks of a call ----

  /** The keys in the order they were locked. */
  lemma {:induction false} IdsAreTheLockedKeys(events: History)
    ensures ChunkIds(events) == Elements(Flat(ChunksOf(events)))
    ensures Distinct(Flat(ChunksOf(events))) ==> Apart(events)
    decreases |events|
  {
    if events != [] {
      var most, last := Most(events), Last(events);
      IdsAreTheLockedKeys(most);
      if last.Chunk? {
        var before := Flat(ChunksOf(most));
        FlatOneMore(ChunksOf(most), last.keys);
        assert Elements(before + last.keys) == Elements(before) + Elements(last.keys);
        if Distinct(before + last.keys) { DistinctParts(before, last.keys); }
      }
    }
  }

  lemma DistinctParts(a: seq<Id>, b: seq<Id>)
    requires Distinct(a + b)
    ensures Distinct(a) && Elements(a) !! Elements(b)
  {
    var both := a + b;
    assert forall i | 0 <= i < |a| :: both[i] == a[i];
    assert forall j | 0 <= j < |b| :: both[|a| + j] == b[j];
  }

  /** Chunks of a sorted list share no key, and together have them all. */
  lemma ChunksAreApart(events: History, ordered: seq<Id>, size: nat)
    requires 1 <= size && Ascending(ordered) && ChunksOf(events) <= Chunks(ordered, size)
    ensures Apart(events) && ChunkIds(events) <= Elements(ordered)
    ensures ChunksOf(events) == Chunks(ordered, size) ==> ChunkIds(events) == Elements(ordered)
  {
    hide Apart, ChunkIds, Flat, Chunks;
    IdsAreTheLockedKeys(events);
    FlatChunks(ordered, size);
    FlatPrefix(ChunksOf(events), Chunks(ordered, size));
    var n := |Flat(ChunksOf(events))|;
    assert Flat(ChunksOf(events)) == ordered[..n];
  }
}

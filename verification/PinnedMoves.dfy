/** The bulk moves pinned to an epoch for each row: release_many, cancel_many and revive_many. */
module PinnedMoves {
  import opened Outcomes
  import opened Ordering
  import opened Lease
  import opened BulkMoves
  import opened TableHistory
  import opened TaskTable

  // ---- which rows a pinned statement selects ----

  type Pair = (Id, int)

  function Epochs(chunk: seq<Pair>): set<int> { set pair | pair in chunk :: pair.1 }

  /** Case(When(pk__in=[keys given with the epoch], then=epoch), ...): the first epoch that lists the key. */
  function CaseEpoch(chunk: seq<Pair>, epochs: seq<int>, id: Id): Option<int>
    decreases |epochs|
  {
    if epochs == [] then None
    else if (id, epochs[0]) in chunk then Some(epochs[0])
    else CaseEpoch(chunk, epochs[1..], id)
  }

  /** The two forms of the filter on pk and lease_epoch, one for a chunk with a
      single epoch and one for a chunk with several. */
  predicate Filter(chunk: seq<Pair>, epochs: seq<int>, id: Id, epoch: int) {
    && (exists pair <- chunk :: pair.0 == id)
    && if |epochs| == 1 then epoch == epochs[0] else CaseEpoch(chunk, epochs, id) == Some(epoch)
  }

  predicate EachKeyOnce(chunk: seq<Pair>) {
    forall i, j | 0 <= i < j < |chunk| :: chunk[i].0 != chunk[j].0
  }

  lemma {:induction false} CaseFindsTheEpoch(chunk: seq<Pair>, epochs: seq<int>, id: Id)
    requires EachKeyOnce(chunk)
    ensures forall epoch :: CaseEpoch(chunk, epochs, id) == Some(epoch) <==> (id, epoch) in chunk && epoch in epochs
    decreases |epochs|
  {
    if epochs != [] { CaseFindsTheEpoch(chunk, epochs[1..], id); }
  }

  /** Both forms select exactly the rows whose key and epoch were given together. */
  lemma FilterIsExact(chunk: seq<Pair>, epochs: seq<int>, id: Id, epoch: int)
    requires EachKeyOnce(chunk)
    requires Ascending(epochs) && Elements(epochs) == Epochs(chunk)
    ensures Filter(chunk, epochs, id, epoch) <==> (id, epoch) in chunk
  {
    CaseFindsTheEpoch(chunk, epochs, id);
    forall pair | pair in chunk ensures pair.1 in Elements(epochs) { assert pair.1 in Epochs(chunk); }
    if |epochs| == 1 && (exists pair <- chunk :: pair.0 == id) {
      var pair :| pair in chunk && pair.0 == id;
      assert pair == (id, epochs[0]);
    }
  }

  // ---- first epoch wins ----

  /** Each usable key with the first epoch given for it. */
  function FirstEpochs(raw: seq<(Item, int)>): map<Id, int>
    decreases |raw|
  {
    if raw == [] then map[]
    else
      var n := |raw| - 1;
      var before := FirstEpochs(raw[..n]);
      match raw[n].0
      case Malformed(_) => before
      case Usable(id) => if id in before then before else before[id := raw[n].1]
  }

  lemma {:induction false} FirstEpochIsTheFirst(raw: seq<(Item, int)>, id: Id)
    ensures id in FirstEpochs(raw) <==> exists i | 0 <= i < |raw| :: raw[i].0 == Usable(id)
    ensures id in FirstEpochs(raw) ==> exists i | 0 <= i < |raw| ::
      raw[i] == (Usable(id), FirstEpochs(raw)[id]) && forall j | 0 <= j < i :: raw[j].0 != Usable(id)
    decreases |raw|
  {
    if raw != [] {
      var n := |raw| - 1;
      FirstEpochIsTheFirst(raw[..n], id);
      if id in FirstEpochs(raw[..n]) {
        var i :| 0 <= i < n && raw[..n][i] == (Usable(id), FirstEpochs(raw[..n])[id])
          && forall j | 0 <= j < i :: raw[..n][j].0 != Usable(id);
        assert raw[i] == (Usable(id), FirstEpochs(raw)[id]);
        assert forall j | 0 <= j < i :: raw[j].0 == raw[..n][j].0;
      } else {
        assert forall j | 0 <= j < n :: raw[j].0 == raw[..n][j].0;
        if raw[n].0 == Usable(id) { assert raw[n] == (Usable(id), FirstEpochs(raw)[id]); }
      }
    }
  }

  /** Malformed ids, in the order given. */
  function MalformedIds(raw: seq<(Item, int)>): seq<string>
    decreases |raw|
  {
    if raw == [] then []
    else
      var n := |raw| - 1;
      MalformedIds(raw[..n]) + (if raw[n].0.Malformed? then [raw[n].0.text] else [])
  }

  predicate FirstMalformed(raw: seq<(Item, int)>, i: nat, text: string) {
    i < |raw| && raw[i].0 == Malformed(text) && forall j | 0 <= j < i :: raw[j].0.Usable?
  }

  /** The first of them is the first item that is malformed. */
  lemma {:induction false} FirstMalformedIsTheFirst(raw: seq<(Item, int)>)
    ensures MalformedIds(raw) == [] <==> forall i | 0 <= i < |raw| :: raw[i].0.Usable?
    ensures MalformedIds(raw) != [] ==> exists i :: FirstMalformed(raw, i, MalformedIds(raw)[0])
    decreases |raw|
  {
    if raw != [] {
      var n := |raw| - 1;
      var most, last := raw[..n], raw[n];
      FirstMalformedIsTheFirst(most);
      assert raw == most + [last];
      if MalformedIds(most) != [] {
        var i :| FirstMalformed(most, i, MalformedIds(most)[0]);
        FirstMalformedStays(most, last, i, MalformedIds(most)[0]);
        assert FirstMalformed(raw, i, MalformedIds(raw)[0]);
      } else if last.0.Malformed? {
        FirstMalformedAtLast(most, last);
        assert MalformedIds(raw) == [last.0.text];
        assert FirstMalformed(raw, n, MalformedIds(raw)[0]);
      }
    }
  }

  lemma FirstMalformedAtLast(most: seq<(Item, int)>, last: (Item, int))
    requires last.0.Malformed? && forall j | 0 <= j < |most| :: most[j].0.Usable?
    ensures FirstMalformed(most + [last], |most|, last.0.text)
  { }

  lemma FirstMalformedStays(most: seq<(Item, int)>, last: (Item, int), i: nat, text: string)
    requires FirstMalformed(most, i, text)
    ensures FirstMalformed(most + [last], i, text)
  { }

  /** The pinned pairs in key order, and the ids that are not UUIDs. */
  method Pinned(raw: seq<(Item, int)>) returns (pins: map<Id, int>, ordered: seq<Id>, malformed: seq<string>)
    ensures pins == FirstEpochs(raw) && malformed == MalformedIds(raw)
    ensures Ascending(ordered) && Elements(ordered) == pins.Keys && |ordered| == |pins| <= |raw|
  {
    pins, malformed := map[], [];
    var keys: seq<Id> := [];
    for i := 0 to |raw|
      invariant pins == FirstEpochs(raw[..i]) && malformed == MalformedIds(raw[..i])
      invariant Distinct(keys) && Elements(keys) == pins.Keys && |keys| == |pins| <= i
    {
      assert raw[..i + 1][..i] == raw[..i];
      match raw[i].0 {
        case Malformed(text) => malformed := malformed + [text];
        case Usable(id) =>
          if id !in pins {
            pins := pins[id := raw[i].1];
            keys := keys + [id];
          }
      }
    }
    assert raw[..|raw|] == raw;
    ordered := Sort(keys);
  }

  // ---- the three moves ----

  function ReleaseMove(pins: map<Id, int>, now: int): Move {
    (id: Id, r: Row) => if id in pins then Update(Release(id, pins[id], now), r) else None
  }

  function CancelMove(pins: map<Id, int>, now: int): Move {
    (id: Id, r: Row) => if id in pins then Update(Cancel(id, pins[id], now), r) else None
  }

  function ReviveMove(pins: map<Id, int>): Move {
    (id: Id, r: Row) => if id in pins then Update(Revive(id, pins[id]), r) else None
  }

  /** One chunk's pairs, its keys in order with their epochs. */
  function PairsOf(pins: map<Id, int>, keys: seq<Id>): (chunk: seq<Pair>)
    requires forall i | 0 <= i < |keys| :: keys[i] in pins
    ensures |chunk| == |keys| && forall i | 0 <= i < |keys| :: chunk[i] == (keys[i], pins[keys[i]])
  {
    seq(|keys|, i requires 0 <= i < |keys| => (keys[i], pins[keys[i]]))
  }

  lemma PairsPinTheKeys(pins: map<Id, int>, keys: seq<Id>, id: Id, epoch: int)
    requires forall i | 0 <= i < |keys| :: keys[i] in pins
    ensures (id, epoch) in PairsOf(pins, keys) <==> id in keys && pins[id] == epoch
    ensures Distinct(keys) ==> EachKeyOnce(PairsOf(pins, keys))
  {
    var chunk := PairsOf(pins, keys);
    if id in keys && pins[id] == epoch {
      var i :| 0 <= i < |keys| && keys[i] == id;
      assert chunk[i] == (id, epoch);
    }
  }

  /** On a chunk, the statement filtered on keys, statuses and epochs matches exactly
      the rows of the chunk that the pinned move matches, for each of the three. */
  lemma FilterIsTheMove(pins: map<Id, int>, keys: seq<Id>, epochs: seq<int>, now: int, id: Id, r: Row)
    requires Distinct(keys) && forall i | 0 <= i < |keys| :: keys[i] in pins
    requires Ascending(epochs) && Elements(epochs) == Epochs(PairsOf(pins, keys))
    ensures var selected := Filter(PairsOf(pins, keys), epochs, id, r.epoch);
      && (selected && r.status == WAITING <==> id in keys && ReleaseMove(pins, now)(id, r).Some?)
      && (selected && (r.status == READY || r.status == WAITING) <==> id in keys && CancelMove(pins, now)(id, r).Some?)
      && (selected && r.status == DISCARDED <==> id in keys && ReviveMove(pins)(id, r).Some?)
  {
    PairsPinTheKeys(pins, keys, id, r.epoch);
    FilterIsExact(PairsOf(pins, keys), epochs, id, r.epoch);
  }

  datatype Revival = Revived | NotFound | WrongStatusOrEpoch

  datatype RevivalAnswer = BadId(text: string) | Raised(error: DbError) | Answered(entries: seq<(Id, Revival)>)

  /** What the locking read says about one pinned row. */
  function RevivalOf(found: Table, id: Id, epoch: int): Revival {
    if id !in found then NotFound
    else if found[id].status != DISCARDED || found[id].epoch != epoch then WrongStatusOrEpoch
    else Revived
  }

  // ---- release_many ----

  /** The chunks so far, each committed by itself: the table is the serial one. */
  ghost predicate Released(s: State, t: State, changed: int, events: History, x: Setting) {
    && t == State(Serial(s.rows, events, x, s.turn), map[], [], s.turn + Turns(events))
    && changed == Count(s.rows, events, x, s.turn)
  }

  /** The chunks so far in a caller's transaction, which keeps their locks. */
  ghost predicate HeldOpen(s: State, t: State, changed: int, events: History, x: Setting) {
    t == Replay(s, events, x) && changed == Matched(s, events, x)
  }

  ghost predicate Progress(s: State, t: State, changed: int, events: History, x: Setting, own: bool) {
    if own then Released(s, t, changed, events, x) else HeldOpen(s, t, changed, events, x)
  }

  /** The end of the call in a caller's transaction: what a commit of it makes is the
      serial table, and what a rollback of it makes is the other sessions' turns alone. */
  ghost predicate LeftOpen(s: State, t: State, changed: int, events: History, x: Setting) {
    && HeldOpen(s, t, changed, events, x)
    && Released(s, Ended(t), changed, events, x) && Untouched(s, RolledBack(t), x.script)
  }

  /** Each chunk is a transaction of its own unless the caller has one. What is moved and
      counted is the rows of committed chunks, the chunks and the other sessions' turns
      one after another. After an error the chunks before it stay released when their
      transactions were the call's own, and are lost with the caller's. */
  method ReleaseMany(tasks: Tasks, raw: seq<(Item, int)>, now: int, size: nat, fates: seq<seq<Fate>>, own: bool)
    returns (r: Result<(nat, int), DbError>, ghost events: History, ghost b: Bulk)
    requires 1 <= size && |fates| >= |raw| && Idle(tasks.Now())
    requires forall i | 0 <= i < |fates| :: |fates[i]| == Tries(!own)
    modifies tasks
    ensures b.x == Setting(ReleaseMove(FirstEpochs(raw), now), tasks.script) && b.size == size
    ensures ValidBulk(b) && Elements(b.ordered) == FirstEpochs(raw).Keys && |Chunks(b.ordered, size)| <= |fates|
    ensures r.Ok? <==> forall i | 0 <= i < |Chunks(b.ordered, size)| :: EndsInCommit(fates[i])
    ensures r.Ok? ==> ChunksOf(events) == Chunks(b.ordered, size)
    ensures r.Ok? && own ==> Released(old(tasks.Now()), tasks.Now(), r.value.0, events, b.x)
    ensures r.Ok? && !own ==> LeftOpen(old(tasks.Now()), tasks.Now(), r.value.0, events, b.x)
    ensures r.Ok? ==> r.value.0 + r.value.1 == |FirstEpochs(raw)| + |Texts(MalformedIds(raw))| && 0 <= r.value.1
    ensures r.Err? && own ==> exists i | 0 <= i < |Chunks(b.ordered, size)| ::
      && ChunksOf(events) == Chunks(b.ordered, size)[..i]
      && !EndsInCommit(fates[i]) && forall j | 0 <= j < i :: EndsInCommit(fates[j])
    ensures r.Err? && own ==> exists changed :: Released(old(tasks.Now()), tasks.Now(), changed, events, b.x)
    ensures r.Err? && !own ==> Untouched(old(tasks.Now()), tasks.Now(), tasks.script)
  {
    hide Progress, Released, LeftOpen, HeldOpen, Ran, Failed, Untouched, ChunksOf, Chunks, Elements, FirstEpochs,
      ReleaseMove, MalformedIds, Texts, Idle;
    var pins, keys, malformed := Pinned(raw);
    var bulk := Bulk(Setting(ReleaseMove(pins, now), tasks.script), keys, size);
    b, events := bulk, [];
    var changed, start, index := 0, 0, 0;
    NothingReleased(tasks.Now(), bulk, own);
    ChunksAscend(keys, size);
    while start < |keys|
      invariant 0 <= start <= |keys| && index == |ChunksOf(events)| <= |Chunks(keys, size)|
      invariant ChunksOf(events) + Chunks(keys[start..], size) == Chunks(keys, size)
      invariant Progress(old(tasks.Now()), tasks.Now(), changed, events, bulk.x, own) && (own ==> Idle(tasks.Now()))
      invariant forall j | 0 <= j < index :: EndsInCommit(fates[j])
    {
      var end := if |keys| - start <= size then |keys| else start + size;
      ghost var mid, before := tasks.Now(), events;
      NextChunk(keys, size, start, ChunksOf(events));
      OneChunk(keys, size, start, end);
      var moved: Result<nat, DbError>;
      var here: Table;
      ghost var more: History;
      moved, here, more := tasks.RunMove(bulk.(ordered := keys[start..end]), fates[index], own);
      if moved.Err? {
        events := ChunkFails(old(tasks.Now()), mid, tasks.Now(), changed, before, more, bulk, keys[start..end], own);
        assert ChunksOf(events) == Chunks(keys, size)[..index];
        return Err(moved.error), events, b;
      }
      ChunkCommits(old(tasks.Now()), mid, tasks.Now(), changed, before, Record(more, here, moved.value), bulk,
        keys[start..end], own);
      events := before + more;
      changed := changed + moved.value;
      start := end;
      index := index + 1;
    }
    NoChunkLeft(keys, size, start, ChunksOf(events));
    AllReleased(old(tasks.Now()), tasks.Now(), changed, events, bulk, own);
    SizeOfPins(pins, keys);
    r := Ok((changed, |pins| + |Texts(malformed)| - changed));
  }

  lemma NothingReleased(s: State, b: Bulk, own: bool)
    requires ValidBulk(b) && Idle(s)
    ensures Progress(s, s, 0, [], b.x, own) && ChunksOf([]) == []
    ensures ChunksOf([]) + Chunks(b.ordered[0..], b.size) == Chunks(b.ordered, b.size)
  {
    NothingRanYet(s, b);
  }

  /** The chunk that one transaction moves is all of its chunks. */
  lemma OneChunk(ordered: seq<Id>, size: nat, start: nat, end: nat)
    requires 1 <= size && start < end <= |ordered| && end - start <= size && Ascending(ordered)
    ensures Ascending(ordered[start..end]) && Chunks(ordered[start..end], size) == [ordered[start..end]]
  {
    var chunk := ordered[start..end];
    assert chunk[..|chunk|] == chunk && chunk[|chunk|..] == [];
  }

  lemma ChunkCommits(s: State, mid: State, t: State, changed: int, a: History, o: Record, b: Bulk,
          chunk: seq<Id>, own: bool)
    requires ValidBulk(b) && Ascending(chunk) && Chunks(chunk, b.size) == [chunk]
    requires Progress(s, mid, changed, a, b.x, own) && (own ==> Idle(mid))
    requires Ran(mid, t, o, b.(ordered := chunk), own)
    ensures Progress(s, t, changed + o.changed, a + o.events, b.x, own) && (own ==> Idle(t))
    ensures ChunksOf(a + o.events) == ChunksOf(a) + [chunk]
  {
    hide Replay, Matched, Serial, Count, ChunksOf, Chunks, Ran, Turns, Turned, MovedFrom, Ended, RolledBack;
    JoinedChunks(a, o.events);
    JoinedReplay(s, a, o.events, b.x);
    JoinedSerial(s.rows, a, o.events, b.x, s.turn);
    RanExactly(mid, t, o, b.(ordered := chunk), own);
    if own { RanIsCommitted(mid, t, o, b.(ordered := chunk), own); }
  }

  lemma RanExactly(s: State, t: State, o: Record, b: Bulk, own: bool)
    requires ValidBulk(b) && Ran(s, t, o, b, own)
    ensures ChunksOf(o.events) == Chunks(b.ordered, b.size) && o.changed == Matched(s, o.events, b.x)
    ensures t == if own then Ended(Replay(s, o.events, b.x)) else Replay(s, o.events, b.x)
  { }

  /** A chunk that fails adds only the other sessions' turns; a caller's transaction
      takes the chunks before it back too. */
  lemma ChunkFails(s: State, mid: State, t: State, changed: int, a: History, more: History, b: Bulk,
          chunk: seq<Id>, own: bool)
    returns (events: History)
    requires ValidBulk(b) && Ascending(chunk) && Chunks(chunk, b.size) == [chunk] && Idle(s)
    requires ChunksOf(a) + [chunk] <= Chunks(b.ordered, b.size)
    requires Progress(s, mid, changed, a, b.x, own) && (own ==> Idle(mid))
    requires if own then Untouched(mid, t, b.x.script) else Failed(mid, t, more, b.(ordered := chunk))
    ensures ChunksOf(events) == ChunksOf(a)
    ensures own ==> Released(s, t, changed, events, b.x)
    ensures !own ==> Untouched(s, t, b.x.script)
  {
    hide Replay, Matched, Serial, Count, ChunksOf, Chunks, Turns, Turned, MovedFrom, Ended, RolledBack;
    if own {
      var pause := OnlyOthers(t.turn - mid.turn);
      events := a + pause;
      OthersAlone(mid, t.turn - mid.turn, b.x);
      JoinedChunks(a, pause);
      JoinedSerial(s.rows, a, pause, b.x, s.turn);
      assert ChunksOf(a) + [] == ChunksOf(a);
    } else {
      events := a;
      JoinedChunks(a, more);
      JoinedReplay(s, a, more, b.x);
      FailedIsUntouched(s, t, a + more, b);
    }
  }

  lemma AllReleased(s: State, t: State, changed: int, events: History, b: Bulk, own: bool)
    requires ValidBulk(b) && Idle(s) && ChunksOf(events) == Chunks(b.ordered, b.size)
    requires Progress(s, t, changed, events, b.x, own)
    ensures own ==> Released(s, t, changed, events, b.x)
    ensures !own ==> LeftOpen(s, t, changed, events, b.x)
    ensures 0 <= changed <= |Elements(b.ordered)|
  {
    hide Replay, Matched, Serial, Count, ChunksOf, Chunks, Turns, Turned, MovedFrom, Ended, RolledBack;
    ChunksAreApart(events, b.ordered, b.size);
    CommitIsSerialRollbackIsNothing(s, events, b.x);
    CountIsOfTheLocked(s, events, b.x);
  }

  lemma SizeOfPins(pins: map<Id, int>, keys: seq<Id>)
    requires Elements(keys) == pins.Keys
    ensures |Elements(keys)| == |pins|
  {
    assert |pins.Keys| == |pins|;
  }

  function Texts(malformed: seq<string>): set<string> { set text | text in malformed }

  // ---- cancel_many ----

  /** A READY or WAITING row at the epoch given for it. */
  predicate ToCancel(pins: map<Id, int>, id: Id, r: Row) {
    id in pins && r.epoch == pins[id] && (r.status == READY || r.status == WAITING)
  }

  lemma CancelledRows(pins: map<Id, int>, now: int, found: Table, after: Table)
    requires MovedFrom(after, found, CancelMove(pins, now))
    ensures Eligible(found, CancelMove(pins, now), pins.Keys) == set id | id in found && ToCancel(pins, id, found[id])
    ensures forall id <- found ::
      id in after && after[id] ==
        if ToCancel(pins, id, found[id])
        then found[id].(status := DISCARDED, finishedAt := Some(now),
                        lockedBy := None, lockedAt := None, leaseExpiresAt := None)
        else found[id]
  { }

  /** One transaction: all the matching rows are closed, as they were when locked, or
      none is and the table is what the other sessions' turns alone make of it. */
  method CancelMany(tasks: Tasks, raw: seq<(Item, int)>, now: int, size: nat, fates: seq<Fate>, own: bool)
    returns (r: Result<nat, DbError>, found: Table, ghost events: History, ghost b: Bulk)
    requires 1 <= size && |fates| == Tries(!own) && Idle(tasks.Now())
    modifies tasks
    ensures b.x == Setting(CancelMove(FirstEpochs(raw), now), tasks.script) && b.size == size
    ensures ValidBulk(b) && Elements(b.ordered) == FirstEpochs(raw).Keys
    ensures r.Ok? <==> EndsInCommit(fates)
    ensures r.Ok? ==> Committed(old(tasks.Now()), tasks.Now(), Record(events, found, r.value), b, own)
    ensures r.Ok? ==> r.value == |set id | id in found && ToCancel(FirstEpochs(raw), id, found[id])|
    ensures r.Ok? ==> var after := Replay(old(tasks.Now()), events, b.x).rows; forall id <- found ::
      id in after && after[id] ==
        if ToCancel(FirstEpochs(raw), id, found[id])
        then found[id].(status := DISCARDED, finishedAt := Some(now),
                        lockedBy := None, lockedAt := None, leaseExpiresAt := None)
        else found[id]
    ensures r.Err? ==> Untouched(old(tasks.Now()), tasks.Now(), tasks.script)
  {
    hide Committed, Untouched, Idle, Replay, ToCancel;
    var pins, keys, _ := Pinned(raw);
    var bulk := Bulk(Setting(CancelMove(pins, now), tasks.script), keys, size);
    b := bulk;
    r, found, events := tasks.MoveOrNot(bulk, fates, own);
    if r.Ok? {
      LockedAreMoved(old(tasks.Now()), tasks.Now(), Record(events, found, r.value), bulk, own);
      CancelledRows(pins, now, found, Replay(old(tasks.Now()), events, bulk.x).rows);
    }
  }

  // ---- revive_many ----

  /** What the entry says is what the row was when locked, and what became of it. */
  predicate RevivalHappened(found: Table, after: Table, id: Id, epoch: int, said: Revival) {
    match said
    case NotFound => id !in found
    case WrongStatusOrEpoch =>
      && id in found && id in after && after[id] == found[id]
      && (found[id].status != DISCARDED || found[id].epoch != epoch)
    case Revived =>
      && id in found && id in after
      && found[id].status == DISCARDED && found[id].epoch == epoch
      && after[id].status == WAITING && after[id].epoch == epoch + 1
      && after[id].attempts == found[id].attempts && after[id].finishedAt == None
  }

  /** One entry for each pinned row, in key order. */
  method Report(ordered: seq<Id>, pins: map<Id, int>, found: Table) returns (entries: seq<(Id, Revival)>)
    requires Elements(ordered) == pins.Keys
    ensures |entries| == |ordered|
    ensures forall i | 0 <= i < |ordered| ::
      ordered[i] in pins && entries[i] == (ordered[i], RevivalOf(found, ordered[i], pins[ordered[i]]))
  {
    entries := [];
    for i := 0 to |ordered|
      invariant |entries| == i
      invariant forall j | 0 <= j < i ::
        ordered[j] in pins && entries[j] == (ordered[j], RevivalOf(found, ordered[j], pins[ordered[j]]))
    {
      assert ordered[i] in Elements(ordered);
      entries := entries + [(ordered[i], RevivalOf(found, ordered[i], pins[ordered[i]]))];
    }
  }

  lemma RevivalsAreTrue(pins: map<Id, int>, found: Table, after: Table, id: Id)
    requires id in pins && MovedFrom(after, found, ReviveMove(pins))
    ensures RevivalHappened(found, after, id, pins[id], RevivalOf(found, id, pins[id]))
  { }

  /** One entry for each key given, in key order, from the attempt that committed:
      REVIVED exactly when the row went, in that transaction, from DISCARDED at its
      pinned epoch to WAITING at the next. A malformed id stops the call before anything
      moves, and an error leaves what the other sessions' turns alone make of the table. */
  method ReviveMany(tasks: Tasks, raw: seq<(Item, int)>, size: nat, fates: seq<Fate>, own: bool)
    returns (r: RevivalAnswer, found: Table, ghost events: History, ghost b: Bulk)
    requires 1 <= size && |fates| == Tries(!own) && Idle(tasks.Now())
    modifies tasks
    ensures b.x == Setting(ReviveMove(FirstEpochs(raw)), tasks.script) && b.size == size
    ensures ValidBulk(b) && Elements(b.ordered) == FirstEpochs(raw).Keys
    ensures r.BadId? <==> MalformedIds(raw) != []
    ensures r.BadId? ==> tasks.Now() == old(tasks.Now()) && r.text == MalformedIds(raw)[0]
    ensures !r.BadId? ==> (r.Answered? <==> EndsInCommit(fates))
    ensures r.Raised? ==> Untouched(old(tasks.Now()), tasks.Now(), tasks.script)
    ensures r.Answered? ==>
      exists changed :: Committed(old(tasks.Now()), tasks.Now(), Record(events, found, changed), b, own)
    ensures r.Answered? ==> Firsts(r.entries) == b.ordered
    ensures r.Answered? ==> var committed := Replay(old(tasks.Now()), events, b.x).rows;
      forall entry <- r.entries :: entry.0 in FirstEpochs(raw)
        && RevivalHappened(found, committed, entry.0, FirstEpochs(raw)[entry.0], entry.1)
  {
    hide RevivalHappened, RevivalOf, Committed, Untouched, Idle, Replay;
    var pins, keys, malformed := Pinned(raw);
    var bulk := Bulk(Setting(ReviveMove(pins), tasks.script), keys, size);
    b, events := bulk, [];
    if malformed != [] {
      return BadId(malformed[0]), map[], events, b;
    }
    var moved: Result<nat, DbError>;
    moved, found, events := tasks.MoveOrNot(bulk, fates, own);
    if moved.Err? {
      return Raised(moved.error), found, events, b;
    }
    var entries := Report(keys, pins, found);
    assert Firsts(entries) == keys;
    ghost var committed := Replay(old(tasks.Now()), events, bulk.x).rows;
    LockedAreMoved(old(tasks.Now()), tasks.Now(), Record(events, found, moved.value), bulk, own);
    forall entry | entry in entries
      ensures entry.0 in pins && RevivalHappened(found, committed, entry.0, pins[entry.0], entry.1)
    {
      RevivalsAreTrue(pins, found, committed, entry.0);
    }
    r := Answered(entries);
  }
}

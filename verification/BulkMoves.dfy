/** The bulk forms: deduplicate, sort, lock and update chunk by chunk in one
    transaction, roll back and run again after contention. */
module BulkMoves {
  import opened Outcomes
  import opened Lease
  import opened Ordering

  const ATTEMPTS := 3

  /** What one statement does to one row: the new row where its WHERE matches. */
  type Move = (Id, Row) -> Option<Row>

  // ---- what a bulk move means ----

  /** The move applied once to each of these rows that it matches; the rest untouched. */
  function MoveAll(t: Table, f: Move, ids: set<Id>): Table {
    map id | id in t :: if id in ids && f(id, t[id]).Some? then f(id, t[id]).value else t[id]
  }

  function Eligible(t: Table, f: Move, ids: set<Id>): set<Id> {
    set id | id in ids && id in t && f(id, t[id]).Some?
  }

  /** The single-row call. */
  function MoveOne(t: Table, f: Move, id: Id): Table {
    if id in t && f(id, t[id]).Some? then t[id := f(id, t[id]).value] else t
  }

  /** The single-row call made for each of these ids, one after another. */
  function MoveEach(t: Table, f: Move, ids: seq<Id>): Table
    decreases |ids|
  {
    if ids == [] then t else MoveEach(MoveOne(t, f, ids[0]), f, ids[1..])
  }

  /** A row the move has moved is not matched again: it left the statuses the move takes. */
  ghost predicate MovesOnce(f: Move) {
    forall id, r | f(id, r).Some? :: f(id, f(id, r).value).None?
  }

  /** A bulk move is the single-row move made for each id, in whatever order the
      ids came and however often each was given. */
  lemma {:induction false} BulkIsOneByOne(t: Table, f: Move, ids: seq<Id>)
    requires MovesOnce(f)
    ensures MoveEach(t, f, ids) == MoveAll(t, f, Elements(ids))
    decreases |ids|
  {
    if ids != [] {
      BulkIsOneByOne(MoveOne(t, f, ids[0]), f, ids[1..]);
      assert forall id :: id in ids <==> id == ids[0] || id in ids[1..];
    }
  }

  /** Moving two disjoint chunks one after the other is moving both at once. */
  lemma MovesCompose(t: Table, f: Move, a: set<Id>, b: set<Id>)
    requires a !! b
    ensures MoveAll(MoveAll(t, f, a), f, b) == MoveAll(t, f, a + b)
    ensures Eligible(MoveAll(t, f, a), f, b) == Eligible(t, f, b)
    ensures |Eligible(t, f, a + b)| == |Eligible(t, f, a)| + |Eligible(t, f, b)|
  {
    assert Eligible(t, f, a + b) == Eligible(t, f, a) + Eligible(t, f, b);
  }

  // ---- ids: distinct, malformed, sorted ----

  /** An item of a selection: a usable id, or text no UUID can be read from. */
  datatype Item = Usable(id: Id) | Malformed(text: string)

  function UsableIds(raw: seq<Item>): set<Id> { set item | item in raw && item.Usable? :: item.id }

  function MalformedTexts(raw: seq<Item>): set<string> { set item | item in raw && item.Malformed? :: item.text }

  /** The distinct usable ids in first-seen order, and how many distinct items were malformed. */
  method DistinctIds(raw: seq<Item>) returns (ids: seq<Id>, malformed: nat)
    ensures Distinct(ids) && Elements(ids) == UsableIds(raw)
    ensures malformed == |MalformedTexts(raw)|
  {
    var texts: set<string> := {};
    ids := [];
    for i := 0 to |raw|
      invariant Distinct(ids) && Elements(ids) == UsableIds(raw[..i])
      invariant texts == MalformedTexts(raw[..i])
    {
      OneMoreItem(raw, i);
      match raw[i] {
        case Malformed(text) => texts := texts + {text};
        case Usable(id) => if id !in ids { ids := ids + [id]; }
      }
    }
    assert raw[..|raw|] == raw;
    malformed := |texts|;
  }

  lemma OneMoreItem(raw: seq<Item>, i: nat)
    requires i < |raw|
    ensures UsableIds(raw[..i + 1]) == UsableIds(raw[..i]) + (if raw[i].Usable? then {raw[i].id} else {})
    ensures MalformedTexts(raw[..i + 1]) == MalformedTexts(raw[..i]) + (if raw[i].Malformed? then {raw[i].text} else {})
  {
    assert raw[..i + 1] == raw[..i] + [raw[i]];
    assert forall item :: item in raw[..i + 1] <==> item in raw[..i] || item == raw[i];
  }

  // ---- chunks ----

  /** The ids in slices of the chunk size. */
  function Chunks(ordered: seq<Id>, size: nat): seq<seq<Id>>
    requires 1 <= size
    decreases |ordered|
  {
    if ordered == [] then []
    else
      var n := if |ordered| <= size then |ordered| else size;
      [ordered[..n]] + Chunks(ordered[n..], size)
  }

  /** The chunks put together again. */
  function Flat(chunks: seq<seq<Id>>): seq<Id> {
    if chunks == [] then [] else Flat(chunks[..|chunks| - 1]) + chunks[|chunks| - 1]
  }

  lemma FlatOneMore(chunks: seq<seq<Id>>, chunk: seq<Id>)
    ensures Flat(chunks + [chunk]) == Flat(chunks) + chunk
  {
    assert (chunks + [chunk])[..|chunks|] == chunks;
  }

  lemma {:induction false} FlatFromTheFront(chunk: seq<Id>, chunks: seq<seq<Id>>)
    ensures Flat([chunk] + chunks) == chunk + Flat(chunks)
    decreases |chunks|
  {
    if chunks == [] {
      assert [chunk] + chunks == [] + [chunk];
      FlatOneMore([], chunk);
    } else {
      var n := |chunks| - 1;
      FlatFromTheFront(chunk, chunks[..n]);
      assert ([chunk] + chunks)[..n + 1] == [chunk] + chunks[..n];
    }
  }

  /** Slicing loses and reorders nothing. */
  lemma {:induction false} FlatChunks(ordered: seq<Id>, size: nat)
    requires 1 <= size
    ensures Flat(Chunks(ordered, size)) == ordered
    decreases |ordered|
  {
    if ordered != [] {
      var n := if |ordered| <= size then |ordered| else size;
      FlatChunks(ordered[n..], size);
      FlatFromTheFront(ordered[..n], Chunks(ordered[n..], size));
    }
  }

  lemma {:induction false} FlatPrefix(some: seq<seq<Id>>, all: seq<seq<Id>>)
    requires some <= all
    ensures Flat(some) <= Flat(all)
    decreases |all|
  {
    if |some| == |all| {
      assert some == all;
    } else {
      FlatPrefix(some, all[..|all| - 1]);
    }
  }

  /** Every chunk is full but the last, which is not empty. */
  predicate Full(chunks: seq<seq<Id>>, size: nat) {
    forall n | 0 <= n < |chunks| :: if n < |chunks| - 1 then |chunks[n]| == size else 1 <= |chunks[n]| <= size
  }

  lemma FullOneMore(chunk: seq<Id>, chunks: seq<seq<Id>>, size: nat)
    requires Full(chunks, size) && |chunk| == size && chunks != []
    ensures Full([chunk] + chunks, size)
  { }

  lemma {:induction false} ChunksAreFull(ordered: seq<Id>, size: nat)
    requires 1 <= size
    ensures Full(Chunks(ordered, size), size) && (ordered != [] ==> Chunks(ordered, size) != [])
    decreases |ordered|
  {
    if |ordered| > size {
      ChunksAreFull(ordered[size..], size);
      FullOneMore(ordered[..size], Chunks(ordered[size..], size), size);
    } else if ordered != [] {
      assert ordered[|ordered|..] == [] && Chunks(ordered, size) == [ordered[..|ordered|]];
    }
  }

  lemma {:induction false} ChunksAscend(ordered: seq<Id>, size: nat)
    requires 1 <= size && Ascending(ordered)
    ensures forall n | 0 <= n < |Chunks(ordered, size)| :: Ascending(Chunks(ordered, size)[n])
    ensures |Chunks(ordered, size)| <= |ordered|
    decreases |ordered|
  {
    if ordered != [] { ChunksAscend(ordered[if |ordered| <= size then |ordered| else size..], size); }
  }
}

/** The locks of the bulk calls: sorted, distinct keys, all in one transaction or
    one transaction a chunk, and so never deadlocked with one another. */
module BulkLocking {
  import opened Ordering
  import opened Lease
  import opened LockOrder
  import opened BulkMoves

  /** A call by the distinct ids it was given: retry_many, discard_many, cancel_many and
      revive_many lock in one transaction, release_many in one for each chunk. */
  datatype BulkCall = OneTransaction(ids: seq<Id>) | PerChunk(ids: seq<Id>)

  function LocksOf(call: BulkCall, size: nat): Call
    requires 1 <= size && Distinct(call.ids)
  {
    match call
    case OneTransaction(ids) => Call([Sort(ids)], 0)
    case PerChunk(ids) => Call(Chunks(Sort(ids), size), 0)
  }

  /** A call starts with nothing locked and locks each of its ids once, in key order:
      in one transaction, or in one for every `size` of them. */
  lemma LocksEachIdOnce(call: BulkCall, size: nat)
    requires 1 <= size && Distinct(call.ids)
    ensures var locks := LocksOf(call, size);
      && locks.held == 0 && Ascending(Flat(locks.txs)) && Elements(Flat(locks.txs)) == Elements(call.ids)
      && (call.OneTransaction? ==> |locks.txs| == 1)
      && (call.PerChunk? ==> forall n | 0 <= n < |locks.txs| :: 1 <= |locks.txs[n]| <= size)
  {
    FlatChunks(Sort(call.ids), size);
    ChunksAreFull(Sort(call.ids), size);
    FlatOneMore([], Sort(call.ids));
    assert [] + [Sort(call.ids)] == [Sort(call.ids)];
  }

  function Start(calls: seq<BulkCall>, size: nat): State
    requires 1 <= size && forall call <- calls :: Distinct(call.ids)
  {
    seq(|calls|, i requires 0 <= i < |calls| => LocksOf(calls[i], size))
  }

  /** Any number of bulk calls over any ids, interleaved lock by lock: no row is ever
      locked twice, some unfinished call can always step, and every schedule that
      cannot be extended has finished all of them. */
  lemma BulkCallsNeverDeadlock(calls: seq<BulkCall>, size: nat, schedule: seq<nat>)
    requires 1 <= size && forall call <- calls :: Distinct(call.ids)
    requires Runs(Start(calls, size), schedule)
    ensures var t := After(Start(calls, size), schedule);
      && Exclusive(t)
      && (AllDone(t) || exists j :: CanStep(t, j))
      && ((forall j :: !CanStep(t, j)) ==> AllDone(t) && |schedule| == WorkLeft(Start(calls, size)))
  {
    var s := Start(calls, size);
    forall i | 0 <= i < |s| ensures Ordered(s[i]) && s[i].held == 0 {
      if calls[i].PerChunk? { ChunksAscend(Sort(calls[i].ids), size); }
    }
    NeverDeadlocks(s, schedule);
    if forall j :: !CanStep(After(s, schedule), j) { EveryScheduleFinishes(s, schedule); }
  }
}

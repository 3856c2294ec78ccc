/** The in-flight bookkeeping of the agent's poller and workers:
    `transInQueue` is the list of transformation IDs queued or being processed. */
module Dispatch {
  import opened TaskPipeline
  import opened Collections

  function Ids(ds: seq<TransDict>): (r: seq<int>)
    ensures |r| == |ds|
  {
    if ds == [] then [] else [ds[0].transID] + Ids(ds[1..])
  }

  /** The descriptors of one poll that `execute` puts in the queue, in order:
      those whose ID is neither in flight nor already taken earlier in the poll. */
  function Enqueued(inQueue: seq<int>, batch: seq<TransDict>): seq<TransDict>
    decreases |batch|
  {
    if batch == [] then []
    else if batch[0].transID in inQueue then Enqueued(inQueue, batch[1..])
    else [batch[0]] + Enqueued(inQueue + [batch[0].transID], batch[1..])
  }

  /** One step of a poll. */
  lemma EnqueuedStep(inQueue: seq<int>, batch: seq<TransDict>)
    requires batch != []
    ensures Enqueued(inQueue, batch) ==
      if batch[0].transID in inQueue then Enqueued(inQueue, batch[1..])
      else [batch[0]] + Enqueued(inQueue + [batch[0].transID], batch[1..])
  {
  }

  lemma IdsCons(d: TransDict, e: seq<TransDict>)
    ensures Ids([d] + e) == [d.transID] + Ids(e)
  {
    assert ([d] + e)[1..] == e;
  }

  lemma {:induction false} IdsSnoc(ds: seq<TransDict>, d: TransDict)
    ensures Ids(ds + [d]) == Ids(ds) + [d.transID]
  {
    if ds != [] {
      assert (ds + [d])[1..] == ds[1..] + [d];
      IdsSnoc(ds[1..], d);
    }
  }

  lemma {:induction false} IdsAppend(a: seq<TransDict>, b: seq<TransDict>)
    ensures Ids(a + b) == Ids(a) + Ids(b)
  {
    if a == [] {
      assert a + b == b;
    } else {
      assert (a + b)[0] == a[0];
      assert (a + b)[1..] == a[1..] + b;
      IdsAppend(a[1..], b);
    }
  }

  /** A poll step past an ID already in flight. */
  lemma PollSkip(start: seq<int>, batch: seq<TransDict>, i: nat, queued: seq<TransDict>, inQueue: seq<int>)
    requires i < |batch| && batch[i].transID in inQueue
    requires Enqueued(start, batch) == queued + Enqueued(inQueue, batch[i..])
    ensures Enqueued(start, batch) == queued + Enqueued(inQueue, batch[i + 1..])
  {
    assert batch[i..][0] == batch[i] && batch[i..][1..] == batch[i + 1..];
  }

  /** A poll step that queues `batch[i]`. */
  lemma PollTake(start: seq<int>, batch: seq<TransDict>, i: nat, queued: seq<TransDict>, inQueue: seq<int>)
    requires i < |batch| && batch[i].transID !in inQueue
    requires inQueue == start + Ids(queued)
    requires Enqueued(start, batch) == queued + Enqueued(inQueue, batch[i..])
    ensures inQueue + [batch[i].transID] == start + Ids(queued + [batch[i]])
    ensures Enqueued(start, batch) == (queued + [batch[i]]) + Enqueued(inQueue + [batch[i].transID], batch[i + 1..])
  {
    var d := batch[i];
    assert batch[i..][0] == d && batch[i..][1..] == batch[i + 1..];
    var later := Enqueued(inQueue + [d.transID], batch[i + 1..]);
    assert Enqueued(inQueue, batch[i..]) == [d] + later;
    assert queued + ([d] + later) == (queued + [d]) + later;
    IdsSnoc(queued, d);
    assert start + (Ids(queued) + [d.transID]) == (start + Ids(queued)) + [d.transID];
  }

  /** Each queued descriptor came from the poll, with an ID not in flight before. */
  lemma {:induction false} EnqueuedFromBatch(inQueue: seq<int>, batch: seq<TransDict>)
    ensures forall d :: d in Enqueued(inQueue, batch) ==> d in batch && d.transID !in inQueue
    decreases |batch|
  {
    if batch != [] {
      var rest := batch[1..];
      if batch[0].transID in inQueue {
        EnqueuedFromBatch(inQueue, rest);
      } else {
        EnqueuedFromBatch(inQueue + [batch[0].transID], rest);
      }
    }
  }

  /** A poll keeps the in-flight list free of duplicates. */
  lemma {:induction false} EnqueuedDistinct(inQueue: seq<int>, batch: seq<TransDict>)
    requires Distinct(inQueue)
    ensures Distinct(inQueue + Ids(Enqueued(inQueue, batch)))
    decreases |batch|
  {
    if batch != [] {
      var d := batch[0];
      if d.transID in inQueue {
        EnqueuedDistinct(inQueue, batch[1..]);
      } else {
        var q := inQueue + [d.transID];
        var e := Enqueued(q, batch[1..]);
        assert Enqueued(inQueue, batch) == [d] + e;
        IdsCons(d, e);
        assert inQueue + Ids(Enqueued(inQueue, batch)) == q + Ids(e);
        AppendFresh(inQueue, d.transID);
        EnqueuedDistinct(q, batch[1..]);
      }
    }
  }

  /** After a poll every polled ID is in flight, even when one repeats in the poll. */
  lemma {:induction false} EnqueuedCovers(inQueue: seq<int>, batch: seq<TransDict>)
    ensures forall d :: d in batch ==> d.transID in inQueue + Ids(Enqueued(inQueue, batch))
    decreases |batch|
  {
    if batch != [] {
      var d := batch[0];
      if d.transID in inQueue {
        EnqueuedCovers(inQueue, batch[1..]);
      } else {
        var q := inQueue + [d.transID];
        EnqueuedCovers(q, batch[1..]);
        IdsCons(d, Enqueued(q, batch[1..]));
        assert inQueue + Ids(Enqueued(inQueue, batch)) == q + Ids(Enqueued(q, batch[1..]));
      }
      assert forall x :: x in batch ==> x == d || x in batch[1..];
    }
  }

  /** `list.remove(x)` when `x` is in the list: the first occurrence goes. */
  function RemoveFirst(s: seq<int>, x: int): seq<int> {
    if s == [] then []
    else if s[0] == x then s[1..]
    else [s[0]] + RemoveFirst(s[1..], x)
  }

  /** On a duplicate-free list, removing an ID makes it absent and keeps every
      other ID and the absence of duplicates. */
  lemma {:induction false} RemoveFirstSpec(s: seq<int>, x: int)
    requires Distinct(s)
    ensures x !in RemoveFirst(s, x)
    ensures Distinct(RemoveFirst(s, x))
    ensures forall y :: y != x ==> (y in RemoveFirst(s, x) <==> y in s)
  {
    if s != [] {
      assert Distinct(s[1..]);
      RemoveFirstSpec(s[1..], x);
      if s[0] == x {
        assert s[0] !in s[1..];
      } else {
        var r := RemoveFirst(s[1..], x);
        assert s[0] !in r;
        assert RemoveFirst(s, x) == [s[0]] + r;
      }
    }
  }
}

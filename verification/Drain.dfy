/** The pending-writes loop on its own: with no new posts it empties any backlog, chunk by chunk. */
module Drain {
  import opened Events
  import opened EventQueue
  import opened Sequences
  import opened Wrappers

  /** `n / c`, rounded up. */
  function CeilDiv(n: nat, c: nat): nat
    requires c > 0
  {
    if n == 0 then 0 else if n <= c then 1 else 1 + CeilDiv(n - c, c)
  }

  lemma {:induction false} CeilDivRoundsUp(n: nat, c: nat)
    requires c > 0
    ensures n <= CeilDiv(n, c) * c < n + c
  {
    if n > c {
      CeilDivRoundsUp(n - c, c);
    }
  }

  /** The chunks one entry is written in: as many as fit the queue at a time. */
  function EntryChunks(events: seq<Event>, capacity: nat): seq<seq<Event>>
    requires capacity > 0
  {
    if |events| <= capacity then [events]
    else [events[..capacity]] + EntryChunks(events[capacity..], capacity)
  }

  function BacklogChunks(backlog: seq<Batch>, capacity: nat): seq<seq<Event>>
    requires capacity > 0
  {
    if backlog == [] then []
    else EntryChunks(backlog[0].events, capacity) + BacklogChunks(backlog[1..], capacity)
  }

  function Concat(chunks: seq<seq<Event>>): seq<Event> {
    if chunks == [] then [] else chunks[0] + Concat(chunks[1..])
  }

  function Iterations(backlog: seq<Batch>, capacity: nat): nat
    requires capacity > 0
  {
    if backlog == [] then 0 else CeilDiv(|backlog[0].events|, capacity) + Iterations(backlog[1..], capacity)
  }

  /** An entry's chunks put it together again; all are full except possibly the last. */
  lemma {:induction false} EntryChunksPartition(events: seq<Event>, capacity: nat)
    requires capacity > 0 && events != []
    ensures var chunks := EntryChunks(events, capacity);
            && Concat(chunks) == events
            && |chunks| == CeilDiv(|events|, capacity) > 0
            && (forall i | 0 <= i < |chunks| - 1 :: |chunks[i]| == capacity)
            && 0 < |chunks[|chunks| - 1]| <= capacity
  {
    if |events| <= capacity {
      assert Concat([events]) == events + Concat([]);
    } else {
      EntryChunksPartition(events[capacity..], capacity);
      var tail := EntryChunks(events[capacity..], capacity);
      assert EntryChunks(events, capacity)[1..] == tail;
      assert events[..capacity] + events[capacity..] == events;
    }
  }

  lemma {:induction false} ConcatAppend(a: seq<seq<Event>>, b: seq<seq<Event>>)
    ensures Concat(a + b) == Concat(a) + Concat(b)
  {
    if a == [] {
      assert a + b == b;
    } else {
      ConcatAppend(a[1..], b);
      assert (a + b)[1..] == a[1..] + b && (a + b)[0] == a[0];
    }
  }

  /** The chunks of a whole backlog: every event once, in order, in exactly the number of rounds that
      rounding each entry up to whole chunks gives. */
  lemma {:induction false} BacklogChunksPartition(backlog: seq<Batch>, capacity: nat)
    requires capacity > 0
    requires forall i | 0 <= i < |backlog| :: backlog[i].events != []
    ensures Concat(BacklogChunks(backlog, capacity)) == Flatten(backlog)
    ensures |BacklogChunks(backlog, capacity)| == Iterations(backlog, capacity)
    ensures forall chunk | chunk in BacklogChunks(backlog, capacity) :: 0 < |chunk| <= capacity
  {
    if backlog != [] {
      EntryChunksPartition(backlog[0].events, capacity);
      BacklogChunksPartition(backlog[1..], capacity);
      ConcatAppend(EntryChunks(backlog[0].events, capacity), BacklogChunks(backlog[1..], capacity));
      FlattenFront(backlog);
      var chunks := EntryChunks(backlog[0].events, capacity);
      forall chunk | chunk in chunks ensures 0 < |chunk| <= capacity {
        var i :| 0 <= i < |chunks| && chunks[i] == chunk;
        assert i == |chunks| - 1 || |chunks[i]| == capacity;
      }
    }
  }

  /** What happens while the mutex is released: the framework may read, and the write succeeds or not. */
  datatype Interference = Interference(taken: nat, writeOk: bool)

  /** One round of the loop: pick a chunk, release the mutex, write or time out, drop the chunk. A write
      that finds no room times out. */
  function Round(q: Queue, env: Interference): Queue
    requires Accounted(q) && q.writer == Idle && q.backlog != []
  {
    var q1 := Read(BeginWrite(q), Min(env.taken, |q.fmq|));
    var q2 := if env.writeOk && |q1.fmq| + q1.writer.n <= q1.capacity then Deliver(q1) else Fail(q1);
    EndWriteKeepsAccounts(q2);
    EndWrite(q2)
  }

  lemma RoundKeepsAccounts(q: Queue, env: Interference)
    requires Accounted(q) && q.writer == Idle && q.backlog != []
    ensures var q' := Round(q, env);
            && Accounted(q') && q'.writer == Idle && q'.capacity == q.capacity && q'.maxPending == q.maxPending
            && q'.size + Min(|q.backlog[0].events|, q.capacity) == q.size
            && q'.backlog == if |q.backlog[0].events| > q.capacity
                             then [Batch(q.backlog[0].events[q.capacity..], q.backlog[0].wakeups)] + q.backlog[1..]
                             else q.backlog[1..]
  {
    var q1 := Read(BeginWrite(q), Min(env.taken, |q.fmq|));
    EndWriteKeepsAccounts(if env.writeOk && |q1.fmq| + q1.writer.n <= q1.capacity then Deliver(q1) else Fail(q1));
  }

  /** One round takes the next chunk off the front of the backlog, whatever happens meanwhile. */
  lemma RoundTakesFirstChunk(q: Queue, env: Interference)
    requires Accounted(q) && q.writer == Idle && q.backlog != [] && q.capacity > 0
    ensures BacklogChunks(q.backlog, q.capacity)
            == [q.backlog[0].events[..Min(|q.backlog[0].events|, q.capacity)]]
               + BacklogChunks(Round(q, env).backlog, q.capacity)
    ensures Round(q, env).size < q.size
  {
    RoundKeepsAccounts(q, env);
    var backlog', front := Round(q, env).backlog, q.backlog[0];
    if |front.events| > q.capacity {
      assert backlog'[1..] == q.backlog[1..];
      Associate([front.events[..q.capacity]], EntryChunks(front.events[q.capacity..], q.capacity),
                BacklogChunks(q.backlog[1..], q.capacity));
    } else {
      assert front.events[..|front.events|] == front.events;
    }
  }

  /** Rounds keep the order of events. */
  lemma RoundKeepsOrder(q: Queue, env: Interference)
    requires Valid(q) && q.writer == Idle && q.backlog != []
    ensures Valid(Round(q, env))
  {
    BeginWriteKeepsOrder(q);
    var q0 := BeginWrite(q);
    ReadersKeepOrder(q0, Min(env.taken, |q.fmq|));
    var q1 := Read(q0, Min(env.taken, |q.fmq|));
    if env.writeOk && |q1.fmq| + q1.writer.n <= q1.capacity {
      DeliverKeepsOrder(q1);
      EndWriteKeepsOrder(Deliver(q1));
    } else {
      FailKeepsOrder(q1);
      EndWriteKeepsOrder(Fail(q1));
    }
  }

  /** What a round of the loop does to the chunks written so far and still to come. */
  lemma RoundAdvances(q: Queue, env: Interference, chunks: seq<seq<Event>>)
    requires Valid(q) && q.writer == Idle && q.backlog != [] && q.capacity > 0
    ensures var q' := Round(q, env);
            && Valid(q') && q'.writer == Idle && q'.size < q.size
            && chunks + BacklogChunks(q.backlog, q.capacity)
               == chunks + [q.backlog[0].events[..Min(|q.backlog[0].events|, q.capacity)]]
                  + BacklogChunks(q'.backlog, q.capacity)
  {
    RoundKeepsOrder(q, env);
    RoundKeepsAccounts(q, env);
    RoundTakesFirstChunk(q, env);
    Associate(chunks, [q.backlog[0].events[..Min(|q.backlog[0].events|, q.capacity)]],
              BacklogChunks(Round(q, env).backlog, q.capacity));
  }

  /** A queue without capacity makes no progress: each round writes nothing and drops nothing. */
  lemma NoCapacityNoProgress(q: Queue, env: Interference)
    requires Accounted(q) && q.writer == Idle && q.backlog != [] && q.capacity == 0
    ensures Round(q, env).backlog == q.backlog && Round(q, env).size == q.size
    ensures Round(q, env).written == q.written && Round(q, env).writer == Idle
  {
    var front := q.backlog[0];
    assert front.events[0..] == front.events;
    assert [Batch(front.events[0..], front.wakeups)] + q.backlog[1..] == q.backlog;
    assert q.written + front.events[..0] == q.written;
  }
}

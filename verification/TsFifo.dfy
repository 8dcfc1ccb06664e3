/**
  The FIFO of received packets inside the timestamp manager (libs/me/mfw_gst_ts.c).

  Packets arrive with a timestamp and a byte count; consumers take bytes, not packets.  Entries
  come from a pool that grows by blocks of 512.  A packet that carries the same timestamp as the
  packet queued just before it is a `subentry`: the two form one chain, and `used` travels along a
  chain so that its timestamp is not handed out again.
*/
module ReceivedFifo {

  const NO_TIMESTAMP: int := -1
  const ENTRIES_PER_BLOCK: nat := 512

  datatype Entry = Entry(node: nat, ts: int, used: bool, subentry: bool, size: int)

  datatype Fifo = Fifo(queue: seq<Entry>, free: seq<nat>, blocks: nat, cnt: int)

  // ---------- What the operations compute ----------

  /** Nodes base+k, ..., base+1: the order in which a new block ends up on the free list. */
  function Down(base: nat, k: nat): seq<nat> {
    if k == 0 then [] else [base + k] + Down(base, k - 1)
  }

  function TakeNode(f: Fifo): (Fifo, nat) {
    if f.free != [] then
      (f.(free := f.free[1..]), f.free[0])
    else
      var base := f.blocks * ENTRIES_PER_BLOCK;
      (f.(free := Down(base, ENTRIES_PER_BLOCK - 1), blocks := f.blocks + 1), base)
  }

  function Append(f: Fifo, ts: int, size: int): Fifo {
    var (g, node) := TakeNode(f);
    var sub := g.queue != [] && g.queue[|g.queue| - 1].ts == ts;
    g.(queue := g.queue + [Entry(node, ts, false, sub, size)], cnt := g.cnt + 1)
  }

  /** Drops the head, handing its `used` flag (given here) on to a chained successor. */
  function Pop(f: Fifo, used: bool): Fifo
    requires f.queue != []
  {
    var rest := f.queue[1..];
    f.(queue := if rest != [] && rest[0].subentry then [rest[0].(used := used)] + rest[1..] else rest,
       free := [f.queue[0].node] + f.free,
       cnt := f.cnt - 1)
  }

  function Consume(f: Fifo, n: int, use: bool): Fifo
    decreases |f.queue|
  {
    if n <= 0 || f.queue == [] then f
    else
      var e := f.queue[0];
      var used := e.used || use;
      if n >= e.size then Consume(Pop(f, used), n - e.size, use)
      else f.(queue := [e.(used := used, size := e.size - n)] + f.queue[1..])
  }

  /** The timestamp of the last entry touched, or none when that entry was used already. */
  function LastTimestamp(f: Fifo, n: int, use: bool, ts: int): int
    decreases |f.queue|
  {
    if n <= 0 || f.queue == [] then ts
    else
      var e := f.queue[0];
      var seen := if e.used then NO_TIMESTAMP else e.ts;
      if n >= e.size then LastTimestamp(Pop(f, e.used || use), n - e.size, use, seen) else seen
  }

  /** The whole queue goes to the free list, as a resync does it. */
  function Drained(f: Fifo): Fifo
    decreases |f.queue|
  {
    if f.queue == [] then f
    else Drained(f.(queue := f.queue[1..], free := [f.queue[0].node] + f.free))
  }

  // ---------- Well-formed FIFOs ----------

  function Nodes(q: seq<Entry>): seq<nat> {
    seq(|q|, i requires 0 <= i < |q| => q[i].node)
  }

  function Held(f: Fifo): multiset<nat> {
    multiset(Nodes(f.queue)) + multiset(f.free)
  }

  /** Every node ever allocated sits exactly once in the queue or on the free list. */
  ghost predicate Partition(f: Fifo) {
    forall n: nat :: Held(f)[n] == if n < f.blocks * ENTRIES_PER_BLOCK then 1 else 0
  }

  /** `used` is only ever set on the head, and a subentry carries its predecessor's timestamp. */
  ghost predicate WellFormed(f: Fifo) {
    && f.cnt == |f.queue|
    && (forall i :: 0 <= i < |f.queue| ==> EntryOk(f.queue, i))
  }

  ghost predicate EntryOk(q: seq<Entry>, i: nat)
    requires i < |q|
  {
    && q[i].size > 0
    && (i > 0 ==> !q[i].used && (q[i].subentry <==> q[i].ts == q[i - 1].ts))
  }

  function Total(q: seq<Entry>): int {
    if q == [] then 0 else q[0].size + Total(q[1..])
  }

  lemma {:induction false} DownCounts(base: nat, k: nat, n: nat)
    ensures multiset(Down(base, k))[n] == if base < n <= base + k then 1 else 0
  {
    if k == 0 {
    } else {
      DownCounts(base, k - 1, n);
    }
  }

  lemma AppendKeepsWellFormed(f: Fifo, ts: int, size: int)
    requires WellFormed(f) && size > 0
    ensures WellFormed(Append(f, ts, size))
    ensures Total(Append(f, ts, size).queue) == Total(f.queue) + size
  {
    TotalAppend(f.queue, Append(f, ts, size).queue[|f.queue|]);
    var g := Append(f, ts, size);
    forall i | 0 <= i < |g.queue|
      ensures EntryOk(g.queue, i)
    {
      assert i < |f.queue| ==> EntryOk(f.queue, i);
    }
  }

  lemma TakeNodeCounts(f: Fifo, n: nat)
    requires Partition(f)
    ensures var (g, node) := TakeNode(f);
            (multiset(Nodes(f.queue)) + multiset{node} + multiset(g.free))[n]
            == if n < g.blocks * ENTRIES_PER_BLOCK then 1 else 0
  {
    var (g, node) := TakeNode(f);
    assert Held(f)[n] == if n < f.blocks * ENTRIES_PER_BLOCK then 1 else 0;
    if f.free != [] {
      assert f.free == [node] + g.free;
    } else {
      DownCounts(node, ENTRIES_PER_BLOCK - 1, n);
    }
  }

  lemma AppendKeepsPartition(f: Fifo, ts: int, size: int)
    requires Partition(f)
    ensures Partition(Append(f, ts, size))
  {
    var h := Append(f, ts, size);
    var node := TakeNode(f).1;
    assert Nodes(h.queue) == Nodes(f.queue) + [node];
    forall n: nat
      ensures Held(h)[n] == if n < h.blocks * ENTRIES_PER_BLOCK then 1 else 0
    {
      TakeNodeCounts(f, n);
    }
  }

  lemma {:induction false} TotalAppend(q: seq<Entry>, e: Entry)
    ensures Total(q + [e]) == Total(q) + e.size
  {
    if q == [] {
      assert q + [e] == [e];
    } else {
      assert (q + [e])[1..] == q[1..] + [e];
      TotalAppend(q[1..], e);
    }
  }

  lemma PopKeepsWellFormed(f: Fifo, used: bool)
    requires WellFormed(f) && f.queue != []
    ensures WellFormed(Pop(f, used))
    ensures Total(Pop(f, used).queue) == Total(f.queue) - f.queue[0].size
  {
    var g := Pop(f, used);
    forall i | 0 <= i < |g.queue|
      ensures EntryOk(g.queue, i)
    {
      assert EntryOk(f.queue, i + 1);
    }
  }

  lemma PopKeepsHeld(f: Fifo, used: bool)
    requires f.queue != []
    ensures Held(Pop(f, used)) == Held(f)
  {
    var g := Pop(f, used);
    assert Nodes(f.queue) == [f.queue[0].node] + Nodes(g.queue);
  }

  lemma {:induction false} ConsumeKeepsWellFormed(f: Fifo, n: int, use: bool)
    requires WellFormed(f)
    ensures WellFormed(Consume(f, n, use))
    decreases |f.queue|
  {
    if n > 0 && f.queue != [] {
      var e := f.queue[0];
      if n >= e.size {
        PopKeepsWellFormed(f, e.used || use);
        ConsumeKeepsWellFormed(Pop(f, e.used || use), n - e.size, use);
      } else {
        var g := Consume(f, n, use);
        forall i | 0 <= i < |g.queue|
          ensures EntryOk(g.queue, i)
        {
          assert EntryOk(f.queue, i);
        }
      }
    }
  }

  /** Conservation of bytes: they drop by what was asked for, up to all there are. */
  lemma {:induction false} ConsumeConservesBytes(f: Fifo, n: nat, use: bool)
    requires WellFormed(f)
    ensures 0 <= Total(f.queue)
    ensures Total(Consume(f, n, use).queue) == if n <= Total(f.queue) then Total(f.queue) - n else 0
    decreases |f.queue|
  {
    if f.queue == [] {
    } else {
      assert EntryOk(f.queue, 0);
      var e := f.queue[0];
      var g := Pop(f, e.used || use);
      PopKeepsWellFormed(f, e.used || use);
      if n >= e.size {
        ConsumeConservesBytes(g, n - e.size, use);
      } else {
        ConsumeConservesBytes(g, 0, use);
        if n > 0 {
          assert Consume(f, n, use).queue[1..] == f.queue[1..];
        }
      }
    }
  }

  /** Conservation of nodes: consuming moves nodes to the free list, never losing or doubling one. */
  lemma {:induction false} ConsumeConservesNodes(f: Fifo, n: int, use: bool)
    ensures Held(Consume(f, n, use)) == Held(f)
    ensures Consume(f, n, use).blocks == f.blocks
    decreases |f.queue|
  {
    if n > 0 && f.queue != [] {
      var e := f.queue[0];
      if n >= e.size {
        PopKeepsHeld(f, e.used || use);
        ConsumeConservesNodes(Pop(f, e.used || use), n - e.size, use);
      } else {
        assert Nodes(Consume(f, n, use).queue) == Nodes(f.queue);
      }
    }
  }

  lemma WithinHeadThenMore(f: Fifo, a: nat, b: nat, use: bool)
    requires f.queue != [] && 0 < a < f.queue[0].size
    ensures Consume(Consume(f, a, use), b, use) == Consume(f, a + b, use)
  {
    var used := f.queue[0].used || use;
    var g := Consume(f, a, use);
    assert g.queue[0] == f.queue[0].(used := used, size := f.queue[0].size - a) && g.queue[1..] == f.queue[1..];
    assert Pop(g, used) == Pop(f, used);
  }

  /** Taking a bytes and then b leaves exactly what taking a + b at once leaves. */
  lemma {:induction false} ConsumeAdditive(f: Fifo, a: nat, b: nat, use: bool)
    requires WellFormed(f)
    ensures Consume(Consume(f, a, use), b, use) == Consume(f, a + b, use)
    decreases |f.queue|
  {
    if a == 0 || f.queue == [] {
    } else if a < f.queue[0].size {
      WithinHeadThenMore(f, a, b, use);
    } else {
      var used := f.queue[0].used || use;
      PopKeepsWellFormed(f, used);
      ConsumeAdditive(Pop(f, used), a - f.queue[0].size, b, use);
    }
  }

  lemma {:induction false} DrainedConservesNodes(f: Fifo)
    ensures Drained(f).queue == [] && Drained(f).blocks == f.blocks
    ensures Held(Drained(f)) == Held(f)
    decreases |f.queue|
  {
    if f.queue == [] {
    } else {
      var g := f.(queue := f.queue[1..], free := [f.queue[0].node] + f.free);
      assert Nodes(f.queue) == [f.queue[0].node] + Nodes(g.queue);
      DrainedConservesNodes(g);
    }
  }

  // ---------- Closed forms: which entries a byte count reaches ----------

  /** Bytes queued in front of entry k. */
  function Offset(q: seq<Entry>, k: nat): int
    requires k <= |q|
  {
    if k == 0 then 0 else Offset(q, k - 1) + q[k - 1].size
  }

  /** n bytes consume exactly the first k entries whole. */
  ghost predicate Drops(q: seq<Entry>, n: nat, k: nat) {
    k <= |q| && Offset(q, k) <= n && (k < |q| ==> n < Offset(q, k + 1))
  }

  /** Entry t is the last one that n bytes reach into. */
  ghost predicate ReachesLast(q: seq<Entry>, n: nat, t: nat) {
    t < |q| && Offset(q, t) < n && (t + 1 < |q| ==> n <= Offset(q, t + 1))
  }

  ghost predicate ChainedToHead(q: seq<Entry>, k: nat)
    requires k < |q|
  {
    forall i :: 0 < i <= k ==> q[i].subentry
  }

  lemma {:induction false} OffsetPop(f: Fifo, used: bool, k: nat)
    requires f.queue != [] && k < |f.queue|
    ensures Offset(Pop(f, used).queue, k) == Offset(f.queue, k + 1) - f.queue[0].size
  {
    if k == 0 {
    } else {
      OffsetPop(f, used, k - 1);
    }
  }

  lemma {:induction false} OffsetGrows(q: seq<Entry>, j: nat, k: nat)
    requires j <= k <= |q| && forall i :: 0 <= i < |q| ==> EntryOk(q, i)
    ensures Offset(q, j) + (k - j) <= Offset(q, k)
  {
    if j == k {
    } else {
      assert EntryOk(q, k - 1);
      OffsetGrows(q, j, k - 1);
    }
  }

  lemma DropsPop(f: Fifo, used: bool, n: nat, k: nat)
    requires WellFormed(f) && f.queue != [] && n >= f.queue[0].size && Drops(f.queue, n, k)
    ensures k > 0 && Drops(Pop(f, used).queue, n - f.queue[0].size, k - 1)
  {
    assert Offset(f.queue, 1) == f.queue[0].size by { assert Offset(f.queue, 0) == 0; }
    OffsetPop(f, used, k - 1);
    if k < |f.queue| {
      OffsetPop(f, used, k);
    }
  }

  predicate SamePacket(d: Entry, e: Entry) {
    d.node == e.node && d.ts == e.ts && d.subentry == e.subentry
  }

  /** r is what the first n bytes of q leave, k entries having gone; the head's flag is UsedExact's business. */
  ghost predicate Leaves(q: seq<Entry>, n: nat, k: nat, r: seq<Entry>)
    requires k <= |q|
  {
    if k == |q| then r == []
    else r != [] && r[1..] == q[k + 1..] && SamePacket(r[0], q[k]) && r[0].size == Offset(q, k + 1) - n
  }

  lemma LeavesPop(f: Fifo, used: bool, n: nat, k: nat, r: seq<Entry>)
    requires f.queue != [] && f.queue[0].size <= n && 0 < k <= |f.queue|
    requires Leaves(Pop(f, used).queue, n - f.queue[0].size, k - 1, r)
    ensures Leaves(f.queue, n, k, r)
  {
    var g := Pop(f, used);
    if k < |f.queue| {
      OffsetPop(f, used, k);
      assert g.queue[k..] == f.queue[k + 1..];
    }
  }

  lemma {:induction false} ConsumeExact(f: Fifo, n: nat, use: bool, k: nat)
    requires WellFormed(f) && Drops(f.queue, n, k)
    ensures Leaves(f.queue, n, k, Consume(f, n, use).queue)
    decreases |f.queue|
  {
    if f.queue == [] {
    } else if n >= f.queue[0].size {
      assert EntryOk(f.queue, 0);
      var used := f.queue[0].used || use;
      var g := Pop(f, used);
      DropsPop(f, used, n, k);
      PopKeepsWellFormed(f, used);
      assert Consume(f, n, use) == Consume(g, n - f.queue[0].size, use);
      ConsumeExact(g, n - f.queue[0].size, use, k - 1);
      LeavesPop(f, used, n, k, Consume(f, n, use).queue);
    } else {
      DropsNothing(f, n, k);
    }
  }

  lemma DropsNothing(f: Fifo, n: nat, k: nat)
    requires WellFormed(f) && f.queue != [] && n < f.queue[0].size && Drops(f.queue, n, k)
    ensures k == 0 && Offset(f.queue, 1) == f.queue[0].size
  {
    assert Offset(f.queue, 1) == f.queue[0].size by { assert Offset(f.queue, 0) == 0; }
    if k > 0 {
      OffsetGrows(f.queue, 1, k);
    }
  }

  /** The head left behind counts as used: touched now, chained to something used up now, or chained to a used head. */
  ghost predicate UsedAfter(q: seq<Entry>, n: nat, use: bool, k: nat)
    requires k < |q|
  {
    || (use && n > Offset(q, k))
    || (use && k > 0 && q[k].subentry)
    || (q[0].used && ChainedToHead(q, k))
  }

  lemma UsedPop(f: Fifo, n: nat, use: bool, k: nat)
    requires WellFormed(f) && 0 < k < |f.queue| && n >= f.queue[0].size
    ensures var g := Pop(f, f.queue[0].used || use);
            UsedAfter(g.queue, n - f.queue[0].size, use, k - 1) <==> UsedAfter(f.queue, n, use, k)
  {
    var used := f.queue[0].used || use;
    var g := Pop(f, used);
    assert EntryOk(f.queue, 0) && EntryOk(f.queue, 1);
    OffsetPop(f, used, k - 1);
    assert ChainedToHead(f.queue, k) <==> f.queue[1].subentry && ChainedToHead(g.queue, k - 1) by {
      assert forall i :: 0 < i <= k - 1 ==> g.queue[i].subentry == f.queue[i + 1].subentry;
      assert forall i :: 1 < i <= k ==> f.queue[i].subentry == g.queue[i - 1].subentry;
    }
  }

  lemma UsedWithinHead(f: Fifo, n: nat, use: bool)
    requires f.queue != [] && n < f.queue[0].size
    ensures var q := Consume(f, n, use).queue;
            q != [] && (q[0].used <==> UsedAfter(f.queue, n, use, 0))
  {
    assert Offset(f.queue, 0) == 0;
  }

  lemma {:induction false} UsedExact(f: Fifo, n: nat, use: bool, k: nat)
    requires WellFormed(f) && k < |f.queue| && Drops(f.queue, n, k)
    ensures var q := Consume(f, n, use).queue;
            q != [] && (q[0].used <==> UsedAfter(f.queue, n, use, k))
    decreases |f.queue|
  {
    if n < f.queue[0].size {
      DropsNothing(f, n, k);
      UsedWithinHead(f, n, use);
    } else {
      assert EntryOk(f.queue, 0);
      var used := f.queue[0].used || use;
      DropsPop(f, used, n, k);
      PopKeepsWellFormed(f, used);
      UsedExact(Pop(f, used), n - f.queue[0].size, use, k - 1);
      UsedPop(f, n, use, k);
    }
  }

  /**
    The timestamp a consumer gets: that of the last entry reached, unless that entry is the head and
    was used before, or continues the chain of an entry consumed by this very call.
   */
  lemma {:induction false} LastTimestampExact(f: Fifo, n: nat, t: nat, ts: int)
    requires WellFormed(f) && ReachesLast(f.queue, n, t)
    ensures LastTimestamp(f, n, true, ts)
         == if (if t == 0 then f.queue[0].used else f.queue[t].subentry) then NO_TIMESTAMP else f.queue[t].ts
    decreases |f.queue|
  {
    var e := f.queue[0];
    assert EntryOk(f.queue, 0);
    assert Offset(f.queue, 1) == e.size by { assert Offset(f.queue, 0) == 0; }
    if t > 0 {
      assert EntryOk(f.queue, 1);
      OffsetGrows(f.queue, 1, t);
      var g := Pop(f, true);
      PopKeepsWellFormed(f, true);
      OffsetPop(f, true, t - 1);
      if t + 1 < |f.queue| {
        OffsetPop(f, true, t);
      }
      assert ReachesLast(g.queue, n - e.size, t - 1);
      LastTimestampExact(g, n - e.size, t - 1, if e.used then NO_TIMESTAMP else e.ts);
    } else if n == e.size {
      assert LastTimestamp(f, n, true, ts) == if e.used then NO_TIMESTAMP else e.ts;
    }
  }

  // ---------- The object ----------

  class ReceivedControl {
    var queue: seq<Entry>
    var free: seq<nat>
    var blocks: nat
    var cnt: int

    function View(): Fifo
      reads this
    {
      Fifo(queue, free, blocks, cnt)
    }

    constructor ()
      ensures View() == Fifo([], [], 0, 0)
    {
      queue, free, blocks, cnt := [], [], 0, 0;
    }

    method FreeEntry(node: nat)
      modifies this`free
      ensures free == [node] + old(free)
    {
      free := [node] + free;
    }

    method NewEntry() returns (node: nat)
      modifies this
      ensures (View(), node) == TakeNode(old(View()))
    {
      if free != [] {
        node := free[0];
        free := free[1..];
      } else {
        var base := blocks * ENTRIES_PER_BLOCK;
        for i := 1 to ENTRIES_PER_BLOCK
          invariant free == Down(base, i - 1)
          invariant queue == old(queue) && blocks == old(blocks) && cnt == old(cnt)
        {
          FreeEntry(base + i);
        }
        blocks := blocks + 1;
        node := base;
      }
    }

    /** The queueing half of TSManagerReceive2; a non-positive size is dealt with by the manager. */
    method Receive(timestamp: int, size: int)
      modifies this
      ensures View() == Append(old(View()), timestamp, size)
    {
      var node := NewEntry();
      var e := Entry(node, timestamp, false, false, size);
      if queue != [] && queue[|queue| - 1].ts == timestamp {
        e := e.(subentry := true);
      }
      queue := queue + [e];
      cnt := cnt + 1;
    }

    method DropHead(used: bool)
      requires queue != []
      modifies this
      ensures View() == Pop(old(View()), used)
    {
      var e := queue[0];
      queue := queue[1..];
      if queue != [] && queue[0].subentry {
        queue := [queue[0].(used := used)] + queue[1..];
      }
      cnt := cnt - 1;
      FreeEntry(e.node);
    }

    method GetLastTimestamp(size: int, use: bool) returns (ts: int)
      modifies this
      ensures View() == Consume(old(View()), size, use)
      ensures ts == LastTimestamp(old(View()), size, use, NO_TIMESTAMP)
    {
      ts := NO_TIMESTAMP;
      var left := size;
      while left > 0 && queue != []
        invariant Consume(View(), left, use) == Consume(old(View()), size, use)
        invariant LastTimestamp(View(), left, use, ts) == LastTimestamp(old(View()), size, use, NO_TIMESTAMP)
        decreases |queue|, left
      {
        var e := queue[0];
        ts := if e.used then NO_TIMESTAMP else e.ts;
        if use {
          e := e.(used := true);
        }
        if left >= e.size {
          DropHead(e.used);
          left := left - e.size;
        } else {
          queue := [e.(size := e.size - left)] + queue[1..];
          left := 0;
        }
      }
    }

    /** The part of resyncTSManager that empties the FIFO back into the pool. */
    method Clear()
      modifies this
      ensures View() == Drained(old(View())).(cnt := 0)
      ensures queue == [] && blocks == old(blocks) && Held(View()) == Held(old(View()))
    {
      DrainedConservesNodes(View());
      while queue != []
        invariant Drained(View()).(cnt := 0) == Drained(old(View())).(cnt := 0)
        decreases |queue|
      {
        var e := queue[0];
        queue := queue[1..];
        FreeEntry(e.node);
      }
      cnt := 0;
    }
  }
}

/**
  Block timestamps of the AAC decoder (src/audio/aac_dec/src/mfw_gst_aacdec.c): every input block is queued
  with its length and timestamp, and consuming bytes gives the timestamp of the block they start in.

  The blocks live in one allocated array, linked into a queue and a free list.  When the free list is empty,
  an array of twice the size takes over: the queue moves to its first nodes, its last node is the new block,
  and the nodes in between become the free list.
*/
module BlockPool {
  import opened Helpers

  const NIL: int := -1
  const NO_TIMESTAMP: int := -1
  const FIRST_SIZE: nat := 4

  datatype Cell = Cell(node: nat, len: nat, ts: int)

  datatype Pool = Pool(size: nat, queue: seq<Cell>, free: seq<nat>)

  // ---------- What the operations compute ----------

  /** hi - 1, ..., lo: the order in which nodes lo to hi - 1 end up on the free list. */
  function Down(lo: nat, hi: nat): (s: seq<nat>)
    ensures |s| == if lo < hi then hi - lo else 0
    ensures forall i :: 0 <= i < |s| ==> s[i] == hi - 1 - i
    decreases hi
  {
    if lo < hi then [hi - 1] + Down(lo, hi - 1) else []
  }

  /** The same blocks in nodes 0, 1, 2, ... */
  function Moved(q: seq<Cell>): (m: seq<Cell>)
    ensures |m| == |q|
  {
    seq(|q|, i requires 0 <= i < |q| => Cell(i, q[i].len, q[i].ts))
  }

  function Grown(size: nat): nat {
    if size == 0 then FIRST_SIZE else 2 * size
  }

  function TakeNode(p: Pool): (Pool, nat) {
    if p.free != [] then
      (p.(free := p.free[1..]), p.free[0])
    else
      var n := Grown(p.size);
      (Pool(n, Moved(p.queue), Down(|p.queue|, n - 1)), n - 1)
  }

  function Pushed(p: Pool, len: nat, ts: int): Pool {
    var (q, node) := TakeNode(p);
    q.(queue := q.queue + [Cell(node, len, ts)])
  }

  /** The head goes to the free list. */
  function Dropped(p: Pool): Pool
    requires p.queue != []
  {
    p.(queue := p.queue[1..], free := [p.queue[0].node] + p.free)
  }

  function Shrunk(p: Pool, n: nat): Pool
    requires p.queue != [] && n <= p.queue[0].len
  {
    var c := p.queue[0];
    p.(queue := [c.(len := c.len - n)] + p.queue[1..])
  }

  function Take(p: Pool, n: nat): Pool
    decreases |p.queue|
  {
    if p.queue == [] then p
    else if n >= p.queue[0].len then Take(Dropped(p), n - p.queue[0].len)
    else Shrunk(p, n)
  }

  function First(p: Pool): int {
    if p.queue == [] then NO_TIMESTAMP else p.queue[0].ts
  }

  // ---------- The array of nodes ----------

  datatype Block = Block(len: nat, ts: int, next: int)

  function Link(path: seq<nat>, i: nat): int {
    if i < |path| then path[i] else NIL
  }

  predicate LinkedAt(nodes: seq<Block>, path: seq<nat>, i: nat)
    requires i < |path|
  {
    path[i] < |nodes| && nodes[path[i]].next == Link(path, i + 1)
  }

  ghost predicate IsList(nodes: seq<Block>, first: int, path: seq<nat>) {
    first == Link(path, 0) && forall i :: 0 <= i < |path| ==> LinkedAt(nodes, path, i)
  }

  lemma ListRest(nodes: seq<Block>, first: int, path: seq<nat>)
    requires IsList(nodes, first, path) && path != []
    ensures 0 <= first < |nodes| && IsList(nodes, nodes[first].next, path[1..])
  {
    assert LinkedAt(nodes, path, 0);
    forall i | 0 <= i < |path[1..]| ensures LinkedAt(nodes, path[1..], i) {
      assert LinkedAt(nodes, path, i + 1);
    }
  }

  lemma ListPush(nodes: seq<Block>, first: int, path: seq<nat>, x: nat, b: Block)
    requires IsList(nodes, first, path) && x < |nodes| && x !in path && b.next == first
    ensures IsList(nodes[x := b], x, [x] + path)
  {
    var after, linked := [x] + path, nodes[x := b];
    forall i | 0 <= i < |after| ensures LinkedAt(linked, after, i) {
      if i > 0 {
        assert LinkedAt(nodes, path, i - 1);
        assert after[i] == path[i - 1];
      }
    }
  }

  lemma ListFrame(nodes: seq<Block>, first: int, path: seq<nat>, x: nat, b: Block)
    requires IsList(nodes, first, path) && x < |nodes| && x !in path
    ensures IsList(nodes[x := b], first, path)
  {
    var linked := nodes[x := b];
    forall i | 0 <= i < |path| ensures LinkedAt(linked, path, i) {
      assert LinkedAt(nodes, path, i);
      assert path[i] in path;
    }
  }

  /** Only what the links are matters. */
  lemma ListKeepsLinks(nodes: seq<Block>, first: int, path: seq<nat>, x: nat, b: Block)
    requires IsList(nodes, first, path) && x < |nodes| && b.next == nodes[x].next
    ensures IsList(nodes[x := b], first, path)
  {
    var linked := nodes[x := b];
    forall i | 0 <= i < |path| ensures LinkedAt(linked, path, i) {
      assert LinkedAt(nodes, path, i);
    }
  }

  /** Linking node x behind the last node; x itself ends the list already. */
  lemma ListSnoc(nodes: seq<Block>, first: int, path: seq<nat>, x: nat, b: Block)
    requires IsList(nodes, first, path) && path != [] && Distinct(path)
    requires x < |nodes| && x !in path && nodes[x].next == NIL && path[|path| - 1] < |nodes| && b.next == x
    ensures IsList(nodes[path[|path| - 1] := b], first, path + [x])
  {
    var last := |path| - 1;
    var after := path + [x];
    var linked := nodes[path[last] := b];
    forall i | 0 <= i < |after| ensures LinkedAt(linked, after, i) {
      if i < last {
        assert LinkedAt(nodes, path, i);
        assert after[i] == path[i] != path[last] && after[i + 1] == path[i + 1];
      } else if i == last {
        assert after[i + 1] == x;
      } else {
        assert path[last] in path;
      }
    }
  }

  function CellOf(nodes: seq<Block>, x: nat): Cell {
    if x < |nodes| then Cell(x, nodes[x].len, nodes[x].ts) else Cell(x, 0, 0)
  }

  function Cells(nodes: seq<Block>, path: seq<nat>): (q: seq<Cell>)
    ensures |q| == |path|
  {
    seq(|path|, i requires 0 <= i < |path| => CellOf(nodes, path[i]))
  }

  function Nodes(q: seq<Cell>): (path: seq<nat>)
    ensures |path| == |q|
  {
    seq(|q|, i requires 0 <= i < |q| => q[i].node)
  }

  // ---------- The partition ----------

  /** Every node of the array is queued, free or held: there are as many of them as nodes, all different. */
  ghost predicate Partition(size: nat, queue: seq<nat>, free: seq<nat>, held: seq<nat>) {
    var all := queue + free + held;
    |all| == size && Distinct(all) && forall i :: 0 <= i < |all| ==> all[i] < size
  }

  ghost predicate WellFormed(p: Pool) {
    Partition(p.size, Nodes(p.queue), p.free, [])
  }

  lemma PartitionPop(size: nat, queue: seq<nat>, free: seq<nat>)
    requires Partition(size, queue, free, []) && queue != []
    ensures Partition(size, queue[1..], [queue[0]] + free, [])
  {
    var all := queue + free + [];
    var after := queue[1..] + ([queue[0]] + free) + [];
    var k := |queue| - 1;
    assert forall i :: 0 <= i < |after| ==> after[i] == all[if i < k then i + 1 else if i == k then 0 else i];
  }

  lemma PartitionTake(size: nat, queue: seq<nat>, free: seq<nat>)
    requires Partition(size, queue, free, []) && free != []
    ensures Partition(size, queue, free[1..], [free[0]])
    ensures free[0] < size && free[0] !in queue && free[0] !in free[1..]
  {
    var all := queue + free + [];
    var after := queue + free[1..] + [free[0]];
    var k := |queue|;
    assert all[k] == free[0];
    assert forall i :: 0 <= i < |queue| ==> queue[i] == all[i];
    assert forall i :: 1 <= i < |free| ==> free[i] == all[k + i];
    assert forall i :: 0 <= i < |after| ==> after[i] == all[if i < k then i else if i < size - 1 then i + 1 else k];
  }

  lemma PartitionPut(size: nat, queue: seq<nat>, free: seq<nat>, node: nat)
    requires Partition(size, queue, free, [node])
    ensures Partition(size, queue + [node], free, [])
  {
    var all := queue + free + [node];
    var after := queue + [node] + free + [];
    var k := |queue|;
    assert forall i :: 0 <= i < |after| ==> after[i] == all[if i < k then i else if i == k then size - 1 else i - 1];
  }

  function Upto(n: nat): (s: seq<nat>)
    ensures |s| == n && forall i :: 0 <= i < n ==> s[i] == i
  {
    seq(n, i requires 0 <= i < n => i)
  }

  /** Growth: the queue in the first nodes, the last node held, the others free. */
  lemma PartitionGrown(queued: nat, size: nat)
    requires queued < size
    ensures Partition(size, Upto(queued), Down(queued, size - 1), [size - 1])
  {
    var free := Down(queued, size - 1);
    var all := Upto(queued) + free + [size - 1];
    assert forall i :: 0 <= i < |all| ==>
             all[i] == if i < queued then i else if i < size - 1 then size - 2 - (i - queued) else size - 1;
  }

  lemma Parts(size: nat, queue: seq<nat>, free: seq<nat>, held: seq<nat>)
    requires Partition(size, queue, free, held)
    ensures Distinct(queue) && (forall i, j :: 0 <= i < |queue| && 0 <= j < |free| ==> queue[i] != free[j])
    ensures forall i :: 0 <= i < |held| ==> held[i] < size && held[i] !in queue && held[i] !in free
  {
    var all := queue + free + held;
    assert forall i :: 0 <= i < |queue| ==> queue[i] == all[i];
    assert forall i :: 0 <= i < |free| ==> free[i] == all[|queue| + i];
    assert forall i :: 0 <= i < |held| ==> held[i] == all[|queue| + |free| + i];
  }

  /** Writing node x, or a link, leaves the lengths and timestamps of the other nodes. */
  lemma SameCells(was: seq<Block>, now: seq<Block>, path: seq<nat>, x: nat)
    requires |was| == |now| && x !in path
    requires forall i :: 0 <= i < |now| && i != x ==> now[i].len == was[i].len && now[i].ts == was[i].ts
    ensures Cells(now, path) == Cells(was, path)
  {
    assert forall i :: 0 <= i < |path| ==> path[i] in path;
  }

  // ---------- The object ----------

  class TimestampManager {
    var nodes: array<Block>   // allocatedbuffer, allocatednum long
    var freelist: int
    var head: int
    var tail: int
    ghost var queue: seq<nat>
    ghost var free: seq<nat>

    ghost predicate Linked()
      reads this, nodes
    {
      && IsList(nodes[..], head, queue) && IsList(nodes[..], freelist, free)
      && tail == if queue == [] then NIL else queue[|queue| - 1]
    }

    ghost predicate Valid()
      reads this, nodes
    {
      Linked() && Partition(nodes.Length, queue, free, [])
    }

    ghost function View(): Pool
      reads this, nodes
    {
      Pool(nodes.Length, Cells(nodes[..], queue), free)
    }

    /** init_tsmanager */
    constructor ()
      ensures Valid() && View() == Pool(0, [], []) && fresh(nodes)
    {
      nodes := new Block[0];
      freelist, head, tail := NIL, NIL, NIL;
      queue, free := [], [];
    }

    /** Puts a node in front of the free list. */
    method PushFree(x: nat)
      requires x < nodes.Length && x !in free && IsList(nodes[..], freelist, free)
      modifies this`freelist, this`free, nodes
      ensures free == [x] + old(free) && IsList(nodes[..], freelist, free)
      ensures nodes[..] == old(nodes[..])[x := old(nodes[x]).(next := old(freelist))]
    {
      ListPush(nodes[..], freelist, free, x, nodes[x].(next := freelist));
      nodes[x] := nodes[x].(next := freelist);
      freelist, free := x, [x] + free;
    }

    /** clear_tsmanager */
    method Clear()
      modifies this, nodes
      ensures Valid() && nodes == old(nodes) && View() == Pool(old(View()).size, [], Down(0, old(View()).size))
    {
      head, tail, freelist, queue, free := NIL, NIL, NIL, [], [];
      for i := 0 to nodes.Length
        invariant nodes == old(nodes) && head == tail == NIL && queue == []
        invariant IsList(nodes[..], freelist, free) && free == Down(0, i)
      {
        PushFree(i);
      }
    }

    /** The first branch of new_block_timestamp. */
    method TakeFree() returns (x: nat)
      requires Valid() && freelist != NIL
      modifies this`freelist, this`free
      ensures Linked() && Partition(nodes.Length, queue, free, [x])
      ensures (View(), x) == TakeNode(old(View()))
    {
      ListRest(nodes[..], freelist, free);
      PartitionTake(nodes.Length, queue, free);
      x := freelist;
      freelist, free := nodes[x].next, free[1..];
    }

    /** Fills in node x and links it behind the tail. */
    method LinkLast(x: nat, len: nat, ts: int)
      requires Linked() && Distinct(queue) && x < nodes.Length && x !in queue && x !in free
      requires queue != [] ==> queue[|queue| - 1] !in free
      modifies this`head, this`tail, this`queue, nodes
      ensures Linked() && queue == old(queue) + [x]
      ensures Cells(nodes[..], queue) == old(Cells(nodes[..], queue)) + [Cell(x, len, ts)]
    {
      ghost var was := nodes[..];
      ListFrame(was, head, queue, x, Block(len, ts, NIL));
      ListFrame(was, freelist, free, x, Block(len, ts, NIL));
      nodes[x] := Block(len, ts, NIL);
      if tail != NIL {
        assert LinkedAt(nodes[..], queue, |queue| - 1);
        var b := nodes[tail].(next := x);
        ListSnoc(nodes[..], head, queue, x, b);
        ListFrame(nodes[..], freelist, free, tail, b);
        nodes[tail] := b;
        tail := x;
      } else {
        head, tail := x, x;
      }
      queue := queue + [x];
      SameCells(was, nodes[..], queue[..|queue| - 1], x);
      assert Cells(nodes[..], queue) == Cells(nodes[..], queue[..|queue| - 1]) + [Cell(x, len, ts)];
    }

    /** Growth, with i nodes of the new array dealt with; q is the queue in the array it comes from. */
    ghost predicate Moving(from: seq<Block>, q: seq<nat>, i: nat, oldhead: int)
      reads this, nodes
    {
      && Linked() && oldhead == Link(q, i)
      && queue == Upto(if i < |q| then i else |q|) && free == Down(|q|, i)
      && Cells(nodes[..], queue) == Moved(Cells(from, q))[..|queue|]
    }

    method MoveBlock(from: array<Block>, ghost q: seq<nat>, i: nat, oldhead: int) returns (next: int)
      requires from != nodes && i < nodes.Length && oldhead != NIL && i < |q|
      requires Moving(from[..], q, i, oldhead) && LinkedAt(from[..], q, i)
      modifies this`head, this`tail, this`queue, nodes
      ensures Moving(from[..], q, i + 1, next)
    {
      assert Down(|q|, i) == [] == Down(|q|, i + 1);
      LinkLast(i, from[oldhead].len, from[oldhead].ts);
      assert Upto(i + 1) == Upto(i) + [i];
      next := from[oldhead].next;
      ghost var m := Moved(Cells(from[..], q));
      assert m[..i + 1] == m[..i] + [m[i]];
    }

    method FreeNew(ghost from: seq<Block>, ghost q: seq<nat>, i: nat)
      requires i < nodes.Length && |q| <= i && Moving(from, q, i, NIL)
      modifies this`freelist, this`free, nodes
      ensures Moving(from, q, i + 1, NIL)
    {
      ghost var was := nodes[..];
      ListFrame(was, head, queue, i, nodes[i].(next := freelist));
      PushFree(i);
      SameCells(was, nodes[..], queue, i);
    }

    /** The loop over all nodes of the new array but the last. */
    method Refill(from: array<Block>, ghost q: seq<nat>, oldhead0: int)
      requires from != nodes && |q| < nodes.Length && IsList(from[..], oldhead0, q) && Moving(from[..], q, 0, oldhead0)
      modifies this`head, this`tail, this`freelist, this`queue, this`free, nodes
      ensures Linked() && Partition(nodes.Length, queue, free, [nodes.Length - 1])
      ensures Cells(nodes[..], queue) == Moved(Cells(from[..], q)) && free == Down(|q|, nodes.Length - 1)
    {
      var oldhead := oldhead0;
      for i := 0 to nodes.Length - 1
        invariant from[..] == old(from[..]) && Moving(from[..], q, i, oldhead)
      {
        if oldhead != NIL {
          assert LinkedAt(from[..], q, i);
          oldhead := MoveBlock(from, q, i, oldhead);
        } else {
          FreeNew(from[..], q, i);
        }
      }
      PartitionGrown(|q|, nodes.Length);
      ghost var m := Moved(Cells(from[..], q));
      assert m[..|q|] == m;
    }

    /** The second branch of new_block_timestamp. */
    method Grow() returns (x: nat)
      requires Valid() && freelist == NIL
      modifies this
      ensures fresh(nodes) && Linked() && Partition(nodes.Length, queue, free, [x])
      ensures (View(), x) == TakeNode(old(View()))
    {
      var from := nodes;
      var oldhead := head;
      ghost var q := queue;
      var n := Grown(nodes.Length);
      nodes := new Block[n];
      head, tail, freelist, queue, free := NIL, NIL, NIL, [], [];
      Refill(from, q, oldhead);
      x := n - 1;
    }

    /** new_block_timestamp */
    method NewBlock() returns (x: nat)
      requires Valid()
      modifies this
      ensures (nodes == old(nodes) || fresh(nodes)) && Linked() && Partition(nodes.Length, queue, free, [x])
      ensures (View(), x) == TakeNode(old(View()))
    {
      if freelist != NIL {
        x := TakeFree();
      } else {
        x := Grow();
      }
    }

    /** push_block_with_timestamp */
    method Push(len: nat, ts: int)
      requires Valid()
      modifies this, nodes
      ensures Valid() && (nodes == old(nodes) || fresh(nodes))
      ensures View() == Pushed(old(View()), len, ts)
    {
      var x := NewBlock();
      PartitionPut(nodes.Length, queue, free, x);
      Parts(nodes.Length, queue, free, [x]);
      assert [x][0] == x;
      LinkLast(x, len, ts);
    }

    /** One round of the loop in get_timestamp_with_length: the head goes to the free list. */
    method DropHead()
      requires Valid() && queue != []
      modifies this`head, this`tail, this`freelist, this`queue, this`free, nodes
      ensures Valid() && nodes == old(nodes)
      ensures View() == Dropped(old(View()))
    {
      ghost var was := nodes[..];
      PartitionPop(nodes.Length, queue, free);
      Parts(nodes.Length, queue, free, []);
      ListRest(was, head, queue);
      var x := head;
      if x == tail {
        tail := NIL;
      }
      head := nodes[x].next;
      queue := queue[1..];
      ListFrame(was, head, queue, x, nodes[x].(next := freelist));
      PushFree(x);
      SameCells(was, nodes[..], queue, x);
    }

    /** What is left of the length is taken from the head. */
    method ShrinkHead(n: nat)
      requires Valid() && queue != [] && n <= Cells(nodes[..], queue)[0].len
      modifies nodes
      ensures Valid() && View() == Shrunk(old(View()), n)
    {
      ghost var was := nodes[..];
      ListRest(was, head, queue);
      Parts(nodes.Length, queue, free, []);
      var b := nodes[head].(len := nodes[head].len - n);
      ListKeepsLinks(was, head, queue, head, b);
      ListKeepsLinks(was, freelist, free, head, b);
      nodes[head] := b;
      SameCells(was, nodes[..], queue[1..], head);
      assert Cells(nodes[..], queue) == [CellOf(nodes[..], head)] + Cells(nodes[..], queue[1..]);
    }

    /** get_timestamp_with_length */
    method GetTimestamp(length: nat) returns (ts: int)
      requires Valid()
      modifies this, nodes
      ensures Valid() && nodes == old(nodes)
      ensures ts == First(old(View())) && View() == Take(old(View()), length)
    {
      ts := NO_TIMESTAMP;
      HeadIsQueued();
      if head != NIL {
        ts := nodes[head].ts;
        var left: nat := length;
        while head != NIL && left >= nodes[head].len
          invariant Valid() && nodes == old(nodes) && (head != NIL ==> queue != [] && head == queue[0] < nodes.Length)
          invariant Take(View(), left) == Take(old(View()), length)
          decreases |queue|
        {
          left := left - nodes[head].len;
          DropHead();
          HeadIsQueued();
        }
        if head != NIL {
          ShrinkHead(left);
        }
      }
    }

    lemma HeadIsQueued()
      requires Linked()
      ensures head != NIL <==> queue != []
      ensures head != NIL ==> head == queue[0] < nodes.Length
    {
      if queue != [] {
        assert LinkedAt(nodes[..], queue, 0);
      }
    }
  }

  // ---------- What the pool means ----------

  /** The lengths and timestamps in queue order, whatever nodes hold them. */
  function Contents(q: seq<Cell>): (c: seq<(nat, int)>)
    ensures |c| == |q|
  {
    seq(|q|, i requires 0 <= i < |q| => (q[i].len, q[i].ts))
  }

  /** Growth moves every block, and changes nothing else about the queue. */
  lemma GrowthKeepsContents(p: Pool)
    ensures Contents(TakeNode(p).0.queue) == Contents(p.queue)
  {
  }

  lemma TakeNodeKeepsPartition(p: Pool)
    requires WellFormed(p)
    ensures var (q, node) := TakeNode(p); Partition(q.size, Nodes(q.queue), q.free, [node])
  {
    if p.free != [] {
      PartitionTake(p.size, Nodes(p.queue), p.free);
    } else {
      assert |p.queue| == p.size;
      assert Nodes(Moved(p.queue)) == Upto(|p.queue|);
      PartitionGrown(|p.queue|, Grown(p.size));
    }
  }

  lemma PushedKeepsWellFormed(p: Pool, len: nat, ts: int)
    requires WellFormed(p)
    ensures WellFormed(Pushed(p, len, ts)) && Contents(Pushed(p, len, ts).queue) == Contents(p.queue) + [(len, ts)]
  {
    var (q, node) := TakeNode(p);
    TakeNodeKeepsPartition(p);
    GrowthKeepsContents(p);
    PartitionPut(q.size, Nodes(q.queue), q.free, node);
    assert Nodes(Pushed(p, len, ts).queue) == Nodes(q.queue) + [node];
    assert Contents(Pushed(p, len, ts).queue) == Contents(q.queue) + [(len, ts)];
  }

  lemma {:induction false} TakeKeepsWellFormed(p: Pool, n: nat)
    requires WellFormed(p)
    ensures WellFormed(Take(p, n)) && Take(p, n).size == p.size
    decreases |p.queue|
  {
    if p.queue == [] {
    } else {
      if n >= p.queue[0].len {
        PartitionPop(p.size, Nodes(p.queue), p.free);
        assert Nodes(p.queue)[1..] == Nodes(p.queue[1..]);
        TakeKeepsWellFormed(Dropped(p), n - p.queue[0].len);
      } else {
        assert Nodes(Shrunk(p, n).queue) == Nodes(p.queue);
      }
    }
  }

  /** Taking a and then b bytes is taking a + b, down to the order of the free list. */
  lemma {:induction false} TakeAdditive(p: Pool, a: nat, b: nat)
    ensures Take(Take(p, a), b) == Take(p, a + b)
    decreases |p.queue|
  {
    if p.queue == [] {
    } else {
      if a >= p.queue[0].len {
        TakeAdditive(Dropped(p), a - p.queue[0].len, b);
      } else {
        var s := Shrunk(p, a);
        if a + b >= p.queue[0].len {
          assert Dropped(s) == Dropped(p);
        } else {
          assert Shrunk(s, b) == Shrunk(p, a + b);
        }
      }
    }
  }

  /** The queue as one timestamp for every byte. */
  function Bytes(q: seq<Cell>): seq<int> {
    if q == [] then [] else seq(q[0].len, _ => q[0].ts) + Bytes(q[1..])
  }

  lemma {:induction false} BytesOfSnoc(q: seq<Cell>, c: Cell)
    ensures Bytes(q + [c]) == Bytes(q) + seq(c.len, _ => c.ts)
  {
    if q == [] {
      assert (q + [c])[1..] == [];
    } else {
      assert (q + [c])[1..] == q[1..] + [c];
      BytesOfSnoc(q[1..], c);
    }
  }

  lemma {:induction false} BytesOfContents(q: seq<Cell>, r: seq<Cell>)
    requires Contents(q) == Contents(r)
    ensures Bytes(q) == Bytes(r)
  {
    if q == [] {
    } else {
      assert Contents(q)[0] == Contents(r)[0];
      assert Contents(q[1..]) == Contents(q)[1..] == Contents(r)[1..] == Contents(r[1..]);
      BytesOfContents(q[1..], r[1..]);
    }
  }

  lemma PushedAppendsBytes(p: Pool, len: nat, ts: int)
    ensures Bytes(Pushed(p, len, ts).queue) == Bytes(p.queue) + seq(len, _ => ts)
  {
    var (q, node) := TakeNode(p);
    GrowthKeepsContents(p);
    BytesOfContents(q.queue, p.queue);
    BytesOfSnoc(q.queue, Cell(node, len, ts));
  }

  function Least(a: nat, b: nat): nat {
    if a < b then a else b
  }

  /** Taking n bytes takes them off the front, or empties the queue. */
  lemma {:induction false} TakeDropsBytes(p: Pool, n: nat)
    ensures Bytes(Take(p, n).queue) == Bytes(p.queue)[Least(n, |Bytes(p.queue)|)..]
    decreases |p.queue|
  {
    if p.queue == [] {
    } else {
      var c := p.queue[0];
      if n >= c.len {
        TakeDropsBytes(Dropped(p), n - c.len);
      } else {
        var s := Shrunk(p, n);
        assert s.queue[1..] == p.queue[1..];
        assert Bytes(s.queue) == seq(c.len - n, _ => c.ts) + Bytes(p.queue[1..]);
      }
    }
  }

  /** No block at the head is used up: zero-length blocks go with the bytes before them. */
  lemma {:induction false} TakeLeavesBytesAtHead(p: Pool, n: nat)
    ensures var t := Take(p, n); t.queue != [] ==> t.queue[0].len > 0
    decreases |p.queue|
  {
    if p.queue == [] || n < p.queue[0].len {
    } else {
      TakeLeavesBytesAtHead(Dropped(p), n - p.queue[0].len);
    }
  }

  // ---------- Runs ----------

  datatype Call = PushBlock(len: nat, ts: int) | GetBytes(length: nat)

  datatype Run = Run(pool: Pool, pushed: seq<int>, taken: nat)

  /** One call, with the timestamps of all bytes pushed so far and the number of bytes taken. */
  function Step(r: Run, c: Call): Run {
    match c
    case PushBlock(len, ts) => r.(pool := Pushed(r.pool, len, ts), pushed := r.pushed + seq(len, _ => ts))
    case GetBytes(length) => r.(pool := Take(r.pool, length), taken := r.taken + Least(length, |Bytes(r.pool.queue)|))
  }

  function After(r: Run, calls: seq<Call>): Run {
    if calls == [] then r else Step(After(r, calls[..|calls| - 1]), calls[|calls| - 1])
  }

  ghost predicate Faithful(r: Run) {
    && WellFormed(r.pool) && r.taken <= |r.pushed| && Bytes(r.pool.queue) == r.pushed[r.taken..]
  }

  /**
    In every run from the empty pool, through any number of growths, the queue is exactly what was pushed less what
    was taken; so the timestamp handed out is that of the first byte not yet taken, whenever the head block has one.
   */
  lemma {:induction false} RunsAreFaithful(calls: seq<Call>)
    ensures var r := After(Run(Pool(0, [], []), [], 0), calls);
            && Faithful(r)
            && (r.pool.queue != [] && r.pool.queue[0].len > 0 ==>
                  r.taken < |r.pushed| && First(r.pool) == r.pushed[r.taken])
            && (r.pool.queue == [] ==> r.taken == |r.pushed| && First(r.pool) == NO_TIMESTAMP)
  {
    if calls == [] {
    } else {
      RunsAreFaithful(calls[..|calls| - 1]);
      StepIsFaithful(After(Run(Pool(0, [], []), [], 0), calls[..|calls| - 1]), calls[|calls| - 1]);
    }
  }

  lemma StepIsFaithful(r: Run, c: Call)
    requires Faithful(r)
    ensures Faithful(Step(r, c))
  {
    match c
    case PushBlock(len, ts) =>
      PushedKeepsWellFormed(r.pool, len, ts);
      PushedAppendsBytes(r.pool, len, ts);
    case GetBytes(length) =>
      TakeKeepsWellFormed(r.pool, length);
      TakeDropsBytes(r.pool, length);
  }

  // ---------- How large the pool gets ----------

  /** Four, doubled any number of times. */
  predicate Doubled(n: nat) {
    n == 4 || (n > 4 && n % 2 == 0 && Doubled(n / 2))
  }

  /** The most blocks that were queued at once. */
  function Peak(calls: seq<Call>): nat {
    var now := |After(Run(Pool(0, [], []), [], 0), calls).pool.queue|;
    if calls == [] then now
    else
      var before := Peak(calls[..|calls| - 1]);
      if before < now then now else before
  }

  ghost predicate Sized(p: Pool, peak: nat) {
    && WellFormed(p) && |p.queue| <= peak <= p.size
    && if peak == 0 then p.size == 0 else Doubled(p.size) && (p.size == 4 || p.size <= 2 * (peak - 1))
  }

  lemma PushStaysSized(p: Pool, peak: nat, len: nat, ts: int)
    requires Sized(p, peak)
    ensures var q := Pushed(p, len, ts); Sized(q, if peak < |q.queue| then |q.queue| else peak)
  {
    PushedKeepsWellFormed(p, len, ts);
    assert |Nodes(p.queue) + p.free + []| == p.size;
    if p.free == [] && p.size > 0 {
      assert Doubled(2 * p.size);
    }
  }

  lemma TakeStaysSized(p: Pool, peak: nat, n: nat)
    requires Sized(p, peak)
    ensures Sized(Take(p, n), peak)
  {
    TakeKeepsWellFormed(p, n);
    assert |Nodes(Take(p, n).queue) + Take(p, n).free + []| == p.size;
    TakeIsShorter(p, n);
  }

  lemma {:induction false} TakeIsShorter(p: Pool, n: nat)
    ensures |Take(p, n).queue| <= |p.queue|
    decreases |p.queue|
  {
    if p.queue == [] {
    } else if n >= p.queue[0].len {
      TakeIsShorter(Dropped(p), n - p.queue[0].len);
    } else {
    }
  }

  /** In every run the pool has 4 nodes, doubled as often as needed, and less than twice as many as were ever in use. */
  lemma {:induction false} RunsStaySized(calls: seq<Call>)
    ensures Sized(After(Run(Pool(0, [], []), [], 0), calls).pool, Peak(calls))
  {
    if calls == [] {
    } else {
      var front := calls[..|calls| - 1];
      var r := After(Run(Pool(0, [], []), [], 0), front);
      RunsStaySized(front);
      match calls[|calls| - 1]
      case PushBlock(len, ts) => PushStaysSized(r.pool, Peak(front), len, ts);
      case GetBytes(length) => TakeStaysSized(r.pool, Peak(front), length);
    }
  }
}

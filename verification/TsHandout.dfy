/**
  Who gets which timestamp over a whole run of the received-packet FIFO.

  Packets queued back to back with the same timestamp form one chain.  A run numbers the chains in
  order of arrival; the main result is that the chains whose timestamp is handed out by
  TSManagerValid2 appear in strictly increasing order, so no chain is handed out twice, whatever
  mixture of arrivals, takes and flushes the run consists of.
*/
module TimestampHandout {
  import opened Helpers
  import opened ReceivedFifo

  datatype Event =
    | Arrive(ts: int, size: nat)
    | Take(n: nat)
    | Flush(n: nat)

  /** chains[i] numbers the chain of queue[i]; handed lists the chains handed out, oldest first. */
  datatype Run = Run(f: Fifo, chains: seq<nat>, next: nat, handed: seq<nat>)

  const START := Run(Fifo([], [], 0, 0), [], 0, [])

  /** The entry that the last of n > 0 bytes comes from. */
  function LastReached(q: seq<Entry>, n: nat, from: nat): (t: nat)
    requires from < |q| && Offset(q, from) < n
    ensures ReachesLast(q, n, t)
    decreases |q| - from
  {
    if from + 1 == |q| || n <= Offset(q, from + 1) then from else LastReached(q, n, from + 1)
  }

  function Consumed(r: Run, n: nat, use: bool): Run
    requires |r.chains| == |r.f.queue|
  {
    var f := Consume(r.f, n, use);
    r.(f := f, chains := if |f.queue| <= |r.chains| then r.chains[|r.chains| - |f.queue|..] else r.chains)
  }

  function Step(r: Run, e: Event): Run
    requires |r.chains| == |r.f.queue|
  {
    match e
    case Arrive(ts, size) =>
      // A packet without bytes never enters the FIFO.
      if size == 0 then r
      else
        var f := Append(r.f, ts, size);
        if f.queue[|f.queue| - 1].subentry && r.chains != [] then
          r.(f := f, chains := r.chains + [r.chains[|r.chains| - 1]])
        else
          r.(f := f, chains := r.chains + [r.next], next := r.next + 1)
    case Take(n) =>
      var s := Consumed(r, n, true);
      if LastTimestamp(r.f, n, true, NO_TIMESTAMP) == NO_TIMESTAMP || n == 0 || r.f.queue == [] then s
      else s.(handed := r.handed + [r.chains[LastReached(r.f.queue, n, 0)]])
    case Flush(n) => Consumed(r, n, false)
  }

  ghost predicate Numbered(q: seq<Entry>, chains: seq<nat>, i: nat)
    requires i < |q| == |chains|
  {
    i > 0 ==> if q[i].subentry then chains[i] == chains[i - 1] else chains[i] > chains[i - 1]
  }

  /** The numbering of the queued chains. */
  ghost predicate Ordered(q: seq<Entry>, chains: seq<nat>, next: nat) {
    && |chains| == |q|
    && (forall i :: 0 <= i < |chains| ==> Numbered(q, chains, i))
    && (chains != [] ==> chains[|chains| - 1] < next)
  }

  /** What was handed out lies before everything queued, but for a head that is marked used. */
  ghost predicate Behind(handed: seq<nat>, q: seq<Entry>, chains: seq<nat>, next: nat)
    requires |chains| == |q|
  {
    && Increasing(handed)
    && (handed != [] ==>
          var last := handed[|handed| - 1];
          && last < next
          && (q != [] ==> last < chains[0] || (last == chains[0] && q[0].used)))
  }

  ghost predicate Inv(r: Run) {
    && WellFormed(r.f)
    && Ordered(r.f.queue, r.chains, r.next)
    && Behind(r.handed, r.f.queue, r.chains, r.next)
  }

  lemma {:induction false} ChainsAscend(q: seq<Entry>, chains: seq<nat>, i: nat, j: nat)
    requires i <= j < |q| == |chains|
    requires forall k :: 0 <= k < |q| ==> Numbered(q, chains, k)
    ensures chains[i] <= chains[j]
    ensures chains[i] == chains[j] <==> forall k :: i < k <= j ==> q[k].subentry
  {
    if i == j {
    } else {
      ChainsAscend(q, chains, i, j - 1);
      assert Numbered(q, chains, j);
    }
  }

  /** Every byte count splits the queue somewhere, next to the entry it reaches last. */
  lemma DropsExists(f: Fifo, n: nat) returns (k: nat)
    requires WellFormed(f)
    ensures Drops(f.queue, n, k)
    ensures n > 0 && f.queue != [] ==>
              var t := LastReached(f.queue, n, 0);
              k == t || k == t + 1
  {
    if f.queue == [] {
      k := 0;
    } else if n == 0 {
      k := 0;
      assert EntryOk(f.queue, 0);
    } else {
      var t := LastReached(f.queue, n, 0);
      k := if n < Offset(f.queue, t + 1) then t else t + 1;
      if k < |f.queue| {
        assert EntryOk(f.queue, k);
      }
    }
  }

  lemma NumberedTail(q: seq<Entry>, chains: seq<nat>, next: nat, k: nat, p: seq<Entry>)
    requires Ordered(q, chains, next) && k < |q| && p != [] && p[1..] == q[k + 1..]
    ensures Ordered(p, chains[k..], next)
  {
    assert |p[1..]| == |q| - k - 1;
    forall i | 0 <= i < |p|
      ensures Numbered(p, chains[k..], i)
    {
      assert Numbered(q, chains, i + k);
      if i > 0 {
        assert p[i] == p[1..][i - 1] == q[k + i];
      }
    }
  }

  lemma ConsumedKeepsOrder(r: Run, n: nat, use: bool, k: nat)
    requires Inv(r) && Drops(r.f.queue, n, k)
    ensures var s := Consumed(r, n, use);
            && WellFormed(s.f)
            && |s.f.queue| == |r.f.queue| - k
            && s.chains == r.chains[k..]
            && Ordered(s.f.queue, s.chains, s.next)
  {
    ConsumeKeepsWellFormed(r.f, n, use);
    ConsumeExact(r.f, n, use, k);
    var q := Consume(r.f, n, use).queue;
    if k < |r.f.queue| {
      NumberedTail(r.f.queue, r.chains, r.next, k, q);
      assert |q[1..]| == |r.f.queue| - k - 1;
    }
  }

  /** If the new head belongs to the chain of the old head, and that one was used, so is the new head. */
  lemma ConsumedKeepsUsed(r: Run, n: nat, use: bool, k: nat)
    requires Inv(r) && Drops(r.f.queue, n, k) && k < |r.f.queue|
    requires r.f.queue[0].used && r.chains[k] == r.chains[0]
    ensures Consume(r.f, n, use).queue != [] && Consume(r.f, n, use).queue[0].used
  {
    UsedExact(r.f, n, use, k);
    ChainsAscend(r.f.queue, r.chains, 0, k);
    assert ChainedToHead(r.f.queue, k);
  }

  lemma ConsumedKeepsBehind(r: Run, n: nat, use: bool, k: nat)
    requires Inv(r) && Drops(r.f.queue, n, k) && k < |r.f.queue| && r.handed != []
    ensures var last := r.handed[|r.handed| - 1];
            var q := Consume(r.f, n, use).queue;
            last < r.chains[k] || (last == r.chains[k] && q != [] && q[0].used)
  {
    ChainsAscend(r.f.queue, r.chains, 0, k);
    if r.chains[k] == r.handed[|r.handed| - 1] {
      ConsumedKeepsUsed(r, n, use, k);
    }
  }

  lemma ConsumedKeepsInv(r: Run, n: nat, use: bool)
    requires Inv(r)
    ensures Inv(Consumed(r, n, use))
  {
    var k := DropsExists(r.f, n);
    ConsumedKeepsOrder(r, n, use, k);
    if k < |r.f.queue| && r.handed != [] {
      ConsumedKeepsBehind(r, n, use, k);
    }
  }

  /** A take hands something out exactly when the entry it reaches last opens its chain, or is the still unused head. */
  lemma TakeHandsOutExactly(r: Run, n: nat)
    requires Inv(r) && n > 0 && r.f.queue != []
    ensures var t := LastReached(r.f.queue, n, 0);
            var e := r.f.queue[t];
            var news := e.ts != NO_TIMESTAMP && if t == 0 then !e.used else !e.subentry;
            && LastTimestamp(r.f, n, true, NO_TIMESTAMP) == (if news then e.ts else NO_TIMESTAMP)
            && Step(r, Take(n)).handed == if news then r.handed + [r.chains[t]] else r.handed
  {
    LastTimestampExact(r.f, n, LastReached(r.f.queue, n, 0), NO_TIMESTAMP);
  }

  /** What is handed out now was never handed out before. */
  lemma HandedOutIsNew(r: Run, n: nat)
    requires Inv(r) && n > 0 && r.f.queue != [] && r.handed != []
    requires LastTimestamp(r.f, n, true, NO_TIMESTAMP) != NO_TIMESTAMP
    ensures r.handed[|r.handed| - 1] < r.chains[LastReached(r.f.queue, n, 0)]
  {
    var t := LastReached(r.f.queue, n, 0);
    LastTimestampExact(r.f, n, t, NO_TIMESTAMP);
    if t > 0 {
      ChainsAscend(r.f.queue, r.chains, 0, t - 1);
      assert r.chains[t - 1] < r.chains[t] by { assert Numbered(r.f.queue, r.chains, t); }
    }
  }

  /** After a take, the head is either of a later chain than the entry reached last, or marked used. */
  lemma TakeMarksHead(r: Run, n: nat, k: nat)
    requires Inv(r) && n > 0 && Drops(r.f.queue, n, k) && k < |r.f.queue|
    requires var t := LastReached(r.f.queue, n, 0); k == t || k == t + 1
    ensures var t := LastReached(r.f.queue, n, 0);
            var q := Consume(r.f, n, true).queue;
            q != [] && (r.chains[t] < r.chains[k] || (r.chains[t] == r.chains[k] && q[0].used))
  {
    UsedExact(r.f, n, true, k);
    assert Numbered(r.f.queue, r.chains, k);
  }

  lemma IncreasingAppend(r: Run, n: nat)
    requires Inv(r) && n > 0 && r.f.queue != []
    requires LastTimestamp(r.f, n, true, NO_TIMESTAMP) != NO_TIMESTAMP
    ensures Increasing(r.handed + [r.chains[LastReached(r.f.queue, n, 0)]])
  {
    if r.handed != [] {
      HandedOutIsNew(r, n);
    }
  }

  lemma TakeKeepsInv(r: Run, n: nat)
    requires Inv(r) && n > 0 && r.f.queue != []
    requires LastTimestamp(r.f, n, true, NO_TIMESTAMP) != NO_TIMESTAMP
    ensures Inv(Step(r, Take(n)))
  {
    var t := LastReached(r.f.queue, n, 0);
    var k := DropsExists(r.f, n);
    var s := Step(r, Take(n));
    ConsumedKeepsOrder(r, n, true, k);
    assert Behind(s.handed, s.f.queue, s.chains, s.next) by {
      assert s.handed == r.handed + [r.chains[t]];
      IncreasingAppend(r, n);
      ChainsAscend(r.f.queue, r.chains, t, |r.f.queue| - 1);
      if k < |r.f.queue| {
        TakeMarksHead(r, n, k);
      }
    }
  }

  lemma ArriveKeepsInv(r: Run, ts: int, size: nat)
    requires Inv(r) && size > 0
    ensures Inv(Step(r, Arrive(ts, size)))
  {
    AppendKeepsWellFormed(r.f, ts, size);
    var s := Step(r, Arrive(ts, size));
    forall i | 0 <= i < |s.chains|
      ensures Numbered(s.f.queue, s.chains, i)
    {
      assert i < |r.chains| ==> Numbered(r.f.queue, r.chains, i);
    }
    if r.chains != [] {
      ChainsAscend(r.f.queue, r.chains, 0, |r.chains| - 1);
    }
  }

  lemma StepKeepsInv(r: Run, e: Event)
    requires Inv(r)
    ensures Inv(Step(r, e))
  {
    match e
    case Arrive(ts, size) =>
      if size > 0 {
        ArriveKeepsInv(r, ts, size);
      }
    case Take(n) =>
      ConsumedKeepsInv(r, n, true);
      if n > 0 && r.f.queue != [] && LastTimestamp(r.f, n, true, NO_TIMESTAMP) != NO_TIMESTAMP {
        TakeKeepsInv(r, n);
      }
    case Flush(n) =>
      ConsumedKeepsInv(r, n, false);
  }

  function RunFrom(r: Run, events: seq<Event>): Run
    requires Inv(r)
    decreases |events|
  {
    if events == [] then r
    else
      StepKeepsInv(r, events[0]);
      RunFrom(Step(r, events[0]), events[1..])
  }

  lemma {:induction false} RunKeepsInv(r: Run, events: seq<Event>)
    requires Inv(r)
    ensures Inv(RunFrom(r, events))
    decreases |events|
  {
    if events == [] {
    } else {
      StepKeepsInv(r, events[0]);
      RunKeepsInv(Step(r, events[0]), events[1..]);
    }
  }

  /** At most once: over any run, each chain's timestamp is handed out at most one time, and in arrival order. */
  lemma HandedOutAtMostOnce(events: seq<Event>)
    ensures Inv(START) && Increasing(RunFrom(START, events).handed)
  {
    RunKeepsInv(START, events);
  }

  /** Not exactly once: a take that reaches past a chain's first entry into a later one of it hands nothing out. */
  lemma SpanningTakeHandsOutNothing(r: Run, n: nat)
    requires Inv(r) && n > 0 && r.f.queue != []
    requires var t := LastReached(r.f.queue, n, 0); t > 0 && r.f.queue[t].subentry
    ensures Step(r, Take(n)).handed == r.handed
    ensures LastTimestamp(r.f, n, true, NO_TIMESTAMP) == NO_TIMESTAMP
  {
    TakeHandsOutExactly(r, n);
  }
}

/**
  The bounded message queue of the player (tools/gplay/fsl_player_queue.c) as a monitor.

  Every step is what one thread does while it holds the mutex.  A thread that waits on a condition variable is
  `Waiting` until it is signalled, and `Woken` until it has the mutex again; a signal wakes one of the waiting
  threads, if there is one, and threads may also wake without a signal or by timeout.  Messages are put with
  FSL_PLAYER_UI_MSG_PUT_NEW and are not null.
*/
module PlayerQueue {
  import opened Helpers

  type Thread = nat

  datatype Status = Out | Waiting(timed: bool, msg: int) | Woken(timed: bool, expired: bool, msg: int)

  /**
    `getters` wait on cond_full, `putters` on cond_empty, each holding the message to put.  The last four fields are
    the history: all messages put, how many of them have left, the positions of those handed out, and the number
    flushed.
   */
  datatype Monitor = Monitor(
    queue: seq<int>, len: int, maxLen: nat, getters: map<Thread, Status>, putters: map<Thread, Status>,
    put: seq<int>, left: nat, got: seq<nat>, flushed: nat)

  const INITIAL_MAX: nat := 0xFFFF_FFFF

  datatype Step =
    | Put(t: Thread, msg: int, timeOut: int, pick: Thread)
    | PutAgain(t: Thread, pick: Thread)
    | Get(t: Thread, timeOut: int, pick: Thread)
    | GetAgain(t: Thread, pick: Thread)
    | WakePutter(t: Thread, expired: bool)   // by timeout or for no reason
    | WakeGetter(t: Thread, expired: bool)
    | Flush(pick: Thread)
    | Config(len: nat)

  // ---------- What a step computes ----------

  function Wake(ts: map<Thread, Status>, t: Thread, expired: bool): (r: map<Thread, Status>)
    ensures r.Keys == ts.Keys
  {
    if t in ts && ts[t].Waiting? then ts[t := Woken(ts[t].timed, expired, ts[t].msg)] else ts
  }

  /** A signal wakes thread `pick`, if it waits. */
  function Signal(ts: map<Thread, Status>, pick: Thread): map<Thread, Status> {
    Wake(ts, pick, false)
  }

  /** fsl_player_queue_put from QueuePutStart on */
  function PutSection(m: Monitor, t: Thread, msg: int, timeOut: int, pick: Thread): Monitor {
    if m.len < m.maxLen then
      m.(queue := m.queue + [msg], len := m.len + 1, putters := m.putters[t := Out], put := m.put + [msg],
         getters := if m.len == 0 then Signal(m.getters, pick) else m.getters)
    else if timeOut == 0 then m.(putters := m.putters[t := Out])
    else m.(putters := m.putters[t := Waiting(timeOut > 0, msg)])
  }

  /** fsl_player_queue_get from QueueGetStart on */
  function GetSection(m: Monitor, t: Thread, timeOut: int, pick: Thread): Monitor {
    if m.queue != [] then
      m.(queue := m.queue[1..], len := m.len - 1, getters := m.getters[t := Out], left := m.left + 1,
         got := m.got + [m.left],
         putters := if m.len == m.maxLen then Signal(m.putters, pick) else m.putters)
    else if timeOut == 0 then m.(getters := m.getters[t := Out])
    else m.(getters := m.getters[t := Waiting(timeOut > 0, 0)])
  }

  /** After a wait: a timed one gives up unless the queue is in the state waited for. */
  function PutAfterWait(m: Monitor, t: Thread, pick: Thread): Monitor
    requires t in m.putters && m.putters[t].Woken?
  {
    var w := m.putters[t];
    if w.timed && (w.expired || m.len >= m.maxLen) then m.(putters := m.putters[t := Out])
    else PutSection(m, t, w.msg, if w.timed then 1 else -1, pick)
  }

  function GetAfterWait(m: Monitor, t: Thread, pick: Thread): Monitor
    requires t in m.getters && m.getters[t].Woken?
  {
    var w := m.getters[t];
    if w.timed && (w.expired || m.queue == []) then m.(getters := m.getters[t := Out])
    else GetSection(m, t, if w.timed then 1 else -1, pick)
  }

  function FlushAll(m: Monitor, pick: Thread): Monitor {
    m.(queue := [], len := 0, putters := Signal(m.putters, pick), left := m.left + |m.queue|,
       flushed := m.flushed + |m.queue|)
  }

  function Configure(m: Monitor, len: nat): Monitor {
    if len != 0 && len >= m.len then m.(maxLen := len) else m
  }

  /** A signal may not be lost while somebody waits. */
  ghost predicate Picks(ts: map<Thread, Status>, pick: Thread) {
    (exists t :: t in ts && ts[t].Waiting?) ==> pick in ts && ts[pick].Waiting?
  }

  ghost predicate Legal(m: Monitor, s: Step) {
    match s
    case Put(t, _, _, pick) => t in m.putters && m.putters[t].Out? && Picks(m.getters, pick)
    case PutAgain(t, pick) => t in m.putters && m.putters[t].Woken? && Picks(m.getters, pick)
    case Get(t, _, pick) => t in m.getters && m.getters[t].Out? && Picks(m.putters, pick)
    case GetAgain(t, pick) => t in m.getters && m.getters[t].Woken? && Picks(m.putters, pick)
    case WakePutter(t, expired) => t in m.putters && m.putters[t].Waiting? && (expired ==> m.putters[t].timed)
    case WakeGetter(t, expired) => t in m.getters && m.getters[t].Waiting? && (expired ==> m.getters[t].timed)
    case Flush(pick) => Picks(m.putters, pick)
    case Config(_) => true
  }

  function Do(m: Monitor, s: Step): Monitor
    requires Legal(m, s)
  {
    match s
    case Put(t, msg, timeOut, pick) => PutSection(m, t, msg, timeOut, pick)
    case PutAgain(t, pick) => PutAfterWait(m, t, pick)
    case Get(t, timeOut, pick) => GetSection(m, t, timeOut, pick)
    case GetAgain(t, pick) => GetAfterWait(m, t, pick)
    case WakePutter(t, expired) => m.(putters := Wake(m.putters, t, expired))
    case WakeGetter(t, expired) => m.(getters := Wake(m.getters, t, expired))
    case Flush(pick) => FlushAll(m, pick)
    case Config(len) => Configure(m, len)
  }

  // ---------- What every step keeps ----------

  /** The bound, and the history: messages leave in the order they were put in, and none is lost but by a flush. */
  ghost predicate Inv(m: Monitor) {
    && m.len == |m.queue| <= m.maxLen && m.maxLen >= 1
    && m.left <= |m.put| && m.queue == m.put[m.left..]
    && |m.got| + m.flushed == m.left
    && Increasing(m.got) && forall i :: 0 <= i < |m.got| ==> m.got[i] < m.left
  }

  /** A consumer that sleeps has nothing to get; a producer that sleeps has no room. */
  ghost predicate GettersOk(m: Monitor) {
    forall t :: t in m.getters && m.getters[t].Waiting? ==> m.queue == []
  }

  ghost predicate PuttersOk(m: Monitor) {
    forall t :: t in m.putters && m.putters[t].Waiting? ==> m.len >= m.maxLen
  }

  ghost predicate AtMostOne(s: set<Thread>) {
    forall a, b :: a in s && b in s ==> a == b
  }

  lemma PutKeepsInv(m: Monitor, t: Thread, msg: int, timeOut: int, pick: Thread)
    requires Inv(m) && t in m.putters
    ensures var n := PutSection(m, t, msg, timeOut, pick);
            Inv(n) && n.getters.Keys == m.getters.Keys && n.putters.Keys == m.putters.Keys
  {
  }

  lemma GetKeepsInv(m: Monitor, t: Thread, timeOut: int, pick: Thread)
    requires Inv(m) && t in m.getters
    ensures var n := GetSection(m, t, timeOut, pick);
            Inv(n) && n.getters.Keys == m.getters.Keys && n.putters.Keys == m.putters.Keys
    ensures m.queue != [] ==> m.queue[0] == m.put[m.left]
  {
  }

  lemma StepKeepsInv(m: Monitor, s: Step)
    requires Inv(m) && Legal(m, s)
    ensures Inv(Do(m, s)) && Do(m, s).getters.Keys == m.getters.Keys && Do(m, s).putters.Keys == m.putters.Keys
  {
    match s
    case Put(t, msg, timeOut, pick) => PutKeepsInv(m, t, msg, timeOut, pick);
    case PutAgain(t, pick) => PutKeepsInv(m, t, m.putters[t].msg, if m.putters[t].timed then 1 else -1, pick);
    case Get(t, timeOut, pick) => GetKeepsInv(m, t, timeOut, pick);
    case GetAgain(t, pick) => GetKeepsInv(m, t, if m.getters[t].timed then 1 else -1, pick);
    case _ =>
  }

  lemma StepKeepsGetters(m: Monitor, s: Step)
    requires Inv(m) && Legal(m, s) && GettersOk(m) && AtMostOne(m.getters.Keys)
    ensures GettersOk(Do(m, s))
  {
  }

  /** Raising the limit above the queue's length while a producer sleeps. */
  ghost predicate Raises(m: Monitor, s: Step) {
    s.Config? && s.len > m.len && exists t :: t in m.putters && m.putters[t].Waiting?
  }

  /** That is the one step that breaks the promise to a single producer. */
  lemma StepKeepsPuttersExactly(m: Monitor, s: Step)
    requires Inv(m) && Legal(m, s) && PuttersOk(m) && AtMostOne(m.putters.Keys)
    ensures PuttersOk(Do(m, s)) <==> !Raises(m, s)
  {
  }

  // ---------- Runs ----------

  ghost predicate LegalRun(m: Monitor, steps: seq<Step>)
    decreases |steps|
  {
    steps == [] || (Legal(m, steps[0]) && LegalRun(Do(m, steps[0]), steps[1..]))
  }

  function After(m: Monitor, steps: seq<Step>): Monitor
    requires LegalRun(m, steps)
    decreases |steps|
  {
    if steps == [] then m else After(Do(m, steps[0]), steps[1..])
  }

  /** No step of the run raises the limit while a producer sleeps. */
  ghost predicate NeverRaises(m: Monitor, steps: seq<Step>)
    requires LegalRun(m, steps)
    decreases |steps|
  {
    steps != [] ==> !Raises(m, steps[0]) && NeverRaises(Do(m, steps[0]), steps[1..])
  }

  function AllOut(ts: set<Thread>): map<Thread, Status> {
    map t | t in ts :: Out
  }

  function Start(getters: set<Thread>, putters: set<Thread>, maxLen: nat): Monitor {
    Monitor([], 0, maxLen, AllOut(getters), AllOut(putters), [], 0, [], 0)
  }

  lemma {:induction false} RunsKeepInv(m: Monitor, steps: seq<Step>)
    requires Inv(m) && LegalRun(m, steps)
    ensures Inv(After(m, steps)) && After(m, steps).getters.Keys == m.getters.Keys
    ensures After(m, steps).putters.Keys == m.putters.Keys
    decreases |steps|
  {
    if steps == [] {
    } else {
      StepKeepsInv(m, steps[0]);
      RunsKeepInv(Do(m, steps[0]), steps[1..]);
    }
  }

  lemma {:induction false} RunsKeepGetters(m: Monitor, steps: seq<Step>)
    requires Inv(m) && LegalRun(m, steps) && GettersOk(m) && AtMostOne(m.getters.Keys)
    ensures GettersOk(After(m, steps))
    decreases |steps|
  {
    if steps == [] {
    } else {
      StepKeepsInv(m, steps[0]);
      StepKeepsGetters(m, steps[0]);
      RunsKeepGetters(Do(m, steps[0]), steps[1..]);
    }
  }

  lemma {:induction false} RunsKeepPutters(m: Monitor, steps: seq<Step>)
    requires Inv(m) && LegalRun(m, steps) && PuttersOk(m) && AtMostOne(m.putters.Keys) && NeverRaises(m, steps)
    ensures PuttersOk(After(m, steps))
    decreases |steps|
  {
    if steps == [] {
    } else {
      StepKeepsInv(m, steps[0]);
      StepKeepsPuttersExactly(m, steps[0]);
      RunsKeepPutters(Do(m, steps[0]), steps[1..]);
    }
  }

  /** A consumer sleeps beside a message, and nobody is on the way to take it. */
  ghost predicate GetterLost(m: Monitor) {
    && m.queue != [] && (forall t :: t in m.getters ==> !m.getters[t].Woken?)
    && exists t :: t in m.getters && m.getters[t].Waiting?
  }

  /** A producer sleeps beside a free place, and nobody is on the way to fill it. */
  ghost predicate PutterLost(m: Monitor) {
    && m.len < m.maxLen && (forall t :: t in m.putters ==> !m.putters[t].Woken?)
    && exists t :: t in m.putters && m.putters[t].Waiting?
  }

  ghost predicate NoGetterLost(m: Monitor) {
    forall steps :: LegalRun(m, steps) ==> !GetterLost(After(m, steps))
  }

  ghost predicate NoPutterLost(m: Monitor) {
    forall steps :: LegalRun(m, steps) && NeverRaises(m, steps) ==> !PutterLost(After(m, steps))
  }

  lemma RunOne(m: Monitor, s: Step, steps: seq<Step>)
    requires Legal(m, s) && LegalRun(Do(m, s), steps)
    ensures LegalRun(m, [s] + steps) && After(m, [s] + steps) == After(Do(m, s), steps)
    ensures !Raises(m, s) && NeverRaises(Do(m, s), steps) ==> NeverRaises(m, [s] + steps)
  {
    assert ([s] + steps)[1..] == steps;
  }

  lemma {:induction false} RunOn(m: Monitor, steps: seq<Step>, more: seq<Step>)
    requires LegalRun(m, steps) && LegalRun(After(m, steps), more)
    ensures LegalRun(m, steps + more) && After(m, steps + more) == After(After(m, steps), more)
    ensures NeverRaises(m, steps) && NeverRaises(After(m, steps), more) ==> NeverRaises(m, steps + more)
    decreases |steps|
  {
    if steps == [] {
      assert steps + more == more;
    } else {
      assert (steps + more)[1..] == steps[1..] + more;
      RunOn(Do(m, steps[0]), steps[1..], more);
    }
  }

  /** Empty, and no thread is inside a call. */
  ghost predicate Idle(m: Monitor) {
    && m.queue == [] && m.len == 0
    && (forall t :: t in m.getters ==> m.getters[t].Out?) && (forall t :: t in m.putters ==> m.putters[t].Out?)
  }

  lemma TwoSteps(m: Monitor, s: Step, t: Step)
    requires Legal(m, s) && Legal(Do(m, s), t)
    ensures LegalRun(m, [s, t]) && After(m, [s, t]) == Do(Do(m, s), t)
    ensures !Raises(m, s) && !Raises(Do(m, s), t) ==> NeverRaises(m, [s, t])
  {
    RunOne(Do(m, s), t, []);
    RunOne(m, s, [t]);
    assert [s] + [t] == [s, t] && [t] + [] == [t];
  }

  lemma ThreeSteps(m: Monitor, s: Step, t: Step, u: Step)
    requires Legal(m, s) && Legal(Do(m, s), t) && Legal(Do(Do(m, s), t), u)
    ensures LegalRun(m, [s, t, u]) && After(m, [s, t, u]) == Do(Do(Do(m, s), t), u)
    ensures !Raises(m, s) && !Raises(Do(m, s), t) && !Raises(Do(Do(m, s), t), u) ==> NeverRaises(m, [s, t, u])
  {
    TwoSteps(Do(m, s), t, u);
    RunOne(m, s, [t, u]);
    assert [s] + [t, u] == [s, t, u];
  }

  lemma BothListen(m: Monitor, p: Thread, a: Thread, b: Thread) returns (steps: seq<Step>)
    requires a in m.getters && b in m.getters && a != b && Idle(m)
    ensures LegalRun(m, steps)
    ensures After(m, steps) == m.(getters := m.getters[a := Waiting(false, 0)][b := Waiting(false, 0)])
  {
    var s, t := Get(a, -1, p), Get(b, -1, p);
    steps := [s, t];
    TwoSteps(m, s, t);
  }

  /** Of two consumers that wait only the first is woken; it takes one of two messages, and the other sleeps on. */
  lemma OneWakes(m: Monitor, p: Thread, a: Thread, b: Thread) returns (steps: seq<Step>)
    requires p in m.putters && (forall t :: t in m.putters ==> m.putters[t].Out?)
    requires m.queue == [] && m.len == 0 && m.maxLen >= 2
    requires a in m.getters && m.getters[a] == Waiting(false, 0) && b in m.getters && m.getters[b].Waiting? && a != b
    requires forall t :: t in m.getters ==> !m.getters[t].Woken?
    ensures LegalRun(m, steps) && GetterLost(After(m, steps))
  {
    var s, t, u := Put(p, 1, -1, a), Put(p, 2, -1, b), GetAgain(a, p);
    steps := [s, t, u];
    var woken := Do(m, s);
    assert woken.getters == m.getters[a := Woken(false, false, 0)] && woken.getters[b].Waiting?;
    var two := Do(woken, t);
    assert two.queue == [1, 2] && two.getters == woken.getters && two.putters[p].Out?;
    var r := Do(two, u);
    assert r.getters == m.getters[a := Out] && r.queue == [2] && r.getters[b].Waiting?;
    ThreeSteps(m, s, t, u);
  }

  lemma LostGetter(m: Monitor, p: Thread, a: Thread, b: Thread)
    requires p in m.putters && a in m.getters && b in m.getters && a != b && Idle(m) && m.maxLen >= 2
    ensures !NoGetterLost(m)
  {
    var steps := BothListen(m, p, a, b);
    var more := OneWakes(After(m, steps), p, a, b);
    RunOn(m, steps, more);
    assert GetterLost(After(m, steps + more));
  }

  /** Consumers can count on being woken exactly if there is only one: the second of two puts signals nobody. */
  lemma NoGetterLostExactly(getters: set<Thread>, putters: set<Thread>, p: Thread)
    requires p in putters
    ensures NoGetterLost(Start(getters, putters, INITIAL_MAX)) <==> AtMostOne(getters)
  {
    var m := Start(getters, putters, INITIAL_MAX);
    if AtMostOne(getters) {
      forall steps | LegalRun(m, steps) ensures !GetterLost(After(m, steps)) {
        RunsKeepGetters(m, steps);
      }
    } else {
      var a, b :| a in getters && b in getters && a != b;
      LostGetter(m, p, a, b);
    }
  }

  lemma FillUp(m: Monitor, g: Thread, p: Thread) returns (steps: seq<Step>)
    requires g in m.getters && p in m.putters && Idle(m)
    ensures LegalRun(m, steps) && NeverRaises(m, steps)
    ensures After(m, steps) == m.(queue := [1, 2], len := 2, maxLen := 2, put := m.put + [1] + [2])
  {
    var s, t, u := Config(2), Put(p, 1, -1, g), Put(p, 2, -1, g);
    steps := [s, t, u];
    var one := Do(Do(m, s), t);
    assert one.putters == m.putters && one.getters == m.getters && one.queue == [1];
    assert Do(one, u).putters == m.putters && Do(one, u).queue == [1, 2];
    ThreeSteps(m, s, t, u);
  }

  lemma BothWait(m: Monitor, g: Thread, p: Thread, q: Thread) returns (steps: seq<Step>)
    requires g in m.getters && p in m.putters && q in m.putters && p != q
    requires m.len == m.maxLen && m.len > 0
    requires (forall t :: t in m.getters ==> m.getters[t].Out?) && (forall t :: t in m.putters ==> m.putters[t].Out?)
    ensures LegalRun(m, steps) && NeverRaises(m, steps)
    ensures After(m, steps) == m.(putters := m.putters[p := Waiting(false, 3)][q := Waiting(false, 4)])
  {
    var s, t := Put(p, 3, -1, g), Put(q, 4, -1, g);
    steps := [s, t];
    TwoSteps(m, s, t);
  }

  /** Of two producers that wait only the first is woken; it fills one of two places, and the other sleeps on. */
  lemma OneResumes(m: Monitor, g: Thread, p: Thread, q: Thread) returns (steps: seq<Step>)
    requires g in m.getters && (forall t :: t in m.getters ==> m.getters[t].Out?)
    requires m.queue == [1, 2] && m.len == m.maxLen == 2
    requires p in m.putters && m.putters[p] == Waiting(false, 3) && q in m.putters && m.putters[q].Waiting? && p != q
    requires forall t :: t in m.putters ==> !m.putters[t].Woken?
    ensures LegalRun(m, steps) && NeverRaises(m, steps) && PutterLost(After(m, steps))
  {
    var s, t, u := Get(g, -1, p), Get(g, -1, q), PutAgain(p, g);
    steps := [s, t, u];
    var woken := Do(m, s);
    assert woken.putters == m.putters[p := Woken(false, false, 3)] && woken.putters[q].Waiting?;
    var none := Do(woken, t);
    assert none.queue == [] && none.putters == woken.putters && none.getters[g].Out?;
    var r := Do(none, u);
    assert r.putters == m.putters[p := Out] && r.len == 1 && r.putters[q].Waiting?;
    ThreeSteps(m, s, t, u);
  }

  lemma LostPutter(m: Monitor, g: Thread, p: Thread, q: Thread)
    requires g in m.getters && p in m.putters && q in m.putters && p != q && Idle(m)
    ensures !NoPutterLost(m)
  {
    var filling := FillUp(m, g, p);
    var full := After(m, filling);
    var waiting := BothWait(full, g, p, q);
    var losing := OneResumes(After(full, waiting), g, p, q);
    RunOn(full, waiting, losing);
    RunOn(m, filling, waiting + losing);
    assert PutterLost(After(m, filling + (waiting + losing)));
  }

  /** Producers likewise: of two places that come free, only the first is signalled. */
  lemma NoPutterLostExactly(getters: set<Thread>, putters: set<Thread>, maxLen: nat, g: Thread)
    requires g in getters && maxLen >= 1
    ensures NoPutterLost(Start(getters, putters, maxLen)) <==> AtMostOne(putters)
  {
    var m := Start(getters, putters, maxLen);
    if AtMostOne(putters) {
      forall steps | LegalRun(m, steps) && NeverRaises(m, steps) ensures !PutterLost(After(m, steps)) {
        RunsKeepPutters(m, steps);
      }
    } else {
      var p, q :| p in putters && q in putters && p != q;
      LostPutter(m, g, p, q);
    }
  }

  /** With one consumer and one producer, and the limit not raised under a sleeping producer, one of them can go on. */
  lemma NeverBothAsleep(g: Thread, p: Thread, maxLen: nat, steps: seq<Step>)
    requires maxLen >= 1 && LegalRun(Start({g}, {p}, maxLen), steps) && NeverRaises(Start({g}, {p}, maxLen), steps)
    ensures var m := After(Start({g}, {p}, maxLen), steps);
            g in m.getters && p in m.putters && !(m.getters[g].Waiting? && m.putters[p].Waiting?)
  {
    var m := Start({g}, {p}, maxLen);
    RunsKeepInv(m, steps);
    RunsKeepGetters(m, steps);
    RunsKeepPutters(m, steps);
  }

  /** Raising the limit leaves a sleeping producer asleep although there is room. */
  lemma RaisingLosesThePutter(p: Thread)
    ensures exists steps :: LegalRun(Start({}, {p}, 1), steps) && !PuttersOk(After(Start({}, {p}, 1), steps))
  {
    var m0 := Start({}, {p}, 1);
    var s0, s1, s2 := Put(p, 1, -1, 0), Put(p, 2, -1, 0), Config(2);
    var m1 := Do(m0, s0);
    var m2 := Do(m1, s1);
    var m3 := Do(m2, s2);
    assert m3.putters[p].Waiting? && !PuttersOk(m3);
    RunOne(m2, s2, []);
    RunOne(m1, s1, [s2]);
    RunOne(m0, s0, [s1, s2]);
  }

  // ---------- What a wait comes to ----------

  /** Without room a call returns at once if its limit is 0, and otherwise waits, for ever if the limit is negative. */
  lemma FullPutExactly(m: Monitor, t: Thread, msg: int, timeOut: int, pick: Thread)
    requires Inv(m) && t in m.putters && m.len == m.maxLen
    ensures var status := if timeOut == 0 then Out else if timeOut > 0 then Waiting(true, msg) else Waiting(false, msg);
            PutSection(m, t, msg, timeOut, pick) == m.(putters := m.putters[t := status])
  {
  }

  lemma EmptyGetExactly(m: Monitor, t: Thread, timeOut: int, pick: Thread)
    requires Inv(m) && t in m.getters && m.queue == []
    ensures var status := if timeOut == 0 then Out else if timeOut > 0 then Waiting(true, 0) else Waiting(false, 0);
            GetSection(m, t, timeOut, pick) == m.(getters := m.getters[t := status])
  {
  }

  /** A new limit is taken exactly if the queue keeps its invariant with it; nothing else changes. */
  lemma LimitIsTakenExactly(m: Monitor, limit: nat)
    requires Inv(m)
    ensures Configure(m, limit) == if Inv(m.(maxLen := limit)) then m.(maxLen := limit) else m
  {
  }

  /** A wait may also end by itself, and a timed one when its time is over; nothing else changes then. */
  lemma WakingExactly(m: Monitor, t: Thread, expired: bool)
    ensures Legal(m, WakePutter(t, expired)) ==>
              Do(m, WakePutter(t, expired))
              == m.(putters := m.putters[t := Woken(m.putters[t].timed, expired, m.putters[t].msg)])
    ensures Legal(m, WakeGetter(t, expired)) ==>
              Do(m, WakeGetter(t, expired))
              == m.(getters := m.getters[t := Woken(m.getters[t].timed, expired, m.getters[t].msg)])
  {
  }

  /** A timed wait for a message ends: with the oldest one if there is one in time, otherwise with nothing changed. */
  lemma TimedGetExactly(m: Monitor, t: Thread, pick: Thread)
    requires Inv(m) && t in m.getters && m.getters[t].Woken? && m.getters[t].timed
    ensures var n := GetAfterWait(m, t, pick);
            && n.getters == m.getters[t := Out]
            && if m.queue != [] && !m.getters[t].expired then
                 && n.got == m.got + [m.left] && n.queue == m.queue[1..] && m.queue[0] == m.put[m.left]
                 && n.put == m.put && n.flushed == m.flushed
               else n == m.(getters := n.getters)
  {
  }

  /** A timed wait for room ends: with the message put if there is room in time, otherwise with nothing changed. */
  lemma TimedPutExactly(m: Monitor, t: Thread, pick: Thread)
    requires Inv(m) && t in m.putters && m.putters[t].Woken? && m.putters[t].timed
    ensures var n := PutAfterWait(m, t, pick);
            && n.putters == m.putters[t := Out]
            && if m.len < m.maxLen && !m.putters[t].expired then
                 && n.put == m.put + [m.putters[t].msg] && n.queue == m.queue + [m.putters[t].msg]
                 && n.got == m.got && n.flushed == m.flushed
               else n == m.(putters := n.putters)
  {
  }

  /** A wait without a limit ends only with what was waited for; else it goes on, for the same message. */
  lemma EndlessWaitExactly(m: Monitor, t: Thread, pick: Thread)
    requires Inv(m)
    ensures t in m.getters && m.getters[t].Woken? && !m.getters[t].timed ==>
              var n := GetAfterWait(m, t, pick);
              if m.queue != [] then n.getters == m.getters[t := Out] && n.got == m.got + [m.left]
              else n == m.(getters := m.getters[t := Waiting(false, 0)])
    ensures t in m.putters && m.putters[t].Woken? && !m.putters[t].timed ==>
              var (n, msg) := (PutAfterWait(m, t, pick), m.putters[t].msg);
              if m.len < m.maxLen then n.putters == m.putters[t := Out] && n.put == m.put + [msg]
              else n == m.(putters := m.putters[t := Waiting(false, msg)])
  {
  }

  /** The message each producer called put with last. */
  function Asked(asked: map<Thread, int>, s: Step): map<Thread, int> {
    if s.Put? then asked[s.t := s.msg] else asked
  }

  ghost predicate Remembered(m: Monitor, asked: map<Thread, int>, t: Thread)
    requires t in m.putters
  {
    m.putters[t].Out? || (t in asked && m.putters[t].msg == asked[t])
  }

  /** Producers that wait, or have been woken, still have the message they were called with. */
  ghost predicate Remembers(m: Monitor, asked: map<Thread, int>) {
    forall t :: t in m.putters ==> Remembered(m, asked, t)
  }

  lemma StepRemembers(m: Monitor, asked: map<Thread, int>, s: Step)
    requires Legal(m, s) && Remembers(m, asked)
    ensures Remembers(Do(m, s), Asked(asked, s))
  {
    var n := Do(m, s);
    forall t | t in n.putters ensures Remembered(n, Asked(asked, s), t) {
      assert t in m.putters && Remembered(m, asked, t);
    }
  }

  /** What this step puts: the message of the call it belongs to, if there is room and the wait has not expired. */
  ghost function PutBy(m: Monitor, asked: map<Thread, int>, s: Step): seq<int>
    requires Legal(m, s) && Remembers(m, asked)
  {
    match s
    case Put(_, msg, _, _) => if m.len < m.maxLen then [msg] else []
    case PutAgain(t, _) =>
      assert Remembered(m, asked, t);
      if m.len < m.maxLen && !(m.putters[t].timed && m.putters[t].expired) then [asked[t]] else []
    case _ => []
  }

  ghost function PutInAll(m: Monitor, asked: map<Thread, int>, steps: seq<Step>): seq<int>
    requires LegalRun(m, steps) && Remembers(m, asked)
    decreases |steps|
  {
    if steps == [] then []
    else
      StepRemembers(m, asked, steps[0]);
      PutBy(m, asked, steps[0]) + PutInAll(Do(m, steps[0]), Asked(asked, steps[0]), steps[1..])
  }

  lemma StepPuts(m: Monitor, asked: map<Thread, int>, s: Step)
    requires Legal(m, s) && Remembers(m, asked)
    ensures Do(m, s).put == m.put + PutBy(m, asked, s)
  {
    if s.PutAgain? {
      assert Remembered(m, asked, s.t);
    }
    assert m.put + [] == m.put;
  }

  /** In every run, what is put is the message of each call that finds room, at once or after waits, in that order. */
  lemma {:induction false} RunsPutWhatWasAsked(m: Monitor, asked: map<Thread, int>, steps: seq<Step>)
    requires LegalRun(m, steps) && Remembers(m, asked)
    ensures After(m, steps).put == m.put + PutInAll(m, asked, steps)
    decreases |steps|
  {
    if steps == [] {
      assert m.put + [] == m.put;
    } else {
      var s := steps[0];
      var n, next := Do(m, s), Asked(asked, s);
      StepRemembers(m, asked, s);
      StepPuts(m, asked, s);
      RunsPutWhatWasAsked(n, next, steps[1..]);
      assert m.put + PutBy(m, asked, s) + PutInAll(n, next, steps[1..])
          == m.put + (PutBy(m, asked, s) + PutInAll(n, next, steps[1..]));
    }
  }

  // ---------- The object ----------

  datatype Result = Success | TimedOut | MustWait

  /** The fields of the queue, changed only under the mutex; the history is ghost. */
  class MessageQueue {
    var queue: seq<int>
    var len: int
    var maxLen: nat
    var getters: map<Thread, Status>
    var putters: map<Thread, Status>
    ghost var put: seq<int>
    ghost var left: nat
    ghost var got: seq<nat>
    ghost var flushed: nat

    ghost function View(): Monitor
      reads this
    {
      Monitor(queue, len, maxLen, getters, putters, put, left, got, flushed)
    }

    constructor (getters: set<Thread>, putters: set<Thread>)
      ensures View() == Start(getters, putters, INITIAL_MAX)
    {
      queue, len, maxLen := [], 0, INITIAL_MAX;
      this.getters, this.putters := AllOut(getters), AllOut(putters);
      put, left, got, flushed := [], 0, [], 0;
    }

    /** fsl_player_queue_put, up to its return or its wait */
    method PutMessage(t: Thread, msg: int, timeOut: int, pick: Thread) returns (r: Result)
      modifies this
      ensures View() == PutSection(old(View()), t, msg, timeOut, pick)
      ensures r.Success? <==> old(len) < old(maxLen)
      ensures r.MustWait? ==> putters[t].Waiting?
    {
      if len < maxLen {
        queue := queue + [msg];
        put := put + [msg];
        var before := len;
        len := len + 1;
        putters := putters[t := Out];
        if before == 0 {
          getters := Signal(getters, pick);
        }
        return Success;
      } else if timeOut == 0 {
        putters := putters[t := Out];
        return TimedOut;
      } else {
        putters := putters[t := Waiting(timeOut > 0, msg)];
        return MustWait;
      }
    }

    /** fsl_player_queue_get, up to its return or its wait */
    method GetMessage(t: Thread, timeOut: int, pick: Thread) returns (r: Result, msg: int)
      modifies this
      ensures View() == GetSection(old(View()), t, timeOut, pick)
      ensures r.Success? <==> old(queue) != []
      ensures r.Success? && Inv(old(View())) ==> left == old(left) + 1 && msg == put[old(left)]
      ensures r.MustWait? ==> getters[t].Waiting?
    {
      msg := 0;
      if queue != [] {
        var before := len;
        msg := queue[0];
        queue := queue[1..];
        len := len - 1;
        got, left := got + [left], left + 1;
        getters := getters[t := Out];
        if before == maxLen {
          putters := Signal(putters, pick);
        }
        return Success, msg;
      } else if timeOut == 0 {
        getters := getters[t := Out];
        return TimedOut, msg;
      } else {
        getters := getters[t := Waiting(timeOut > 0, 0)];
        return MustWait, msg;
      }
    }

    /** fsl_player_queue_flush; the loop drops the nodes one by one */
    method FlushMessages(pick: Thread)
      modifies this
      ensures View() == FlushAll(old(View()), pick)
    {
      while queue != []
        invariant len == old(len) && maxLen == old(maxLen) && getters == old(getters) && putters == old(putters)
        invariant put == old(put) && got == old(got) && left + |queue| == old(left) + |old(queue)|
        invariant flushed + |queue| == old(flushed) + |old(queue)|
        decreases |queue|
      {
        queue := queue[1..];
        left, flushed := left + 1, flushed + 1;
      }
      len := 0;
      putters := Signal(putters, pick);
    }

    /** fsl_player_queue_config */
    method SetLimit(limit: nat)
      modifies this`maxLen
      ensures View() == Configure(old(View()), limit)
    {
      if limit != 0 {
        if limit >= len {
          maxLen := limit;
        }
      }
    }
  }
}

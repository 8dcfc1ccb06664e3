/**
  The pace of made-up timestamps (libs/me/mfw_gst_ts.c): what Send gives when no timestamp is pending, in terms of the
  manager's fields and over whole runs, and how well the frames then keep the frame rate that was set.
*/
module TimestampPace {
  import opened ReceivedFifo
  import opened TimestampManager
  import opened TimestampRuns

  // ---------- One send ----------

  /** The first timestamp after a resync is the one to start with; every other comes an average interval later. */
  function NextDue(m: Manager): int {
    if m.out.first then m.out.last else m.out.last + m.history.total / 32
  }

  /** With no timestamp pending, Send gives the one that is due, also when more is sent than was received. */
  lemma NothingPendingGivesNextDue(m: Manager, key: int)
    requires Inv(m) && m.mode == AI && HistoryOk(m.history)
    requires m.backlog.pending == [] && (m.backlog.cnt > 0 || !m.counts.validReceived)
    ensures var (s, t) := Send(m, key); t == NextDue(m) && s.out == Output(false, t)
  {
    SumNonNegative(m.history.slots);
  }

  /**
    With timestamps pending, Send makes one up exactly if some frame came without one, the entry found is at least half
    an interval late, and it was received later than as many frames as were sent; otherwise it gives that entry, but
    nothing before what it gave last.
   */
  lemma PendingIsGivenExactly(m: Manager, key: int)
    requires Inv(m) && m.mode == AI && HistoryOk(m.history) && m.backlog.pending != []
    ensures var (b, t) := (m.backlog, Send(m, key).1);
            var c := b.pending[Chosen(b.pending, key)];
            t == if b.invalid > 0 && c.ts >= NextDue(m) + m.history.total / 32 / 2 && c.age > b.age then NextDue(m)
                 else if m.out.first || c.ts > m.out.last then c.ts else m.out.last
  {
    SumNonNegative(m.history.slots);
  }

  // ---------- The interval ----------

  /** A frame rate up to 80 frames per second; anything else counts as 30. */
  predicate Usable(fpsN: int, fpsD: int) {
    fpsN > 0 && fpsD > 0 && fpsN < 81 * fpsD
  }

  lemma UsableIsTheGuard(fpsN: int, fpsD: int)
    ensures Usable(fpsN, fpsD) <==> fpsN > 0 && fpsD > 0 && fpsN / fpsD <= 80
  {
    if fpsN > 0 && fpsD > 0 {
      var q := fpsN / fpsD;
      assert fpsN == q * fpsD + fpsN % fpsD;
      if q <= 80 {
        TimesMonotone(q, 80, fpsD);
      } else {
        TimesMonotone(81, q, fpsD);
      }
    }
  }

  lemma TimesMonotone(a: int, b: int, n: nat)
    requires a <= b
    ensures a * n <= b * n
  {
  }

  /** A second of fpsN / fpsD frames is as many intervals, each rounded down to a nanosecond. */
  lemma IntervalKeepsTheRate(fpsN: int, fpsD: int)
    ensures var t := FrameInterval(fpsN, fpsD);
            if Usable(fpsN, fpsD) then t * fpsN <= SECOND * fpsD < (t + 1) * fpsN else 30 * t <= SECOND < 30 * (t + 1)
  {
    UsableIsTheGuard(fpsN, fpsD);
    if Usable(fpsN, fpsD) {
      QuotientBounds(SECOND * fpsD, fpsN);
    }
  }

  lemma QuotientBounds(a: int, n: int)
    requires n > 0
    ensures a / n * n <= a < (a / n + 1) * n
  {
  }

  // ---------- Runs without timestamps ----------

  /** A frame that comes without a timestamp, or a send. */
  predicate Bare(e: Event) {
    e.Sent? || (e.Received? && e.ts == NO_TIMESTAMP)
  }

  predicate AllBare(events: seq<Event>) {
    forall k :: 0 <= k < |events| ==> Bare(events[k])
  }

  function Sends(events: seq<Event>): nat {
    if events == [] then 0 else (if events[0].Sent? then 1 else 0) + Sends(events[1..])
  }

  /** Timestamps an interval apart. */
  ghost predicate Evenly(s: seq<int>, start: int, interval: int) {
    forall j :: 0 <= j < |s| ==> s[j] == start + j * interval
  }

  /** The same, one interval after the other. */
  function Due(start: int, interval: int, j: nat): int {
    if j == 0 then start else Due(start, interval, j - 1) + interval
  }

  lemma {:induction false} DueIs(start: int, interval: int, j: nat)
    ensures Due(start, interval, j) == start + j * interval
  {
    if j == 0 {
    } else {
      DueIs(start, interval, j - 1);
      assert j * interval == (j - 1) * interval + interval;
    }
  }

  ghost predicate Steady(h: History, interval: int) {
    && |h.slots| == HISTORY_SIZE && 0 <= h.pos < HISTORY_SIZE && h.big == 0 && h.total == interval * HISTORY_SIZE
    && forall k :: 0 <= k < HISTORY_SIZE ==> h.slots[k] == interval
  }

  /** n timestamps have been sent, an interval apart, and none was received. */
  ghost predicate Paced(l: Log, start: int, interval: int, n: nat) {
    && RunInv(l) && interval > 0 && Steady(l.m.history, interval)
    && l.m.backlog.pending == [] && !l.m.counts.validReceived
    && l.m.out == (if n == 0 then Output(true, start) else Output(false, Due(start, interval, n - 1)))
    && |l.sent| == n && forall j :: 0 <= j < n ==> l.sent[j] == Due(start, interval, j)
  }

  lemma SteadyStays(h: History, interval: int)
    requires Steady(h, interval) && interval > 0
    ensures Steady(Record(h, interval), interval) && Interval(h) == interval
  {
  }

  lemma DueNext(l: Log, start: int, interval: int, n: nat)
    requires Paced(l, start, interval, n)
    ensures NextDue(l.m) == Due(start, interval, n)
  {
  }

  lemma SendKeepsPaced(l: Log, key: int, start: int, interval: int, n: nat)
    requires Paced(l, start, interval, n)
    ensures Paced(Step(l, Sent(key)), start, interval, n + 1)
  {
    var r := Step(l, Sent(key));
    StepKeepsRunInv(l, Sent(key));
    DueNext(l, start, interval, n);
    SteadyStays(l.m.history, interval);
    NothingPendingGivesNextDue(l.m, key);
  }

  lemma ReceiveKeepsPaced(l: Log, key: int, start: int, interval: int, n: nat)
    requires Paced(l, start, interval, n)
    ensures Paced(Step(l, Received(NO_TIMESTAMP, key)), start, interval, n)
  {
    StepKeepsRunInv(l, Received(NO_TIMESTAMP, key));
  }

  lemma StepKeepsPaced(l: Log, e: Event, start: int, interval: int, n: nat)
    requires Paced(l, start, interval, n) && Bare(e)
    ensures Paced(Step(l, e), start, interval, if e.Sent? then n + 1 else n)
  {
    match e
    case Sent(key) => SendKeepsPaced(l, key, start, interval, n);
    case Received(_, key) => ReceiveKeepsPaced(l, key, start, interval, n);
  }

  lemma {:induction false} RunKeepsPaced(l: Log, events: seq<Event>, start: int, interval: int, n: nat, all: nat)
    requires Paced(l, start, interval, n) && AllBare(events) && all == n + Sends(events)
    ensures Paced(Run(l, events), start, interval, all)
    decreases |events|
  {
    if events == [] {
    } else {
      assert Bare(events[0]);
      StepKeepsPaced(l, events[0], start, interval, n);
      RunKeepsPaced(Step(l, events[0]), events[1..], start, interval, if events[0].Sent? then n + 1 else n, all);
    }
  }

  /** Nothing received and nothing sent since a resync, and all slots hold the same interval. */
  ghost predicate AtStart(l: Log, start: int, interval: int) {
    && l.m.size >= 1 && l.m.mode == AI && l.m.backlog == Backlog([], 0, 0, 0) && l.accepted == [] && l.sent == []
    && l.m.out == Output(true, start) && l.m.counts == Counts(0, 0, false)
    && interval > 0 && Steady(l.m.history, interval) && HistoryOk(l.m.history)
  }

  lemma RateIsSteady(h: History, interval: int)
    requires 0 <= h.pos < HISTORY_SIZE && h.big == 0 && interval > 0
    ensures Steady(Refilled(h, interval), interval) && HistoryOk(Refilled(h, interval))
  {
    RefilledOk(h, interval);
  }

  /** A resync and a frame rate, whatever went before. */
  lemma RateStarts(m: Manager, synctime: int, fpsN: int, fpsD: int) returns (l: Log, start: int, interval: int)
    requires m.size >= 1 && 0 <= m.history.pos < HISTORY_SIZE
    ensures l == Log(SetFrameRate(Resync(m, synctime, AI), fpsN, fpsD), [], [])
    ensures start == (if synctime != NO_TIMESTAMP then synctime else m.out.last)
    ensures interval == FrameInterval(fpsN, fpsD) && AtStart(l, start, interval)
  {
    FrameIntervalPositive(fpsN, fpsD);
    interval := FrameInterval(fpsN, fpsD);
    l := Log(SetFrameRate(Resync(m, synctime, AI), fpsN, fpsD), [], []);
    start := l.m.out.last;
    RateIsSteady(Resync(m, synctime, AI).history, interval);
  }

  lemma StartIsPaced(l: Log, start: int, interval: int, none: nat)
    requires AtStart(l, start, interval) && none == 0
    ensures Paced(l, start, interval, none)
  {
  }

  /** Over this run the timestamps sent are as many as there are sends, an interval apart. */
  ghost predicate SendsEvenly(l: Log, events: seq<Event>, start: int, interval: int) {
    RunInv(l) && |Run(l, events).sent| == Sends(events) && Evenly(Run(l, events).sent, start, interval)
  }

  lemma PacedSendsEvenly(l: Log, events: seq<Event>, start: int, interval: int, none: nat)
    requires Paced(l, start, interval, none) && none == 0 && AllBare(events)
    ensures SendsEvenly(l, events, start, interval)
  {
    RunKeepsPaced(l, events, start, interval, none, Sends(events));
    var r := Run(l, events);
    forall j | 0 <= j < |r.sent| ensures r.sent[j] == start + j * interval {
      DueIs(start, interval, j);
    }
  }

  lemma StartSendsEvenly(l: Log, events: seq<Event>, start: int, interval: int, none: nat)
    requires AtStart(l, start, interval) && none == 0 && AllBare(events)
    ensures SendsEvenly(l, events, start, interval)
  {
    StartIsPaced(l, start, interval, none);
    PacedSendsEvenly(l, events, start, interval, none);
  }

  /**
    From a resync to a time and a frame rate on, as long as frames come without timestamps, the j-th timestamp sent,
    counted from 0, is that time plus j intervals: whatever receives and sends come in between, also when the ring is
    full, and also when more is sent than was received.
   */
  lemma EvenlySpaced(m: Manager, synctime: int, fpsN: int, fpsD: int, events: seq<Event>)
    requires m.size >= 1 && 0 <= m.history.pos < HISTORY_SIZE && AllBare(events)
    ensures SendsEvenly(Log(SetFrameRate(Resync(m, synctime, AI), fpsN, fpsD), [], []), events,
                        if synctime != NO_TIMESTAMP then synctime else m.out.last, FrameInterval(fpsN, fpsD))
  {
    var l, start, interval := RateStarts(m, synctime, fpsN, fpsD);
    StartSendsEvenly(l, events, start, interval, 0);
  }

  /** Such frames keep the rate that was set: the j-th is less than j nanoseconds early, and never late. */
  lemma FramesKeepTheRate(l: Log, events: seq<Event>, start: int, fpsN: int, fpsD: int, j: nat)
    requires SendsEvenly(l, events, start, FrameInterval(fpsN, fpsD)) && Usable(fpsN, fpsD) && 0 < j < Sends(events)
    ensures var t := Run(l, events).sent[j];
            (t - start) * fpsN <= j * (SECOND * fpsD) < (t - start + j) * fpsN
  {
    IntervalKeepsTheRate(fpsN, fpsD);
    TimesRate(j, FrameInterval(fpsN, fpsD), fpsN, SECOND * fpsD);
  }

  lemma TimesRate(j: nat, t: int, n: int, s: int)
    requires t * n <= s < (t + 1) * n && j > 0
    ensures j * t * n <= j * s < (j * t + j) * n
  {
    assert j * t * n == t * n * j && (j * t + j) * n == (t + 1) * n * j;
    TimesMonotone(t * n, s, j);
    TimesMonotone(s + 1, (t + 1) * n, j);
    assert s * j == j * s && (s + 1) * j == j * s + j;
  }

  // ---------- What is counted ----------

  function Receives(events: seq<Event>): seq<int> {
    if events == [] then [] else (if events[0].Received? then [events[0].ts] else []) + Receives(events[1..])
  }

  /** Some frame but the first came with a timestamp. */
  predicate LaterValid(received: seq<int>) {
    exists k :: 1 <= k < |received| && received[k] != NO_TIMESTAMP
  }

  ghost predicate CountsOf(c: Counts, received: seq<int>, sends: nat) {
    c.rx == |received| && c.tx == sends && (c.validReceived <==> LaterValid(received))
  }

  lemma ReceiveCounts(c: Counts, received: seq<int>, sends: nat, ts: int)
    requires CountsOf(c, received, sends)
    ensures CountsOf(Counted(c, ts), received + [ts], sends)
  {
    var more := received + [ts];
    if LaterValid(received) {
      var k :| 1 <= k < |received| && received[k] != NO_TIMESTAMP;
      assert more[k] != NO_TIMESTAMP;
    } else if ts != NO_TIMESTAMP && received != [] {
      assert more[|received|] != NO_TIMESTAMP;
    }
  }

  lemma {:induction false} RunCounts(l: Log, events: seq<Event>, received: seq<int>, sends: nat)
    requires RunInv(l) && CountsOf(l.m.counts, received, sends)
    ensures CountsOf(Run(l, events).m.counts, received + Receives(events), sends + Sends(events))
    decreases |events|
  {
    if events == [] {
      assert received + [] == received;
    } else {
      var e := events[0];
      StepKeepsRunInv(l, e);
      if e.Received? {
        ReceiveCounts(l.m.counts, received, sends, e.ts);
        RunCounts(Step(l, e), events[1..], received + [e.ts], sends);
        assert [e.ts] + Receives(events[1..]) == Receives(events);
        assert received + [e.ts] + Receives(events[1..]) == received + ([e.ts] + Receives(events[1..]));
      } else {
        assert [] + Receives(events[1..]) == Receives(events[1..]);
        RunCounts(Step(l, e), events[1..], received, if e.Sent? then sends + 1 else sends);
      }
    }
  }

  /** Since a resync all frames and sends are counted, refused frames too, and any timestamp after the first frame. */
  lemma RunsCount(m: Manager, synctime: int, events: seq<Event>) returns (l: Log)
    requires m.size >= 1 && HistoryOk(m.history)
    ensures l == Log(Resync(m, synctime, AI), [], []) && RunInv(l)
    ensures CountsOf(Run(l, events).m.counts, Receives(events), Sends(events))
  {
    l := Log(Resync(m, synctime, AI), [], []);
    ResyncStartsARun(m, synctime);
    RunCounts(l, events, [], 0);
    assert [] + Receives(events) == Receives(events);
  }

  // ---------- What the filter has seen ----------

  function StampsOf(accepted: seq<(int, int)>): seq<int> {
    seq(|accepted|, i requires 0 <= i < |accepted| => accepted[i].0)
  }

  lemma {:induction false} FilteredPrefix(d: Filter, ts: seq<int>, more: seq<int>, i: nat)
    requires i <= |ts|
    ensures Filtered(d, ts + more, i) == Filtered(d, ts, i)
  {
    if i == 0 {
    } else {
      FilteredPrefix(d, ts, more, i - 1);
      assert (ts + more)[i - 1] == ts[i - 1];
    }
  }

  /** The manager's filter is what the timestamps of the accepted frames have made of it. */
  ghost predicate FilterFollows(l: Log, d: Filter) {
    l.m.filter == Filtered(d, StampsOf(l.accepted), |l.accepted|)
  }

  lemma StepFilters(l: Log, d: Filter, e: Event)
    requires RunInv(l) && FilterFollows(l, d)
    ensures FilterFollows(Step(l, e), d)
  {
    if e.Received? && HasRoom(l.m) {
      var ts := StampsOf(l.accepted);
      var n := |l.accepted|;
      assert StampsOf(Step(l, e).accepted) == ts + [e.ts];
      FilteredPrefix(d, ts, [e.ts], n);
      assert (ts + [e.ts])[n] == e.ts;
    }
  }

  /** Over every run the filter is given the timestamp of each accepted frame, in order, and nothing else. */
  lemma {:induction false} RunsFilterWhatIsAccepted(l: Log, d: Filter, events: seq<Event>)
    requires RunInv(l) && FilterFollows(l, d)
    ensures FilterFollows(Run(l, events), d)
    decreases |events|
  {
    if events == [] {
    } else {
      StepFilters(l, d, events[0]);
      StepKeepsRunInv(l, events[0]);
      RunsFilterWhatIsAccepted(Step(l, events[0]), d, events[1..]);
    }
  }

  lemma ResyncFollows(m: Manager, synctime: int)
    ensures FilterFollows(Log(Resync(m, synctime, AI), [], []), m.filter.(first := true, suspicious := 0))
  {
  }

  /** A receive files exactly what there is room for and the filter lets through then. */
  lemma FiledExactly(l: Log, d: Filter, ts: int, key: int)
    requires RunInv(l) && FilterFollows(l, d)
    ensures NewlyFiled(l.m.backlog, Receive(l.m, ts, key).backlog)
         == if HasRoom(l.m) && Screen(Filtered(d, StampsOf(l.accepted), |l.accepted|), ts).1 != NO_TIMESTAMP
            then [Control(ts, |l.accepted| + 2, key)] else []
  {
    ReceiveFiles(l.m, ts, key);
  }

  // ---------- What the average has seen ----------

  /** What a step adds to the average: a rate, or the gap between a timestamp sent for a frame and the one before. */
  ghost function BeatsOf(l: Log, e: Event): seq<Beat>
    requires RunInv(l)
  {
    match e
    case Received(_, _) => []
    case Sent(key) =>
      if l.m.backlog.cnt > 0 && l.sent != [] then
        SendNeverGoesBack(l.m, key);
        [Gap(Send(l.m, key).1 - l.sent[|l.sent| - 1])]
      else []
    case Rated(n, d) => [Rate(n, d)]
  }

  ghost function AllBeats(l: Log, events: seq<Event>): seq<Beat>
    requires RunInv(l)
    decreases |events|
  {
    if events == [] then []
    else
      StepKeepsRunInv(l, events[0]);
      BeatsOf(l, events[0]) + AllBeats(Step(l, events[0]), events[1..])
  }

  lemma StepRecords(l: Log, e: Event)
    requires RunInv(l)
    ensures Step(l, e).m.history == After(l.m.history, BeatsOf(l, e), |BeatsOf(l, e)|)
  {
    if e.Sent? {
      SendNeverGoesBack(l.m, e.key);
    }
  }

  lemma {:induction false} AfterBoth(h: History, first: seq<Beat>, later: seq<Beat>, i: nat)
    requires |h.slots| == HISTORY_SIZE && 0 <= h.pos < HISTORY_SIZE && i <= |later|
    ensures After(h, first + later, |first| + i) == After(After(h, first, |first|), later, i)
  {
    if i == 0 {
      AfterPrefix(h, first, later, |first|);
    } else {
      AfterBoth(h, first, later, i - 1);
      assert (first + later)[|first| + i - 1] == later[i - 1];
    }
  }

  lemma {:induction false} AfterPrefix(h: History, first: seq<Beat>, later: seq<Beat>, i: nat)
    requires |h.slots| == HISTORY_SIZE && 0 <= h.pos < HISTORY_SIZE && i <= |first|
    ensures After(h, first + later, i) == After(h, first, i)
  {
    if i == 0 {
    } else {
      AfterPrefix(h, first, later, i - 1);
      assert (first + later)[i - 1] == first[i - 1];
    }
  }

  /**
    Over every run since a resync the average has been given each gap between one timestamp sent for a frame and the
    timestamp sent before it, and each rate that was set, in order.
   */
  lemma {:induction false} RunsRecordGaps(l: Log, events: seq<Event>)
    requires RunInv(l)
    ensures Run(l, events).m.history == After(l.m.history, AllBeats(l, events), |AllBeats(l, events)|)
    decreases |events|
  {
    if events == [] {
    } else {
      var n := Step(l, events[0]);
      StepKeepsRunInv(l, events[0]);
      StepRecords(l, events[0]);
      RunsRecordGaps(n, events[1..]);
      var first, later := BeatsOf(l, events[0]), AllBeats(n, events[1..]);
      AfterBoth(l.m.history, first, later, |later|);
    }
  }

  // ---------- From one mode to the other ----------

  /** In FIFO mode too the last timestamp sent is remembered: without a sync time, AI mode starts from it. */
  lemma FifoModeHandsOver(m: Manager, key: int)
    requires Inv(m) && m.mode == FIFO && m.backlog.cnt > 0
    ensures var (s, t) := Send(m, key);
            t == m.backlog.pending[0].ts && NextDue(Resync(s, NO_TIMESTAMP, AI)) == t
  {
  }
}

/**
  What the timestamp manager's operations mean, one call at a time and over whole runs.
*/
module TimestampRuns {
  import opened ReceivedFifo
  import opened TimestampManager

  // ---------- Send takes a minimum out of a keyed multiset ----------

  /** Entry i may be sent under this key: no earlier pending entry is filed under it. */
  ghost predicate Eligible(p: seq<Control>, key: int, i: nat)
    requires i < |p|
  {
    key == NO_KEY || forall k :: 0 <= k < i ==> p[k].key != key
  }

  lemma {:induction false} WindowIsEligible(p: seq<Control>, key: int, from: nat, i: nat)
    requires from <= i < |p|
    requires key == NO_KEY || forall k :: 0 <= k < from ==> p[k].key != key
    ensures i < Window(p, key, from) <==> Eligible(p, key, i)
    decreases |p| - from
  {
    if key != NO_KEY && p[from].key == key {
    } else if from < i {
      WindowIsEligible(p, key, from + 1, i);
    } else {
      assert from < Window(p, key, from);
    }
  }

  lemma {:induction false} SmallestIsFirstMinimum(p: seq<Control>, n: nat)
    requires 0 < n <= |p|
    ensures forall k :: 0 <= k < n ==> p[Smallest(p, n)].ts <= p[k].ts
    ensures forall k :: 0 <= k < Smallest(p, n) ==> p[Smallest(p, n)].ts < p[k].ts
  {
    if n == 1 {
    } else {
      SmallestIsFirstMinimum(p, n - 1);
    }
  }

  /** The entry chosen is the first of the smallest eligible ones. */
  lemma ChosenIsMinimum(p: seq<Control>, key: int)
    requires p != []
    ensures Eligible(p, key, Chosen(p, key))
    ensures forall k :: 0 <= k < |p| && Eligible(p, key, k) ==> p[Chosen(p, key)].ts <= p[k].ts
    ensures forall k :: 0 <= k < Chosen(p, key) ==> p[Chosen(p, key)].ts < p[k].ts
  {
    SmallestIsFirstMinimum(p, Window(p, key, 0));
    forall k | 0 <= k < |p|
      ensures k < Window(p, key, 0) <==> Eligible(p, key, k)
    {
      WindowIsEligible(p, key, 0, k);
    }
  }

  lemma MultisetSplit(p: seq<Control>, i: nat)
    requires i < |p|
    ensures multiset(p) == multiset(p[..i]) + multiset{p[i]} + multiset(p[i + 1..])
  {
    assert p == p[..i] + [p[i]] + p[i + 1..];
  }

  lemma SwapRemoveTakesOne(p: seq<Control>, i: nat)
    requires i < |p|
    ensures multiset(SwapRemove(p, i)) == multiset(p) - multiset{p[i]}
  {
    var q := p[i := p[0]];
    MultisetSplit(p, i);
    MultisetSplit(q, 0);
    if i > 0 {
      MultisetSplit(q, i);
      assert q[..i] == p[..i] && q[i + 1..] == p[i + 1..];
    }
  }

  /** An AI-mode Send that does not interpolate takes out one entry, the chosen minimum; the rest stays as filed. */
  lemma SendTakesMinimum(m: Manager, key: int)
    requires Inv(m) && m.mode == AI && m.backlog.cnt > 0
    requires !Interpolates(m.backlog, key, Expected(m.out, m.history), Interval(m.history) / 2)
    ensures var p := m.backlog.pending;
            var (s, t) := Send(m, key);
            && p != [] && s.backlog.invalid == m.backlog.invalid
            && multiset(s.backlog.pending) == multiset(p) - multiset{p[Chosen(p, key)]}
            && t == Clamp(m.out, p[Chosen(p, key)].ts)
            && Eligible(p, key, Chosen(p, key))
            && forall k :: 0 <= k < |p| && Eligible(p, key, k) ==> p[Chosen(p, key)].ts <= p[k].ts
  {
    var p := m.backlog.pending;
    ChosenIsMinimum(p, key);
    SwapRemoveTakesOne(p, Chosen(p, key));
  }

  /** An AI-mode Send that interpolates leaves the ring alone and uses up one frame without a timestamp. */
  lemma SendInterpolates(m: Manager, key: int)
    requires Inv(m) && m.mode == AI && m.backlog.cnt > 0
    requires Interpolates(m.backlog, key, Expected(m.out, m.history), Interval(m.history) / 2)
    ensures var (s, t) := Send(m, key);
            && m.backlog.invalid > 0
            && s.backlog.pending == m.backlog.pending && s.backlog.invalid == m.backlog.invalid - 1
            && t == Clamp(m.out, Expected(m.out, m.history))
  {
  }

  // ---------- Query foretells Send ----------

  /** Query gives what Send would give after one more frame without a timestamp, if there is room for that frame. */
  lemma QueryForetellsSend(m: Manager, key: int, filed: int)
    requires Inv(m) && m.mode == AI && HasRoom(m)
    ensures var r := Receive(m, NO_TIMESTAMP, filed);
            Inv(r) && Send(r, key).1 == Query(m, key)
  {
    ReceiveKeepsInv(m, NO_TIMESTAMP, filed);
  }

  // ---------- The running average ----------

  function Sum(s: seq<int>): int {
    if s == [] then 0 else Sum(s[..|s| - 1]) + s[|s| - 1]
  }

  lemma {:induction false} SumUpdate(s: seq<int>, i: nat, x: int)
    requires i < |s|
    ensures Sum(s[i := x]) == Sum(s) - s[i] + x
  {
    var t := s[i := x];
    if i == |s| - 1 {
      assert t[..|t| - 1] == s[..|s| - 1];
    } else {
      assert t[..|t| - 1] == s[..|s| - 1][i := x];
      SumUpdate(s[..|s| - 1], i, x);
    }
  }

  lemma {:induction false} SumConstant(n: nat, x: int)
    ensures Sum(seq(n, _ => x)) == n * x
  {
    if n == 0 {
    } else {
      var s := seq(n, _ => x);
      assert s[..n - 1] == seq(n - 1, _ => x);
      SumConstant(n - 1, x);
    }
  }

  lemma {:induction false} SumNonNegative(s: seq<int>)
    requires forall i :: 0 <= i < |s| ==> s[i] >= 0
    ensures Sum(s) >= 0
  {
    if s == [] {
    } else {
      SumNonNegative(s[..|s| - 1]);
    }
  }

  /** The total is the sum of the slots, none of which is negative, and at most four large gaps are being ignored. */
  ghost predicate HistoryOk(h: History) {
    && |h.slots| == HISTORY_SIZE && 0 <= h.pos < HISTORY_SIZE
    && h.total == Sum(h.slots)
    && (forall i :: 0 <= i < HISTORY_SIZE ==> h.slots[i] >= 0)
    && 0 <= h.big <= 4
  }

  lemma HistoryKept(h: History, gap: nat)
    requires HistoryOk(h)
    ensures HistoryOk(Record(h, gap)) && Interval(h) >= 0
  {
    SumUpdate(h.slots, h.pos, gap);
    SumNonNegative(h.slots);
  }

  /**
    Without room the further frame is refused.  Query and Send still agree exactly if some frame without a timestamp is
    waiting anyway, or the entry found would not give way to the expected timestamp, or is the expected one; and with
    nothing waiting at all, exactly if no valid timestamp has come yet or the expected one is no timestamp itself.
   */
  lemma QueryWithoutRoomExactly(m: Manager, key: int, filed: int)
    requires Inv(m) && m.mode == AI && !HasRoom(m) && HistoryOk(m.history)
    ensures var b, expected := m.backlog, Expected(m.out, m.history);
            Send(Receive(m, NO_TIMESTAMP, filed), key).1 == Query(m, key) <==>
              if b.cnt == 0 then !m.counts.validReceived || expected == NO_TIMESTAMP
              else if b.invalid != 0 then true
              else var c := b.pending[Chosen(b.pending, key)];
                   c.ts < expected + Interval(m.history) / 2 || c.age <= b.age || c.ts == expected
  {
    SumNonNegative(m.history.slots);
  }

  lemma RefilledOk(h: History, interval: int)
    requires 0 <= h.pos < HISTORY_SIZE && 0 <= h.big <= 4 && interval > 0
    ensures HistoryOk(Refilled(h, interval)) && Interval(Refilled(h, interval)) == interval
  {
    SumConstant(HISTORY_SIZE, interval);
  }

  lemma FrameIntervalPositive(fpsN: int, fpsD: int)
    ensures FrameInterval(fpsN, fpsD) > 0
  {
    if fpsN > 0 && fpsD > 0 && fpsN / fpsD <= 80 {
      assert fpsN < 81 * fpsD;
      assert fpsN <= SECOND * fpsD;
    }
  }

  lemma FrameRateGivesHistory(m: Manager, fpsN: int, fpsD: int)
    requires 0 <= m.history.pos < HISTORY_SIZE && 0 <= m.history.big <= 4
    ensures HistoryOk(SetFrameRate(m, fpsN, fpsD).history)
    ensures Interval(SetFrameRate(m, fpsN, fpsD).history) == FrameInterval(fpsN, fpsD) > 0
  {
    FrameIntervalPositive(fpsN, fpsD);
    RefilledOk(m.history, FrameInterval(fpsN, fpsD));
  }

  /** What happens to the average: a gap is recorded, or the frame rate is set. */
  datatype Beat = Gap(size: nat) | Rate(fpsN: int, fpsD: int)

  /** The history after the first i of them. */
  function After(h: History, beats: seq<Beat>, i: nat): (r: History)
    requires i <= |beats| && |h.slots| == HISTORY_SIZE && 0 <= h.pos < HISTORY_SIZE
    ensures |r.slots| == HISTORY_SIZE && 0 <= r.pos < HISTORY_SIZE
  {
    if i == 0 then h
    else
      match beats[i - 1]
      case Gap(size) => Record(After(h, beats, i - 1), size)
      case Rate(n, d) => Refilled(After(h, beats, i - 1), FrameInterval(n, d))
  }

  /** A gap of two intervals or more that leaves the average as it is. */
  ghost predicate Ignored(h: History, beats: seq<Beat>, i: nat)
    requires i < |beats| && |h.slots| == HISTORY_SIZE && 0 <= h.pos < HISTORY_SIZE
  {
    var a, b := After(h, beats, i), After(h, beats, i + 1);
    && beats[i].Gap? && beats[i].size >= Interval(a) * 2
    && b.slots == a.slots && b.total == a.total && b.pos == a.pos
  }

  /** A gap that goes into the average. */
  ghost predicate Enters(h: History, beats: seq<Beat>, i: nat)
    requires i < |beats| && |h.slots| == HISTORY_SIZE && 0 <= h.pos < HISTORY_SIZE
  {
    var a, b := After(h, beats, i), After(h, beats, i + 1);
    beats[i].Gap? && b.slots == a.slots[a.pos := beats[i].size] && b.pos == (a.pos + 1) % HISTORY_SIZE
  }

  /** How many gaps were ignored since one last went into the average. */
  ghost function IgnoredSince(h: History, beats: seq<Beat>, i: nat): nat
    requires i <= |beats| && |h.slots| == HISTORY_SIZE && 0 <= h.pos < HISTORY_SIZE
  {
    if i == 0 then 0
    else if Enters(h, beats, i - 1) then 0
    else IgnoredSince(h, beats, i - 1) + if Ignored(h, beats, i - 1) then 1 else 0
  }

  /** Every gap either enters or is ignored, never both. */
  lemma EntersOrIsIgnored(h: History, beats: seq<Beat>, i: nat)
    requires i < |beats| && |h.slots| == HISTORY_SIZE && 0 <= h.pos < HISTORY_SIZE && HistoryOk(After(h, beats, i))
    ensures beats[i].Gap? ==> (Enters(h, beats, i) <==> !Ignored(h, beats, i))
    ensures beats[i].Rate? ==> !Enters(h, beats, i) && !Ignored(h, beats, i)
  {
  }

  /** `big` counts the gaps ignored since the last one that entered the average, whatever the frame rate did. */
  lemma {:induction false} BigCountsIgnored(h: History, beats: seq<Beat>, i: nat)
    requires HistoryOk(h) && h.big == 0 && i <= |beats|
    ensures HistoryOk(After(h, beats, i)) && After(h, beats, i).big == IgnoredSince(h, beats, i)
  {
    if i == 0 {
    } else {
      BigCountsIgnored(h, beats, i - 1);
      EntersOrIsIgnored(h, beats, i - 1);
      match beats[i - 1]
      case Gap(size) => HistoryKept(After(h, beats, i - 1), size);
      case Rate(n, d) =>
        FrameIntervalPositive(n, d);
        RefilledOk(After(h, beats, i - 1), FrameInterval(n, d));
    }
  }

  /** A gap of two intervals or more enters the average exactly when four were ignored since the last that entered. */
  lemma LargeGapEntersAfterFour(h: History, beats: seq<Beat>, i: nat)
    requires HistoryOk(h) && h.big == 0 && i < |beats| && beats[i].Gap?
    requires beats[i].size >= Interval(After(h, beats, i)) * 2
    ensures Enters(h, beats, i) <==> IgnoredSince(h, beats, i) == 4
    ensures IgnoredSince(h, beats, i) <= 4
  {
    BigCountsIgnored(h, beats, i);
    EntersOrIsIgnored(h, beats, i);
  }

  // ---------- The discontinuity filter ----------

  function Filtered(d: Filter, ts: seq<int>, i: nat): Filter
    requires i <= |ts|
  {
    if i == 0 then d else Screen(Filtered(d, ts, i - 1), ts[i - 1]).0
  }

  ghost predicate Withheld(d: Filter, ts: seq<int>, i: nat)
    requires i < |ts|
  {
    Screen(Filtered(d, ts, i), ts[i]).1 == NO_TIMESTAMP
  }

  /** The filter has seen its first timestamp and nothing is withheld. */
  ghost predicate Started(d: Filter) {
    !d.first && d.suspicious == 0 && d.threshold >= 0
  }

  /** After a resync the first valid timestamp is let through and starts the filter; missing ones never change it. */
  lemma FirstStartsFilter(m: Manager, synctime: int, mode: Mode, ts: int)
    requires m.filter.threshold >= 0
    ensures var d := Resync(m, synctime, mode).filter;
            && Screen(d, NO_TIMESTAMP) == (d, NO_TIMESTAMP)
            && (ts != NO_TIMESTAMP ==>
                  var (f, t) := Screen(d, ts);
                  t == ts && Started(f) && f.last == ts && f.threshold == m.filter.threshold)
    ensures Screen(m.filter, NO_TIMESTAMP) == (m.filter, NO_TIMESTAMP)
  {
  }

  ghost predicate AllValid(ts: seq<int>) {
    forall k :: 0 <= k < |ts| ==> ts[k] != NO_TIMESTAMP
  }

  /**
    `last` is the timestamp let through last, and `suspicious` the one withheld just before, if it was; a withheld 0
    reads as none.
   */
  lemma {:induction false} FilterState(d: Filter, ts: seq<int>, i: nat)
    requires Started(d) && AllValid(ts) && i <= |ts|
    ensures var f := Filtered(d, ts, i);
            && !f.first && f.threshold == d.threshold
            && f.suspicious == (if i > 0 && Withheld(d, ts, i - 1) then ts[i - 1] else 0)
            && (i > 0 && Withheld(d, ts, i - 1) ==> ts[i - 1] > f.last + d.threshold)
            && (i > 0 ==> f.last == if Withheld(d, ts, i - 1) then Filtered(d, ts, i - 1).last else ts[i - 1])
  {
    if i == 0 {
    } else {
      FilterState(d, ts, i - 1);
    }
  }

  /**
    A timestamp is let through exactly when it is at most the threshold ahead of the one let through last, or at
    least the one withheld just before it, provided that was not 0.
   */
  lemma LetThroughExactly(d: Filter, ts: seq<int>, i: nat)
    requires Started(d) && AllValid(ts) && i < |ts|
    ensures !Withheld(d, ts, i) <==>
              || ts[i] - Filtered(d, ts, i).last <= d.threshold
              || (i > 0 && Withheld(d, ts, i - 1) && ts[i - 1] != 0 && ts[i] >= ts[i - 1])
  {
    FilterState(d, ts, i);
  }

  /** Timestamps withheld in a row, none but the last of them 0, fall strictly towards the threshold, and so end. */
  lemma {:induction false} WithheldRunIsFinite(d: Filter, ts: seq<int>, i: nat, j: nat)
    requires Started(d) && AllValid(ts) && i <= j < |ts|
    requires forall k :: i <= k <= j ==> Withheld(d, ts, k)
    requires forall k :: i <= k < j ==> ts[k] != 0
    ensures Filtered(d, ts, j).last == Filtered(d, ts, i).last
    ensures ts[j] <= ts[i] - (j - i)
    ensures j - i < ts[i] - Filtered(d, ts, i).last - d.threshold
  {
    FilterState(d, ts, j);
    FilterState(d, ts, j + 1);
    if i == j {
    } else {
      WithheldRunIsFinite(d, ts, i, j - 1);
      FilterState(d, ts, j - 1);
      LetThroughExactly(d, ts, j);
    }
  }

  /** What a filter that may be withholding something looks like. */
  ghost predicate Filtering(d: Filter) {
    !d.first && d.threshold >= 0
  }

  /** A withheld timestamp bounds the ones withheld next exactly if it is not 0. */
  lemma RememberedExactly(d: Filter, ts: int)
    requires Filtering(d) && ts != NO_TIMESTAMP && Screen(d, ts).1 == NO_TIMESTAMP
    ensures (forall next: int ::
               next != NO_TIMESTAMP && Screen(Screen(d, ts).0, next).1 == NO_TIMESTAMP ==> next < ts)
            <==> ts != 0
  {
    if ts == 0 {
      assert Screen(Screen(d, ts).0, 0).1 == NO_TIMESTAMP;
    }
  }

  /** With nothing withheld before, 0 is withheld, and then again and again, exactly if `last` lies so far below it. */
  lemma ZeroIsWithheldExactly(d: Filter)
    requires Started(d)
    ensures Screen(d, 0).1 == NO_TIMESTAMP <==> d.last + d.threshold < 0
    ensures Screen(d, 0).1 == NO_TIMESTAMP ==> Screen(d, 0).0 == d
  {
  }

  // ---------- Runs ----------

  datatype Event = Received(ts: int, key: int) | Sent(key: int) | Rated(fpsN: int, fpsD: int)

  /** A run since the last resync: the frames accepted, as (timestamp, key), and the timestamps sent. */
  datatype Log = Log(m: Manager, accepted: seq<(int, int)>, sent: seq<int>)

  function Step(l: Log, e: Event): Log
    requires Inv(l.m)
  {
    match e
    case Received(ts, key) =>
      Log(Receive(l.m, ts, key), if HasRoom(l.m) then l.accepted + [(ts, key)] else l.accepted, l.sent)
    case Sent(key) =>
      var (s, t) := Send(l.m, key);
      // With nothing left to send, Send may give no timestamp at all.
      var gives := l.m.backlog.cnt > 0 || !l.m.counts.validReceived;
      Log(s, l.accepted, if gives then l.sent + [t] else l.sent)
    case Rated(n, d) => l.(m := SetFrameRate(l.m, n, d))
  }

  /** A pending entry's age is one more than the place its frame has among the accepted ones. */
  ghost predicate Placed(c: Control, accepted: seq<(int, int)>) {
    2 <= c.age <= |accepted| + 1 && accepted[c.age - 2] == (c.ts, c.key)
  }

  ghost predicate Ordinals(b: Backlog, accepted: seq<(int, int)>) {
    && b.age + b.cnt == |accepted|
    && b.age >= 0
    && (forall i :: 0 <= i < |b.pending| ==> Placed(b.pending[i], accepted))
    && (forall i, j :: 0 <= i < j < |b.pending| ==> b.pending[i].age != b.pending[j].age)
  }

  ghost predicate NonDecreasing(s: seq<int>) {
    forall i, j :: 0 <= i < j < |s| ==> s[i] <= s[j]
  }

  ghost predicate RunInv(l: Log) {
    && Inv(l.m) && l.m.mode == AI && HistoryOk(l.m.history)
    && Ordinals(l.m.backlog, l.accepted)
    && NonDecreasing(l.sent)
    && (if l.sent == [] then l.m.out.first else !l.m.out.first && l.m.out.last == l.sent[|l.sent| - 1])
  }

  lemma ReceiveKeepsOrdinals(m: Manager, accepted: seq<(int, int)>, ts: int, key: int)
    requires Inv(m) && m.mode == AI && HasRoom(m) && Ordinals(m.backlog, accepted)
    ensures Ordinals(Receive(m, ts, key).backlog, accepted + [(ts, key)])
  {
    var b := Receive(m, ts, key).backlog;
    forall i | 0 <= i < |b.pending|
      ensures Placed(b.pending[i], accepted + [(ts, key)])
    {
      assert i < |m.backlog.pending| ==> Placed(m.backlog.pending[i], accepted);
    }
    forall i, j | 0 <= i < j < |b.pending|
      ensures b.pending[i].age != b.pending[j].age
    {
      assert Placed(m.backlog.pending[i], accepted);
    }
  }

  lemma AdvanceKeepsOrdinals(b: Backlog, accepted: seq<(int, int)>, key: int, expected: int, slack: int)
    requires Ordinals(b, accepted)
    ensures Ordinals(Advance(b, key, expected, slack), accepted)
  {
  }

  /** Nothing sent lies before what was sent last. */
  lemma SendNeverGoesBack(m: Manager, key: int)
    requires Inv(m) && m.mode == AI && HistoryOk(m.history)
    ensures var (s, t) := Send(m, key);
            && HistoryOk(s.history)
            && if m.backlog.cnt > 0 || !m.counts.validReceived then
                 s.out == Output(false, t) && (!m.out.first ==> m.out.last <= t)
               else s.out == m.out && t == NO_TIMESTAMP
  {
    SumNonNegative(m.history.slots);
    var t := Send(m, key).1;
    if m.backlog.cnt > 0 && !m.out.first {
      HistoryKept(m.history, t - m.out.last);
    }
  }

  lemma StepKeepsRunInv(l: Log, e: Event)
    requires RunInv(l)
    ensures RunInv(Step(l, e))
  {
    match e
    case Received(ts, key) =>
      ReceiveKeepsInv(l.m, ts, key);
      if HasRoom(l.m) {
        ReceiveKeepsOrdinals(l.m, l.accepted, ts, key);
      }
    case Sent(key) =>
      SendKeepsInv(l.m, key);
      SendNeverGoesBack(l.m, key);
      if l.m.backlog.cnt > 0 {
        AdvanceKeepsOrdinals(l.m.backlog, l.accepted, key, Expected(l.m.out, l.m.history), Interval(l.m.history) / 2);
      }
    case Rated(n, d) =>
      FrameRateGivesHistory(l.m, n, d);
  }

  function Run(l: Log, events: seq<Event>): Log
    requires RunInv(l)
    decreases |events|
  {
    if events == [] then l
    else
      StepKeepsRunInv(l, events[0]);
      Run(Step(l, events[0]), events[1..])
  }

  lemma ResyncStartsARun(m: Manager, synctime: int)
    requires m.size >= 1 && HistoryOk(m.history)
    ensures RunInv(Log(Resync(m, synctime, AI), [], []))
  {
    ResyncGivesInv(m, synctime, AI);
  }

  /** Every run since a resync keeps its books: counts, ordinals, the average, and an output that never goes back. */
  lemma {:induction false} RunsKeepTheirBooks(l: Log, events: seq<Event>)
    requires RunInv(l)
    ensures RunInv(Run(l, events))
    decreases |events|
  {
    if events == [] {
    } else {
      StepKeepsRunInv(l, events[0]);
      RunsKeepTheirBooks(Step(l, events[0]), events[1..]);
    }
  }

  lemma RunFrom(l: Log, e: Event, rest: seq<Event>)
    requires RunInv(l)
    ensures RunInv(Step(l, e)) && Run(l, [e] + rest) == Run(Step(l, e), rest)
  {
    StepKeepsRunInv(l, e);
    assert ([e] + rest)[1..] == rest;
  }

  // ---------- A run to a full ring ----------

  function Same(late: int, n: nat): seq<Control> {
    seq(n, i requires 0 <= i < n => Control(late, i + 2, NO_KEY))
  }

  /** n frames with the same timestamp have been accepted since the resync, and nothing sent. */
  ghost predicate Filled(l: Log, late: int, n: nat) {
    && RunInv(l) && l.m.out == Output(true, 0) && l.m.backlog == Backlog(Same(late, n), n, 0, 0)
    && l.m.filter.suspicious == 0 && (l.m.filter.first || l.m.filter.last == late)
    && l.m.counts.rx >= 0
  }

  lemma FillOne(l: Log, late: int, n: nat)
    requires Filled(l, late, n) && late > 0 && n < l.m.size - 1
    ensures var r := Step(l, Received(late, NO_KEY));
            Filled(r, late, n + 1) && r.m.size == l.m.size && r.m.history == l.m.history
  {
    StepKeepsRunInv(l, Received(late, NO_KEY));
    assert Same(late, n + 1) == Same(late, n) + [Control(late, n + 2, NO_KEY)];
    var r := Receive(l.m, late, NO_KEY);
    assert r.backlog.pending == Same(late, n) + [Control(late, n + 2, NO_KEY)];
  }

  /** The ring is full of late timestamps, and a valid timestamp is known to have come. */
  ghost predicate FullOf(l: Log, late: int, size: int, history: History) {
    && RunInv(l) && l.m.out == Output(true, 0) && l.m.counts.validReceived
    && l.m.size == size >= 1 && l.m.history == history && l.m.backlog == Backlog(Same(late, size - 1), size - 1, 0, 0)
  }

  /** A frame that is refused changes nothing but the counts; the second such makes a valid timestamp known. */
  lemma RefuseTwo(l: Log, late: int)
    requires RunInv(l) && Filled(l, late, l.m.size - 1) && late > 0
    ensures FullOf(Run(l, [Received(late, NO_KEY), Received(late, NO_KEY)]), late, l.m.size, l.m.history)
  {
    var event := Received(late, NO_KEY);
    var one := Step(l, event);
    RunFrom(l, event, [event]);
    RunFrom(one, event, []);
    assert [event] + [event] == [event, event] && [event] + [] == [event];
  }

  /** The ring is filled up one frame after the other, and two more are refused. */
  lemma {:induction false} Fill(l: Log, late: int, n: nat) returns (events: seq<Event>)
    requires Filled(l, late, n) && late > 0 && n <= l.m.size - 1
    ensures FullOf(Run(l, events), late, l.m.size, l.m.history)
    decreases l.m.size - n
  {
    var event := Received(late, NO_KEY);
    if n == l.m.size - 1 {
      RefuseTwo(l, late);
      events := [event, event];
    } else {
      FillOne(l, late, n);
      var rest := Fill(Step(l, event), late, n + 1);
      RunFrom(l, event, rest);
      events := [event] + rest;
    }
  }

  /** The ring is full, and Send after one more frame, which is refused, does not give what Query said. */
  ghost predicate Differ(l: Log, key: int, filed: int) {
    && RunInv(l) && !HasRoom(l.m) && |l.m.backlog.pending| == l.m.size - 1
    && Send(Receive(l.m, NO_TIMESTAMP, filed), key).1 != Query(l.m, key)
  }

  /** In a ring full of late timestamps, Query makes one up, and Send does not. */
  lemma FullRingDisagrees(l: Log, size: int, history: History, key: int, filed: int)
    requires FullOf(l, Interval(history) + 1, size, history)
    ensures Differ(l, key, filed)
  {
    SumNonNegative(history.slots);
    QueryWithoutRoomExactly(l.m, key, filed);
  }

  /** The run that starts with a resync to time 0. */
  function Resynced(m: Manager): (l: Log)
    requires m.size >= 1 && HistoryOk(m.history)
    ensures RunInv(l)
  {
    ResyncStartsARun(m, 0);
    Log(Resync(m, 0, AI), [], [])
  }

  lemma ResyncIsFilled(m: Manager) returns (l: Log, late: int)
    requires m.size >= 1 && HistoryOk(m.history)
    ensures l == Resynced(m) && l.m.size == m.size
    ensures late == Interval(l.m.history) + 1 > 0 && Filled(l, late, 0)
  {
    SumNonNegative(m.history.slots);
    l, late := Resynced(m), Interval(m.history) + 1;
    assert Same(late, 0) == [];
  }

  lemma FilledUpDiffers(l: Log, late: int, key: int, filed: int) returns (events: seq<Event>)
    requires Filled(l, late, 0) && late == Interval(l.m.history) + 1 > 0 && l.m.size >= 1
    ensures Differ(Run(l, events), key, filed) && Run(l, events).m.size == l.m.size
  {
    events := Fill(l, late, 0);
    var full := Run(l, events);
    FullRingDisagrees(full, l.m.size, l.m.history, key, filed);
  }

  /** For every ring size there is a run since a resync that ends with a full ring, in which the two differ. */
  lemma FullRingDiffers(m: Manager, key: int, filed: int) returns (events: seq<Event>)
    requires m.size >= 1 && HistoryOk(m.history)
    ensures Differ(Run(Resynced(m), events), key, filed) && Run(Resynced(m), events).m.size == m.size
  {
    var start, late := ResyncIsFilled(m);
    events := FilledUpDiffers(start, late, key, filed);
  }

  /**
    How long a pending timestamp can be put off: when Send interpolates although entries are pending,
    the chosen entry is the o-th accepted frame for some o not below the number of sends so far.
   */
  lemma PutOffOnlyUntilItsTurn(l: Log, key: int)
    requires RunInv(l) && l.m.backlog.cnt > 0 && l.m.backlog.pending != []
    ensures var b := l.m.backlog;
            var c := b.pending[Chosen(b.pending, key)];
            var o := c.age - 1;
            && 1 <= o <= |l.accepted| && l.accepted[o - 1] == (c.ts, c.key)
            && (Interpolates(b, key, Expected(l.m.out, l.m.history), Interval(l.m.history) / 2) ==> o >= b.age)
            && (b.age > o ==> Send(l.m, key).1 == Clamp(l.m.out, c.ts))
  {
    var b := l.m.backlog;
    assert Placed(b.pending[Chosen(b.pending, key)], l.accepted);
  }

  // ---------- What is filed is taken once ----------

  /** A run with the entries filed and the entries sends have taken out. */
  datatype Books = Books(m: Manager, filed: seq<Control>, taken: seq<Control>)

  /** What a receive filed: nothing, if the frame was refused or its timestamp is missing or withheld. */
  function NewlyFiled(b: Backlog, r: Backlog): seq<Control> {
    if |b.pending| < |r.pending| then [r.pending[|b.pending|]] else []
  }

  function BooksStep(k: Books, e: Event): Books
    requires Inv(k.m)
  {
    match e
    case Received(ts, key) =>
      var r := Receive(k.m, ts, key);
      Books(r, k.filed + NewlyFiled(k.m.backlog, r.backlog), k.taken)
    case Sent(key) =>
      var b := k.m.backlog;
      var s := Send(k.m, key).0;
      if b.cnt > 0 && !Interpolates(b, key, Expected(k.m.out, k.m.history), Interval(k.m.history) / 2) then
        Books(s, k.filed, k.taken + [b.pending[Chosen(b.pending, key)]])
      else k.(m := s)
    case Rated(n, d) => k.(m := SetFrameRate(k.m, n, d))
  }

  /** All filed entries are different, and each is pending or has been taken, but not both and not twice. */
  ghost predicate Booked(k: Books) {
    && Inv(k.m) && k.m.mode == AI && k.m.backlog.age >= 0
    && multiset(k.filed) == multiset(k.taken) + multiset(k.m.backlog.pending)
    && (forall i :: 0 <= i < |k.filed| ==> k.filed[i].age <= k.m.backlog.age + k.m.backlog.cnt + 1)
    && (forall i, j :: 0 <= i < j < |k.filed| ==> k.filed[i].age < k.filed[j].age)
  }

  lemma MultisetAppend(s: seq<Control>, more: seq<Control>)
    ensures multiset(s + more) == multiset(s) + multiset(more)
  {
  }

  lemma ReceiveFiles(m: Manager, ts: int, key: int)
    requires Inv(m) && m.mode == AI
    ensures var b, r := m.backlog, Receive(m, ts, key).backlog;
            var added := NewlyFiled(b, r);
            && r.pending == b.pending + added && r.age == b.age && b.cnt + |added| <= r.cnt
            && (added != [] ==> added == [Control(ts, b.age + b.cnt + 2, key)])
  {
  }

  lemma ReceiveKeepsBooked(k: Books, ts: int, key: int)
    requires Booked(k)
    ensures Booked(BooksStep(k, Received(ts, key)))
  {
    var added := NewlyFiled(k.m.backlog, Receive(k.m, ts, key).backlog);
    ReceiveKeepsInv(k.m, ts, key);
    ReceiveFiles(k.m, ts, key);
    MultisetAppend(k.filed, added);
    MultisetAppend(k.m.backlog.pending, added);
  }

  lemma SendKeepsBooked(k: Books, key: int)
    requires Booked(k)
    ensures Booked(BooksStep(k, Sent(key)))
  {
    var b := k.m.backlog;
    SendKeepsInv(k.m, key);
    if b.cnt > 0 && !Interpolates(b, key, Expected(k.m.out, k.m.history), Interval(k.m.history) / 2) {
      var c := b.pending[Chosen(b.pending, key)];
      SwapRemoveTakesOne(b.pending, Chosen(b.pending, key));
      MultisetAppend(k.taken, [c]);
      assert c in multiset(b.pending);
    }
  }

  function BooksRun(k: Books, events: seq<Event>): Books
    requires Booked(k)
    decreases |events|
  {
    if events == [] then k
    else
      BooksStepKeepsBooked(k, events[0]);
      BooksRun(BooksStep(k, events[0]), events[1..])
  }

  lemma BooksStepKeepsBooked(k: Books, e: Event)
    requires Booked(k)
    ensures Booked(BooksStep(k, e))
  {
    match e
    case Received(ts, key) => ReceiveKeepsBooked(k, ts, key);
    case Sent(key) => SendKeepsBooked(k, key);
    case Rated(_, _) =>
  }

  lemma {:induction false} BooksRunKeepsBooked(k: Books, events: seq<Event>)
    requires Booked(k)
    ensures Booked(BooksRun(k, events))
    decreases |events|
  {
    if events == [] {
    } else {
      BooksStepKeepsBooked(k, events[0]);
      BooksRunKeepsBooked(BooksStep(k, events[0]), events[1..]);
    }
  }

  /** In every AI-mode run since a resync, each entry filed is pending or has been taken by exactly one send. */
  lemma EachIsTakenOnce(m: Manager, synctime: int, events: seq<Event>)
    requires Inv(m)
    ensures var start := Books(Resync(m, synctime, AI), [], []);
            && Booked(start)
            && var k := BooksRun(start, events);
               && multiset(k.filed) == multiset(k.taken) + multiset(k.m.backlog.pending)
               && forall i, j :: 0 <= i < j < |k.filed| ==> k.filed[i].age < k.filed[j].age
  {
    var start := Books(Resync(m, synctime, AI), [], []);
    BooksRunKeepsBooked(start, events);
  }

  // ---------- FIFO mode ----------

  function Stamps(p: seq<Control>): seq<int> {
    seq(|p|, i requires 0 <= i < |p| => p[i].ts)
  }

  /** A run since a resync to FIFO mode: the timestamps accepted, and those given by sends that found something. */
  datatype FifoLog = FifoLog(m: Manager, accepted: seq<int>, given: seq<int>)

  function FifoStep(l: FifoLog, e: Event): FifoLog
    requires Inv(l.m)
  {
    match e
    case Received(ts, key) =>
      FifoLog(Receive(l.m, ts, key), if HasRoom(l.m) then l.accepted + [ts] else l.accepted, l.given)
    case Sent(key) =>
      var (s, t) := Send(l.m, key);
      FifoLog(s, l.accepted, if l.m.backlog.cnt > 0 then l.given + [t] else l.given)
    case Rated(n, d) => l.(m := SetFrameRate(l.m, n, d))
  }

  /** What was accepted is what was given, in that order, and then what is still pending. */
  ghost predicate FifoInv(l: FifoLog) {
    Inv(l.m) && l.m.mode == FIFO && l.accepted == l.given + Stamps(l.m.backlog.pending)
  }

  lemma FifoStepKeepsInv(l: FifoLog, e: Event)
    requires FifoInv(l)
    ensures FifoInv(FifoStep(l, e))
  {
    match e
    case Received(ts, key) =>
      ReceiveKeepsInv(l.m, ts, key);
      if HasRoom(l.m) {
        assert Stamps(Receive(l.m, ts, key).backlog.pending) == Stamps(l.m.backlog.pending) + [ts];
      }
    case Sent(key) =>
      SendKeepsInv(l.m, key);
      if l.m.backlog.cnt > 0 {
        var (s, t) := Send(l.m, key);
        assert Stamps(l.m.backlog.pending) == [t] + Stamps(s.backlog.pending);
      }
    case Rated(n, d) =>
  }

  function FifoRun(l: FifoLog, events: seq<Event>): FifoLog
    requires FifoInv(l)
    decreases |events|
  {
    if events == [] then l
    else
      FifoStepKeepsInv(l, events[0]);
      FifoRun(FifoStep(l, events[0]), events[1..])
  }

  lemma {:induction false} FifoRunKeepsInv(l: FifoLog, events: seq<Event>)
    requires FifoInv(l)
    ensures FifoInv(FifoRun(l, events))
    decreases |events|
  {
    if events == [] {
    } else {
      FifoStepKeepsInv(l, events[0]);
      FifoRunKeepsInv(FifoStep(l, events[0]), events[1..]);
    }
  }

  /** In every FIFO-mode run since a resync, the timestamps given are a prefix of those accepted, missing or not. */
  lemma FifoModeKeepsOrder(m: Manager, synctime: int, events: seq<Event>)
    requires Inv(m)
    ensures var start := FifoLog(Resync(m, synctime, FIFO), [], []);
            && FifoInv(start)
            && var l := FifoRun(start, events);
               l.given <= l.accepted && l.accepted[|l.given|..] == Stamps(l.m.backlog.pending)
  {
    var start := FifoLog(Resync(m, synctime, FIFO), [], []);
    assert Stamps(start.m.backlog.pending) == [];
    FifoRunKeepsInv(start, events);
  }
}

/**
  The timestamp manager of libs/me/mfw_gst_ts.c: values, operations and the object itself.

  Received timestamps wait in a ring until a frame is output.  In AI mode `Send` takes the smallest
  pending timestamp (up to the first one filed under a given key), or interpolates one from a running
  average when timestamps are missing.  The operations are defined on the value `Manager`, whose ring
  is the plain sequence of pending entries; class `TSManager` carries them out on a ring array with
  swap-removal and is proved to compute the same.  What the operations mean is proved in TsRuns.dfy.
*/
module TimestampManager {
  import opened ReceivedFifo

  const NO_KEY: int := 0
  const HISTORY_SIZE: nat := 32
  const SECOND: int := 1_000_000_000
  const DEFAULT_INTERVAL: int := SECOND / 30
  const DEFAULT_BUFFER_SIZE: int := 128
  const DISCONT_THRESHOLD: int := 10_000_000_000

  datatype Mode = AI | FIFO

  /** One pending timestamp, with the number of sends it may be passed over for and the key it is filed under. */
  datatype Control = Control(ts: int, age: int, key: int)

  /** The discontinuity filter: `suspicious` is the timestamp withheld last, 0 when there is none. */
  datatype Filter = Filter(first: bool, last: int, suspicious: int, threshold: int)

  /** The last 32 frame intervals; `big` counts the large gaps ignored in a row. */
  datatype History = History(slots: seq<int>, pos: int, total: int, big: int)

  /** What waits to be sent: the ring, how many of the cnt frames have no entry in it, and the sends so far. */
  datatype Backlog = Backlog(pending: seq<Control>, cnt: int, invalid: int, age: int)

  datatype Output = Output(first: bool, last: int)

  datatype Counts = Counts(rx: int, tx: int, validReceived: bool)

  datatype Manager = Manager(mode: Mode, size: int, backlog: Backlog, out: Output, counts: Counts,
                             filter: Filter, history: History)

  // ---------- Receiving ----------

  /** What the filter lets through: the timestamp itself, or none when it jumps ahead too far. */
  function Screen(d: Filter, ts: int): (Filter, int) {
    if ts == NO_TIMESTAMP then (d, ts)
    else if d.first then (d.(first := false, last := ts), ts)
    else
      var last := if d.suspicious != 0 && ts >= d.suspicious then ts else d.last;
      if ts > last && ts - last > d.threshold then
        (d.(last := last, suspicious := ts), NO_TIMESTAMP)
      else
        (d.(last := ts, suspicious := 0), ts)
  }

  predicate HasRoom(m: Manager) {
    m.backlog.cnt < m.size - 1
  }

  /** Files one more frame, with its timestamp or without. */
  function File(b: Backlog, d: Filter, mode: Mode, ts: int, key: int): (Backlog, Filter) {
    if mode == FIFO then
      (b.(cnt := b.cnt + 1, pending := b.pending + [Control(ts, 0, NO_KEY)]), d)
    else
      var (filter, t) := Screen(d, ts);
      if t == NO_TIMESTAMP then (b.(cnt := b.cnt + 1, invalid := b.invalid + 1), filter)
      else
        var c := Control(t, b.age + |b.pending| + b.invalid + 2, key);
        (b.(cnt := b.cnt + 1, pending := b.pending + [c]), filter)
  }

  function Counted(c: Counts, ts: int): Counts {
    c.(rx := c.rx + 1, validReceived := c.validReceived || (ts != NO_TIMESTAMP && c.rx != 0))
  }

  function Receive(m: Manager, ts: int, key: int): Manager {
    var counts := Counted(m.counts, ts);
    if HasRoom(m) then
      var (b, d) := File(m.backlog, m.filter, m.mode, ts, key);
      m.(backlog := b, filter := d, counts := counts)
    else
      m.(counts := counts)
  }

  // ---------- Sending ----------

  function Interval(h: History): int {
    h.total / HISTORY_SIZE
  }

  /** How many pending entries Send looks at: up to and including the first one filed under the key. */
  function Window(p: seq<Control>, key: int, from: nat): (w: nat)
    requires from <= |p|
    ensures from <= w <= |p|
    decreases |p| - from
  {
    if from == |p| then from
    else if key != NO_KEY && p[from].key == key then from + 1
    else Window(p, key, from + 1)
  }

  /** The first of the smallest timestamps among the first n entries. */
  function Smallest(p: seq<Control>, n: nat): (i: nat)
    requires 0 < n <= |p|
    ensures i < n
  {
    if n == 1 then 0
    else
      var i := Smallest(p, n - 1);
      if p[n - 1].ts < p[i].ts then n - 1 else i
  }

  function Chosen(p: seq<Control>, key: int): (i: nat)
    requires p != []
    ensures i < |p|
  {
    Smallest(p, Window(p, key, 0))
  }

  /** Swap-removal: the oldest entry takes the place of the one removed. */
  function SwapRemove(p: seq<Control>, i: nat): seq<Control>
    requires i < |p|
  {
    p[i := p[0]][1..]
  }

  /** The timestamp expected next, if frames come at regular intervals. */
  function Expected(o: Output, h: History): int {
    if o.first then o.last else o.last + Interval(h)
  }

  /** Send makes a timestamp up: nothing is pending, or what is pending looks late and may still wait. */
  predicate Interpolates(b: Backlog, key: int, expected: int, slack: int) {
    b.pending != [] ==>
      var c := b.pending[Chosen(b.pending, key)];
      b.invalid != 0 && c.ts >= expected + slack && c.age > b.age
  }

  function Proposed(b: Backlog, key: int, expected: int, slack: int): int {
    if Interpolates(b, key, expected, slack) then expected else b.pending[Chosen(b.pending, key)].ts
  }

  function Advance(b: Backlog, key: int, expected: int, slack: int): Backlog {
    var next := b.(cnt := b.cnt - 1, age := b.age + 1);
    if Interpolates(b, key, expected, slack) then next.(invalid := b.invalid - 1)
    else next.(pending := SwapRemove(b.pending, Chosen(b.pending, key)))
  }

  /** Once something was sent, nothing earlier is sent. */
  function Clamp(o: Output, t: int): int {
    if o.first || t > o.last then t else o.last
  }

  function Offer(b: Backlog, o: Output, h: History, key: int): int {
    Clamp(o, Proposed(b, key, Expected(o, h), Interval(h) / 2))
  }

  function Record(h: History, gap: int): History
    requires 0 <= h.pos < |h.slots|
  {
    if gap < Interval(h) * 2 || h.big > 3 then
      History(h.slots[h.pos := gap], (h.pos + 1) % HISTORY_SIZE, h.total - h.slots[h.pos] + gap, 0)
    else
      h.(big := h.big + 1)
  }

  /** The first timestamp sent has no gap in front of it. */
  function Recorded(o: Output, h: History, t: int): History
    requires 0 <= h.pos < |h.slots|
  {
    if o.first then h else Record(h, t - o.last)
  }

  /** cnt counts the entries in the ring plus the frames without one; the ring never fills up completely. */
  ghost predicate Balanced(b: Backlog, size: int) {
    size >= 1 && 0 <= b.invalid && b.cnt == |b.pending| + b.invalid && b.cnt <= size - 1
  }

  ghost predicate Inv(m: Manager) {
    && Balanced(m.backlog, m.size)
    && (m.mode == FIFO ==> m.backlog.invalid == 0)
    && |m.history.slots| == HISTORY_SIZE && 0 <= m.history.pos < HISTORY_SIZE
  }

  function SendNext(m: Manager, key: int): (Manager, int)
    requires Inv(m) && m.backlog.cnt > 0
  {
    if m.mode == FIFO then
      var t := m.backlog.pending[0].ts;
      var b := m.backlog.(cnt := m.backlog.cnt - 1, pending := m.backlog.pending[1..]);
      (m.(backlog := b, out := m.out.(last := t)), t)
    else
      var t := Offer(m.backlog, m.out, m.history, key);
      var b := Advance(m.backlog, key, Expected(m.out, m.history), Interval(m.history) / 2);
      (m.(backlog := b, out := Output(false, t),
          history := Recorded(m.out, m.history, t)), t)
  }

  function Send(m: Manager, key: int): (Manager, int)
    requires Inv(m)
  {
    var s := m.(counts := m.counts.(tx := m.counts.tx + 1));
    var expected := Expected(m.out, m.history);
    if m.backlog.cnt > 0 then SendNext(s, key)
    else if m.counts.validReceived then (s, NO_TIMESTAMP)
    else (s.(out := Output(false, expected)), expected)
  }

  /** In AI mode, a Query asks what a Send would hand out for one more frame that comes without a timestamp. */
  function Query(m: Manager, key: int): int {
    Offer(m.backlog.(invalid := m.backlog.invalid + 1), m.out, m.history, key)
  }

  lemma ReceiveKeepsInv(m: Manager, ts: int, key: int)
    requires Inv(m)
    ensures Inv(Receive(m, ts, key))
  {
  }

  lemma SendKeepsInv(m: Manager, key: int)
    requires Inv(m)
    ensures Inv(Send(m, key).0)
  {
  }

  // ---------- Resynchronising and the frame rate ----------

  function Resync(m: Manager, synctime: int, mode: Mode): Manager {
    m.(mode := mode, backlog := Backlog([], 0, 0, 0),
       out := Output(true, if synctime != NO_TIMESTAMP then synctime else m.out.last),
       counts := Counts(0, 0, false),
       filter := m.filter.(first := true, suspicious := 0), history := m.history.(big := 0))
  }

  lemma ResyncGivesInv(m: Manager, synctime: int, mode: Mode)
    requires m.size >= 1 && |m.history.slots| == HISTORY_SIZE && 0 <= m.history.pos < HISTORY_SIZE
    ensures Inv(Resync(m, synctime, mode))
  {
  }

  function FrameInterval(fpsN: int, fpsD: int): int {
    if fpsN > 0 && fpsD > 0 && fpsN / fpsD <= 80 then SECOND * fpsD / fpsN else DEFAULT_INTERVAL
  }

  /** All slots are filled with one interval. */
  function Refilled(h: History, interval: int): History {
    h.(slots := seq(HISTORY_SIZE, _ => interval), total := interval * HISTORY_SIZE)
  }

  function SetFrameRate(m: Manager, fpsN: int, fpsD: int): Manager {
    m.(history := Refilled(m.history, FrameInterval(fpsN, fpsD)))
  }

  // ---------- The ring ----------

  /** Entries between tx and rx, going round (TSM_DISTANCE). */
  function Distance(tx: int, rx: int, n: int): int {
    if rx >= tx then rx - tx else n - tx + rx
  }

  /** Where the j-th pending entry sits. */
  function Slot(tx: int, j: nat, n: int): int {
    if tx + j < n then tx + j else tx + j - n
  }

  /** ring lists the entries of buf from tx up to rx. */
  ghost predicate InRing(ring: seq<Control>, buf: seq<Control>, tx: int, rx: int) {
    && 0 <= tx < |buf| && 0 <= rx < |buf|
    && |ring| == Distance(tx, rx, |buf|)
    && forall j :: 0 <= j < |ring| ==> ring[j] == buf[Slot(tx, j, |buf|)]
  }

  /** FIFO mode files neither ages nor keys, and leaves whatever the slot held. */
  function Filed(p: seq<Control>, mode: Mode): seq<Control> {
    if mode == AI then p else seq(|p|, i requires 0 <= i < |p| => Control(p[i].ts, 0, NO_KEY))
  }

  lemma FiledAppend(p: seq<Control>, c: Control)
    ensures Filed(p + [c], FIFO) == Filed(p, FIFO) + [Control(c.ts, 0, NO_KEY)]
  {
  }

  lemma FiledTail(p: seq<Control>)
    requires p != []
    ensures Filed(p, FIFO)[0].ts == p[0].ts
    ensures Filed(p[1..], FIFO) == Filed(p, FIFO)[1..]
  {
  }

  function Next(i: int, n: int): (k: int)
    requires 0 <= i < n
    ensures k == if i + 1 == n then 0 else i + 1
  {
    (i + 1) % n
  }

  lemma RingAppend(ring: seq<Control>, buf: seq<Control>, tx: int, rx: int, c: Control)
    requires InRing(ring, buf, tx, rx) && |ring| < |buf| - 1
    ensures InRing(ring + [c], buf[rx := c], tx, Next(rx, |buf|))
  {
    assert forall j :: 0 <= j < |ring| ==> Slot(tx, j, |buf|) != rx;
    assert Slot(tx, |ring|, |buf|) == rx;
  }

  lemma RingDrop(ring: seq<Control>, buf: seq<Control>, tx: int, rx: int, i: nat)
    requires InRing(ring, buf, tx, rx) && i < |ring|
    ensures InRing(SwapRemove(ring, i), buf[Slot(tx, i, |buf|) := buf[tx]], Next(tx, |buf|), rx)
  {
    var rest := SwapRemove(ring, i);
    assert Slot(tx, 0, |buf|) == tx;
    forall j | 0 <= j < |rest|
      ensures rest[j] == buf[Slot(tx, i, |buf|) := buf[tx]][Slot(Next(tx, |buf|), j, |buf|)]
    {
      assert Slot(Next(tx, |buf|), j, |buf|) == Slot(tx, j + 1, |buf|);
      assert Slot(tx, j + 1, |buf|) == Slot(tx, i, |buf|) <==> j + 1 == i;
    }
  }

  // ---------- The object ----------

  class TSManager {
    var mode: Mode
    var tsBuf: array<Control>
    var tx: int
    var rx: int
    var cnt: int
    var invalidTsCount: int
    var age: int
    var out: Output
    var counts: Counts
    var filter: Filter
    var durHistoryTx: int
    var durHistoryTotal: int
    var durHistoryBuf: array<int>
    var bigCnt: int
    const rctl: ReceivedControl

    ghost var ring: seq<Control>  // the pending part of tsBuf
    ghost var slots: seq<int>     // the contents of durHistoryBuf

    ghost predicate RingLinked()
      reads this, tsBuf
    {
      InRing(ring, tsBuf[..], tx, rx)
    }

    ghost predicate HistoryLinked()
      reads this, durHistoryBuf
    {
      durHistoryBuf.Length == HISTORY_SIZE && slots == durHistoryBuf[..]
    }

    ghost function HistoryView(): History
      reads this
    {
      History(slots, durHistoryTx, durHistoryTotal, bigCnt)
    }

    ghost function BacklogView(): Backlog
      reads this
    {
      Backlog(Filed(ring, mode), cnt, invalidTsCount, age)
    }

    ghost function View(): Manager
      reads this
    {
      Manager(mode, tsBuf.Length, BacklogView(), out,
              counts, filter, HistoryView())
    }

    /** The arrays hold what the value says; that the value itself makes sense is Inv(View()). */
    ghost predicate Valid()
      reads this, tsBuf, durHistoryBuf
    {
      RingLinked() && HistoryLinked()
    }

    /** createTSManager */
    constructor (tsBufSize: int)
      ensures Valid() && Inv(View()) && fresh(tsBuf) && fresh(durHistoryBuf) && fresh(rctl)
      ensures rctl.View() == Fifo([], [], 0, 0)
      ensures View() == Manager(AI, if tsBufSize <= 0 then DEFAULT_BUFFER_SIZE else tsBufSize,
                                Backlog([], 0, 0, 0), Output(true, 0), Counts(0, 0, false),
                                Filter(true, 0, 0, DISCONT_THRESHOLD),
                                History(seq(HISTORY_SIZE, _ => DEFAULT_INTERVAL), 0,
                                        DEFAULT_INTERVAL * HISTORY_SIZE, 0))
    {
      var size := if tsBufSize <= 0 then DEFAULT_BUFFER_SIZE else tsBufSize;
      tsBuf := new Control[size](_ => Control(0, 0, NO_KEY));
      mode, tx, rx, cnt, invalidTsCount, age := AI, 0, 0, 0, 0, 0;
      out, counts := Output(true, 0), Counts(0, 0, false);
      filter := Filter(true, 0, 0, DISCONT_THRESHOLD);
      bigCnt := 0;
      durHistoryTx := 0;
      durHistoryBuf := new int[HISTORY_SIZE](_ => DEFAULT_INTERVAL);
      durHistoryTotal := DEFAULT_INTERVAL * HISTORY_SIZE;
      rctl := new ReceivedControl();
      ring, slots := [], seq(HISTORY_SIZE, _ => DEFAULT_INTERVAL);
    }

    /** Stores an accepted timestamp at rx. */
    method Store(c: Control)
      requires RingLinked() && |ring| < tsBuf.Length - 1
      modifies this`rx, this`ring, tsBuf
      ensures RingLinked() && ring == old(ring) + [c]
    {
      RingAppend(ring, tsBuf[..], tx, rx, c);
      tsBuf[rx] := c;
      assert tsBuf[..] == old(tsBuf[..])[rx := c];
      rx := Next(rx, tsBuf.Length);
      ring := ring + [c];
    }

    /** The discontinuity check on an accepted timestamp in AI mode. */
    method ScreenTimestamp(timestamp: int) returns (t: int)
      modifies this`filter
      ensures (filter, t) == Screen(old(filter), timestamp)
    {
      t := timestamp;
      if timestamp != NO_TIMESTAMP {
        if filter.first {
          filter := filter.(last := timestamp, first := false);
        } else {
          if filter.suspicious != 0 {
            if timestamp >= filter.suspicious {
              filter := filter.(last := timestamp);
            }
            filter := filter.(suspicious := 0);
          }
          if timestamp > filter.last && timestamp - filter.last > filter.threshold {
            filter := filter.(suspicious := timestamp);
            t := NO_TIMESTAMP;
          }
        }
      }
      if t != NO_TIMESTAMP {
        filter := filter.(last := t);
      }
    }

    /** The AI-mode branch of _TSManagerReceive, past the check for room. */
    method FileScreened(timestamp: int, key: int)
      requires RingLinked() && |ring| < tsBuf.Length - 1 && mode == AI
      modifies this`rx, this`ring, this`invalidTsCount, tsBuf
      modifies this`filter
      ensures RingLinked()
      ensures var (d, t) := Screen(old(filter), timestamp);
              && filter == d
              && if t == NO_TIMESTAMP then
                   ring == old(ring) && invalidTsCount == old(invalidTsCount) + 1
                 else
                   && ring == old(ring) + [Control(t, age + |old(ring)| + invalidTsCount + 2, key)]
                   && invalidTsCount == old(invalidTsCount)
    {
      var t := ScreenTimestamp(timestamp);
      if t != NO_TIMESTAMP {
        Store(Control(t, age + Distance(tx, rx, tsBuf.Length) + invalidTsCount + 2, key));
      } else {
        invalidTsCount := invalidTsCount + 1;
      }
    }

    /** The part of _TSManagerReceive past the check for room. */
    method Accept(timestamp: int, key: int)
      requires RingLinked() && |ring| < tsBuf.Length - 1
      modifies this`cnt, this`rx, this`ring, this`invalidTsCount, tsBuf
      modifies this`filter
      ensures RingLinked()
      ensures (BacklogView(), filter) == File(old(BacklogView()), old(filter), mode, timestamp, key)
    {
      cnt := cnt + 1;
      if mode == AI {
        FileScreened(timestamp, key);
      } else {
        Store(tsBuf[rx].(ts := timestamp));
        FiledAppend(old(ring), ring[|ring| - 1]);
      }
    }

    method CountReceived(timestamp: int)
      modifies this`counts
      ensures counts == Counted(old(counts), timestamp)
    {
      if timestamp != NO_TIMESTAMP && counts.rx != 0 {
        counts := counts.(validReceived := true);
      }
      counts := counts.(rx := counts.rx + 1);
    }

    /** _TSManagerReceive */
    method ReceiveKeyed(timestamp: int, key: int)
      requires Valid() && Inv(View())
      modifies this, tsBuf
      ensures Valid() && tsBuf == old(tsBuf) && durHistoryBuf == old(durHistoryBuf)
      ensures View() == Receive(old(View()), timestamp, key)
    {
      CountReceived(timestamp);
      if cnt < tsBuf.Length - 1 {
        Accept(timestamp, key);
      }
    }

    /** The scan of _TSManagerSend2: the smallest pending timestamp within the key's window. */
    method FindSmallest(key: int) returns (index: int)
      requires RingLinked()
      ensures if ring == [] then index == -1
              else index == Slot(tx, Chosen(ring, key), tsBuf.Length)
    {
      index := -1;
      ghost var j := 0;
      var i := tx;
      ghost var n := 0;
      var ts0 := 0;
      while i != rx
        invariant 0 <= n <= |ring| && i == Slot(tx, n, tsBuf.Length)
        invariant Window(ring, key, 0) == Window(ring, key, n)
        invariant if n == 0 then index == -1
                  else j == Smallest(ring, n) && index == Slot(tx, j, tsBuf.Length) && ts0 == ring[j].ts
        decreases |ring| - n
      {
        assert n < |ring| && tsBuf[i] == ring[n];
        if index >= 0 {
          if tsBuf[i].ts < ts0 {
            ts0, index, j := tsBuf[i].ts, i, n;
          }
        } else {
          ts0, index, j := tsBuf[i].ts, i, n;
        }
        n := n + 1;
        if key != NO_KEY && key == tsBuf[i].key {
          return;
        }
        i := Next(i, tsBuf.Length);
      }
      assert n == |ring|;
    }

    /** Takes the j-th pending entry out, by moving the oldest one into its place. */
    method DropEntry(index: int, ghost j: nat)
      requires RingLinked() && j < |ring| && index == Slot(tx, j, tsBuf.Length)
      modifies this`tx, this`ring, tsBuf
      ensures RingLinked() && ring == SwapRemove(old(ring), j)
    {
      RingDrop(ring, tsBuf[..], tx, rx, j);
      if index != tx {
        tsBuf[index] := tsBuf[tx];
      }
      assert tsBuf[..] == old(tsBuf[..])[index := old(tsBuf[tx])];
      tx := Next(tx, tsBuf.Length);
      ring := SwapRemove(ring, j);
    }

    /** The running average takes a new gap in, or counts it as a large one. */
    method RecordGap(gap: int)
      requires HistoryLinked() && 0 <= durHistoryTx < HISTORY_SIZE
      modifies this`bigCnt, this`durHistoryTotal, this`durHistoryTx, this`slots, durHistoryBuf
      ensures HistoryLinked() && HistoryView() == Record(old(HistoryView()), gap)
    {
      if gap < durHistoryTotal / HISTORY_SIZE * 2 || bigCnt > 3 {
        bigCnt := 0;
        durHistoryTotal := durHistoryTotal - durHistoryBuf[durHistoryTx];
        durHistoryBuf[durHistoryTx] := gap;
        slots := slots[durHistoryTx := gap];
        durHistoryTx := (durHistoryTx + 1) % HISTORY_SIZE;
        durHistoryTotal := durHistoryTotal + gap;
      } else {
        bigCnt := bigCnt + 1;
      }
    }

    /** _TSManagerSend2 in AI mode, up to the choice between a pending timestamp and the expected one. */
    method Propose(key: int, send: bool, expected: int, slack: int) returns (t: int)
      requires RingLinked() && mode == AI
      modifies this`tx, this`ring, this`invalidTsCount, tsBuf
      ensures RingLinked()
      ensures t == Proposed(old(BacklogView()), key, expected, slack)
      ensures if !send then ring == old(ring) && invalidTsCount == old(invalidTsCount) && tx == old(tx)
              else if Interpolates(old(BacklogView()), key, expected, slack) then
                ring == old(ring) && invalidTsCount == old(invalidTsCount) - 1
              else
                ring == SwapRemove(old(ring), Chosen(old(ring), key)) && invalidTsCount == old(invalidTsCount)
    {
      t := expected;
      var index := FindSmallest(key);
      if index >= 0 {
        var c := tsBuf[index];
        if invalidTsCount != 0 && c.ts >= expected + slack && c.age > age {
          if send {
            invalidTsCount := invalidTsCount - 1;
          }
        } else {
          if send {
            DropEntry(index, Chosen(ring, key));
          }
          t := c.ts;
        }
      } else {
        if send {
          invalidTsCount := invalidTsCount - 1;
        }
      }
    }

    /** _TSManagerSend2 in AI mode, from the clamping on. */
    method Emit(proposed: int, send: bool) returns (t: int)
      requires HistoryLinked() && 0 <= durHistoryTx < HISTORY_SIZE
      modifies this`out, this`age
      modifies this`bigCnt, this`durHistoryTotal, this`durHistoryTx, this`slots, durHistoryBuf
      ensures HistoryLinked()
      ensures t == Clamp(old(out), proposed)
      ensures if send then
                && out == Output(false, t) && age == old(age) + 1
                && HistoryView() == Recorded(old(out), old(HistoryView()), t)
              else
                out == old(out) && age == old(age) && HistoryView() == old(HistoryView())
    {
      t := proposed;
      if !out.first {
        var gap := 0;
        if t > out.last {
          gap := t - out.last;
        } else {
          t := out.last;
        }
        if send {
          RecordGap(gap);
        }
      }
      if send {
        out := Output(false, t);
        age := age + 1;
      }
    }

    method TakeAI(key: int, expected: int, slack: int) returns (t: int)
      requires RingLinked() && mode == AI
      modifies this`cnt, this`tx, this`ring, this`invalidTsCount, tsBuf
      ensures RingLinked()
      ensures t == Proposed(old(BacklogView()), key, expected, slack)
      ensures BacklogView() == Advance(old(BacklogView()), key, expected, slack).(age := age)
    {
      cnt := cnt - 1;
      t := Propose(key, true, expected, slack);
    }

    /** Send in AI mode, with a frame left. */
    method SendAI(key: int) returns (t: int)
      requires RingLinked() && HistoryLinked() && 0 <= durHistoryTx < HISTORY_SIZE && mode == AI
      modifies this`cnt, this`tx, this`ring, this`invalidTsCount, tsBuf
      modifies this`out, this`age
      modifies this`bigCnt, this`durHistoryTotal, this`durHistoryTx, this`slots, durHistoryBuf
      ensures RingLinked() && HistoryLinked()
      ensures var b, o, h := old(BacklogView()), old(out), old(HistoryView());
              && t == Offer(b, o, h, key)
              && BacklogView() == Advance(b, key, Expected(o, h), Interval(h) / 2)
              && out == Output(false, t)
              && HistoryView() == Recorded(o, h, t)
    {
      var interval := durHistoryTotal / HISTORY_SIZE;
      var expected := if out.first then out.last else out.last + interval;
      ghost var h := HistoryView();
      var proposed := TakeAI(key, expected, interval / 2);
      assert HistoryView() == h;
      t := Emit(proposed, true);
    }

    /** Query in AI mode: the same steps with `send` off. */
    method OfferAI(key: int) returns (t: int)
      requires RingLinked() && HistoryLinked() && 0 <= durHistoryTx < HISTORY_SIZE && mode == AI
      modifies this`tx, this`ring, this`invalidTsCount, tsBuf
      modifies this`out, this`age
      modifies this`bigCnt, this`durHistoryTotal, this`durHistoryTx, this`slots, durHistoryBuf
      ensures RingLinked() && HistoryLinked() && tx == old(tx)
      ensures ring == old(ring) && invalidTsCount == old(invalidTsCount) && age == old(age) && out == old(out)
      ensures HistoryView() == old(HistoryView())
      ensures t == Offer(BacklogView(), out, HistoryView(), key)
    {
      var interval := durHistoryTotal / HISTORY_SIZE;
      var expected := if out.first then out.last else out.last + interval;
      var proposed := Propose(key, false, expected, interval / 2);
      t := Emit(proposed, false);
    }

    /** The FIFO-mode branch of _TSManagerSend2, which reads the slot at tx even when nothing is pending. */
    method NextFIFO(send: bool) returns (t: int)
      requires RingLinked() && mode == FIFO && (send ==> ring != [])
      modifies this`tx, this`ring, this`out, tsBuf
      ensures RingLinked()
      ensures t == old(tsBuf[tx].ts) && (old(ring) != [] ==> t == old(ring)[0].ts)
      ensures if !send then ring == old(ring) && tx == old(tx) && out == old(out)
              else ring == old(ring)[1..] && out == old(out).(last := t)
    {
      t := tsBuf[tx].ts;
      assert Slot(tx, 0, tsBuf.Length) == tx;
      if send {
        DropEntry(tx, 0);
        assert ring == old(ring)[1..];
        out := out.(last := t);
      }
    }

    method SendFIFO() returns (t: int)
      requires RingLinked() && mode == FIFO && ring != []
      modifies this`cnt, this`tx, this`ring, this`out, tsBuf
      ensures RingLinked()
      ensures var b, o := old(BacklogView()), old(out);
              && t == b.pending[0].ts
              && BacklogView() == b.(cnt := b.cnt - 1, pending := b.pending[1..])
              && out == o.(last := t)
    {
      cnt := cnt - 1;
      t := NextFIFO(true);
      FiledTail(old(ring));
    }

    /** _TSManagerSend2 with no frame left: too many timestamps were sent. */
    method SendNothing() returns (t: int)
      modifies this`out
      ensures var e := Expected(old(out), HistoryView());
              if counts.validReceived then t == NO_TIMESTAMP && out == old(out)
              else t == e && out == Output(false, e)
    {
      t := NO_TIMESTAMP;
      if !counts.validReceived {
        t := if out.first then out.last else out.last + durHistoryTotal / HISTORY_SIZE;
        out := Output(false, t);
      }
    }

    /** _TSManagerSend2 with a frame left to send. */
    method SendFrame(key: int) returns (t: int)
      requires Valid() && Inv(View()) && cnt > 0
      modifies this`cnt, this`tx, this`ring, this`invalidTsCount, this`age, this`out, tsBuf
      modifies this`bigCnt, this`durHistoryTotal, this`durHistoryTx, this`slots, durHistoryBuf
      ensures Valid()
      ensures (View(), t) == SendNext(old(View()), key)
    {
      if mode == AI {
        t := SendAI(key);
      } else {
        t := SendFIFO();
      }
    }

    /** TSManagerSend2 */
    method Send2(key: int) returns (t: int)
      requires Valid() && Inv(View())
      modifies this`counts, this`cnt, this`tx, this`ring, this`invalidTsCount, this`age, this`out, tsBuf
      modifies this`bigCnt, this`durHistoryTotal, this`durHistoryTx, this`slots, durHistoryBuf
      ensures Valid()
      ensures (View(), t) == Send(old(View()), key)
    {
      counts := counts.(tx := counts.tx + 1);
      if cnt > 0 {
        t := SendFrame(key);
      } else {
        t := SendNothing();
      }
    }

    /** _TSManagerSend2 without `send`, on the frame that Query2 has put in. */
    method QueryFrame(key: int) returns (t: int)
      requires Valid() && 0 <= durHistoryTx < HISTORY_SIZE
      modifies this`tx, this`ring, this`invalidTsCount, this`age, this`out, tsBuf
      modifies this`bigCnt, this`durHistoryTotal, this`durHistoryTx, this`slots, durHistoryBuf
      ensures Valid() && View() == old(View()) && tx == old(tx)
      ensures mode == AI ==> t == Offer(BacklogView(), out, HistoryView(), key)
      ensures mode == FIFO ==> t == old(tsBuf[tx].ts) && (ring != [] ==> t == ring[0].ts)
    {
      if mode == AI {
        t := OfferAI(key);
      } else {
        t := NextFIFO(false);
      }
    }

    /** TSManagerQuery2: _TSManagerSend2 on one more frame without a timestamp, taken back afterwards. */
    method Query2(key: int) returns (t: int)
      requires Valid() && Inv(View())
      modifies this`cnt, this`tx, this`ring, this`invalidTsCount, this`age, this`out, tsBuf
      modifies this`bigCnt, this`durHistoryTotal, this`durHistoryTx, this`slots, durHistoryBuf
      ensures Valid() && View() == old(View()) && tx == old(tx)
      ensures mode == AI ==> t == Query(View(), key)
      ensures mode == FIFO ==> t == old(tsBuf[tx].ts) && (ring != [] ==> t == ring[0].ts)
    {
      cnt := cnt + 1;
      invalidTsCount := invalidTsCount + 1;
      t := QueryFrame(key);
      cnt := cnt - 1;
      invalidTsCount := invalidTsCount - 1;
    }

    method Restart()
      requires tsBuf.Length > 0
      modifies this`tx, this`rx, this`ring, this`cnt, this`invalidTsCount, this`age
      modifies this`counts
      ensures RingLinked() && BacklogView() == Backlog([], 0, 0, 0) && counts == Counts(0, 0, false)
    {
      tx, rx, ring := 0, 0, [];
      invalidTsCount, age := 0, 0;
      cnt, counts := 0, Counts(0, 0, false);
    }

    /** The output and the filter start over, and the history forgets the large gaps it has ignored. */
    method RestartOutput(synctime: int)
      requires HistoryLinked()
      modifies this`out, this`filter, this`bigCnt
      ensures HistoryLinked() && HistoryView() == old(HistoryView()).(big := 0)
      ensures out == Output(true, if synctime != NO_TIMESTAMP then synctime else old(out).last)
      ensures filter == old(filter).(first := true, suspicious := 0)
    {
      out := out.(first := true);
      filter := filter.(first := true, suspicious := 0);
      if synctime != NO_TIMESTAMP {
        out := out.(last := synctime);
      }
      bigCnt := 0;
    }

    method RestartIn(newMode: Mode, synctime: int)
      requires Valid()
      modifies this`mode, this`out, this`filter, this`bigCnt
      modifies this`tx, this`rx, this`ring, this`cnt, this`invalidTsCount, this`age, this`counts
      ensures Valid()
      ensures View() == Resync(old(View()), synctime, newMode)
    {
      RestartOutput(synctime);
      mode := newMode;
      Restart();
    }

    /** resyncTSManager */
    method ResyncTo(synctime: int, newMode: Mode)
      requires Valid() && Inv(View())
      modifies this, rctl
      ensures Valid() && tsBuf == old(tsBuf) && durHistoryBuf == old(durHistoryBuf)
      ensures View() == Resync(old(View()), synctime, newMode)
      ensures rctl.View() == Drained(old(rctl.View())).(cnt := 0)
    {
      rctl.Clear();
      RestartIn(newMode, synctime);
    }

    method SetRate(fpsN: int, fpsD: int)
      requires Valid() && Inv(View())
      modifies this, durHistoryBuf
      ensures Valid() && tsBuf == old(tsBuf) && durHistoryBuf == old(durHistoryBuf)
      ensures View() == SetFrameRate(old(View()), fpsN, fpsD)
    {
      var t := if fpsN > 0 && fpsD > 0 && fpsN / fpsD <= 80 then SECOND * fpsD / fpsN else DEFAULT_INTERVAL;
      for i := 0 to HISTORY_SIZE
        invariant tsBuf == old(tsBuf) && durHistoryBuf == old(durHistoryBuf) && durHistoryBuf.Length == HISTORY_SIZE
        invariant View() == old(View()) && RingLinked()
        invariant forall k :: 0 <= k < i ==> durHistoryBuf[k] == t
      {
        durHistoryBuf[i] := t;
      }
      slots := seq(HISTORY_SIZE, _ => t);
      durHistoryTotal := t * HISTORY_SIZE;
    }

    // ---------- Bytes in, keys out ----------

    /** TSManagerReceive2 */
    method Receive2(timestamp: int, size: int)
      requires Valid() && Inv(View())
      modifies this, tsBuf, rctl
      ensures Valid() && tsBuf == old(tsBuf) && durHistoryBuf == old(durHistoryBuf)
      ensures if size > 0 then rctl.View() == Append(old(rctl.View()), timestamp, size) && View() == old(View())
              else rctl.View() == old(rctl.View()) && View() == Receive(old(View()), timestamp, NO_KEY)
    {
      if size > 0 {
        rctl.Receive(timestamp, size);
      } else {
        ReceiveKeyed(timestamp, NO_KEY);
      }
    }

    /** TSManagerFlush2 */
    method Flush2(size: int)
      requires Valid() && Inv(View())
      modifies rctl
      ensures Valid() && View() == old(View())
      ensures rctl.View() == Consume(old(rctl.View()), size, false)
    {
      var _ := rctl.GetLastTimestamp(size, false);
    }

    /** TSManagerValid2: a frame is made of the next `size` bytes; its timestamp goes into the ring. */
    method Valid2(size: int, key: int)
      requires Valid() && Inv(View())
      modifies this, tsBuf, rctl
      ensures Valid() && tsBuf == old(tsBuf) && durHistoryBuf == old(durHistoryBuf)
      ensures rctl.View() == Consume(old(rctl.View()), size, true)
      ensures View() == Receive(old(View()), LastTimestamp(old(rctl.View()), size, true, NO_TIMESTAMP), key)
    {
      var ts := rctl.GetLastTimestamp(size, true);
      ReceiveKeyed(ts, key);
    }
  }
}

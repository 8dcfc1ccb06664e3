/**
  ADTS headers (section 6.2 of ISO/IEC 13818-7): App_get_adts_header, which searches and parses one, and
  gen_codec_buffer, which writes one in front of a raw frame (src/audio/aac_dec/src/mfw_gst_aacdec.c).
*/
module AdtsHeader {
  import opened Helpers
  import opened AacBits

  datatype Header = Header(
    id: nat, protectionAbsent: nat, profile: nat, rateIndex: nat, channels: nat,
    frameLength: int, fullness: nat, dataBlocks: nat, crc: Option<nat>)

  datatype Outcome =
    | Found(header: Header, used: nat)
    | NotLowComplexity(used: nat)   // returns 1
    | NothingFound                  // returns -1

  const SYNCWORD: nat := 4095
  const FULLNESS: nat := 2047  // all ones: variable bit rate
  const SYNC_LENGTH: nat := 12
  const HEADER_SIZE: nat := 7

  // ---------- The search and the fields, on a bit string ----------

  /** From 4 bits on, shifts in bytes until the last 12 bits are all ones, or too many bits were used. */
  function Search(rest: seq<bool>, sync: nat, used: nat, limit: nat): Option<(seq<bool>, nat)>
    decreases limit + 8 - used
  {
    if sync == SYNCWORD then Some((rest, used))
    else
      var (v, after) := ReadBits(rest, 8);
      if used + 8 > limit then None else Search(after, (sync * 256 + v) % 4096, used + 8, limit)
  }

  function FindSync(rest: seq<bool>, used: nat, limit: nat): Option<(seq<bool>, nat)> {
    var aligned := Align(rest);
    var (v, after) := ReadBits(aligned, 4);
    Search(after, v, used + |rest| % 8 + 4, limit)
  }

  datatype Fields =
    | Again(rest: seq<bool>, used: nat)
    | Profile(used: nat)
    | Complete(header: Header, rest: seq<bool>, used: nat)

  /** What follows a syncword; `used` already counts its 12 bits. */
  function ReadFields(rest: seq<bool>, used: nat): (f: Fields)
    ensures f.Again? ==> f.used > used
  {
    var (id, r0) := ReadBits(rest, 1);
    var (layer, r1) := ReadBits(r0, 2);
    if layer != 0 then Again(r1, used + 3)
    else
      var (protection, r2) := ReadBits(r1, 1);
      var (profile, r3) := ReadBits(r2, 2);
      if profile != 1 then Profile(used + 6)
      else
        var (rate, r4) := ReadBits(r3, 4);
        if rate >= 12 then Again(r4, used + 10)
        else ReadVariable(r4, used + 10, id, protection, profile, rate)
  }

  /** The single-bit fields around the channel configuration, whose values nothing depends on. */
  function ReadFlags(rest: seq<bool>): (nat, seq<bool>) {
    var (_, r0) := ReadBits(rest, 1);          // private bit
    var (channels, r1) := ReadBits(r0, 3);
    var (_, r2) := ReadBits(r1, 1);            // original/copy
    var (_, r3) := ReadBits(r2, 1);            // home
    var (_, r4) := ReadBits(r3, 1);            // copyright id bit
    var (_, r5) := ReadBits(r4, 1);            // copyright id start
    (channels, r5)
  }

  function ReadVariable(rest: seq<bool>, used: nat, id: nat, protection: nat, profile: nat, rate: nat): (f: Fields)
    ensures f.Complete?
  {
    var (channels, r5) := ReadFlags(rest);
    var (length, r6) := ReadBits(r5, 13);
    var (fullness, r7) := ReadBits(r6, 11);
    var (blocks, r8) := ReadBits(r7, 2);
    var total := used + 34;
    var frameLength := length + total / 8 - HEADER_SIZE;
    if protection == 0 then
      var (crc, r9) := ReadBits(r8, 16);
      Complete(Header(id, protection, profile, rate, channels, frameLength, fullness, blocks, Some(crc)), r9,
               total + 16)
    else
      Complete(Header(id, protection, profile, rate, channels, frameLength, fullness, blocks, None), r8, total)
  }

  lemma {:induction false} SearchUses(rest: seq<bool>, sync: nat, used: nat, limit: nat)
    ensures var s := Search(rest, sync, used, limit); s.Some? ==> s.value.1 >= used
    decreases limit + 8 - used
  {
    if sync == SYNCWORD || used + 8 > limit {
    } else {
      var (v, after) := ReadBits(rest, 8);
      SearchUses(after, (sync * 256 + v) % 4096, used + 8, limit);
    }
  }

  datatype Attempt = Retry(rest: seq<bool>, used: nat) | Done(outcome: Outcome, rest: seq<bool>)

  /** What a round comes to, given the fields that were read; a header ends on a byte boundary. */
  function Settled(f: Fields, rest: seq<bool>): Attempt {
    match f
    case Again(r, v) => Retry(r, v)
    case Profile(v) => Done(NotLowComplexity(v), rest)
    case Complete(h, r, v) => Done(Found(h, v + |r| % 8), Align(r))
  }

  /** One round: find a syncword, read the fields behind it. */
  function Try(rest: seq<bool>, used: nat, limit: nat): (a: Attempt)
    ensures a.Retry? ==> a.used > used
  {
    SearchUses(ReadBits(Align(rest), 4).1, ReadBits(Align(rest), 4).0, used + |rest| % 8 + 4, limit);
    match FindSync(rest, used, limit)
    case None => Done(NothingFound, rest)
    case Some((after, u)) =>
      Settled(ReadFields(after, u), rest)
  }

  /** App_get_adts_header: the outcome, and what is left of the bit string after a header. */
  function Parse(rest: seq<bool>, used: nat, limit: nat): (Outcome, seq<bool>)
    decreases limit + 1 - used
  {
    if used > limit then (NothingFound, rest)
    else
      match Try(rest, used, limit)
      case Retry(r, v) => if v > limit then (NothingFound, r) else Parse(r, v, limit)
      case Done(o, r) => (o, r)
  }

  // ---------- The same, bit by bit from the reader ----------

  method SearchSync(r: BitReader, used0: nat, limit: nat) returns (ok: bool, used: nat)
    requires r.Valid()
    modifies r
    ensures r.Valid()
    ensures FindSync(old(r.Rest()), used0, limit) == if ok then Some((r.Rest(), used)) else None
  {
    var skipped := r.ByteAlign();
    used := used0 + skipped;
    var sync := r.Read(4);
    used := used + 4;
    while sync != SYNCWORD
      invariant r.Valid() && Search(r.Rest(), sync, used, limit) == FindSync(old(r.Rest()), used0, limit)
      decreases limit + 8 - used
    {
      var v := r.Read(8);
      sync := (sync * 256 + v) % 4096;
      used := used + 8;
      if used > limit {
        return false, used;
      }
    }
    ok := true;
  }

  method GetFlags(r: BitReader) returns (channels: nat)
    requires r.Valid()
    modifies r
    ensures r.Valid() && (channels, r.Rest()) == ReadFlags(old(r.Rest()))
  {
    var _ := r.Read(1);
    channels := r.Read(3);
    var _ := r.Read(1);
    var _ := r.Read(1);
    var _ := r.Read(1);
    var _ := r.Read(1);
  }

  method GetVariable(r: BitReader, used0: nat, id: nat, protection: nat, profile: nat, rate: nat)
    returns (h: Header, used: nat)
    requires r.Valid()
    modifies r
    ensures r.Valid()
    ensures ReadVariable(old(r.Rest()), used0, id, protection, profile, rate) == Complete(h, r.Rest(), used)
  {
    used := used0;
    var channels := GetFlags(r);
    var length := r.Read(13);
    var fullness := r.Read(11);
    var blocks := r.Read(2);
    used := used + 34;
    h := Header(id, protection, profile, rate, channels, length + used / 8 - HEADER_SIZE, fullness, blocks, None);
    if protection == 0 {
      var crc := r.Read(16);
      used := used + 16;
      h := h.(crc := Some(crc));
    }
  }

  method GetFields(r: BitReader, used0: nat) returns (f: Fields)
    requires r.Valid()
    modifies r
    ensures r.Valid()
    ensures var g := ReadFields(old(r.Rest()), used0);
            match g
            case Again(rest, used) => f.Again? && f.used == used && r.Rest() == rest
            case Profile(used) => f == g
            case Complete(h, rest, used) => f.Complete? && f.header == h && f.used == used && r.Rest() == rest
  {
    var id := r.Read(1);
    var layer := r.Read(2);
    if layer != 0 {
      return Again([], used0 + 3);
    }
    var protection := r.Read(1);
    var profile := r.Read(2);
    if profile != 1 {
      return Profile(used0 + 6);
    }
    var rate := r.Read(4);
    if rate >= 12 {
      return Again([], used0 + 10);
    }
    var h, used := GetVariable(r, used0 + 10, id, protection, profile, rate);
    return Complete(h, [], used);
  }

  method TryHeader(r: BitReader, used: nat, limit: nat) returns (a: Attempt)
    requires r.Valid()
    modifies r
    ensures r.Valid()
    ensures var b := Try(old(r.Rest()), used, limit);
            if b.Retry? then a.Retry? && a.used == b.used && r.Rest() == b.rest
            else a.Done? && a.outcome == b.outcome && (b.outcome.Found? ==> r.Rest() == b.rest)
  {
    var ok, u := SearchSync(r, used, limit);
    if !ok {
      return Done(NothingFound, []);
    }
    var f := GetFields(r, u);
    match f {
      case Again(_, v) => return Retry([], v);
      case Profile(v) => return Done(NotLowComplexity(v), []);
      case Complete(h, _, v) =>
        var skipped := r.ByteAlign();
        return Done(Found(h, v + skipped), []);
    }
  }

  /** App_get_adts_header; limit is 8 * ADTS_FRAME_MAX_SIZE. */
  method GetAdtsHeader(r: BitReader, limit: nat) returns (o: Outcome)
    requires r.Valid()
    modifies r
    ensures r.Valid()
    ensures o == Parse(old(r.Rest()), 0, limit).0
    ensures o.Found? ==> r.Rest() == Parse(old(r.Rest()), 0, limit).1
  {
    var used: nat := 0;
    while used <= limit
      invariant r.Valid()
      invariant if used <= limit then Parse(r.Rest(), used, limit) == Parse(old(r.Rest()), 0, limit)
                else Parse(old(r.Rest()), 0, limit).0 == NothingFound
      decreases limit + 1 - used
    {
      var a := TryHeader(r, used, limit);
      match a {
        case Retry(_, v) => used := v;
        case Done(outcome, _) => return outcome;
      }
    }
    return NothingFound;
  }

  // ---------- The search finds the first byte-aligned syncword ----------

  function Ones(n: nat): (z: seq<bool>)
    ensures |z| == n
  {
    seq(n, _ => true)
  }

  /** A syncword on a byte boundary: twelve ones from bit `at` on. */
  predicate SyncAt(bits: seq<bool>, at: nat) {
    at % 8 == 0 && at + SYNC_LENGTH <= |bits| && bits[at..at + SYNC_LENGTH] == Ones(SYNC_LENGTH)
  }

  lemma {:induction false} AllOnes(bits: seq<bool>)
    ensures Value(bits) == Pow2(|bits|) - 1 <==> bits == Ones(|bits|)
  {
    EncodeValue(bits);
    if bits == [] {
    } else {
      var front := bits[..|bits| - 1];
      AllOnes(front);
      EncodeValue(front);
      assert bits == front + [bits[|bits| - 1]];
      assert Ones(|bits|) == Ones(|front|) + [true];
    }
  }

  lemma PowersOfTwo()
    ensures Pow2(4) == 16 && Pow2(8) == 256 && Pow2(12) == 4096
  {
    assert Pow2(4) == 16;
    assert Pow2(8) == 16 * Pow2(4);
    assert Pow2(12) == 16 * Pow2(8);
  }

  /** Shifting a byte into the last twelve bits. */
  lemma ShiftByte(sync: nat, four: seq<bool>, byte: seq<bool>)
    requires |four| == 4 && |byte| == 8 && sync % 16 == Value(four)
    ensures (sync * 256 + Value(byte)) % 4096 == Value(four + byte)
  {
    ValueConcat(four, byte);
    EncodeValue(byte);
    EncodeValue(four);
    PowersOfTwo();
    DivisionIsUnique(sync * 256 + Value(byte), 4096, sync / 16, Value(four) * 256 + Value(byte));
  }

  lemma LastFour(a: seq<bool>, four: seq<bool>)
    requires |four| == 4
    ensures Value(a + four) % 16 == Value(four)
  {
    ValueConcat(a, four);
    EncodeValue(four);
    PowersOfTwo();
    DivisionIsUnique(Value(a + four), 16, Value(a), Value(four));
  }

  /** With less than a byte left, nothing but zeros is shifted in, and no syncword can come about. */
  lemma {:induction false} SearchStarves(rest: seq<bool>, sync: nat, used: nat, limit: nat)
    requires |rest| < 8 && sync != SYNCWORD
    ensures Search(rest, sync, used, limit) == None
    decreases limit + 8 - used
  {
    if used + 8 > limit {
    } else {
      SearchStarves(rest, sync * 256 % 4096, used + 8, limit);
    }
  }

  /** The search has read up to bit at + 4: what it holds, and whether that ends in a syncword. */
  ghost predicate Searching(bits: seq<bool>, at: nat, sync: nat) {
    && |bits| % 8 == 0 && at % 8 == 0 && at + 4 <= |bits|
    && sync % 16 == Value(bits[at..at + 4])
    && (sync == SYNCWORD <==> at >= 8 && SyncAt(bits, at - 8))
  }

  lemma TwelveBits(twelve: seq<bool>)
    requires |twelve| == SYNC_LENGTH
    ensures Value(twelve) == SYNCWORD <==> twelve == Ones(SYNC_LENGTH)
    ensures Value(twelve) % 16 == Value(twelve[8..])
  {
    AllOnes(twelve);
    PowersOfTwo();
    assert twelve == twelve[..8] + twelve[8..];
    LastFour(twelve[..8], twelve[8..]);
  }

  lemma SearchingNext(bits: seq<bool>, at: nat, sync: nat)
    requires Searching(bits, at, sync) && at + 12 <= |bits|
    ensures Searching(bits, at + 8, (sync * 256 + Value(bits[at + 4..at + 12])) % 4096)
  {
    var four, byte := bits[at..at + 4], bits[at + 4..at + 12];
    ShiftByte(sync, four, byte);
    TwelveBits(four + byte);
    assert bits[at..at + SYNC_LENGTH] == four + byte;
    assert bits[at + 8..at + 12] == (four + byte)[8..];
  }

  /** Where the search stops: right behind the first syncword on a byte boundary, if the limit lets it get there. */
  ghost predicate StopsAtFirst(bits: seq<bool>, from: nat, used: nat, limit: nat, s: Option<(seq<bool>, nat)>) {
    match s
    case Some((rest, u)) =>
      exists at: nat :: StopsAt(bits, from, at, rest) && u == used + 8 + at - from <= limit
    case None =>
      forall at: nat :: from <= at && SyncAt(bits, at) ==> used + 8 + at - from > limit
  }

  ghost predicate StopsAt(bits: seq<bool>, from: nat, at: nat, rest: seq<bool>) {
    && from <= at && SyncAt(bits, at) && rest == bits[at + SYNC_LENGTH..]
    && forall i: nat :: from <= i < at ==> !SyncAt(bits, i)
  }

  lemma StopsLater(bits: seq<bool>, at: nat, used: nat, limit: nat, s: Option<(seq<bool>, nat)>)
    requires at % 8 == 0 && !SyncAt(bits, at) && StopsAtFirst(bits, at + 8, used + 8, limit, s)
    ensures StopsAtFirst(bits, at, used, limit, s)
  {
    if s.Some? {
      var stop: nat :| StopsAt(bits, at + 8, stop, s.value.0) && s.value.1 == used + 8 + 8 + stop - (at + 8) <= limit;
      assert StopsAt(bits, at, stop, s.value.0);
    }
  }

  lemma {:induction false} SearchStopsAtFirst(bits: seq<bool>, at: nat, sync: nat, used: nat, limit: nat)
    requires Searching(bits, at, sync) && sync != SYNCWORD
    ensures StopsAtFirst(bits, at, used, limit, Search(bits[at + 4..], sync, used, limit))
    decreases |bits| - at
  {
    var rest := bits[at + 4..];
    var found := Search(rest, sync, used, limit);
    if |rest| < 8 {
      SearchStarves(rest, sync, used, limit);
    } else if used + 8 <= limit {
      var byte := rest[..8];
      assert byte == bits[at + 4..at + 12] && rest[8..] == bits[at + 8 + 4..];
      SearchingNext(bits, at, sync);
      var next := (sync * 256 + Value(byte)) % 4096;
      assert found == Search(rest[8..], next, used + 8, limit);
      if next == SYNCWORD {
        assert StopsAt(bits, at, at, rest[8..]);
      } else {
        SearchStopsAtFirst(bits, at + 8, next, used + 8, limit);
        StopsLater(bits, at, used, limit, found);
      }
    }
  }

  /** FindSync skips to the next byte boundary and accepts the first syncword on one, if it lies within the limit. */
  lemma FindSyncFindsFirst(rest: seq<bool>, used: nat, limit: nat)
    ensures StopsAtFirst(Align(rest), 0, used + |rest| % 8 + 4, limit, FindSync(rest, used, limit))
  {
    var bits := Align(rest);
    assert |bits| % 8 == 0;
    if |bits| < 4 {
      SearchStarves(bits, 0, used + |rest| % 8 + 4, limit);
    } else {
      var four := bits[0..4];
      EncodeValue(four);
      PowersOfTwo();
      assert bits[..4] == four;
      SearchStopsAtFirst(bits, 0, Value(four), used + |rest| % 8 + 4, limit);
    }
  }

  // ---------- Writing a header ----------

  /** Numbers of given widths, one after the other, and then a bit string. */
  datatype Layout = End(tail: seq<bool>) | Put(value: nat, width: nat, rest: Layout)

  function Width(l: Layout): nat {
    match l
    case End(tail) => |tail|
    case Put(_, width, rest) => width + Width(rest)
  }

  function Pack(l: Layout): (bits: seq<bool>)
    ensures |bits| == Width(l)
  {
    match l
    case End(tail) => tail
    case Put(value, width, rest) => Encode(value, width) + Pack(rest)
  }

  /** Values for all fields of a header; each is laid out in its width, and the CRC only if the header is protected. */
  datatype Adts = Adts(
    id: nat, layer: nat, protectionAbsent: nat, profile: nat, rateIndex: nat, privateBit: nat, channels: nat,
    original: nat, home: nat, copyrightBit: nat, copyrightStart: nat, length: nat, fullness: nat, dataBlocks: nat,
    crc: nat)

  function Fixed(a: Adts, rest: Layout): Layout {
    Put(a.id, 1, Put(a.layer, 2, Put(a.protectionAbsent, 1, Put(a.profile, 2, Put(a.rateIndex, 4, rest)))))
  }

  /** The single-bit fields around the channel configuration; the fixed part of the header ends inside them. */
  function Flags(a: Adts, rest: Layout): Layout {
    Put(a.privateBit, 1, Put(a.channels, 3, Put(a.original, 1, Put(a.home, 1,
      Put(a.copyrightBit, 1, Put(a.copyrightStart, 1, rest))))))
  }

  function Sizes(a: Adts, rest: Layout): Layout {
    Put(a.length, 13, Put(a.fullness, 11, Put(a.dataBlocks, 2, rest)))
  }

  predicate Protected(a: Adts) {
    a.protectionAbsent % 2 == 0
  }

  /** adts_error_check() and the raw data behind it. */
  function Checked(a: Adts, frame: seq<bool>): Layout {
    if Protected(a) then Put(a.crc, 16, End(frame)) else End(frame)
  }

  function Variable(a: Adts, frame: seq<bool>): Layout {
    Flags(a, Sizes(a, Checked(a, frame)))
  }

  function AfterSync(a: Adts, frame: seq<bool>): Layout {
    Fixed(a, Variable(a, frame))
  }

  /** adts_fixed_header(), adts_variable_header() and adts_error_check() in front of a frame. */
  function LaidOut(a: Adts, frame: seq<bool>): Layout {
    Put(SYNCWORD, SYNC_LENGTH, AfterSync(a, frame))
  }

  /** What gen_codec_buffer writes: MPEG-4, no CRC, low complexity, one raw data block, whose code is 0. */
  function Plain(fullness: nat, rate: nat, channels: nat, size: nat): Adts {
    Adts(0, 0, 1, 1, rate, 0, channels, 0, 0, 0, 0, size, fullness, 0, 0)
  }

  /** The header that gen_codec_buffer puts in front of a frame. */
  function Generated(fullness: nat, rate: nat, channels: nat, size: nat, frame: seq<bool>): Layout {
    LaidOut(Plain(fullness, rate, channels, size), frame)
  }

  /** PutBits, in front of what is still to be written. */
  method PutField(w: BitWriter, value: nat, width: nat, ghost rest: Layout)
    requires w.Valid() && 1 <= width <= WORD
    modifies w
    ensures w.Valid() && |w.Stream()| == |old(w.Stream())| + width
    ensures w.Stream() + Pack(rest) == old(w.Stream()) + Pack(Put(value, width, rest))
  {
    w.PutBits(value, width);
    Associate(old(w.Stream()), Encode(value, width), Pack(rest));
  }

  method PutFixed(w: BitWriter, rate: nat, ghost a: Adts, ghost rest: Layout)
    requires w.Valid() && a == Plain(a.fullness, rate, a.channels, a.length)
    modifies w
    ensures w.Valid() && |w.Stream()| == |old(w.Stream())| + 10
    ensures w.Stream() + Pack(rest) == old(w.Stream()) + Pack(Fixed(a, rest))
  {
    ghost var r4 := Put(rate, 4, rest);
    ghost var r3 := Put(1, 2, r4);
    ghost var r2 := Put(1, 1, r3);
    PutField(w, 0, 1, Put(0, 2, r2));
    PutField(w, 0, 2, r2);
    PutField(w, 1, 1, r3);
    PutField(w, 1, 2, r4);
    PutField(w, rate, 4, rest);
  }

  method PutFlags(w: BitWriter, channels: nat, ghost a: Adts, ghost rest: Layout)
    requires w.Valid() && a == Plain(a.fullness, a.rateIndex, channels, a.length)
    modifies w
    ensures w.Valid() && |w.Stream()| == |old(w.Stream())| + 8
    ensures w.Stream() + Pack(rest) == old(w.Stream()) + Pack(Flags(a, rest))
  {
    ghost var r5 := Put(0, 1, rest);
    ghost var r4 := Put(0, 1, r5);
    ghost var r3 := Put(0, 1, r4);
    ghost var r2 := Put(0, 1, r3);
    PutField(w, 0, 1, Put(channels, 3, r2));
    PutField(w, channels, 3, r2);
    PutField(w, 0, 1, r3);
    PutField(w, 0, 1, r4);
    PutField(w, 0, 1, r5);
    PutField(w, 0, 1, rest);
  }

  /** Fills up the last byte, of which two bits are still missing, with zeros. */
  method PadByte(w: BitWriter)
    requires w.Valid() && w.bit == 6
    modifies w
    ensures w.Valid() && w.bit == 0
    ensures w.Stream() == old(w.Stream()) + Zeros(2)
  {
    ghost var bits := w.Stream();
    ghost var n: nat := 0;
    assert bits + Zeros(0) == bits;
    while w.bit != 0
      invariant w.Valid() && w.Stream() == bits + Zeros(n)
      invariant w.bit == (6 + n) % 8 && n <= 2
      decreases 2 - n
    {
      w.BitIsLength();
      w.PutBits(0, 1);
      assert Zeros(n) + Encode(0, 1) == Zeros(n + 1);
      n := n + 1;
      w.BitIsLength();
    }
  }

  lemma TwoZeros()
    ensures Zeros(2) == Encode(0, 2)
  {
  }

  /** The number of blocks, which is 0, is written as the padding of the last byte. */
  method PutPadding(w: BitWriter, ghost rest: Layout)
    requires w.Valid() && |w.Stream()| % 8 == 6
    modifies w
    ensures w.Valid() && w.bit == 0
    ensures w.Stream() + Pack(rest) == old(w.Stream()) + Pack(Put(0, 2, rest))
  {
    w.BitIsLength();
    ghost var bits := w.Stream();
    PadByte(w);
    TwoZeros();
    Associate(bits, Encode(0, 2), Pack(rest));
  }

  method PutSizes(w: BitWriter, fullness: nat, size: nat, ghost a: Adts, ghost rest: Layout)
    requires w.Valid() && |w.Stream()| % 8 == 6 && a == Plain(fullness, a.rateIndex, a.channels, size)
    modifies w
    ensures w.Valid() && w.bit == 0
    ensures w.Stream() + Pack(rest) == old(w.Stream()) + Pack(Sizes(a, rest))
  {
    ghost var blocks := Put(0, 2, rest);
    ghost var others := Put(fullness, 11, blocks);
    PutField(w, size, 13, others);
    PutField(w, fullness, 11, blocks);
    PutPadding(w, rest);
  }

  method PutHeader(w: BitWriter, rate: nat, channels: nat, size: nat, ghost frame: seq<bool>)
    requires w.Valid() && w.Stream() == []
    modifies w
    ensures w.Valid() && w.bit == 0
    ensures w.Stream() + frame == Pack(Generated(FULLNESS, rate, channels, size, frame))
  {
    ghost var a, end := Plain(FULLNESS, rate, channels, size), End(frame);
    ghost var sizes := Sizes(a, end);
    ghost var flags := Flags(a, sizes);
    ghost var all := Pack(Put(SYNCWORD, SYNC_LENGTH, Fixed(a, flags)));
    assert [] + all == all;
    PutField(w, SYNCWORD, SYNC_LENGTH, Fixed(a, flags));
    PutFixed(w, rate, a, flags);
    PutFlags(w, channels, a, sizes);
    PutSizes(w, FULLNESS, size, a, end);
  }

  /** gen_codec_buffer: the header followed by the frame; `size` is the size of the frame alone. */
  method GenCodecBuffer(rate: nat, channels: nat, frame: seq<Byte>) returns (buffer: seq<Byte>)
    ensures |buffer| == HEADER_SIZE + |frame| && buffer[HEADER_SIZE..] == frame
    ensures BitsOf(buffer) == Pack(Generated(FULLNESS, rate, channels, |frame|, BitsOf(frame)))
  {
    var w := new BitWriter();
    ghost var size, bits := |frame|, BitsOf(frame);
    PutHeader(w, rate, channels, |frame|, bits);
    w.BytesOnly();
    LaidOutLength(Plain(FULLNESS, rate, channels, size), bits);
    BitsOfConcat(w.out, frame);
    buffer := w.out + frame;
  }

  lemma WidthOfThree(l: Layout)
    requires l.Put? && l.rest.Put? && l.rest.rest.Put?
    ensures Width(l) == l.width + l.rest.width + l.rest.rest.width + Width(l.rest.rest.rest)
  {
    assert Width(l.rest) == l.rest.width + Width(l.rest.rest);
  }

  function HeaderBits(a: Adts): nat {
    if Protected(a) then 72 else 56
  }

  lemma LaidOutLength(a: Adts, frame: seq<bool>)
    ensures |Pack(LaidOut(a, frame))| == HeaderBits(a) + |frame|
  {
    var checked := Checked(a, frame);
    var sizes := Sizes(a, checked);
    var flags := Flags(a, sizes);
    WidthOfThree(sizes);
    WidthOfThree(Put(a.home, 1, Put(a.copyrightBit, 1, Put(a.copyrightStart, 1, sizes))));
    WidthOfThree(flags);
    WidthOfThree(Put(a.protectionAbsent, 1, Put(a.profile, 2, Put(a.rateIndex, 4, flags))));
    WidthOfThree(LaidOut(a, frame));
    assert Width(checked) == if Protected(a) then 16 + |frame| else |frame|;
  }

  // ---------- The round trip ----------

  /** Reading back the first number. */
  lemma ReadPacked(value: nat, width: nat, rest: Layout)
    ensures ReadBits(Pack(Put(value, width, rest)), width) == (value % Pow2(width), Pack(rest))
  {
    var bits := Pack(Put(value, width, rest));
    assert bits[..width] == Encode(value, width) && bits[width..] == Pack(rest);
    ValueEncode(value, width);
  }

  lemma MorePowersOfTwo()
    ensures Pow2(1) == 2 && Pow2(2) == 4 && Pow2(3) == 8 && Pow2(11) == 2048 && Pow2(13) == 8192
  {
    PowersOfTwo();
    assert Pow2(11) == 8 * Pow2(8);
    assert Pow2(13) == 2 * Pow2(12);
  }

  lemma ReadBackFlags(a: Adts, rest: Layout)
    ensures ReadFlags(Pack(Flags(a, rest))) == (a.channels % 8, Pack(rest))
  {
    var r5 := Put(a.copyrightStart, 1, rest);
    var r4 := Put(a.copyrightBit, 1, r5);
    var r3 := Put(a.home, 1, r4);
    var r2 := Put(a.original, 1, r3);
    ReadPacked(a.privateBit, 1, Put(a.channels, 3, r2));
    ReadPacked(a.channels, 3, r2);
    ReadPacked(a.original, 1, r3);
    ReadPacked(a.home, 1, r4);
    ReadPacked(a.copyrightBit, 1, r5);
    ReadPacked(a.copyrightStart, 1, rest);
    MorePowersOfTwo();
  }

  /** The header that one laid out so is parsed as, when it ends, but for its CRC, after `used` bits. */
  function HeaderOf(a: Adts, used: nat): Header {
    Header(a.id % 2, a.protectionAbsent % 2, a.profile % 4, a.rateIndex % 16, a.channels % 8,
           a.length % 8192 + used / 8 - HEADER_SIZE, a.fullness % 2048, a.dataBlocks % 4,
           if Protected(a) then Some(a.crc % 65536) else None)
  }

  lemma ReadBackChecked(a: Adts, frame: seq<bool>)
    requires Protected(a)
    ensures ReadBits(Pack(Checked(a, frame)), 16) == (a.crc % 65536, frame)
  {
    ReadPacked(a.crc, 16, End(frame));
    PowersOfTwo();
    assert Pow2(16) == 16 * Pow2(12);
  }

  lemma ReadBackVariable(a: Adts, used: nat, frame: seq<bool>)
    ensures ReadVariable(Pack(Variable(a, frame)), used, a.id % 2, a.protectionAbsent % 2,
                         a.profile % 4, a.rateIndex % 16)
         == Complete(HeaderOf(a, used + 34), frame, if Protected(a) then used + 50 else used + 34)
  {
    var checked := Checked(a, frame);
    var blocks := Put(a.dataBlocks, 2, checked);
    ReadBackFlags(a, Sizes(a, checked));
    ReadPacked(a.length, 13, Put(a.fullness, 11, blocks));
    ReadPacked(a.fullness, 11, blocks);
    ReadPacked(a.dataBlocks, 2, checked);
    MorePowersOfTwo();
    if Protected(a) {
      ReadBackChecked(a, frame);
    }
  }

  /** What is left to read after the layer, and after the sampling rate. */
  function AfterLayer(a: Adts, rest: Layout): Layout {
    Put(a.protectionAbsent, 1, Put(a.profile, 2, Put(a.rateIndex, 4, rest)))
  }

  lemma ReadBackFixed(a: Adts, rest: Layout, used: nat)
    ensures ReadFields(Pack(Fixed(a, rest)), used)
         == if a.layer % 4 != 0 then Again(Pack(AfterLayer(a, rest)), used + 3)
            else if a.profile % 4 != 1 then Profile(used + 6)
            else if a.rateIndex % 16 >= 12 then Again(Pack(rest), used + 10)
            else ReadVariable(Pack(rest), used + 10, a.id % 2, a.protectionAbsent % 2, 1, a.rateIndex % 16)
  {
    var r4 := Put(a.rateIndex, 4, rest);
    var r3 := Put(a.profile, 2, r4);
    var r2 := Put(a.protectionAbsent, 1, r3);
    ReadPacked(a.id, 1, Put(a.layer, 2, r2));
    ReadPacked(a.layer, 2, r2);
    ReadPacked(a.protectionAbsent, 1, r3);
    ReadPacked(a.profile, 2, r4);
    ReadPacked(a.rateIndex, 4, rest);
    PowersOfTwo();
    MorePowersOfTwo();
  }

  /** What the fields come to, given the bits left after the layer, after the sampling rate and after the header. */
  function FieldsOf(a: Adts, late: seq<bool>, variable: seq<bool>, frame: seq<bool>, used: nat): Fields {
    if a.layer % 4 != 0 then Again(late, used + 3)
    else if a.profile % 4 != 1 then Profile(used + 6)
    else if a.rateIndex % 16 >= 12 then Again(variable, used + 10)
    else Complete(HeaderOf(a, used + 44), frame, if Protected(a) then used + 60 else used + 44)
  }

  lemma ReadBackAll(a: Adts, frame: seq<bool>, used: nat)
    ensures ReadFields(Pack(AfterSync(a, frame)), used)
         == FieldsOf(a, Pack(AfterLayer(a, Variable(a, frame))), Pack(Variable(a, frame)), frame, used)
  {
    ReadBackFixed(a, Variable(a, frame), used);
    ReadBackVariable(a, used + 10, frame);
  }

  lemma SyncBits(rest: Layout)
    ensures Pack(Put(SYNCWORD, SYNC_LENGTH, rest)) == Ones(12) + Pack(rest)
  {
    var sync := SYNCWORD;
    ValueEncode(sync, 12);
    AllOnes(Encode(sync, 12));
    PowersOfTwo();
  }

  /** Bits up to a byte boundary, then whole bytes in which no syncword starts, and then one. */
  ghost predicate FirstSync(rest: seq<bool>, skipped: seq<bool>, before: seq<bool>, tail: seq<bool>) {
    && rest == skipped + (before + (Ones(12) + tail)) && |skipped| < 8 && |before| % 8 == 0 && (12 + |tail|) % 8 == 0
    && forall i: nat :: i < |before| ==> !SyncAt(before + (Ones(12) + tail), i)
  }

  lemma AlignSkips(rest: seq<bool>, skipped: seq<bool>, bits: seq<bool>)
    requires rest == skipped + bits && |skipped| < 8 && |bits| % 8 == 0
    ensures |rest| % 8 == |skipped| && Align(rest) == bits
  {
  }

  lemma SyncFound(rest: seq<bool>, skipped: seq<bool>, before: seq<bool>, tail: seq<bool>, used: nat, limit: nat)
    requires FirstSync(rest, skipped, before, tail) && used + |skipped| + |before| + SYNC_LENGTH <= limit
    ensures FindSync(rest, used, limit) == Some((tail, used + |skipped| + |before| + SYNC_LENGTH))
  {
    var bits := before + (Ones(12) + tail);
    AlignSkips(rest, skipped, bits);
    var at: nat := |before|;
    assert bits[at..at + 12] == Ones(12) && bits[at + 12..] == tail;
    assert SyncAt(bits, at);
    FindSyncFindsFirst(rest, used, limit);
    var found := FindSync(rest, used, limit);
    assert found.Some?;
    var stop: nat :| StopsAt(bits, 0, stop, found.value.0) && found.value.1 == used + |rest| % 8 + 4 + 8 + stop;
    assert stop == at;
  }

  /** Parsing goes on from here, if not too many bits have been used. */
  function Resume(rest: seq<bool>, used: nat, limit: nat): (Outcome, seq<bool>) {
    if used > limit then (NothingFound, rest) else Parse(rest, used, limit)
  }

  /** What parsing comes to when these are the first fields met. */
  function Ends(f: Fields, rest: seq<bool>, limit: nat): (Outcome, seq<bool>) {
    match f
    case Again(r, v) => Resume(r, v, limit)
    case Profile(v) => (NotLowComplexity(v), rest)
    case Complete(h, r, v) => (Found(h, v), r)
  }

  lemma SettledEnds(f: Fields, rest: seq<bool>, limit: nat)
    requires f.Complete? ==> |f.rest| % 8 == 0
    ensures Ends(f, rest, limit)
         == match Settled(f, rest)
            case Retry(r, v) => Resume(r, v, limit)
            case Done(o, r) => (o, r)
  {
    if f.Complete? {
      assert Align(f.rest) == f.rest;
    }
  }

  /** The parser on a string with a syncword, given the fields behind it. */
  lemma ParseFound(rest: seq<bool>, used: nat, limit: nat, behind: seq<bool>, u: nat, f: Fields)
    requires used <= limit && FindSync(rest, used, limit) == Some((behind, u)) && ReadFields(behind, u) == f
    requires f.Complete? ==> |f.rest| % 8 == 0
    ensures Parse(rest, used, limit) == Ends(f, rest, limit)
  {
    assert Try(rest, used, limit) == Settled(f, rest);
    SettledEnds(f, rest, limit);
  }

  /**
    Any header laid out as in the standard, with any values of its fields, with or without CRC, wherever its syncword is
    found: all fields are given, the frame length counted from the first bit used, and exactly the frame is left.  A
    layer other than 0 and a sampling rate index from 12 on make the search go on behind them; any profile but low
    complexity ends it.
   */
  lemma ParsesLaidOut(rest: seq<bool>, a: Adts, frame: seq<bool>, used: nat, limit: nat, u: nat)
    requires used <= limit && FindSync(rest, used, limit) == Some((Pack(AfterSync(a, frame)), u)) && |frame| % 8 == 0
    ensures Parse(rest, used, limit)
         == Ends(FieldsOf(a, Pack(AfterLayer(a, Variable(a, frame))), Pack(Variable(a, frame)), frame, u), rest, limit)
  {
    var f := FieldsOf(a, Pack(AfterLayer(a, Variable(a, frame))), Pack(Variable(a, frame)), frame, u);
    ReadBackAll(a, frame, u);
    ParseFound(rest, used, limit, Pack(AfterSync(a, frame)), u, f);
  }

  lemma LaidOutIsFirst(a: Adts, frame: seq<bool>, limit: nat)
    requires |frame| % 8 == 0 && limit >= SYNC_LENGTH
    ensures FindSync(Pack(LaidOut(a, frame)), 0, limit) == Some((Pack(AfterSync(a, frame)), SYNC_LENGTH))
  {
    var tail := Pack(AfterSync(a, frame));
    SyncBits(AfterSync(a, frame));
    LaidOutLength(a, frame);
    assert [] + (Ones(12) + tail) == Ones(12) + tail;
    assert [] + ([] + (Ones(12) + tail)) == Ones(12) + tail;
    SyncFound(Pack(LaidOut(a, frame)), [], [], tail, 0, limit);
  }

  predicate Fits(a: Adts) {
    && a.id < 2 && a.layer == 0 && a.protectionAbsent < 2 && a.profile == 1 && a.rateIndex < 12
    && a.channels < 8 && a.length < 8192 && a.fullness < 2048 && a.dataBlocks < 4 && a.crc < 65536
  }

  lemma FittingFields(a: Adts, late: seq<bool>, variable: seq<bool>, frame: seq<bool>, used: nat)
    requires Fits(a) && used == SYNC_LENGTH
    ensures FieldsOf(a, late, variable, frame, used)
         == Complete(Header(a.id, a.protectionAbsent, 1, a.rateIndex, a.channels, a.length, a.fullness, a.dataBlocks,
                            if a.protectionAbsent == 0 then Some(a.crc) else None),
                     frame, if a.protectionAbsent == 0 then 72 else 56)
  {
  }

  /** Round trip: a header with values that fit is parsed at once as what was laid out, in 56 bits, or 72 with a CRC. */
  lemma LaidOutRoundTrip(bits: seq<bool>, a: Adts, frame: seq<bool>, limit: nat)
    requires bits == Pack(LaidOut(a, frame))
    requires Fits(a) && |frame| % 8 == 0 && limit >= SYNC_LENGTH
    ensures Parse(bits, 0, limit)
         == (Found(Header(a.id, a.protectionAbsent, 1, a.rateIndex, a.channels, a.length, a.fullness, a.dataBlocks,
                          if a.protectionAbsent == 0 then Some(a.crc) else None),
                   if a.protectionAbsent == 0 then 72 else 56), frame)
  {
    LaidOutIsFirst(a, frame, limit);
    ParsesLaidOut(bits, a, frame, 0, limit, SYNC_LENGTH);
    FittingFields(a, Pack(AfterLayer(a, Variable(a, frame))), Pack(Variable(a, frame)), frame, SYNC_LENGTH);
  }

  /** The header that a generated one is parsed as. */
  function ParsedHeader(fullness: nat, rate: nat, channels: nat, size: nat): Header {
    Header(0, 1, 1, rate % 16, channels % 8, size % 8192, fullness % 2048, 0, None)
  }

  /**
    Round trip: what gen_codec_buffer writes is parsed at once exactly for rate indices below 12.  The parser
    then uses the 7 bytes of the header and gives back the rate, the channels modulo 8 and the size of the frame
    modulo 8192; a higher rate index makes it go on searching behind the 22 bits it has read.
   */
  lemma RoundTrip(bits: seq<bool>, fullness: nat, rate: nat, channels: nat, size: nat, frame: seq<bool>, limit: nat)
    requires bits == Pack(Generated(fullness, rate, channels, size, frame))
    requires |frame| % 8 == 0 && limit >= SYNC_LENGTH
    ensures rate % 16 < 12 ==>
              Parse(bits, 0, limit) == (Found(ParsedHeader(fullness, rate, channels, size), 8 * HEADER_SIZE), frame)
    ensures rate % 16 >= 12 ==>
              exists r :: |r| == |bits| - 22 && Parse(bits, 0, limit) == Resume(r, SYNC_LENGTH + 10, limit)
  {
    var a := Plain(fullness, rate, channels, size);
    LaidOutIsFirst(a, frame, limit);
    ParsesLaidOut(bits, a, frame, 0, limit, SYNC_LENGTH);
    LaidOutLength(a, frame);
    WidthOfThree(LaidOut(a, frame));
    WidthOfThree(AfterLayer(a, Variable(a, frame)));
  }

  /** The length written is that of the frame alone: what is parsed is never the length with the header. */
  lemma LengthLeavesOutHeader(fullness: nat, rate: nat, channels: nat, size: nat)
    ensures ParsedHeader(fullness, rate, channels, size).frameLength == size % 8192 != (HEADER_SIZE + size) % 8192
  {
  }

  method Decode(buffer: seq<Byte>, limit: nat) returns (o: Outcome)
    ensures o == Parse(BitsOf(buffer), 0, limit).0
  {
    var r := new BitReader(buffer);
    o := GetAdtsHeader(r, limit);
  }

  lemma ParsedExactly(fullness: nat, rate: nat, channels: nat, size: nat)
    requires fullness < 2048 && rate < 12 && channels < 8 && size < 8192
    ensures ParsedHeader(fullness, rate, channels, size) == Header(0, 1, 1, rate, channels, size, fullness, 0, None)
  {
  }

  /** What the decoder gets when it parses a buffer that GenCodecBuffer has made. */
  method GenerateAndParse(rate: nat, channels: nat, frame: seq<Byte>, limit: nat) returns (o: Outcome)
    requires limit >= SYNC_LENGTH && rate % 16 < 12
    ensures o == Found(ParsedHeader(FULLNESS, rate, channels, |frame|), 8 * HEADER_SIZE)
  {
    var buffer := GenCodecBuffer(rate, channels, frame);
    RoundTrip(BitsOf(buffer), FULLNESS, rate, channels, |frame|, BitsOf(frame), limit);
    o := Decode(buffer, limit);
  }
}

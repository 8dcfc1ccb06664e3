/**
  AMR frame headers (src/audio/amr_dec/src/mfw_gst_amrdec.c): the sizes they announce and the quality bit.
*/
module AmrHeaders {
  import opened AacBits
  import opened Helpers

  datatype Format = MMS | IF1 | IF2

  datatype Codec = Narrow(format: Format) | Wide(format: Format) | WidePlus

  // ---------- Frame sizes ----------

  const NB_MMS: seq<nat> := [13, 14, 16, 18, 20, 21, 27, 32, 6, 0, 0, 0, 0, 0, 0, 1]
  const NB_IF1: seq<nat> := [15, 16, 18, 20, 22, 23, 29, 34, 8, 0, 0, 0, 0, 0, 0, 3]
  const NB_IF2: seq<nat> := [13, 14, 16, 18, 19, 21, 26, 31, 6, 0, 0, 0, 0, 0, 0, 1]
  const WB_MMS: seq<nat> := [18, 24, 33, 37, 41, 47, 51, 59, 61, 6, 0, 0, 0, 0, 0, 1]
  const WB_IF1: seq<nat> := [20, 26, 35, 39, 43, 49, 53, 61, 63, 8, 1, 1, 1, 1, 1, 1]
  const WB_IF2: seq<nat> := [18, 23, 33, 37, 41, 47, 51, 59, 61, 6, 1, 1, 1, 1, 1, 1]

  /** Where the frame type sits in the first byte. */
  function Mode(f: Format, header: Byte): (m: nat)
    ensures m < 16
  {
    match f
    case MMS => header / 8 % 16
    case IF1 => header / 16
    case IF2 => header % 16
  }

  function SizeOf(c: Codec, header: Byte): nat {
    match c
    case Narrow(MMS) => NB_MMS[Mode(MMS, header)]
    case Narrow(IF1) => NB_IF1[Mode(IF1, header)]
    case Narrow(IF2) => NB_IF2[Mode(IF2, header)]
    case Wide(MMS) => WB_MMS[Mode(MMS, header)]
    case Wide(IF1) => WB_IF1[Mode(IF1, header)]
    case Wide(IF2) => WB_IF2[Mode(IF2, header)]
    case WidePlus => 0
  }

  /** The quality bit; format IF2 has none. */
  predicate Good(c: Codec, header: Byte) {
    match c
    case WidePlus => true
    case _ => match c.format
      case MMS => header / 4 % 2 == 1
      case IF1 => header / 8 % 2 == 1
      case IF2 => true
  }

  /** Speech and comfort-noise bits of a frame, by frame type (RFC 4867, and 3GPP TS 26.101 and 26.201). */
  const NB_BITS: seq<nat> := [95, 103, 118, 134, 148, 159, 204, 244, 39]
  const WB_BITS: seq<nat> := [132, 177, 253, 285, 317, 365, 397, 461, 477, 40]

  function OctetsFor(bits: nat): nat {
    (bits + 7) / 8
  }

  /** Bits i to j of a number, as a number. */
  lemma FieldValue(b: seq<bool>, i: nat, j: nat)
    requires i <= j <= |b|
    ensures Value(b) / Pow2(|b| - j) % Pow2(j - i) == Value(b[i..j])
  {
    var front, field, back := b[..i], b[i..j], b[j..];
    assert b == (front + field) + back;
    ValueConcat(front + field, back);
    ValueConcat(front, field);
    EncodeValue(back);
    EncodeValue(field);
    DivisionIsUnique(Value(b), Pow2(|back|), Value(front + field), Value(back));
    DivisionIsUnique(Value(front + field), Pow2(|field|), Value(front), Value(field));
  }

  lemma SmallPowers()
    ensures Pow2(2) == 4 && Pow2(3) == 8 && Pow2(4) == 16 && Pow2(8) == 256
  {
    assert Pow2(4) == 16;
    assert Pow2(8) == 16 * Pow2(4);
  }

  lemma MmsType(header: Byte, b: seq<bool>)
    requires |b| == 8 && Value(b) == header
    ensures Mode(MMS, header) == Value(b[1..5])
  {
    SmallPowers();
    FieldValue(b, 1, 5);
  }

  lemma If1Type(header: Byte, b: seq<bool>)
    requires |b| == 8 && Value(b) == header
    ensures Mode(IF1, header) == Value(b[..4])
  {
    SmallPowers();
    FieldValue(b, 0, 4);
    assert b[0..4] == b[..4];
  }

  lemma If2Type(header: Byte, b: seq<bool>)
    requires |b| == 8 && Value(b) == header
    ensures Mode(IF2, header) == Value(b[4..])
  {
    SmallPowers();
    FieldValue(b, 4, 8);
    assert b[4..8] == b[4..];
  }

  /**
    Where the frame type sits among the header's eight bits, the highest first: behind a padding bit in MMS (RFC 4867),
    first in interface format 1 (3GPP TS 26.101 and 26.201), and in the low bits in interface format 2.
   */
  lemma TypeBits(header: Byte, b: seq<bool>)
    requires |b| == 8 && Value(b) == header
    ensures Mode(MMS, header) == Value(b[1..5]) && Mode(IF1, header) == Value(b[..4])
    ensures Mode(IF2, header) == Value(b[4..])
  {
    MmsType(header, b);
    If1Type(header, b);
    If2Type(header, b);
  }

  /** The quality bit comes right behind the type, in MMS and interface format 1; interface format 2 is always good. */
  lemma QualityBits(header: Byte, b: seq<bool>)
    requires |b| == 8 && Value(b) == header
    ensures (Good(Narrow(MMS), header) <==> b[5]) && (Good(Wide(MMS), header) <==> b[5])
    ensures (Good(Narrow(IF1), header) <==> b[4]) && (Good(Wide(IF1), header) <==> b[4])
    ensures Good(Narrow(IF2), header) && Good(Wide(IF2), header)
  {
    SmallPowers();
    EncodeValue(b);
    EncodeBit(header, 8, 5);
    EncodeBit(header, 8, 4);
  }

  /** Section 5.3 of RFC 4867: an octet of header, then the frame's bits padded to octets; NO_DATA is a header alone. */
  lemma MmsSizes(header: Byte)
    ensures var m := Mode(MMS, header);
            && SizeOf(Narrow(MMS), header) == (if m <= 8 then 1 + OctetsFor(NB_BITS[m]) else if m == 15 then 1 else 0)
            && SizeOf(Wide(MMS), header) == (if m <= 9 then 1 + OctetsFor(WB_BITS[m]) else if m == 15 then 1 else 0)
  {
    var m := Mode(MMS, header);
    assert m == 0 || m == 1 || m == 2 || m == 3 || m == 4 || m == 5 || m == 6 || m == 7 || m == 8 || m == 9 || m > 9;
  }

  /** Interface format 1: 24 bits with type, quality, mode and CRC in front of the frame's, padded to octets. */
  lemma If1Sizes(header: Byte)
    ensures var m := Mode(IF1, header);
            && SizeOf(Narrow(IF1), header)
               == (if m <= 8 then OctetsFor(24 + NB_BITS[m]) else if m == 15 then OctetsFor(24) else 0)
            && SizeOf(Wide(IF1), header) == (if m <= 9 then OctetsFor(24 + WB_BITS[m]) else 1)
  {
    var m := Mode(IF1, header);
    assert m == 0 || m == 1 || m == 2 || m == 3 || m == 4 || m == 5 || m == 6 || m == 7 || m == 8 || m == 9 || m > 9;
  }

  /** Interface format 2: the type, for wide band also the quality bit, and the frame's bits, padded to octets. */
  lemma If2Sizes(header: Byte)
    ensures var m := Mode(IF2, header);
            && SizeOf(Narrow(IF2), header)
               == (if m <= 8 then OctetsFor(4 + NB_BITS[m]) else if m == 15 then OctetsFor(4) else 0)
            && SizeOf(Wide(IF2), header) == (if m <= 9 then OctetsFor(5 + WB_BITS[m]) else OctetsFor(5))
  {
    var m := Mode(IF2, header);
    assert m == 0 || m == 1 || m == 2 || m == 3 || m == 4 || m == 5 || m == 6 || m == 7 || m == 8 || m == 9 || m > 9;
  }
}

/**
  Framing of AMR streams (src/audio/amr_dec/src/mfw_gst_amrdec.c): the loop of mfw_gst_amrdec_chain, which cuts
  frames off an adapter that incoming buffers are appended to.

  How a stream is split into buffers should not matter.  It does not as long as every frame starts with a header
  of a known size; the exact condition is given below, since a header without one clears the whole adapter.
*/
module AmrFraming {
  import opened Helpers
  import opened AmrHeaders

  // ---------- Cutting a stream into frames ----------

  /** What the loop needs to know of a codec: the size a header announces, or 0, and whether the frame is undamaged. */
  datatype Framing = Framing(size: Byte -> nat, good: Byte -> bool)

  function FramingOf(c: Codec): Framing {
    Framing((h: Byte) => SizeOf(c, h), (h: Byte) => Good(c, h))
  }

  datatype Piece = Piece(data: seq<Byte>, good: bool)

  /** The frames, and what is left; `bad` when that starts with a header of unknown size. */
  datatype Parsed = Parsed(frames: seq<Piece>, rest: seq<Byte>, bad: bool)

  function Parse(f: Framing, bytes: seq<Byte>): (p: Parsed)
    ensures |p.rest| <= |bytes|
    decreases |bytes|
  {
    if bytes == [] then Parsed([], [], false)
    else
      var size := f.size(bytes[0]);
      if size == 0 then Parsed([], bytes, true)
      else if |bytes| < size then Parsed([], bytes, false)
      else
        InFront([Piece(bytes[..size], f.good(bytes[0]))], Parse(f, bytes[size..]))
  }

  function InFront(frames: seq<Piece>, p: Parsed): Parsed {
    p.(frames := frames + p.frames)
  }

  lemma InFrontTwice(x: seq<Piece>, y: seq<Piece>, p: Parsed)
    ensures InFront(x, InFront(y, p)) == InFront(x + y, p)
  {
    assert x + (y + p.frames) == x + y + p.frames;
  }

  function Joined(frames: seq<Piece>): seq<Byte> {
    if frames == [] then [] else frames[0].data + Joined(frames[1..])
  }

  /** A piece is a frame: it has the size its first byte announces, and is good if that says so. */
  ghost predicate IsFrame(f: Framing, p: Piece) {
    p.data != [] && |p.data| == f.size(p.data[0]) && p.good == f.good(p.data[0])
  }

  /** Framing loses nothing: the frames in order and what is left are the stream; what is left is no whole frame. */
  lemma {:induction false} FramesAreTheStream(f: Framing, bytes: seq<Byte>)
    ensures var p := Parse(f, bytes);
            && bytes == Joined(p.frames) + p.rest
            && (forall i :: 0 <= i < |p.frames| ==> IsFrame(f, p.frames[i]))
            && (p.rest != [] ==> p.bad == (f.size(p.rest[0]) == 0) && (p.bad || |p.rest| < f.size(p.rest[0])))
            && (p.rest == [] ==> !p.bad)
    decreases |bytes|
  {
    if bytes != [] && 0 < f.size(bytes[0]) <= |bytes| {
      var size := f.size(bytes[0]);
      var p := Parse(f, bytes[size..]);
      var first := Piece(bytes[..size], f.good(bytes[0]));
      FramesAreTheStream(f, bytes[size..]);
      assert ([first] + p.frames)[1..] == p.frames;
      assert bytes == bytes[..size] + bytes[size..];
      Assoc(bytes[..size], Joined(p.frames), p.rest);
      forall i | 0 <= i < |[first] + p.frames| ensures IsFrame(f, ([first] + p.frames)[i]) {
        assert i > 0 ==> ([first] + p.frames)[i] == p.frames[i - 1];
      }
    } else {
      assert bytes == Joined([]) + bytes;
    }
  }

  /** What the adapter keeps. */
  function Residue(p: Parsed): seq<Byte> {
    if p.bad then [] else p.rest
  }

  /** Buffer after buffer; the frames come out in order. */
  function Feed(f: Framing, adapter: seq<Byte>, chunks: seq<seq<Byte>>): (seq<Piece>, seq<Byte>)
    decreases |chunks|
  {
    if chunks == [] then ([], adapter)
    else
      var p := Parse(f, adapter + chunks[0]);
      var (frames, rest) := Feed(f, Residue(p), chunks[1..]);
      (p.frames + frames, rest)
  }

  function Flatten(chunks: seq<seq<Byte>>): seq<Byte>
    decreases |chunks|
  {
    if chunks == [] then [] else chunks[0] + Flatten(chunks[1..])
  }

  // ---------- Chunk independence ----------

  lemma FirstFrame(f: Framing, a: seq<Byte>, b: seq<Byte>)
    requires a != [] && 0 < f.size(a[0]) <= |a|
    ensures Parse(f, a + b) == InFront([Piece(a[..f.size(a[0])], f.good(a[0]))], Parse(f, a[f.size(a[0])..] + b))
  {
    var size := f.size(a[0]);
    assert (a + b)[size..] == a[size..] + b && (a + b)[..size] == a[..size];
  }

  /** Parsing can stop anywhere and go on when there is more. */
  lemma {:induction false} ParseMore(f: Framing, a: seq<Byte>, b: seq<Byte>)
    ensures var p := Parse(f, a);
            Parse(f, a + b) == if p.bad then Parsed(p.frames, p.rest + b, true)
                               else InFront(p.frames, Parse(f, p.rest + b))
    decreases |a|
  {
    if a == [] {
      assert a + b == b;
    } else {
      var size := f.size(a[0]);
      if 0 < size <= |a| {
        var first := [Piece(a[..size], f.good(a[0]))];
        var p := Parse(f, a[size..]);
        FirstFrame(f, a, b);
        ParseMore(f, a[size..], b);
        InFrontTwice(first, p.frames, Parse(f, p.rest + b));
      }
    }
  }

  lemma {:induction false} NothingMore(f: Framing, a: seq<Byte>)
    requires !Parse(f, a).bad
    ensures Parse(f, Parse(f, a).rest) == Parsed([], Parse(f, a).rest, false)
    decreases |a|
  {
    if a == [] || f.size(a[0]) == 0 || f.size(a[0]) > |a| {
    } else {
      NothingMore(f, a[f.size(a[0])..]);
    }
  }

  predicate AllBad(f: Framing, bytes: seq<Byte>) {
    forall i :: 0 <= i < |bytes| ==> f.size(bytes[i]) == 0
  }

  /** Every frame has a known size, or what follows the first that has not is all headers of unknown size. */
  predicate Harmless(f: Framing, bytes: seq<Byte>) {
    !Parse(f, bytes).bad || AllBad(f, Parse(f, bytes).rest)
  }

  lemma {:induction false} NothingFromBad(f: Framing, chunks: seq<seq<Byte>>)
    requires AllBad(f, Flatten(chunks))
    ensures Feed(f, [], chunks) == ([], [])
    decreases |chunks|
  {
    if chunks == [] {
    } else {
      var all, first := Flatten(chunks), chunks[0];
      assert first == all[..|first|] && Flatten(chunks[1..]) == all[|first|..];
      assert [] + first == first;
      if first != [] {
        assert first[0] == all[0];
      }
      var p := Parse(f, [] + first);
      assert p.frames == [] && Residue(p) == [];
      BadTail(f, first, Flatten(chunks[1..]));
      NothingFromBad(f, chunks[1..]);
      assert Feed(f, [], chunks) == (p.frames + [], []) && p.frames + [] == [];
    }
  }

  /** Feeding buffer by buffer gives the frames and the residue of the whole. */
  lemma {:induction false} FeedIsParse(f: Framing, adapter: seq<Byte>, chunks: seq<seq<Byte>>)
    requires Parse(f, adapter) == Parsed([], adapter, false)
    requires Harmless(f, adapter + Flatten(chunks))
    ensures var p := Parse(f, adapter + Flatten(chunks)); Feed(f, adapter, chunks) == (p.frames, Residue(p))
    decreases |chunks|
  {
    if chunks == [] {
      assert adapter + Flatten(chunks) == adapter;
    } else {
      var first, later := adapter + chunks[0], Flatten(chunks[1..]);
      Assoc(adapter, chunks[0], later);
      ParseMore(f, first, later);
      var p := Parse(f, first);
      if p.bad {
        BadTail(f, p.rest, later);
        NothingFromBad(f, chunks[1..]);
        assert p.frames + [] == p.frames;
      } else {
        NothingMore(f, first);
        FeedIsParse(f, p.rest, chunks[1..]);
      }
    }
  }

  lemma Assoc(a: seq<Byte>, b: seq<Byte>, c: seq<Byte>)
    ensures a + b + c == a + (b + c)
  {
  }

  lemma BadTail(f: Framing, a: seq<Byte>, b: seq<Byte>)
    requires AllBad(f, a + b)
    ensures AllBad(f, b)
  {
    forall i | 0 <= i < |b| ensures f.size(b[i]) == 0 {
      assert b[i] == (a + b)[|a| + i];
    }
  }

  /** Every way of splitting the stream gives the same frames and leaves the same bytes. */
  ghost predicate ChunkIndependent(f: Framing, stream: seq<Byte>) {
    forall chunks :: Flatten(chunks) == stream ==> Feed(f, [], chunks) == Feed(f, [], [stream])
  }

  lemma FeedWhole(f: Framing, stream: seq<Byte>)
    ensures Feed(f, [], [stream]) == (Parse(f, stream).frames, Residue(Parse(f, stream)))
  {
    assert [] + stream == stream;
    var p := Parse(f, stream);
    assert Feed(f, Residue(p), []) == ([], Residue(p));
    assert p.frames + [] == p.frames;
    assert [stream][1..] == [];
  }

  /** Framing is independent of chunking exactly for the harmless streams. */
  lemma ChunkIndependentExactly(f: Framing, stream: seq<Byte>)
    ensures ChunkIndependent(f, stream) <==> Harmless(f, stream)
  {
    FeedWhole(f, stream);
    if Harmless(f, stream) {
      forall chunks | Flatten(chunks) == stream ensures Feed(f, [], chunks) == Feed(f, [], [stream]) {
        assert [] + Flatten(chunks) == stream;
        FeedIsParse(f, [], chunks);
      }
    } else {
      var rest := Parse(f, stream).rest;
      var k :| 0 <= k < |rest| && f.size(rest[k]) != 0;
      var _ := WholeFrames(f, stream);
      SplitDiffers(f, stream, k);
    }
  }

  /** The bytes in front of what is left are whole frames. */
  lemma {:induction false} WholeFrames(f: Framing, bytes: seq<Byte>) returns (front: seq<Byte>)
    ensures var p := Parse(f, bytes); bytes == front + p.rest && Parse(f, front) == Parsed(p.frames, [], false)
    ensures Parse(f, bytes).bad ==> Parse(f, bytes).rest != [] && f.size(Parse(f, bytes).rest[0]) == 0
    decreases |bytes|
  {
    if bytes != [] && 0 < f.size(bytes[0]) <= |bytes| {
      var size := f.size(bytes[0]);
      var later := WholeFrames(f, bytes[size..]);
      front := bytes[..size] + later;
      assert front[size..] == later && front[..size] == bytes[..size];
      Assoc(bytes[..size], later, Parse(f, bytes).rest);
      assert bytes == bytes[..size] + bytes[size..];
    } else {
      front := [];
      assert bytes == front + bytes;
    }
  }

  /** A split in front of byte k of what a bad header clears: the first part gives all the frames of the whole. */
  lemma SplitBehindBad(f: Framing, stream: seq<Byte>, k: nat) returns (a: seq<Byte>, b: seq<Byte>)
    requires Parse(f, stream).bad && 0 < k < |Parse(f, stream).rest|
    ensures a + b == stream && b == Parse(f, stream).rest[k..]
    ensures Parse(f, a).frames == Parse(f, stream).frames && Parse(f, a).bad
  {
    var rest := Parse(f, stream).rest;
    var front := WholeFrames(f, stream);
    ParseMore(f, front, rest[..k]);
    assert [] + rest[..k] == rest[..k];
    a, b := front + rest[..k], rest[k..];
    Assoc(front, rest[..k], rest[k..]);
    assert rest[..k] + rest[k..] == rest;
    assert Parse(f, rest[..k]) == Parsed([], rest[..k], true);
  }

  /** Splitting in front of a good header behind a bad one lets the parser go on there. */
  lemma SplitDiffers(f: Framing, stream: seq<Byte>, k: nat)
    requires Parse(f, stream).bad && 0 < k < |Parse(f, stream).rest| && f.size(Parse(f, stream).rest[k]) != 0
    ensures !ChunkIndependent(f, stream)
  {
    var a, b := SplitBehindBad(f, stream, k);
    TwoChunks(f, a, b);
    FeedWhole(f, stream);
    var q := Parse(f, b);
    assert q.frames != [] || q == Parsed([], b, false);
    var chunks := [a, b];
    assert Flatten(chunks) == stream && Feed(f, [], chunks) != Feed(f, [], [stream]);
  }

  lemma TwoChunks(f: Framing, a: seq<Byte>, b: seq<Byte>)
    ensures Flatten([a, b]) == a + b
    ensures Feed(f, [], [a, b]) == (Parse(f, a).frames + Feed(f, Residue(Parse(f, a)), [b]).0,
                                    Feed(f, Residue(Parse(f, a)), [b]).1)
    ensures Feed(f, [], [b]) == (Parse(f, b).frames, Residue(Parse(f, b)))
  {
    FeedWhole(f, b);
    assert [a, b][1..] == [b] && [] + a == a && [b][1..] == [] && b + [] == b;
    assert Flatten([b]) == b;
  }

  /** The wide-band formats IF1 and IF2 have no bad headers: there the split never matters. */
  lemma WideNeverBad(format: Format, stream: seq<Byte>)
    requires format == IF1 || format == IF2
    ensures !Parse(FramingOf(Wide(format)), stream).bad && ChunkIndependent(FramingOf(Wide(format)), stream)
  {
    var f := FramingOf(Wide(format));
    ChunkIndependentExactly(f, stream);
    var _ := WholeFrames(f, stream);
    if Parse(f, stream).bad {
      WidePositive(format, Parse(f, stream).rest[0]);
      assert false;
    }
  }

  lemma WidePositive(format: Format, header: Byte)
    requires format == IF1 || format == IF2
    ensures FramingOf(Wide(format)).size(header) > 0
  {
    var m := Mode(format, header);
    assert m == 0 || m == 1 || m == 2 || m == 3 || m == 4 || m == 5 || m == 6 || m == 7 || m == 8 || m == 9 || m > 9;
  }

  // ---------- The element ----------

  datatype Output = Output(data: seq<Byte>, timestamp: int, discont: bool)

  const NO_TIMESTAMP: int := -1

  /** The k-th frame's timestamp, counting from the timestamp at hand. */
  function StampAfter(timestamp: int, duration: nat, k: nat): int {
    if timestamp == NO_TIMESTAMP then NO_TIMESTAMP else timestamp + k * duration
  }

  /** What is handed to the decoder: the good frames, a duration apart; the first after a discontinuity is marked. */
  function Outputs(frames: seq<Piece>, timestamp: int, duration: nat, discont: bool): seq<Output> {
    if frames == [] then []
    else if !frames[0].good then Outputs(frames[1..], timestamp, duration, discont)
    else [Output(frames[0].data, timestamp, discont)]
         + Outputs(frames[1..], StampAfter(timestamp, duration, 1), duration, false)
  }

  function GoodFrames(frames: seq<Piece>): seq<seq<Byte>> {
    if frames == [] then []
    else (if frames[0].good then [frames[0].data] else []) + GoodFrames(frames[1..])
  }

  lemma StampStep(timestamp: int, duration: nat, k: nat)
    requires timestamp >= NO_TIMESTAMP
    ensures StampAfter(StampAfter(timestamp, duration, 1), duration, k) == StampAfter(timestamp, duration, k + 1)
  {
  }

  /** Damaged frames take no time: the outputs are the good frames, one duration apart, only the first marked. */
  lemma {:induction false} OutputsAre(frames: seq<Piece>, timestamp: int, duration: nat, discont: bool, k: nat)
    requires timestamp >= NO_TIMESTAMP && k < |GoodFrames(frames)|
    ensures var o := Outputs(frames, timestamp, duration, discont);
            && |o| == |GoodFrames(frames)|
            && o[k] == Output(GoodFrames(frames)[k], StampAfter(timestamp, duration, k), discont && k == 0)
  {
    if !frames[0].good {
      OutputsAre(frames[1..], timestamp, duration, discont, k);
    } else if k > 0 {
      OutputsAre(frames[1..], StampAfter(timestamp, duration, 1), duration, false, k - 1);
      StampStep(timestamp, duration, k - 1);
    } else {
      OutputsLength(frames, timestamp, duration, discont);
    }
  }

  lemma {:induction false} OutputsLength(frames: seq<Piece>, timestamp: int, duration: nat, discont: bool)
    ensures |Outputs(frames, timestamp, duration, discont)| == |GoodFrames(frames)|
  {
    if frames == [] {
    } else {
      OutputsLength(frames[1..], timestamp, duration, discont);
      OutputsLength(frames[1..], StampAfter(timestamp, duration, 1), duration, false);
    }
  }

  lemma OutputsOfFirst(first: Piece, frames: seq<Piece>, timestamp: int, duration: nat, discont: bool)
    ensures Outputs([first] + frames, timestamp, duration, discont)
         == if first.good then
              [Output(first.data, timestamp, discont)]
              + Outputs(frames, StampAfter(timestamp, duration, 1), duration, false)
            else Outputs(frames, timestamp, duration, discont)
  {
    assert ([first] + frames)[1..] == frames;
  }

  lemma OutputsAssoc(a: seq<Output>, b: seq<Output>, c: seq<Output>)
    ensures a + b + c == a + (b + c)
  {
  }

  /** What a chain function returns. */
  datatype Flow = FlowOk | FlowError | FlowOther(code: int)

  /** The flow after some more frames: that of the last one, an error if it was damaged. */
  function FlowAfter(decoded: nat -> Flow, flow: Flow, count: nat, frames: seq<Piece>): Flow
    decreases |frames|
  {
    if frames == [] then flow
    else FlowAfter(decoded, if frames[0].good then decoded(count) else FlowError, count + 1, frames[1..])
  }

  /** Only the last frame of a buffer has a say in the flow. */
  lemma {:induction false} FlowIsOfLastFrame(decoded: nat -> Flow, flow: Flow, count: nat, frames: seq<Piece>)
    requires frames != []
    ensures FlowAfter(decoded, flow, count, frames)
         == if frames[|frames| - 1].good then decoded(count + |frames| - 1) else FlowError
    decreases |frames|
  {
    if |frames| == 1 {
    } else {
      FlowIsOfLastFrame(decoded, if frames[0].good then decoded(count) else FlowError, count + 1, frames[1..]);
    }
  }

  class AmrDecoder {
    const framing: Framing
    const decoded: nat -> Flow   // what decoding and pushing the k-th frame comes to
    const duration: nat
    var adapter: seq<Byte>
    var timestamp: int
    var discont: bool
    var frameCount: nat

    constructor (codec: Codec, duration: nat, decoded: nat -> Flow)
      ensures framing == FramingOf(codec) && this.duration == duration && this.decoded == decoded
      ensures adapter == [] && timestamp == NO_TIMESTAMP
      ensures !discont && frameCount == 0
    {
      framing, this.duration, this.decoded := FramingOf(codec), duration, decoded;
      adapter, timestamp, discont, frameCount := [], NO_TIMESTAMP, false, 0;
    }

    /** One frame off the front of the adapter. */
    method TakeFrame(size: nat) returns (out: seq<Output>, flow: Flow)
      requires 0 < size <= |adapter| && size == framing.size(adapter[0])
      modifies this
      ensures adapter == old(adapter)[size..] && frameCount == old(frameCount) + 1
      ensures var p := Piece(old(adapter)[..size], framing.good(old(adapter)[0]));
              && (!p.good ==> out == [] && timestamp == old(timestamp) && discont == old(discont))
              && (p.good ==> out == [Output(p.data, old(timestamp), old(discont))] && !discont
                             && timestamp == StampAfter(old(timestamp), duration, 1))
              && flow == if p.good then decoded(old(frameCount)) else FlowError
    {
      var data := adapter[..size];
      var good := framing.good(adapter[0]);
      adapter := adapter[size..];
      out, flow := [], FlowError;
      if good {
        flow := decoded(frameCount);
        out := [Output(data, timestamp, discont)];
        if timestamp != NO_TIMESTAMP {
          timestamp := timestamp + duration;
        }
        discont := false;
      }
      frameCount := frameCount + 1;
    }

    /** What is still to come, behind what has come out, is what the parse q of the whole adapter gives. */
    ghost predicate Cutting(q: Parsed, start: int, marked: bool, count: nat, out: seq<Output>, flow: Flow)
      reads this
    {
      var p := Parse(framing, adapter);
      && p.rest == q.rest && p.bad == q.bad && frameCount + |p.frames| == count + |q.frames|
      && out + Outputs(p.frames, timestamp, duration, discont) == Outputs(q.frames, start, duration, marked)
      && FlowAfter(decoded, flow, frameCount, p.frames) == FlowAfter(decoded, FlowOk, count, q.frames)
    }

    method CutFrame(size: nat, out: seq<Output>,
                    ghost q: Parsed, ghost start: int, ghost marked: bool, ghost count: nat, ghost before: Flow)
      returns (more: seq<Output>, flow: Flow)
      requires 0 < size <= |adapter| && size == framing.size(adapter[0])
      requires Cutting(q, start, marked, count, out, before)
      modifies this
      ensures Cutting(q, start, marked, count, more, flow) && |adapter| < |old(adapter)|
    {
      ghost var first := Piece(adapter[..size], framing.good(adapter[0]));
      ghost var was, at, mark := Parse(framing, adapter), timestamp, discont;
      var one;
      one, flow := TakeFrame(size);
      more := out + one;
      ghost var p := Parse(framing, adapter);
      assert was == InFront([first], p);
      assert ([first] + p.frames)[1..] == p.frames;
      OutputsOfFirst(first, p.frames, at, duration, mark);
      OutputsAssoc(out, one, Outputs(p.frames, timestamp, duration, discont));
    }

    /** The loop of mfw_gst_amrdec_chain. */
    method CutFrames() returns (out: seq<Output>, flow: Flow)
      modifies this
      ensures var p := Parse(framing, old(adapter));
              && adapter == Residue(p) && frameCount == old(frameCount) + |p.frames|
              && flow == (if p.bad then FlowError else FlowAfter(decoded, FlowOk, old(frameCount), p.frames))
              && out == Outputs(p.frames, old(timestamp), duration, old(discont))
    {
      out, flow := [], FlowOk;
      ghost var q := Parse(framing, adapter);
      while |adapter| >= 1
        invariant Cutting(q, old(timestamp), old(discont), old(frameCount), out, flow)
        decreases |adapter|
      {
        var size := framing.size(adapter[0]);
        if size <= 0 {
          adapter := [];
          return out, FlowError;
        }
        if |adapter| < size {
          break;
        }
        out, flow := CutFrame(size, out, q, old(timestamp), old(discont), old(frameCount), flow);
      }
    }

    /** mfw_gst_amrdec_chain: the outputs are the frames handed to the decoder, with the timestamps they get. */
    method Chain(buffer: seq<Byte>, bufferTime: int, bufferDiscont: bool) returns (out: seq<Output>, flow: Flow)
      modifies this
      ensures var before := if bufferDiscont then [] else old(adapter);
              var start := if bufferTime != NO_TIMESTAMP then bufferTime
                           else if bufferDiscont then NO_TIMESTAMP else old(timestamp);
              var p := Parse(framing, before + buffer);
              && adapter == Residue(p) && frameCount == old(frameCount) + |p.frames|
              && flow == (if p.bad then FlowError else FlowAfter(decoded, FlowOk, old(frameCount), p.frames))
              && out == Outputs(p.frames, start, duration, bufferDiscont || old(discont))
    {
      if bufferDiscont {
        adapter, timestamp, discont := [], NO_TIMESTAMP, true;
      }
      if bufferTime != NO_TIMESTAMP {
        timestamp := bufferTime;
      }
      adapter := adapter + buffer;
      out, flow := CutFrames();
    }
  }
}

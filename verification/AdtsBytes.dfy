/**
  The bytes that gen_codec_buffer puts in front of a frame (src/audio/aac_dec/src/mfw_gst_aacdec.c), as numbers.
*/
module AdtsBytes {
  import opened Helpers
  import opened AacBits
  import opened AdtsHeader

  /** Syncword, MPEG-4, no CRC, low complexity, all flags 0, buffer fullness all ones, one raw data block. */
  function HeaderBytes(rate: nat, channels: nat, size: nat): seq<Byte> {
    var r, c, s := rate % 16, channels % 8, size % 8192;
    [0xFF, 0xF1, 0x40 + 4 * r + c / 4, 64 * (c % 4) + s / 2048, s / 8 % 256, 32 * (s % 8) + 0x1F, 0xFC]
  }

  // ---------- Bit strings as numbers ----------

  /** One more field moves from the layout to the bits in front of it, whose number is n. */
  lemma PutNext(before: seq<bool>, n: nat, value: nat, width: nat, p: nat, rest: Layout) returns (next: seq<bool>)
    requires Value(before) == n && p == Pow2(width)
    ensures before + Pack(Put(value, width, rest)) == next + Pack(rest) && |next| == |before| + width
    ensures Value(next) == n * p + value % p
  {
    next := before + Encode(value, width);
    ValueConcat(before, Encode(value, width));
    ValueEncode(value, width);
    Associate(before, Encode(value, width), Pack(rest));
  }

  function ByteNumber(bytes: seq<Byte>, read: nat): nat
    decreases |bytes|
  {
    if bytes == [] then read else ByteNumber(bytes[1..], read * 256 + bytes[0])
  }

  lemma ByteNext(b: Byte, rest: seq<Byte>, read: nat)
    ensures ByteNumber([b] + rest, read) == ByteNumber(rest, read * 256 + b)
  {
    assert ([b] + rest)[1..] == rest;
  }

  lemma {:induction false} BytesValue(before: seq<bool>, n: nat, bytes: seq<Byte>)
    requires Value(before) == n
    ensures Value(before + BitsOf(bytes)) == ByteNumber(bytes, n)
    decreases |bytes|
  {
    if bytes == [] {
      assert before + [] == before;
    } else {
      var field := Encode(bytes[0], 8);
      PowersOfTwo();
      ValueConcat(before, field);
      ValueEncode(bytes[0], 8);
      BytesValue(before + field, n * 256 + bytes[0], bytes[1..]);
      Associate(before, field, BitsOf(bytes[1..]));
    }
  }

  lemma SameValueSameBits(a: seq<bool>, b: seq<bool>)
    requires |a| == |b| && Value(a) == Value(b)
    ensures a == b
  {
    EncodeValue(a);
    EncodeValue(b);
  }

  lemma BitsOfParts(a: seq<Byte>)
    requires a != []
    ensures BitsOf(a)[..8] == Encode(a[0], 8) && BitsOf(a)[8..] == BitsOf(a[1..])
  {
  }

  lemma SameCode(x: nat, y: nat, width: nat)
    requires x < Pow2(width) && y < Pow2(width) && Encode(x, width) == Encode(y, width)
    ensures x == y
  {
    ValueEncode(x, width);
    ValueEncode(y, width);
  }

  lemma {:induction false} SameBitsSameBytes(a: seq<Byte>, b: seq<Byte>)
    requires BitsOf(a) == BitsOf(b)
    ensures a == b
    decreases |a|
  {
    assert 8 * |a| == |BitsOf(a)| == |BitsOf(b)| == 8 * |b|;
    if a == [] {
    } else {
      BitsOfParts(a);
      BitsOfParts(b);
      PowersOfTwo();
      SameCode(a[0], b[0], 8);
      SameBitsSameBytes(a[1..], b[1..]);
    }
  }

  // ---------- The generated header ----------

  /** The first two bytes are the same for all headers. */
  const FIRST: nat := 0xFFF1

  lemma FixedNext(before: seq<bool>, rate: nat, a: Adts, rest: Layout) returns (next: seq<bool>)
    requires Value(before) == 0xFFF && a == Plain(a.fullness, rate, a.channels, a.length)
    ensures before + Pack(Fixed(a, rest)) == next + Pack(rest) && |next| == |before| + 10
    ensures Value(next) == (FIRST * 4 + 1) * 16 + rate % 16
  {
    var r4 := Put(rate, 4, rest);
    var r3 := Put(1, 2, r4);
    var r2 := Put(1, 1, r3);
    PowersOfTwo();
    MorePowersOfTwo();
    next := PutNext(before, 0xFFF, 0, 1, 2, Put(0, 2, r2));
    next := PutNext(next, 0x1FFE, 0, 2, 4, r2);
    next := PutNext(next, 0x7FF8, 1, 1, 2, r3);
    next := PutNext(next, FIRST, 1, 2, 4, r4);
    next := PutNext(next, FIRST * 4 + 1, rate, 4, 16, rest);
  }

  lemma FlagsNext(before: seq<bool>, n: nat, a: Adts, rest: Layout) returns (next: seq<bool>)
    requires Value(before) == n && a == Plain(a.fullness, a.rateIndex, a.channels, a.length)
    ensures before + Pack(Flags(a, rest)) == next + Pack(rest) && |next| == |before| + 8
    ensures Value(next) == (n * 16 + a.channels % 8) * 16
  {
    var r5 := Put(0, 1, rest);
    var r4 := Put(0, 1, r5);
    var r3 := Put(0, 1, r4);
    var r2 := Put(0, 1, r3);
    var m := n * 16 + a.channels % 8;
    MorePowersOfTwo();
    next := PutNext(before, n, 0, 1, 2, Put(a.channels, 3, r2));
    next := PutNext(next, n * 2, a.channels, 3, 8, r2);
    next := PutNext(next, m, 0, 1, 2, r3);
    next := PutNext(next, m * 2, 0, 1, 2, r4);
    next := PutNext(next, m * 4, 0, 1, 2, r5);
    next := PutNext(next, m * 8, 0, 1, 2, rest);
  }

  lemma SizesNext(before: seq<bool>, n: nat, a: Adts, rest: Layout) returns (next: seq<bool>)
    requires Value(before) == n && a == Plain(FULLNESS, a.rateIndex, a.channels, a.length)
    ensures before + Pack(Sizes(a, rest)) == next + Pack(rest) && |next| == |before| + 26
    ensures Value(next) == ((n * 8192 + a.length % 8192) * 2048 + 2047) * 4
  {
    var r2 := Put(0, 2, rest);
    var m := n * 8192 + a.length % 8192;
    MorePowersOfTwo();
    next := PutNext(before, n, a.length, 13, 8192, Put(FULLNESS, 11, r2));
    next := PutNext(next, m, FULLNESS, 11, 2048, r2);
    next := PutNext(next, m * 2048 + 2047, 0, 2, 4, rest);
  }

  lemma VariableNext(before: seq<bool>, n: nat, a: Adts, frame: seq<bool>) returns (next: seq<bool>)
    requires Value(before) == n && a == Plain(FULLNESS, a.rateIndex, a.channels, a.length)
    ensures before + Pack(Variable(a, frame)) == next + frame && |next| == |before| + 34
    ensures Value(next) == (((n * 16 + a.channels % 8) * 16 * 8192 + a.length % 8192) * 2048 + 2047) * 4
  {
    var m := (n * 16 + a.channels % 8) * 16;
    next := FlagsNext(before, n, a, Sizes(a, End(frame)));
    next := SizesNext(next, m, a, End(frame));
  }

  /** The 56 bits of the header, as a number, in front of the frame. */
  lemma HeaderNumber(rate: nat, channels: nat, size: nat, frame: seq<bool>) returns (header: seq<bool>)
    ensures Pack(Generated(FULLNESS, rate, channels, size, frame)) == header + frame && |header| == 56
    ensures Value(header)
         == (((((FIRST * 4 + 1) * 16 + rate % 16) * 16 + channels % 8) * 16 * 8192 + size % 8192) * 2048 + 2047) * 4
  {
    var a := Plain(FULLNESS, rate, channels, size);
    var n := (FIRST * 4 + 1) * 16 + rate % 16;
    PowersOfTwo();
    header := PutNext([], 0, SYNCWORD, SYNC_LENGTH, 4096, AfterSync(a, frame));
    header := FixedNext(header, rate, a, Variable(a, frame));
    header := VariableNext(header, n, a, frame);
    assert [] + Pack(LaidOut(a, frame)) == Pack(LaidOut(a, frame));
  }

  /** Seven bytes as one number. */
  lemma SevenBytes(b2: Byte, b3: Byte, b4: Byte, b5: Byte)
    ensures ByteNumber([0xFF, 0xF1, b2, b3, b4, b5, 0xFC], 0)
         == ((((FIRST * 256 + b2) * 256 + b3) * 256 + b4) * 256 + b5) * 256 + 0xFC
  {
    var n2 := FIRST * 256 + b2;
    var n3 := n2 * 256 + b3;
    var n4 := n3 * 256 + b4;
    var n5 := n4 * 256 + b5;
    ByteNext(0xFC, [], n5);
    ByteNext(b5, [0xFC], n4);
    ByteNext(b4, [b5, 0xFC], n3);
    ByteNext(b3, [b4, b5, 0xFC], n2);
    ByteNext(b2, [b3, b4, b5, 0xFC], FIRST);
    ByteNext(0xF1, [b2, b3, b4, b5, 0xFC], 0xFF);
    ByteNext(0xFF, [0xF1, b2, b3, b4, b5, 0xFC], 0);
    assert [0xFF] + [0xF1, b2, b3, b4, b5, 0xFC] == [0xFF, 0xF1, b2, b3, b4, b5, 0xFC];
    assert [0xF1] + [b2, b3, b4, b5, 0xFC] == [0xF1, b2, b3, b4, b5, 0xFC];
    assert [b2] + [b3, b4, b5, 0xFC] == [b2, b3, b4, b5, 0xFC] && [b3] + [b4, b5, 0xFC] == [b3, b4, b5, 0xFC];
    assert [b4] + [b5, 0xFC] == [b4, b5, 0xFC] && [b5] + [0xFC] == [b5, 0xFC] && [0xFC] + [] == [0xFC];
  }

  /** The same number, field by field and byte by byte. */
  lemma FieldsAreBytes(r: nat, c: nat, s: nat)
    requires r < 16 && c < 8 && s < 8192
    ensures (((((FIRST * 4 + 1) * 16 + r) * 16 + c) * 16 * 8192 + s) * 2048 + 2047) * 4
         == ((((FIRST * 256 + (0x40 + 4 * r + c / 4)) * 256 + (64 * (c % 4) + s / 2048)) * 256 + s / 8 % 256) * 256
            + (32 * (s % 8) + 0x1F)) * 256 + 0xFC
  {
    assert s == 2048 * (s / 2048) + 8 * (s / 8 % 256) + s % 8;
  }

  /** What is laid out is those seven bytes and then the frame. */
  lemma GeneratedBytes(rate: nat, channels: nat, size: nat, frame: seq<Byte>)
    ensures Pack(Generated(FULLNESS, rate, channels, size, BitsOf(frame)))
         == BitsOf(HeaderBytes(rate, channels, size) + frame)
  {
    var r, c, s := rate % 16, channels % 8, size % 8192;
    var bytes := HeaderBytes(rate, channels, size);
    var header := HeaderNumber(rate, channels, size, BitsOf(frame));
    SevenBytes(0x40 + 4 * r + c / 4, 64 * (c % 4) + s / 2048, s / 8 % 256, 32 * (s % 8) + 0x1F);
    FieldsAreBytes(r, c, s);
    BytesValue([], 0, bytes);
    assert [] + BitsOf(bytes) == BitsOf(bytes);
    SameValueSameBits(header, BitsOf(bytes));
    BitsOfConcat(bytes, frame);
  }

  /** gen_codec_buffer, byte for byte. */
  method Generate(rate: nat, channels: nat, frame: seq<Byte>) returns (buffer: seq<Byte>)
    ensures buffer == HeaderBytes(rate, channels, |frame|) + frame
  {
    buffer := GenCodecBuffer(rate, channels, frame);
    GeneratedBytes(rate, channels, |frame|, frame);
    SameBitsSameBytes(buffer, HeaderBytes(rate, channels, |frame|) + frame);
  }
}

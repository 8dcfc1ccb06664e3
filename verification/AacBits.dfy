/**
  Bit strings, and the bit reader and writer of src/audio/aac_dec/src/mfw_gst_aacdec.c.

  A machine word is the sequence of its bits, most significant first, so that shifts and `or` are what
  they are on the machine.  The reader keeps up to 32 bits in a register; it is proved to read the byte
  sequence as one big-endian bit string.  The writer is proved to append to such a string.
*/
module AacBits {
  import opened Helpers

  // ---------- Numbers and their bits ----------

  function Pow2(n: nat): (p: nat)
    ensures p > 0
  {
    if n == 0 then 1 else 2 * Pow2(n - 1)
  }

  function Value(bits: seq<bool>): nat {
    if bits == [] then 0
    else 2 * Value(bits[..|bits| - 1]) + if bits[|bits| - 1] then 1 else 0
  }

  /** The low `width` bits of n. */
  function Encode(n: nat, width: nat): (bits: seq<bool>)
    ensures |bits| == width
  {
    if width == 0 then [] else Encode(n / 2, width - 1) + [n % 2 == 1]
  }

  function Zeros(n: nat): (z: seq<bool>)
    ensures |z| == n
  {
    seq(n, _ => false)
  }

  lemma {:induction false} ValueEncode(n: nat, width: nat)
    ensures Value(Encode(n, width)) == n % Pow2(width)
  {
    if width == 0 {
    } else {
      var bits := Encode(n, width);
      assert bits[..|bits| - 1] == Encode(n / 2, width - 1);
      ValueEncode(n / 2, width - 1);
      Halve(n, Pow2(width - 1));
    }
  }

  /** Quotient and remainder are what they are. */
  lemma DivisionIsUnique(n: nat, p: int, q: int, r: nat)
    requires p > 0 && r < p && n == q * p + r
    ensures n / p == q && n % p == r
  {
    var d := n / p - q;
    assert d * p == n / p * p - q * p == r - n % p;
    if d >= 1 {
      ScaledAtLeast(d, p);
    } else if d <= -1 {
      assert -d * p == -(d * p);
      ScaledAtLeast(-d, p);
    }
  }

  lemma ScaledAtLeast(d: int, p: int)
    requires d >= 1 && p > 0
    ensures d * p >= p
  {
  }

  lemma Halve(n: nat, p: int)
    requires p > 0
    ensures n / 2 / p == n / (2 * p)
    ensures 2 * (n / 2 % p) + n % 2 == n % (2 * p)
  {
    var h := n / 2;
    var q := h / p;
    assert h == q * p + h % p;
    assert n == q * (2 * p) + (2 * (h % p) + n % 2) by {
      assert n == 2 * h + n % 2;
      assert q * (2 * p) == 2 * (q * p);
    }
    DivisionIsUnique(n, 2 * p, q, 2 * (h % p) + n % 2);
  }

  lemma {:induction false} ValueOfZerosAnd(z: nat, bits: seq<bool>)
    ensures Value(Zeros(z) + bits) == Value(bits)
  {
    if bits != [] {
      var all := Zeros(z) + bits;
      assert all[..|all| - 1] == Zeros(z) + bits[..|bits| - 1];
      ValueOfZerosAnd(z, bits[..|bits| - 1]);
    } else {
      assert Zeros(z) + bits == Zeros(z);
      ValueOfZeros(z);
    }
  }

  lemma {:induction false} ValueOfZeros(z: nat)
    ensures Value(Zeros(z)) == 0
  {
    if z == 0 {
    } else {
      assert Zeros(z)[..z - 1] == Zeros(z - 1);
      ValueOfZeros(z - 1);
    }
  }

  lemma {:induction false} EncodeValue(bits: seq<bool>)
    ensures Encode(Value(bits), |bits|) == bits
    ensures Value(bits) < Pow2(|bits|)
  {
    if bits == [] {
    } else {
      EncodeValue(bits[..|bits| - 1]);
    }
  }

  lemma {:induction false} ValueConcat(a: seq<bool>, b: seq<bool>)
    ensures Value(a + b) == Value(a) * Pow2(|b|) + Value(b)
  {
    if b == [] {
      assert a + b == a;
    } else {
      var front := b[..|b| - 1];
      assert (a + b)[..|a + b| - 1] == a + front;
      ValueConcat(a, front);
      DoubleFactor(Value(a), Pow2(|front|));
    }
  }

  lemma DoubleFactor(a: nat, p: nat)
    ensures a * (2 * p) == 2 * (a * p)
  {
  }

  // ---------- Bytes as one bit string ----------

  function BitsOf(bytes: seq<Byte>): (bits: seq<bool>)
    ensures |bits| == 8 * |bytes|
  {
    if bytes == [] then [] else Encode(bytes[0], 8) + BitsOf(bytes[1..])
  }

  lemma {:induction false} BitsOfConcat(a: seq<Byte>, b: seq<Byte>)
    ensures BitsOf(a + b) == BitsOf(a) + BitsOf(b)
  {
    if a == [] {
      assert a + b == b;
    } else {
      assert (a + b)[1..] == a[1..] + b;
      BitsOfConcat(a[1..], b);
    }
  }

  // ---------- Words ----------

  const WORD: nat := 32

  function Shl(w: seq<bool>, n: nat): (r: seq<bool>)
    requires n <= |w|
    ensures |r| == |w|
  {
    w[n..] + Zeros(n)
  }

  function Shr(w: seq<bool>, n: nat): (r: seq<bool>)
    requires n <= |w|
    ensures |r| == |w|
  {
    Zeros(n) + w[..|w| - n]
  }

  function Or(v: seq<bool>, w: seq<bool>): (r: seq<bool>)
    requires |v| == |w|
    ensures |r| == |w|
  {
    seq(|v|, i requires 0 <= i < |v| => v[i] || w[i])
  }

  /** A word whose first bits are `live` and whose others are 0. */
  function Padded(live: seq<bool>): (w: seq<bool>)
    requires |live| <= WORD
    ensures |w| == WORD
  {
    live + Zeros(WORD - |live|)
  }

  lemma ShiftOut(live: seq<bool>, n: nat)
    requires n <= |live| <= WORD
    ensures Shl(Padded(live), n) == Padded(live[n..])
  {
  }

  lemma TakeTop(live: seq<bool>, n: nat)
    requires n <= |live| <= WORD
    ensures Value(Shr(Padded(live), WORD - n)) == Value(live[..n])
  {
    assert Padded(live)[..n] == live[..n];
    ValueOfZerosAnd(WORD - n, live[..n]);
  }

  lemma LoadUnder(live: seq<bool>, byte: seq<bool>)
    requires |live| <= 24 && |byte| == 8
    ensures Or(Padded(live), Shl(Zeros(24) + byte, 24 - |live|)) == Padded(live + byte)
  {
    assert Shl(Zeros(24) + byte, 24 - |live|) == Zeros(|live|) + byte + Zeros(24 - |live|);
  }

  // ---------- Reading ----------

  /** Reading n bits off a bit string: their value, or 0 and nothing consumed when there are too few. */
  function ReadBits(rest: seq<bool>, n: nat): (nat, seq<bool>) {
    if |rest| < n then (0, rest) else (Value(rest[..n]), rest[n..])
  }

  /** A bit string of whole bytes is cut down to a byte boundary. */
  function Align(rest: seq<bool>): seq<bool> {
    rest[|rest| % 8..]
  }

  const BIT_COUNTER_INIT := 24
  const MIN_REQD_BITS := 24

  class BitReader {
    const buffer: seq<Byte>
    var curr: nat
    var register: seq<bool>
    var counter: int
    var bitsInHeader: int
    ghost var live: seq<bool>  // the bits of the register yet to be read

    ghost predicate InRange()
      reads this
    {
      curr <= |buffer| && |live| <= WORD && register == Padded(live) && counter == MIN_REQD_BITS - |live|
    }

    /** The register holds 24 bits or more, unless there are no more bytes. */
    ghost predicate Valid()
      reads this
    {
      InRange() && (|live| >= 24 || curr == |buffer|)
    }

    ghost function Rest(): seq<bool>
      reads this
      requires curr <= |buffer|
    {
      live + BitsOf(buffer[curr..])
    }

    method LoadByte()
      requires InRange() && counter >= 0 && curr < |buffer|
      modifies this`curr, this`register, this`counter, this`live
      ensures InRange() && Rest() == old(Rest()) && curr == old(curr) + 1
    {
      var b := buffer[curr];
      LoadUnder(live, Encode(b, 8));
      register := Or(register, Shl(Zeros(WORD - 8) + Encode(b, 8), counter));
      live := live + Encode(b, 8);
      assert buffer[curr..] == [b] + buffer[curr + 1..];
      curr := curr + 1;
      counter := counter - 8;
    }

    /** The refilling loop that App_bs_readinit and App_bs_read_bits share; there is no second buffer. */
    method Fill()
      requires InRange()
      modifies this`curr, this`register, this`counter, this`live
      ensures Valid() && Rest() == old(Rest())
    {
      while counter >= 0
        invariant InRange() && Rest() == old(Rest())
        decreases |buffer| - curr
      {
        if curr >= |buffer| {
          break;
        }
        LoadByte();
      }
    }

    /** App_bs_readinit */
    constructor (buf: seq<Byte>)
      ensures Valid() && buffer == buf && Rest() == BitsOf(buf) && bitsInHeader == 0
    {
      buffer := buf;
      curr, register, counter, bitsInHeader := 0, Zeros(WORD), BIT_COUNTER_INIT, 0;
      live := [];
      new;
      assert buffer[0..] == buffer;
      Fill();
    }

    /** App_bs_read_bits */
    method Read(n: nat) returns (v: nat)
      requires Valid() && 1 <= n <= 24
      modifies this
      ensures Valid() && (v, Rest()) == ReadBits(old(Rest()), n)
      ensures bitsInHeader == old(bitsInHeader) + n
    {
      bitsInHeader := bitsInHeader + n;
      if MIN_REQD_BITS - counter < n {
        return 0;
      }
      TakeTop(live, n);
      ShiftOut(live, n);
      assert Rest()[..n] == live[..n] && Rest()[n..] == live[n..] + BitsOf(buffer[curr..]);
      v := Value(Shr(register, WORD - n));
      register := Shl(register, n);
      counter := counter + n;
      live := live[n..];
      Fill();
    }

    /** App_bs_byte_align */
    method ByteAlign() returns (n: nat)
      requires Valid()
      modifies this
      ensures Valid() && Rest() == Align(old(Rest()))
      ensures n == |old(Rest())| % 8 && bitsInHeader == old(bitsInHeader) + n
    {
      n := (MIN_REQD_BITS - counter) % 8;
      assert |Rest()| % 8 == n;
      bitsInHeader := bitsInHeader + n;
      ShiftOut(live, n);
      assert Rest()[n..] == live[n..] + BitsOf(buffer[curr..]);
      register := Shl(register, n);
      counter := counter + n;
      live := live[n..];
    }
  }

  // ---------- Writing ----------

  lemma ByteOfBits(bits: seq<bool>)
    requires |bits| == 8
    ensures Value(bits) < 256 && BitsOf([Value(bits)]) == bits
  {
    EncodeValue(bits);
    assert Pow2(8) == 256;
  }

  /** Testing the bits of a number one by one, against a mask that moves right, gives its encoding. */
  lemma {:induction false} EncodeBit(n: nat, width: nat, i: nat)
    requires i < width
    ensures Encode(n, width)[i] <==> n / Pow2(width - 1 - i) % 2 == 1
  {
    if i == width - 1 {
    } else {
      EncodeBit(n / 2, width - 1, i);
      Halve(n, Pow2(width - 2 - i));
    }
  }

  lemma Associate(a: seq<bool>, b: seq<bool>, c: seq<bool>)
    ensures (a + b) + c == a + (b + c)
  {
  }

  class BitWriter {
    var out: seq<Byte>
    var word: seq<bool>        // the byte being put together
    var bit: nat               // the position of the next bit in it, 0 for the mask 0x80
    ghost var begun: seq<bool> // the bits put in so far

    ghost predicate Valid()
      reads this
    {
      bit == |begun| < 8 && word == begun + Zeros(8 - bit)
    }

    ghost function Stream(): seq<bool>
      reads this
    {
      BitsOf(out) + begun
    }

    constructor ()
      ensures Valid() && out == [] && Stream() == []
    {
      out, word, bit := [], Zeros(8), 0;
      begun := [];
    }

    lemma BitIsLength()
      requires Valid()
      ensures bit == |Stream()| % 8
    {
    }

    lemma BytesOnly()
      requires Valid() && bit == 0
      ensures Stream() == BitsOf(out) && |Stream()| == 8 * |out|
    {
      assert BitsOf(out) + [] == BitsOf(out);
    }

    /** A byte that is complete goes out. */
    method PutWord()
      requires bit == |begun| == 8 && word == begun
      modifies this
      ensures Valid() && Stream() == old(Stream())
    {
      ByteOfBits(begun);
      BitsOfConcat(out, [Value(word)]);
      out := out + [Value(word)];
      assert BitsOf(out) + [] == BitsOf(out) && [] + Zeros(8) == Zeros(8);
      word, begun := Zeros(8), [];
      bit := 0;
    }

    method PutBit(b: bool)
      requires Valid()
      modifies this
      ensures Valid() && Stream() == old(Stream()) + [b]
    {
      if b {
        word := word[bit := true];
      }
      begun := begun + [b];
      bit := bit + 1;
      assert word == begun + Zeros(8 - bit);
      Associate(BitsOf(out), old(begun), [b]);
      if bit == 8 {
        assert word == begun;
        PutWord();
      }
    }

    /** PutBits: the low n bits of data, the highest first */
    method PutBits(data: nat, n: nat)
      requires Valid() && 1 <= n <= WORD
      modifies this
      ensures Valid() && Stream() == old(Stream()) + Encode(data, n)
    {
      var left := n;
      assert Encode(data, n)[..0] == [];
      while left > 0
        invariant Valid() && left <= n
        invariant Stream() == old(Stream()) + Encode(data, n)[..n - left]
      {
        var mask := Pow2(left - 1);
        EncodeBit(data, n, n - left);
        PutBit(data / mask % 2 == 1);
        assert Encode(data, n)[..n - left + 1] == Encode(data, n)[..n - left] + [Encode(data, n)[n - left]];
        left := left - 1;
      }
      assert Encode(data, n)[..n] == Encode(data, n);
    }
  }
}

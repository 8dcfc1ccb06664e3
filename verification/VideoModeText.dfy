/**
  Video modes as text (libs/vss/mfw_gst_vss_common.c): video_mode_to_str prints one the way the framebuffer
  driver does, video_mode_from_str reads one back.
*/
module VideoModeText {

  datatype VideoMode = VideoMode(resx: int, resy: int, interleave: int, hz: int)

  // ---------- Numbers as text ----------

  predicate IsDigit(c: char) {
    '0' <= c <= '9'
  }

  predicate IsSpace(c: char) {
    c == ' ' || '\t' <= c <= '\r'
  }

  function Digit(n: nat): (c: char)
    requires n < 10
    ensures IsDigit(c) && c as int - '0' as int == n
  {
    ('0' as int + n) as char
  }

  function Digits(n: nat): (s: string)
    ensures s != [] && forall i :: 0 <= i < |s| ==> IsDigit(s[i])
  {
    if n < 10 then [Digit(n)] else Digits(n / 10) + [Digit(n % 10)]
  }

  /** %d */
  function Decimal(n: int): (s: string)
    ensures s != [] && (IsDigit(s[0]) || s[0] == '-')
    ensures n >= 0 ==> IsDigit(s[0])
    ensures forall i :: 0 <= i < |s| ==> IsDigit(s[i]) || s[i] == '-'
  {
    if n < 0 then "-" + Digits(-n) else Digits(n)
  }

  /** The digits at the front of s, after what has been read. */
  function Number(s: string, read: nat): nat {
    if s == [] || !IsDigit(s[0]) then read else Number(s[1..], 10 * read + (s[0] as int - '0' as int))
  }

  /** atoi */
  function Atoi(s: string): int {
    if s == [] then 0
    else if IsSpace(s[0]) then Atoi(s[1..])
    else if s[0] == '-' then 0 - Number(s[1..], 0)
    else if s[0] == '+' then Number(s[1..], 0)
    else Number(s, 0)
  }

  lemma {:induction false} NumberOfDigits(n: nat, tail: string)
    ensures Number(Digits(n) + tail, 0) == Number(tail, n)
  {
    if n < 10 {
      assert ([Digit(n)] + tail)[1..] == tail;
    } else {
      var last := [Digit(n % 10)] + tail;
      assert Digits(n) + tail == Digits(n / 10) + last;
      NumberOfDigits(n / 10, last);
      assert last[1..] == tail;
    }
  }

  lemma AtoiPlain(s: string)
    requires s != [] && IsDigit(s[0])
    ensures Atoi(s) == Number(s, 0)
  {
  }

  lemma AtoiMinus(s: string)
    requires s != [] && s[0] == '-'
    ensures Atoi(s) == 0 - Number(s[1..], 0)
  {
  }

  lemma NumberEnds(tail: string, n: nat)
    requires tail == [] || !IsDigit(tail[0])
    ensures Number(tail, n) == n
  {
  }

  lemma MinusParts(digits: string, tail: string)
    ensures ("-" + digits + tail)[1..] == digits + tail
  {
  }

  /** Reading what was printed, up to anything that is not a digit. */
  lemma AtoiOfDecimal(n: int, tail: string)
    requires tail == [] || !IsDigit(tail[0])
    ensures Atoi(Decimal(n) + tail) == n
  {
    var digits := Digits(if n < 0 then -n else n);
    NumberOfDigits(if n < 0 then -n else n, tail);
    NumberEnds(tail, if n < 0 then -n else n);
    if n < 0 {
      MinusParts(digits, tail);
      AtoiMinus("-" + digits + tail);
    } else {
      AtoiPlain(digits + tail);
    }
  }

  // ---------- Searching ----------

  /** strchr: the position of the first c, or the length. */
  function Find(s: string, c: char): (i: nat)
    ensures i <= |s| && (i < |s| ==> s[i] == c) && c !in s[..i]
  {
    if s == [] || s[0] == c then 0 else 1 + Find(s[1..], c)
  }

  lemma {:induction false} FindBehind(a: string, c: char, b: string)
    requires c !in a
    ensures Find(a + [c] + b, c) == |a|
  {
    if a == [] {
    } else {
      assert (a + [c] + b)[1..] == a[1..] + [c] + b;
      FindBehind(a[1..], c, b);
    }
  }

  // ---------- Printing and parsing ----------

  /** What is printed behind the 'x'. */
  function RestOf(m: VideoMode): string {
    Decimal(m.resy) + (if m.interleave != 0 then "i" else "p") + "-" + Decimal(m.hz) + "\n"
  }

  /** video_mode_to_str */
  function ToStr(m: VideoMode): string {
    "U:" + Decimal(m.resx) + "x" + RestOf(m)
  }

  /** The part of video_mode_from_str behind the 'x'. */
  function ReadRest(value: string, vm: VideoMode): (bool, VideoMode) {
    var m := vm.(resy := Atoi(value));
    var k := Find(value, '-');
    if m.resy == 0 || k == |value| then (false, m)
    else if k == 0 || (value[k - 1] != 'p' && value[k - 1] != 'i') then (false, m)
    else
      var n := m.(interleave := if value[k - 1] == 'p' then 0 else 1, hz := Atoi(value[k + 1..]));
      (n.hz != 0, n)
  }

  /** video_mode_from_str: whether it succeeds, and what it makes of the mode, which it changes even if it fails. */
  function FromStr(text: string, vm: VideoMode): (bool, VideoMode) {
    var i := Find(text, ':');
    if i == |text| then (false, vm)
    else
      var value := text[i + 1..];
      var j := Find(value, 'x');
      if j == |value| then (false, vm)
      else
        var m := vm.(resx := Atoi(value[..j]));
        if m.resx == 0 then (false, m) else ReadRest(value[j + 1..], m)
  }

  function Normalised(m: VideoMode): VideoMode {
    m.(interleave := if m.interleave == 0 then 0 else 1)
  }

  lemma RestRoundTrip(m: VideoMode, vm: VideoMode)
    requires vm.resx == m.resx
    ensures var (ok, n) := ReadRest(RestOf(m), vm);
            && (ok <==> m.resy > 0 && m.hz != 0)
            && (ok ==> n == Normalised(m))
  {
    var mode := if m.interleave != 0 then "i" else "p";
    var last := Decimal(m.hz) + "\n";
    var front := Decimal(m.resy) + mode;
    var value := front + "-" + last;
    assert RestOf(m) == value;
    assert value == Decimal(m.resy) + (mode + "-" + last);
    AtoiOfDecimal(m.resy, mode + "-" + last);
    AtoiOfDecimal(m.hz, "\n");
    if m.resy >= 0 {
      NoMinus(m.resy);
      FindBehind(front, '-', last);
      assert value[|front| - 1] == mode[0] && value[|front| + 1..] == last;
    } else {
      assert value[0] == '-';
    }
  }

  lemma NoMinus(n: nat)
    ensures '-' !in Decimal(n)
  {
  }

  /** Parsing takes the text apart where it was put together. */
  lemma PartsAreFound(u: string, width: string, rest: string, vm: VideoMode)
    requires ':' !in u && 'x' !in width
    ensures var m := vm.(resx := Atoi(width));
            FromStr(u + [':'] + (width + ['x'] + rest), vm) == if m.resx == 0 then (false, m) else ReadRest(rest, m)
  {
    var value := width + ['x'] + rest;
    var text := u + [':'] + value;
    FindBehind(u, ':', value);
    FindBehind(width, 'x', rest);
    assert text[|u| + 1..] == value;
    assert value[..|width|] == width && value[|width| + 1..] == rest;
  }

  lemma NoLetter(n: int)
    ensures 'x' !in Decimal(n)
  {
  }

  lemma PrintedParts(m: VideoMode)
    ensures ToStr(m) == "U" + [':'] + (Decimal(m.resx) + ['x'] + RestOf(m))
  {
  }

  /**
    Round trip, for all modes: parsing a printed mode succeeds exactly if the width and the rate are not 0 and the
    height is positive, and then gives the mode back, with the interleaving flag as 0 or 1.
   */
  lemma RoundTripExactly(m: VideoMode, vm: VideoMode)
    ensures var (ok, n) := FromStr(ToStr(m), vm);
            && (ok <==> m.resx != 0 && m.resy > 0 && m.hz != 0)
            && (ok ==> n == Normalised(m))
  {
    PrintedParts(m);
    NoLetter(m.resx);
    PartsAreFound("U", Decimal(m.resx), RestOf(m), vm);
    assert Decimal(m.resx) + [] == Decimal(m.resx);
    AtoiOfDecimal(m.resx, []);
    RestRoundTrip(m, vm.(resx := m.resx));
  }

  // ---------- Any text ----------

  /** The white space that atoi skips: space, tab, line feed, vertical tab, form feed and carriage return. */
  predicate White(c: char) {
    c in {' ', '\t', '\n', 11 as char, 12 as char, '\r'}
  }

  predicate Blank(s: string) {
    forall i :: 0 <= i < |s| ==> White(s[i])
  }

  lemma {:induction false} BlanksAreSkipped(blanks: string, s: string)
    requires Blank(blanks)
    ensures Atoi(blanks + s) == Atoi(s)
    decreases |blanks|
  {
    if blanks == [] {
      assert blanks + s == s;
    } else {
      assert White(blanks[0]);
      assert (blanks + s)[1..] == blanks[1..] + s;
      BlanksAreSkipped(blanks[1..], s);
    }
  }

  /** Behind white space, a sign or none, the digits up to anything else are read; no digits count as 0. */
  lemma SignedIsRead(blanks: string, sign: string, number: string)
    requires Blank(blanks) && sign in {"", "+", "-"}
    requires number != [] ==> number[0] != '+' && number[0] != '-' && !White(number[0])
    ensures Atoi(blanks + (sign + number)) == if sign == "-" then 0 - Number(number, 0) else Number(number, 0)
  {
    BlanksAreSkipped(blanks, sign + number);
    if sign == "" {
      assert sign + number == number;
    } else {
      assert (sign + number)[1..] == number;
    }
  }

  lemma NumberIsRead(n: nat, tail: string)
    requires tail == [] || !IsDigit(tail[0])
    ensures Number(Digits(n) + tail, 0) == n && Number(tail, 0) == 0
  {
    NumberOfDigits(n, tail);
    NumberEnds(tail, n);
    NumberEnds(tail, 0);
  }

  lemma {:induction false} NotFound(s: string, c: char)
    requires c !in s
    ensures Find(s, c) == |s|
  {
    if s == [] {
    } else {
      NotFound(s[1..], c);
    }
  }

  /** Without a colon, or an x behind it, parsing fails and assigns nothing. */
  lemma WithoutSeparatorsFails(u: string, value: string, vm: VideoMode)
    ensures ':' !in u ==> FromStr(u, vm) == (false, vm)
    ensures ':' !in u && 'x' !in value ==> FromStr(u + [':'] + value, vm) == (false, vm)
  {
    if ':' !in u {
      NotFound(u, ':');
      if 'x' !in value {
        FindBehind(u, ':', value);
        NotFound(value, 'x');
        assert (u + [':'] + value)[|u| + 1..] == value;
      }
    }
  }

  /** Without a dash behind the x it fails too, with width and, unless the width is 0, height assigned. */
  lemma WithoutRateFails(u: string, width: string, rest: string, vm: VideoMode)
    requires ':' !in u && 'x' !in width && '-' !in rest
    ensures var (ok, m) := FromStr(u + [':'] + (width + ['x'] + rest), vm);
            && !ok && m == vm.(resx := Atoi(width), resy := if Atoi(width) == 0 then vm.resy else Atoi(rest))
  {
    PartsAreFound(u, width, rest, vm);
    NotFound(rest, '-');
  }

  /**
    With all separators, parsing succeeds exactly if the three numbers are not 0 and the letter in front of the dash is
    p or i, whatever else is in the text; and then it has read all four values.
   */
  lemma SucceedsExactly(u: string, width: string, front: string, last: string, vm: VideoMode)
    requires ':' !in u && 'x' !in width && '-' !in front
    ensures var rest := front + ['-'] + last;
            var (ok, m) := FromStr(u + [':'] + (width + ['x'] + rest), vm);
            && (ok <==> Atoi(width) != 0 && Atoi(rest) != 0 && Atoi(last) != 0
                        && front != [] && front[|front| - 1] in {'p', 'i'})
            && (ok ==> m == vm.(resx := Atoi(width), resy := Atoi(rest), hz := Atoi(last),
                                interleave := if front[|front| - 1] == 'i' then 1 else 0))
  {
    var rest := front + ['-'] + last;
    PartsAreFound(u, width, rest, vm);
    FindBehind(front, '-', last);
    assert rest[|front| + 1..] == last;
    assert front != [] ==> rest[|front| - 1] == front[|front| - 1];
  }

  // ---------- The loops ----------

  method StrChr(s: string, c: char) returns (i: nat)
    ensures i == Find(s, c)
  {
    i := 0;
    assert s[0..] == s;
    while i < |s| && s[i] != c
      invariant i <= |s| && Find(s, c) == i + Find(s[i..], c)
    {
      assert s[i..][1..] == s[i + 1..];
      i := i + 1;
    }
  }

  method ParseInt(s: string) returns (n: int)
    ensures n == Atoi(s)
  {
    var i := 0;
    assert s[0..] == s;
    while i < |s| && IsSpace(s[i])
      invariant i <= |s| && Atoi(s[i..]) == Atoi(s)
    {
      assert s[i..][1..] == s[i + 1..];
      i := i + 1;
    }
    var negative := i < |s| && s[i] == '-';
    ghost var signed := i;
    if i < |s| && (s[i] == '-' || s[i] == '+') {
      i := i + 1;
    }
    var read: nat := 0;
    assert Atoi(s) == if negative then 0 - Number(s[i..], 0) else Number(s[i..], 0);
    while i < |s| && IsDigit(s[i])
      invariant i <= |s| && Atoi(s) == if negative then 0 - Number(s[i..], read) else Number(s[i..], read)
    {
      assert s[i..][1..] == s[i + 1..];
      read := 10 * read + (s[i] as int - '0' as int);
      i := i + 1;
    }
    n := if negative then 0 - read else read;
  }

  method ReadHeightAndRate(rest: string, vm: VideoMode) returns (ok: bool, m: VideoMode)
    ensures (ok, m) == ReadRest(rest, vm)
  {
    var resy := ParseInt(rest);
    m := vm.(resy := resy);
    if m.resy == 0 {
      return false, m;
    }
    var k := StrChr(rest, '-');
    if k == |rest| {
      return false, m;
    }
    if k > 0 && rest[k - 1] == 'p' {
      m := m.(interleave := 0);
    } else if k > 0 && rest[k - 1] == 'i' {
      m := m.(interleave := 1);
    } else {
      return false, m;
    }
    var hz := ParseInt(rest[k + 1..]);
    m := m.(hz := hz);
    return m.hz != 0, m;
  }

  /** video_mode_from_str */
  method VideoModeFromStr(text: string, vm: VideoMode) returns (ok: bool, m: VideoMode)
    ensures (ok, m) == FromStr(text, vm)
  {
    m := vm;
    var i := StrChr(text, ':');
    if i == |text| {
      return false, m;
    }
    var value := text[i + 1..];
    var j := StrChr(value, 'x');
    if j == |value| {
      return false, m;
    }
    var resx := ParseInt(value[..j]);
    m := m.(resx := resx);
    if m.resx == 0 {
      return false, m;
    }
    ok, m := ReadHeightAndRate(value[j + 1..], m);
  }
}

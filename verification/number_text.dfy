/** Numbers as preference text: IntToString, and the C conversions that read it back. */
module NumberText {
  import opened Base

  const LONG_MAX := 0x7fff_ffff_ffff_ffff
  const LONG_MIN := -0x8000_0000_0000_0000

  predicate IsDigit(c: char) { '0' <= c <= '9' }

  function DigitOf(n: nat): char
    requires n < 10
  {
    '0' + n as char
  }

  function ValueOf(c: char): nat
    requires IsDigit(c)
  {
    c as int - '0' as int
  }

  function IntToString(n: nat): (s: string)
    ensures s != [] && forall i :: 0 <= i < |s| ==> IsDigit(s[i])
  {
    if n < 10 then [DigitOf(n)] else IntToString(n / 10) + [DigitOf(n % 10)]
  }

  /** The number the leading digits of s spell, after digits worth acc. */
  function Spelled(s: string, acc: nat): nat
    decreases |s|
  {
    if s == [] || !IsDigit(s[0]) then acc else Spelled(s[1..], 10 * acc + ValueOf(s[0]))
  }

  lemma {:induction false} SpelledSnoc(s: string, c: char, acc: nat)
    requires IsDigit(c) && forall i :: 0 <= i < |s| ==> IsDigit(s[i])
    ensures Spelled(s + [c], acc) == 10 * Spelled(s, acc) + ValueOf(c)
    decreases |s|
  {
    if s == [] {
      assert Spelled([], 10 * acc + ValueOf(c)) == 10 * acc + ValueOf(c);
      assert ([] + [c])[1..] == [];
    } else {
      assert (s + [c])[1..] == s[1..] + [c];
      SpelledSnoc(s[1..], c, 10 * acc + ValueOf(s[0]));
    }
  }

  lemma {:induction false} TextRoundTrip(n: nat)
    ensures Spelled(IntToString(n), 0) == n
    decreases n
  {
    if n >= 10 {
      TextRoundTrip(n / 10);
      SpelledSnoc(IntToString(n / 10), DigitOf(n % 10), 0);
    } else {
      assert [DigitOf(n)][1..] == [];
    }
  }

  function SkipSpace(s: string): string {
    if s != [] && (s[0] == ' ' || '\t' <= s[0] <= '\r') then SkipSpace(s[1..]) else s
  }

  /** What strtol finds: a number if there are digits at all, and whether it was out of range. */
  datatype Parsed = Parsed(digits: bool, value: int, outOfRange: bool)

  /** strtol(s, &end, 10) for a 64-bit long */
  function Strtol(s: string): Parsed {
    var t := SkipSpace(s);
    var negative := t != [] && t[0] == '-';
    var u := if t != [] && (t[0] == '-' || t[0] == '+') then t[1..] else t;
    if u == [] || !IsDigit(u[0]) then Parsed(false, 0, false)
    else
      var v: int := if negative then -(Spelled(u, 0) as int) else Spelled(u, 0);
      if v > LONG_MAX then Parsed(true, LONG_MAX, true)
      else if v < LONG_MIN then Parsed(true, LONG_MIN, true)
      else Parsed(true, v, false)
  }

  /** StringToUInt8 */
  function StringToUInt8(s: string): Option<Byte> {
    var p := Strtol(s);
    if s == [] || p.value < 0 || !p.digits then None
    else
      var v := p.value % 0x1_0000_0000;
      if v > 0xff then None else Some(v)
  }

  /** How RestorePortPatchings reads a universe id: through an int, skipping what is negative. */
  function ReadUniverse(s: string): Option<nat> {
    var p := Strtol(s);
    var id := ToInt32(p.value);
    if s == [] || (id == 0 && p.outOfRange) || id < 0 then None else Some(id)
  }

  lemma StrtolOfNumber(n: nat)
    requires n <= LONG_MAX
    ensures Strtol(IntToString(n)) == Parsed(true, n, false)
  {
    TextRoundTrip(n);
    assert IsDigit(IntToString(n)[0]);
  }

  /** A 32-bit universe id is read back if and only if it fits an int. */
  lemma UniverseRoundTrip(u: nat)
    requires u < 0x1_0000_0000
    ensures ReadUniverse(IntToString(u)) == if u < 0x8000_0000 then Some(u) else None
  {
    StrtolOfNumber(u);
    IntOfUnsigned(u);
    hide Strtol, IntToString, ToInt32;
  }

  /** What any number is read as: through a long, which saturates, and an int, which wraps. */
  lemma NumberIsReadAs(n: nat)
    ensures
      var m := n % 0x1_0000_0000;
      ReadUniverse(IntToString(n)) == if n <= LONG_MAX && m < 0x8000_0000 then Some(m) else None
  {
    if n <= LONG_MAX {
      StrtolOfNumber(n);
    } else {
      TextRoundTrip(n);
      assert IsDigit(IntToString(n)[0]);
      assert Strtol(IntToString(n)) == Parsed(true, LONG_MAX, true);
    }
    hide Strtol, IntToString;
  }

  /** A negative number is skipped unless the int it is cast to has wrapped around to a positive one. */
  lemma NegativeIsReadAs(n: nat)
    requires 0 < n < 0x1_0000_0000
    ensures ReadUniverse("-" + IntToString(n)) == if n <= 0x8000_0000 then None else Some(0x1_0000_0000 - n)
  {
    TextRoundTrip(n);
    var s := "-" + IntToString(n);
    assert s[0] == '-' && s[1..] == IntToString(n);
    assert Strtol(s) == Parsed(true, -(n as int), false);
    hide Strtol, IntToString;
  }

  lemma {:induction false} SpelledStops(s: string, tail: string, acc: nat)
    requires forall i :: 0 <= i < |s| ==> IsDigit(s[i])
    requires tail == [] || !IsDigit(tail[0])
    ensures Spelled(s + tail, acc) == Spelled(s, acc)
    decreases |s|
  {
    if s == [] {
      assert s + tail == tail;
    } else {
      assert (s + tail)[1..] == s[1..] + tail;
      SpelledStops(s[1..], tail, 10 * acc + ValueOf(s[0]));
    }
  }

  lemma {:induction false} SkipsSpaces(spaces: string, s: string)
    requires forall i :: 0 <= i < |spaces| ==> spaces[i] == ' '
    requires s != [] && IsDigit(s[0])
    ensures SkipSpace(spaces + s) == s
    decreases |spaces|
  {
    if spaces == [] {
      assert spaces + s == s;
    } else {
      assert (spaces + s)[1..] == spaces[1..] + s;
      SkipsSpaces(spaces[1..], s);
    }
  }

  /** Blanks in front of a number and anything but a digit behind it make no difference. */
  lemma PaddingIsIgnored(spaces: string, n: nat, tail: string)
    requires forall i :: 0 <= i < |spaces| ==> spaces[i] == ' '
    requires tail == [] || !IsDigit(tail[0])
    ensures Strtol(spaces + IntToString(n) + tail) == Strtol(IntToString(n))
  {
    var digits := IntToString(n);
    var s := digits + tail;
    assert spaces + digits + tail == spaces + s;
    assert s[0] == digits[0] && IsDigit(digits[0]);
    SkipsSpaces(spaces, s);
    SkipsSpaces("", digits);
    assert "" + digits == digits;
    SpelledStops(digits, tail, 0);
    hide IntToString, Spelled, SkipSpace;
  }

  lemma IntOfUnsigned(u: nat)
    requires u < 0x1_0000_0000
    ensures ToInt32(u) == if u < 0x8000_0000 then u else u - 0x1_0000_0000
  {}

  lemma ByteRoundTrip(b: Byte)
    ensures StringToUInt8(IntToString(b)) == Some(b)
  {
    StrtolOfNumber(b);
    hide Strtol, IntToString;
    assert b % 0x1_0000_0000 == b;
  }

  /** A number is accepted as a byte if and only if it is one. */
  lemma ByteIff(n: nat)
    requires n < 0x1_0000_0000
    ensures StringToUInt8(IntToString(n)) == if n < 256 then Some(n) else None
  {
    StrtolOfNumber(n);
    hide Strtol, IntToString;
    assert n % 0x1_0000_0000 == n;
  }

  lemma TextIsInjective(a: nat, b: nat)
    requires IntToString(a) == IntToString(b)
    ensures a == b
  {
    TextRoundTrip(a);
    TextRoundTrip(b);
  }
}

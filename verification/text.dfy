/** The string operations the tool relies on from the .NET runtime:
    prefix and substring tests, ASCII lower-casing, and the integer parsers
    `uint.Parse`, `int.Parse`, `byte.TryParse` and hexadecimal `uint.Parse`,
    restricted to inputs without surrounding white space. */
module Text {
  import opened Wrappers

  const UInt32Max: nat := 0xFFFF_FFFF
  const Int32Min: int := -0x8000_0000
  const Int32Max: int := 0x7FFF_FFFF
  const ByteMax: nat := 0xFF

  predicate StartsWith(s: string, prefix: string) {
    |prefix| <= |s| && s[..|prefix|] == prefix
  }

  /** `part` occurs somewhere inside `s` (`string.Contains`). */
  predicate Contains(s: string, part: string) {
    exists i :: 0 <= i <= |s| - |part| && OccursAt(s, part, i)
  }

  predicate OccursAt(s: string, part: string, i: int)
    requires 0 <= i <= |s| - |part|
  {
    s[i..i + |part|] == part
  }

  function LowerChar(c: char): char {
    if 'A' <= c <= 'Z' then (c as int + 32) as char else c
  }

  /** Lower-casing, restricted to the ASCII letters. */
  function ToLower(s: string): string {
    seq(|s|, i requires 0 <= i < |s| => LowerChar(s[i]))
  }

  lemma ToLowerIdempotent(s: string)
    ensures ToLower(ToLower(s)) == ToLower(s)
  {
  }

  // ---------------------------------------------------------------------
  // Digits in base 10 or 16

  predicate IsBase(base: nat) {
    base == 10 || base == 16
  }

  function DigitValue(c: char, base: nat): (d: Option<nat>)
    requires IsBase(base)
    ensures d.Some? ==> d.value < base
  {
    if '0' <= c <= '9' then Some(c as int - '0' as int)
    else if base == 16 && 'a' <= c <= 'f' then Some(c as int - 'a' as int + 10)
    else if base == 16 && 'A' <= c <= 'F' then Some(c as int - 'A' as int + 10)
    else None
  }

  /** The value of a non-empty digit string, most significant digit first;
      `None` when `s` is empty or holds a character that is not a digit. */
  function DigitsValue(s: string, base: nat): (r: Option<nat>)
    requires IsBase(base)
    ensures r.Some? <==> |s| > 0 && forall i :: 0 <= i < |s| ==> DigitValue(s[i], base).Some?
    decreases |s|
  {
    if |s| == 0 then None
    else
      var last := DigitValue(s[|s| - 1], base);
      if last.None? then None
      else if |s| == 1 then last
      else match DigitsValue(s[..|s| - 1], base)
        case None => None
        case Some(high) => Some(high * base + last.value)
  }

  function DigitChar(d: nat, base: nat): (c: char)
    requires IsBase(base) && d < base
    ensures DigitValue(c, base) == Some(d)
  {
    if d < 10 then ('0' as int + d) as char else ('a' as int + d - 10) as char
  }

  /** The shortest digit string of `n` (lower-case letters for base 16). */
  function Digits(n: nat, base: nat): (s: string)
    requires IsBase(base)
    ensures |s| > 0 && ('0' <= s[0] <= '9' || 'a' <= s[0] <= 'f')
    decreases n
  {
    if n < base then [DigitChar(n, base)]
    else Digits(n / base, base) + [DigitChar(n % base, base)]
  }

  lemma {:induction false} DigitsRoundTrip(n: nat, base: nat)
    requires IsBase(base)
    ensures DigitsValue(Digits(n, base), base) == Some(n)
    decreases n
  {
    if n >= base {
      var s := Digits(n, base);
      DigitsRoundTrip(n / base, base);
      assert s[..|s| - 1] == Digits(n / base, base);
    }
  }

  // ---------------------------------------------------------------------
  // The runtime's parsers

  /** `uint.Parse(s)`: an optional sign, then decimal digits, at most
      4294967295. A `-` sign is accepted only before a zero value, so
      `"-0"` parses as 0. `None` stands for the exception it raises
      otherwise. */
  function ParseUInt(s: string): (r: Option<nat>)
    ensures r.Some? ==> r.value <= UInt32Max
    ensures r.Some? && StartsWith(s, "-") ==> r.value == 0
  {
    var negative := StartsWith(s, "-");
    var body := if negative || StartsWith(s, "+") then s[1..] else s;
    match DigitsValue(body, 10)
    case Some(v) => if v <= UInt32Max && (!negative || v == 0) then Some(v) else None
    case None => None
  }

  /** `byte.TryParse(s, out b)`: as `ParseUInt`, but at most 255. */
  function ParseByte(s: string): (r: Option<nat>)
    ensures r.Some? ==> r.value <= ByteMax
    ensures r.Some? ==> ParseUInt(s) == r
  {
    match ParseUInt(s)
    case Some(v) => if v <= ByteMax then Some(v) else None
    case None => None
  }

  /** `int.Parse(s)`: an optional sign, then decimal digits, within the
      32-bit signed range. */
  function ParseInt(s: string): (r: Option<int>)
    ensures r.Some? ==> Int32Min <= r.value <= Int32Max
  {
    var negative := StartsWith(s, "-");
    var body := if negative || StartsWith(s, "+") then s[1..] else s;
    match DigitsValue(body, 10)
    case Some(v) =>
      var value: int := if negative then 0 - v as int else v as int;
      if Int32Min <= value <= Int32Max then Some(value) else None
    case None => None
  }

  /** `uint.Parse(s, NumberStyles.HexNumber)`: hexadecimal digits of either
      case, no sign and no prefix, at most 0xFFFFFFFF. */
  function ParseHex(s: string): (r: Option<nat>)
    ensures r.Some? ==> r.value <= UInt32Max
  {
    match DigitsValue(s, 16)
    case Some(v) => if v <= UInt32Max then Some(v) else None
    case None => None
  }

  /** Decimal rendering of a 32-bit signed value, as `int.ToString()`. */
  function FormatInt(i: int): string {
    if i < 0 then "-" + Digits(-i, 10) else Digits(i, 10)
  }

  lemma ParseUIntRoundTrip(n: nat)
    requires n <= UInt32Max
    ensures ParseUInt(Digits(n, 10)) == Some(n)
  {
    var s := Digits(n, 10);
    assert !StartsWith(s, "+") by { assert s[0] != '+'; }
    assert !StartsWith(s, "-") by { assert s[0] != '-'; }
    DigitsRoundTrip(n, 10);
  }

  /** A minus sign is accepted before a zero value and rejected before any
      other: `"-0"` and `"-00"` parse as 0, `"-1"` is an error. */
  lemma ParseUIntNegativeZero(digits: string)
    requires |digits| > 0 && forall i :: 0 <= i < |digits| ==> '0' <= digits[i] <= '9'
    ensures ParseUInt("-" + digits).Some? <==> DigitsValue(digits, 10) == Some(0)
    ensures ParseUInt("-" + digits).Some? ==> ParseUInt("-" + digits) == Some(0)
  {
    assert ("-" + digits)[1..] == digits;
    assert StartsWith("-" + digits, "-");
    assert forall i :: 0 <= i < |digits| ==> DigitValue(digits[i], 10).Some?;
  }

  lemma ParseByteRoundTrip(n: nat)
    requires n <= ByteMax
    ensures ParseByte(Digits(n, 10)) == Some(n)
  {
    ParseUIntRoundTrip(n);
  }

  lemma ParseHexRoundTrip(n: nat)
    requires n <= UInt32Max
    ensures ParseHex(Digits(n, 16)) == Some(n)
  {
    DigitsRoundTrip(n, 16);
  }

  lemma ParseIntRoundTrip(i: int)
    requires Int32Min <= i <= Int32Max
    ensures ParseInt(FormatInt(i)) == Some(i)
  {
    var s := FormatInt(i);
    if i < 0 {
      assert StartsWith(s, "-") by { assert s[..1] == "-"; }
      assert s[1..] == Digits(-i, 10);
      DigitsRoundTrip(-i, 10);
      assert DigitsValue(s[1..], 10) == Some(-i);
    } else {
      assert !StartsWith(s, "-") && !StartsWith(s, "+") by { assert s[0] != '-' && s[0] != '+'; }
      DigitsRoundTrip(i, 10);
      assert DigitsValue(s, 10) == Some(i);
    }
  }
}

/**
 * The pieces of C's printf family that the group tool relies on:
 * `%d` (signed decimal), `%x` (lower-case hexadecimal), `%-*s` (left
 * justification in a field of spaces), `%0*x` (right justification in a
 * field of zeros) and the truncation `snprintf` applies when its buffer is
 * too small.  Each conversion comes with the parser that undoes it.
 */
module Format {
  import opened Wrappers

  /** C's `int` and `unsigned int` on the platforms the tool is built for. */
  type int32 = x: int | -0x8000_0000 <= x < 0x8000_0000
  type uint32 = x: int | 0 <= x < 0x1_0000_0000

  /** The radixes printf prints integers in: 10 for `%d`, 16 for `%x`. */
  type Radix = b: nat | b == 10 || b == 16 witness 10

  /** The character printf uses for digit `d` (lower case for `%x`). */
  function DigitChar(d: nat): (c: char)
    requires d < 16
    ensures DigitValue(c) == Some(d)
  {
    if d < 10 then ('0' as int + d) as char else ('a' as int + d - 10) as char
  }

  /** The value of one digit character, if it is one. */
  function DigitValue(c: char): Option<nat> {
    if '0' <= c <= '9' then Some(c as int - '0' as int)
    else if 'a' <= c <= 'f' then Some(c as int - 'a' as int + 10)
    else None
  }

  predicate IsDigit(c: char, base: Radix) {
    DigitValue(c).Some? && DigitValue(c).value < base
  }

  predicate AllDigits(s: string, base: Radix) {
    forall i :: 0 <= i < |s| ==> IsDigit(s[i], base)
  }

  function Pow(base: nat, k: nat): nat {
    if k == 0 then 1 else base * Pow(base, k - 1)
  }

  /** The digits of `n` in `base`, most significant first, without leading zeros. */
  function Digits(n: nat, base: Radix): (r: string)
    ensures |r| > 0 && AllDigits(r, base)
    ensures r[0] == '0' ==> n == 0 && r == "0"
    decreases n
  {
    if n < base then [DigitChar(n)]
    else Digits(n / base, base) + [DigitChar(n % base)]
  }

  /** The number a string of digits denotes (the empty string denotes 0). */
  function Value(s: string, base: Radix): nat
    requires AllDigits(s, base)
  {
    if s == [] then 0
    else Value(s[..|s| - 1], base) * base + DigitValue(s[|s| - 1]).value
  }

  /** Reads an unsigned numeral; leading zeros are accepted. */
  function ParseNat(s: string, base: Radix): Option<nat> {
    if s != [] && AllDigits(s, base) then Some(Value(s, base)) else None
  }

  lemma {:induction false} DigitsRoundTrip(n: nat, base: Radix)
    ensures Value(Digits(n, base), base) == n
    decreases n
  {
    var r := Digits(n, base);
    if n >= base {
      DigitsRoundTrip(n / base, base);
      assert r[..|r| - 1] == Digits(n / base, base);
    }
  }

  /** A number below base^k has at most k digits. */
  lemma {:induction false} DigitsLength(n: nat, base: Radix, k: nat)
    requires 0 < k
    requires n < Pow(base, k)
    ensures |Digits(n, base)| <= k
    decreases k
  {
    if n >= base {
      assert Pow(base, 1) == base;
      assert k > 1;
      DigitsLength(n / base, base, k - 1);
    }
  }

  /** `s` holds no space character. */
  predicate NoSpace(s: string) {
    forall i :: 0 <= i < |s| ==> s[i] != ' '
  }

  /** A number of at least base^k has more than k digits. */
  lemma {:induction false} DigitsLengthAtLeast(n: nat, base: Radix, k: nat)
    requires Pow(base, k) <= n
    ensures k < |Digits(n, base)|
    decreases k
  {
    if k > 0 {
      assert Pow(base, k) == base * Pow(base, k - 1);
      assert Pow(base, k - 1) <= n / base;
      DigitsLengthAtLeast(n / base, base, k - 1);
    }
  }

  /** `%d`: a minus sign for negative values, then the decimal digits. */
  function Decimal(n: int): (r: string)
    ensures 0 < |r|
    ensures NoSpace(r)
  {
    if n < 0 then "-" + Digits(-n, 10) else Digits(n, 10)
  }

  /** Reads what `%d` prints. */
  function ParseDecimal(s: string): Option<int> {
    if 0 < |s| && s[0] == '-' then
      match ParseNat(s[1..], 10)
      case Some(v) => Some(-(v as int))
      case None => None
    else
      match ParseNat(s, 10)
      case Some(v) => Some(v)
      case None => None
  }

  lemma DecimalRoundTrip(n: int)
    ensures ParseDecimal(Decimal(n)) == Some(n)
  {
    if n < 0 {
      var d := Digits(-n, 10);
      DigitsRoundTrip(-n, 10);
      Parts("-", d, []);
      assert ParseNat(d, 10) == Some(-n);
    } else {
      var d := Digits(n, 10);
      DigitsRoundTrip(n, 10);
      assert IsDigit(d[0], 10);
      assert ParseNat(d, 10) == Some(n);
    }
  }

  /** A value strictly between -10^(k-1) and 10^k prints in at most k characters. */
  lemma DecimalLength(n: int, k: nat)
    requires 0 < k
    requires -(Pow(10, k - 1) as int) < n < Pow(10, k)
    ensures |Decimal(n)| <= k
  {
    if n < 0 {
      assert k > 1;
      DigitsLength(-n, 10, k - 1);
    } else {
      DigitsLength(n, 10, k);
    }
  }

  function Repeat(c: char, k: int): (r: string)
    ensures |r| == if k < 0 then 0 else k
    ensures forall i :: 0 <= i < |r| ==> r[i] == c
  {
    seq(if k < 0 then 0 else k, _ => c)
  }

  /** `%-*s`: `s` left-justified in a field of `width` spaces; never truncates. */
  function PadRight(s: string, width: int): (r: string)
    ensures |r| == if |s| < width then width else |s|
    ensures r[..|s|] == s
    ensures forall i :: |s| <= i < |r| ==> r[i] == ' '
  {
    s + Repeat(' ', width - |s|)
  }

  /** The zero padding of `%0*x`: `s` right-justified in a field of `width` zeros. */
  function PadLeftZeros(s: string, width: int): (r: string)
    ensures |r| == if |s| < width then width else |s|
    ensures r[|r| - |s|..] == s
    ensures forall i :: 0 <= i < |r| - |s| ==> r[i] == '0'
  {
    Repeat('0', width - |s|) + s
  }

  /** Leading zeros do not change the value of a numeral. */
  lemma {:induction false} LeadingZeros(z: string, s: string, base: Radix)
    requires forall i :: 0 <= i < |z| ==> z[i] == '0'
    requires AllDigits(s, base)
    ensures AllDigits(z + s, base)
    ensures Value(z + s, base) == Value(s, base)
    decreases |s|
  {
    assert forall i :: 0 <= i < |z| ==> IsDigit(z[i], base);
    if s == [] {
      assert z + s == z;
      ZerosValue(z, base);
    } else {
      var t := z + s;
      assert t[..|t| - 1] == z + s[..|s| - 1];
      LeadingZeros(z, s[..|s| - 1], base);
    }
  }

  lemma {:induction false} ZerosValue(z: string, base: Radix)
    requires forall i :: 0 <= i < |z| ==> z[i] == '0'
    ensures AllDigits(z, base) && Value(z, base) == 0
    decreases |z|
  {
    assert forall i :: 0 <= i < |z| ==> IsDigit(z[i], base);
    if z != [] {
      ZerosValue(z[..|z| - 1], base);
    }
  }

  /** `%0*x` with width `width`. */
  function HexField(n: nat, width: int): string {
    PadLeftZeros(Digits(n, 16), width)
  }

  /** An unsigned 32-bit value printed with `%08x` is exactly eight hex digits and reads back. */
  lemma HexFieldRoundTrip(n: uint32)
    ensures |HexField(n, 8)| == 8
    ensures ParseNat(HexField(n, 8), 16) == Some(n)
  {
    assert Pow(16, 8) == 0x1_0000_0000;
    DigitsLength(n, 16, 8);
    var d := Digits(n, 16);
    var f := HexField(n, 8);
    var z := Repeat('0', 8 - |d|);
    assert f == z + d;
    LeadingZeros(z, d, 16);
    DigitsRoundTrip(n, 16);
  }

  /**
   * What `snprintf(buf, size, ...)` leaves in `buf` when the formatted text
   * is `s`: at most `size - 1` characters, the last byte being the terminator.
   */
  function Snprintf(s: string, size: nat): (r: string)
    requires 0 < size
    ensures |r| < size
    ensures r <= s
    ensures |s| < size ==> r == s
    ensures size <= |s| ==> |r| == size - 1
  {
    if |s| < size then s else s[..size - 1]
  }

  /** The position of the last space in `s`, if any. */
  function LastSpace(s: string): (r: Option<nat>)
    ensures r.Some? ==> r.value < |s| && s[r.value] == ' ' && NoSpace(s[r.value + 1..])
    ensures r.None? <==> NoSpace(s)
  {
    if s == [] then None
    else if s[|s| - 1] == ' ' then Some(|s| - 1)
    else LastSpace(s[..|s| - 1])
  }

  /** The three parts of a concatenation, found again by position. */
  lemma Parts<T>(x: seq<T>, y: seq<T>, z: seq<T>)
    ensures (x + y + z)[..|x|] == x
    ensures (x + y + z)[|x|..|x| + |y|] == y
    ensures (x + y + z)[|x| + |y|..] == z
  {
  }

  /** When `a` ends in a space and `b` has none, the last space is `a`'s. */
  lemma LastSpaceAfter(a: string, b: string)
    requires 0 < |a| && a[|a| - 1] == ' '
    requires NoSpace(b)
    ensures LastSpace(a + b) == Some(|a| - 1)
  {
    var s := a + b;
    assert s[|a| - 1] == ' ';
    assert s[|a|..] == b;
  }

  /** Regrouping a concatenation of four pieces. */
  lemma Regroup<T>(a: seq<T>, b: seq<T>, c: seq<T>, d: seq<T>)
    ensures a + b + c + d == a + (b + c + d)
  {
  }
}

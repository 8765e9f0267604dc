/** Canonical base-10 ASCII rendering of an integer, the decoder that inverts
    it, and the facts a `DecInt` rests on: the rendering round-trips, it is
    the only canonical spelling of its value, it fits in 20 bytes for every
    64-bit signed or unsigned value, and it is a single path component. */
module Decimal {

  /** One byte of a rendering. */
  newtype u8 = x: int | 0 <= x < 0x100

  datatype Option<T> = None | Some(value: T)

  const MINUS: u8 := 0x2D  // '-'
  const DOT: u8 := 0x2E    // '.'
  const SLASH: u8 := 0x2F  // '/'
  const ZERO: u8 := 0x30   // '0'

  const I32_MIN: int := -0x8000_0000
  const I32_MAX: int := 0x7FFF_FFFF
  const I64_MIN: int := -0x8000_0000_0000_0000
  const I64_MAX: int := 0x7FFF_FFFF_FFFF_FFFF
  const U64_MAX: int := 0xFFFF_FFFF_FFFF_FFFF
  const I128_MIN: int := -0x8000_0000_0000_0000_0000_0000_0000_0000
  const U128_MAX: int := 0xFFFF_FFFF_FFFF_FFFF_FFFF_FFFF_FFFF_FFFF

  predicate IsDigit(b: u8) {
    ZERO <= b <= ZERO + 9
  }

  predicate AllDigits(s: seq<u8>) {
    forall k :: 0 <= k < |s| ==> IsDigit(s[k])
  }

  /** The bytes of an ASCII string literal. */
  function Ascii(s: string): seq<u8>
    requires forall k :: 0 <= k < |s| ==> s[k] as int < 0x80
  {
    seq(|s|, k requires 0 <= k < |s| => s[k] as int as u8)
  }

  function Pow10(k: nat): (p: nat)
    ensures p >= 1
  {
    if k == 0 then 1 else 10 * Pow10(k - 1)
  }

  /** The decimal digits of `n`, most significant first. */
  function Digits(n: nat): seq<u8> {
    if n < 10 then [ZERO + n as u8] else Digits(n / 10) + [ZERO + (n % 10) as u8]
  }

  /** The canonical rendering: `-` for a negative value, then the digits of
      the magnitude; no `+`, no leading zeros, no separators. */
  function DecString(i: int): seq<u8> {
    if i < 0 then [MINUS] + Digits(-i) else Digits(i)
  }

  /** The value of a run of decimal digits, leading zeros allowed (the
      decoder applies it to digits only). */
  function ValueOf(s: seq<u8>): int {
    if s == [] then 0 else 10 * ValueOf(s[..|s| - 1]) + (s[|s| - 1] as int - ZERO as int)
  }

  /** The decoder: an optional `-` followed by at least one digit. */
  function Parse(s: seq<u8>): Option<int> {
    if |s| > 0 && s[0] == MINUS then
      if |s| > 1 && AllDigits(s[1..]) then Some(-ValueOf(s[1..])) else None
    else if |s| > 0 && AllDigits(s) then Some(ValueOf(s))
    else None
  }

  /** The text left after an optional leading `-`. */
  function Magnitude(s: seq<u8>): seq<u8> {
    if |s| > 0 && s[0] == MINUS then s[1..] else s
  }

  /** Canonical decimal text: an optional `-`, then at least one digit, no
      leading zero unless the text is exactly `0` (so `-0` and `007` are out). */
  predicate IsCanonical(s: seq<u8>) {
    var m := Magnitude(s);
    1 <= |m| && AllDigits(m) && (m[0] == ZERO ==> s == [ZERO])
  }

  /** Text that names exactly one entry of a directory: not empty, no `/`,
      no NUL, and neither `.` nor `..`. */
  predicate IsPathComponent(s: seq<u8>) {
    && |s| > 0
    && (forall k :: 0 <= k < |s| ==> s[k] != SLASH && s[k] != 0)
    && s != [DOT] && s != [DOT, DOT]
  }

  // ---------------------------------------------------------------------
  // Shape

  /** The digits of `n` are at least one decimal digit, and the first is
      `0` only for zero itself, which is the single byte `0`. */
  lemma {:induction false} DigitsShape(n: nat)
    ensures 1 <= |Digits(n)| && AllDigits(Digits(n))
    ensures (Digits(n)[0] == ZERO) == (n == 0)
    ensures n == 0 ==> Digits(n) == [ZERO]
  {
    if n >= 10 {
      DigitsShape(n / 10);
      var t := Digits(n / 10);
      assert Digits(n) == t + [ZERO + (n % 10) as u8];
      assert Digits(n)[0] == t[0];
    }
  }

  /** A rendering starts with `-` exactly for a negative value, and every
      other byte is a decimal digit. */
  lemma DecStringShape(i: int)
    ensures 1 <= |DecString(i)|
    ensures (DecString(i)[0] == MINUS) == (i < 0)
    ensures forall k :: 1 <= k < |DecString(i)| ==> IsDigit(DecString(i)[k])
    ensures i >= 0 ==> AllDigits(DecString(i))
  {
    if i < 0 {
      DigitsShape(-i);
    } else {
      DigitsShape(i);
    }
  }

  // ---------------------------------------------------------------------
  // Round trip

  lemma {:induction false} DigitsValue(n: nat)
    ensures ValueOf(Digits(n)) == n
  {
    var s := Digits(n);
    if n >= 10 {
      var t := Digits(n / 10);
      assert s[..|s| - 1] == t;
      DigitsValue(n / 10);
    }
  }

  /** Decoding the rendering gives back the value. */
  lemma RoundTrip(i: int)
    ensures Parse(DecString(i)) == Some(i)
  {
    var s := DecString(i);
    if i < 0 {
      DigitsShape(-i);
      assert s[1..] == Digits(-i);
      DigitsValue(-i);
    } else {
      DigitsShape(i);
      DigitsValue(i);
    }
  }

  /** Two values with the same rendering are equal. */
  lemma DecStringInjective(i: int, j: int)
    requires DecString(i) == DecString(j)
    ensures i == j
  {
    RoundTrip(i);
    RoundTrip(j);
  }

  // ---------------------------------------------------------------------
  // Canonical form

  /** Every rendering is canonical text. */
  lemma DecStringCanonical(i: int)
    ensures IsCanonical(DecString(i))
  {
    var s := DecString(i);
    if i < 0 {
      DigitsShape(-i);
      assert Magnitude(s) == Digits(-i);
    } else {
      DigitsShape(i);
    }
  }

  /** `k` digits denote a value in `[0, 10^k)`. */
  lemma {:induction false} ValueBounds(s: seq<u8>)
    requires AllDigits(s)
    ensures 0 <= ValueOf(s) < Pow10(|s|)
  {
    if s != [] {
      ValueBounds(s[..|s| - 1]);
    }
  }

  lemma {:induction false} LeadingNonZero(s: seq<u8>)
    requires 1 <= |s| && AllDigits(s) && s[0] != ZERO
    ensures ValueOf(s) >= 1
  {
    if |s| > 1 {
      LeadingNonZero(s[..|s| - 1]);
      ValueBounds(s[|s| - 1..]);
    }
  }

  /** Digits without a superfluous leading zero are the digits of their
      value. */
  lemma {:induction false} DigitsOfValue(s: seq<u8>)
    requires 1 <= |s| && AllDigits(s) && (s[0] == ZERO ==> |s| == 1)
    ensures ValueOf(s) >= 0 && Digits(ValueOf(s)) == s
  {
    ValueBounds(s);
    var t := s[..|s| - 1];
    var d := s[|s| - 1];
    if |s| > 1 {
      LeadingNonZero(t);
      DigitsOfValue(t);
      var v := ValueOf(s);
      assert v / 10 == ValueOf(t) && v % 10 == (d - ZERO) as int;
      assert s == t + [d];
    }
  }

  /** Canonical text is the rendering of the value it decodes to: the
      rendering is the only canonical spelling of a value. */
  lemma CanonicalIsDecString(s: seq<u8>)
    requires IsCanonical(s)
    ensures Parse(s).Some? && DecString(Parse(s).value) == s
  {
    var m := Magnitude(s);
    DigitsOfValue(m);
    if |s| > 0 && s[0] == MINUS {
      assert m[0] != ZERO;
      LeadingNonZero(m);
      assert s == [MINUS] + m;
    }
  }

  // ---------------------------------------------------------------------
  // Length

  /** `n` has at most `k` digits exactly when it is below 10^k. */
  lemma {:induction false} DigitsLength(n: nat, k: nat)
    requires 1 <= k
    ensures |Digits(n)| <= k <==> n < Pow10(k)
  {
    if n >= 10 {
      DigitsShape(n / 10);
      if k > 1 {
        DigitsLength(n / 10, k - 1);
        assert n / 10 < Pow10(k - 1) <==> n < 10 * Pow10(k - 1);
      }
    }
  }

  lemma {:induction false} Pow10Add(a: nat, b: nat)
    ensures Pow10(a + b) == Pow10(a) * Pow10(b)
  {
    if b > 0 {
      Pow10Add(a, b - 1);
    }
  }

  /** The longest rendering of a 64-bit signed or unsigned value is 20
      bytes, reached by `i64::MIN` and `u64::MAX`. */
  lemma LengthBound(i: int)
    requires I64_MIN <= i <= U64_MAX
    ensures |DecString(i)| <= 20
  {
    Pow10Add(10, 9);
    Pow10Add(10, 10);
    assert Pow10(10) == 10_000_000_000 && Pow10(9) == 1_000_000_000;
    if i < 0 {
      DigitsLength(-i, 19);
    } else {
      DigitsLength(i, 20);
    }
  }

  /** Every value of a primitive integer type up to 128 bits, signed or
      unsigned, renders in at most 40 bytes. */
  lemma WideLengthBound(i: int)
    requires I128_MIN <= i <= U128_MAX
    ensures |DecString(i)| <= 40
  {
    Pow10Add(10, 10);
    Pow10Add(20, 10);
    Pow10Add(30, 9);
    Pow10Add(30, 10);
    assert Pow10(10) == 10_000_000_000 && Pow10(9) == 1_000_000_000;
    if i < 0 {
      DigitsLength(-i, 39);
    } else {
      DigitsLength(i, 40);
    }
  }

  // ---------------------------------------------------------------------
  // Path component

  /** A rendering never holds `/` or NUL and is never `.` or `..`. */
  lemma DecStringIsPathComponent(i: int)
    ensures IsPathComponent(DecString(i))
  {
    DecStringShape(i);
  }

  // ---------------------------------------------------------------------
  // Fixed renderings

  lemma DivTen(n: nat, q: nat, d: nat)
    requires n == 10 * q + d && d < 10
    ensures n / 10 == q && n % 10 == d
  {
  }

  /** Appending the digit `d` to a positive `q`. */
  lemma Step(q: nat, d: nat)
    requires 1 <= q && d < 10
    ensures Digits(10 * q + d) == Digits(q) + [ZERO + d as u8]
  {
    DivTen(10 * q + d, q, d);
  }

  /** Zero is the single byte `0`; 789 has no sign and no leading zero;
      -1 has exactly one leading `-`. */
  lemma SmallValues()
    ensures DecString(0) == Ascii("0")
    ensures DecString(-1) == Ascii("-1")
    ensures DecString(789) == Ascii("789")
  {
  }

  // The solver does not unfold a twenty-digit rendering unaided: each of
  // the three extremes is built one digit at a time as raw bytes, and then
  // matched against its text.

  lemma I64MinBytes()
    ensures DecString(I64_MIN) == [0x2D, 0x39, 0x32, 0x32, 0x33, 0x33, 0x37, 0x32, 0x30, 0x33, 0x36, 0x38, 0x35, 0x34, 0x37, 0x37, 0x35, 0x38, 0x30, 0x38]
  {
    Step(9, 2);
    Step(92, 2);
    Step(922, 3);
    Step(9223, 3);
    Step(92233, 7);
    Step(922337, 2);
    Step(9223372, 0);
    Step(92233720, 3);
    Step(922337203, 6);
    Step(9223372036, 8);
    Step(92233720368, 5);
    Step(922337203685, 4);
    Step(9223372036854, 7);
    Step(92233720368547, 7);
    Step(922337203685477, 5);
    Step(9223372036854775, 8);
    Step(92233720368547758, 0);
    Step(922337203685477580, 8);
  }

  lemma I64MaxBytes()
    ensures DecString(I64_MAX) == [0x39, 0x32, 0x32, 0x33, 0x33, 0x37, 0x32, 0x30, 0x33, 0x36, 0x38, 0x35, 0x34, 0x37, 0x37, 0x35, 0x38, 0x30, 0x37]
  {
    Step(9, 2);
    Step(92, 2);
    Step(922, 3);
    Step(9223, 3);
    Step(92233, 7);
    Step(922337, 2);
    Step(9223372, 0);
    Step(92233720, 3);
    Step(922337203, 6);
    Step(9223372036, 8);
    Step(92233720368, 5);
    Step(922337203685, 4);
    Step(9223372036854, 7);
    Step(92233720368547, 7);
    Step(922337203685477, 5);
    Step(9223372036854775, 8);
    Step(92233720368547758, 0);
    Step(922337203685477580, 7);
  }

  lemma U64MaxBytes()
    ensures DecString(U64_MAX) == [0x31, 0x38, 0x34, 0x34, 0x36, 0x37, 0x34, 0x34, 0x30, 0x37, 0x33, 0x37, 0x30, 0x39, 0x35, 0x35, 0x31, 0x36, 0x31, 0x35]
  {
    Step(1, 8);
    Step(18, 4);
    Step(184, 4);
    Step(1844, 6);
    Step(18446, 7);
    Step(184467, 4);
    Step(1844674, 4);
    Step(18446744, 0);
    Step(184467440, 7);
    Step(1844674407, 3);
    Step(18446744073, 7);
    Step(184467440737, 0);
    Step(1844674407370, 9);
    Step(18446744073709, 5);
    Step(184467440737095, 5);
    Step(1844674407370955, 1);
    Step(18446744073709551, 6);
    Step(184467440737095516, 1);
    Step(1844674407370955161, 5);
  }

  lemma ExtremeTexts()
    ensures Ascii("-9223372036854775808") == [0x2D, 0x39, 0x32, 0x32, 0x33, 0x33, 0x37, 0x32, 0x30, 0x33, 0x36, 0x38, 0x35, 0x34, 0x37, 0x37, 0x35, 0x38, 0x30, 0x38]
    ensures Ascii("9223372036854775807") == [0x39, 0x32, 0x32, 0x33, 0x33, 0x37, 0x32, 0x30, 0x33, 0x36, 0x38, 0x35, 0x34, 0x37, 0x37, 0x35, 0x38, 0x30, 0x37]
    ensures Ascii("18446744073709551615") == [0x31, 0x38, 0x34, 0x34, 0x36, 0x37, 0x34, 0x34, 0x30, 0x37, 0x33, 0x37, 0x30, 0x39, 0x35, 0x35, 0x31, 0x36, 0x31, 0x35]
  {
  }

  /** `i64::MIN` fills the 20-byte buffer. */
  lemma I64MinValue()
    ensures DecString(I64_MIN) == Ascii("-9223372036854775808")
  {
    I64MinBytes();
    ExtremeTexts();
  }

  lemma I64MaxValue()
    ensures DecString(I64_MAX) == Ascii("9223372036854775807")
  {
    I64MaxBytes();
    ExtremeTexts();
  }

  /** `u64::MAX` fills the 20-byte buffer. */
  lemma U64MaxValue()
    ensures DecString(U64_MAX) == Ascii("18446744073709551615")
  {
    U64MaxBytes();
    ExtremeTexts();
  }
}

/** Writing an integer's decimal rendering into a byte slice: the digits are
    produced right to left into a scratch buffer as wide as the widest
    rendering, then copied out with `write_all` semantics. */
module DigitWriter {
  import opened Decimal

  /** Length of the scratch buffer: the rendering of `i128::MIN`. */
  const I128_MAX_LEN: nat := 40

  /** Outcome of a write into a byte slice. */
  datatype WriteResult = Written(len: nat) | WriteZero

  function MinNat(a: nat, b: nat): nat {
    if a <= b then a else b
  }

  /** The digits still to be produced once the lower ones are written:
      none when the quotient has reached zero. */
  function Lead(q: nat): seq<u8> {
    if q == 0 then [] else Digits(q)
  }

  lemma LeadStep(q: nat)
    ensures Digits(q) == Lead(q / 10) + [ZERO + (q % 10) as u8]
  {
  }

  /** Writes the digits of `m` right-aligned into `buf`, least significant
      first, and returns where they start; the bytes before them are left
      as they were. */
  method WriteDigits(buf: array<u8>, m: nat) returns (curr: nat)
    requires |Digits(m)| <= buf.Length
    modifies buf
    ensures curr == buf.Length - |Digits(m)|
    ensures buf[curr..] == Digits(m)
    ensures buf[..curr] == old(buf[..curr])
  {
    curr := buf.Length - 1;
    buf[curr] := ZERO + (m % 10) as u8;
    var q: nat := m / 10;
    LeadStep(m);
    while q != 0
      invariant curr <= buf.Length - 1
      invariant Digits(m) == Lead(q) + buf[curr..]
      invariant buf[..curr] == old(buf[..curr])
      decreases q
    {
      LeadStep(q);
      DigitsShape(q);
      curr := curr - 1;
      buf[curr] := ZERO + (q % 10) as u8;
      q := q / 10;
    }
  }

  /** Renders `i` into the tail of a fresh scratch buffer and returns where
      the rendering starts: the digits of the magnitude first, then the
      sign in front of them. */
  method Format(i: int) returns (buf: array<u8>, start: nat)
    requires I128_MIN <= i <= U128_MAX
    ensures fresh(buf) && buf.Length == I128_MAX_LEN
    ensures start <= buf.Length && buf[start..] == DecString(i)
  {
    buf := new u8[I128_MAX_LEN](_ => 0);
    WideLengthBound(i);
    var m: nat := if i < 0 then -i else i;
    start := WriteDigits(buf, m);
    if i < 0 {
      DigitsShape(m);
      start := start - 1;
      buf[start] := MINUS;
      assert buf[start..] == [MINUS] + Digits(m);
    }
  }

  /** `write_all` into a byte slice: copies as much of `src` as fits, and
      fails with `WriteZero` when the slice is full before `src` is done.
      Bytes past the copied prefix keep their old value. */
  method WriteAll(dst: array<u8>, src: seq<u8>) returns (r: WriteResult)
    modifies dst
    ensures r.Written? <==> |src| <= dst.Length
    ensures r.Written? ==> r.len == |src|
    ensures dst[..MinNat(|src|, dst.Length)] == src[..MinNat(|src|, dst.Length)]
    ensures dst[MinNat(|src|, dst.Length)..] == old(dst[MinNat(|src|, dst.Length)..])
  {
    var n := MinNat(|src|, dst.Length);
    var j := 0;
    while j < n
      invariant 0 <= j <= n
      invariant dst[..j] == src[..j]
      invariant dst[j..] == old(dst[j..])
    {
      dst[j] := src[j];
      j := j + 1;
    }
    if |src| <= dst.Length {
      r := Written(|src|);
    } else {
      r := WriteZero;
    }
  }

  /** Writes the rendering of `i` into `dst`, reporting its length, or
      `WriteZero` when `dst` is too short; in that case `dst` holds as much
      of the rendering as fits. */
  method Write(dst: array<u8>, i: int) returns (r: WriteResult)
    requires I128_MIN <= i <= U128_MAX
    modifies dst
    ensures r.Written? <==> |DecString(i)| <= dst.Length
    ensures r.Written? ==> r.len == |DecString(i)|
    ensures var n := MinNat(|DecString(i)|, dst.Length);
      dst[..n] == DecString(i)[..n] && dst[n..] == old(dst[n..])
  {
    var buf, start := Format(i);
    r := WriteAll(dst, buf[start..]);
  }
}

/** `DecInt`: an integer formatted into a fixed 20-byte buffer and viewed as
    one decimal path component, such as the `<fd>` of `/proc/self/fd/<fd>`,
    without building a heap string. */
module DecIntPath {
  import opened Decimal
  import opened DigitWriter

  /** A Unix file descriptor number, a C `int`. */
  type RawFd = x: int | I32_MIN <= x <= I32_MAX

  /** Capacity of the inline buffer: the longest 64-bit rendering. */
  const BUF_LEN: nat := 20

  class DecInt {
    const buf: array<u8>
    const len: nat
    /** The integer the buffer was built from. */
    ghost const value: int

    /** The first `len` bytes of the buffer are the rendering of `value`. */
    ghost predicate Valid()
      reads buf
    {
      && buf.Length == BUF_LEN
      && len <= BUF_LEN
      && buf[..len] == DecString(value)
    }

    /** Formats `i` into a zeroed buffer. The caller must pass a value whose
        rendering fits in 20 bytes: a longer one makes the write fail, which
        the constructor does not recover from. */
    constructor (i: int)
      requires I128_MIN <= i <= U128_MAX && |DecString(i)| <= BUF_LEN
      ensures Valid() && value == i && fresh(buf)
      ensures len == |DecString(i)|
      ensures buf[..] == DecString(i) + seq(BUF_LEN - len, _ => 0)
    {
      var b := new u8[BUF_LEN](_ => 0);
      var r := Write(b, i);
      buf := b;
      len := r.len;
      value := i;
    }

    /** Builds the component for a file descriptor: the same buffer and
        length as formatting the descriptor's number directly. */
    static method FromFd(fd: RawFd) returns (d: DecInt)
      ensures fresh(d) && fresh(d.buf) && d.Valid() && d.value == fd
      ensures d.len == |DecString(fd)|
      ensures d.buf[..] == DecString(fd) + seq(BUF_LEN - d.len, _ => 0)
    {
      NarrowTypesFit(I32, fd);
      d := new DecInt(fd);
    }

    /** The path component: the rendering of the value, which decodes back
        to the value and names a single directory entry. */
    function Deref(): (view: seq<u8>)
      requires Valid()
      reads buf
      ensures view == DecString(value)
      ensures Parse(view) == Some(value)
      ensures IsPathComponent(view)
    {
      RoundTrip(value);
      DecStringIsPathComponent(value);
      buf[..len]
    }

    /** The same path component as `Deref`. */
    function AsRef(): (view: seq<u8>)
      requires Valid()
      reads buf
      ensures view == Deref() && view == DecString(value)
    {
      Deref()
    }
  }

  /** The primitive integer types the formatter accepts; `isize` and
      `usize` are taken at their 64-bit width. */
  datatype IntType = I8 | I16 | I32 | I64 | I128 | Isize | U8 | U16 | U32 | U64 | U128 | Usize
  {
    function Bits(): nat {
      match this
      case I8 | U8 => 8
      case I16 | U16 => 16
      case I32 | U32 => 32
      case I64 | U64 | Isize | Usize => 64
      case I128 | U128 => 128
    }

    function Min(): int {
      match this
      case I8 => -0x80
      case I16 => -0x8000
      case I32 => I32_MIN
      case I64 | Isize => I64_MIN
      case I128 => I128_MIN
      case _ => 0
    }

    function Max(): int {
      match this
      case I8 => 0x7F
      case U8 => 0xFF
      case I16 => 0x7FFF
      case U16 => 0xFFFF
      case I32 => I32_MAX
      case U32 => 0xFFFF_FFFF
      case I64 | Isize => I64_MAX
      case U64 | Usize => U64_MAX
      case I128 => -I128_MIN - 1
      case U128 => U128_MAX
    }
  }

  /** Every value of every type of at most 64 bits fits the buffer, so
      formatting it never fails; in particular every file descriptor fits. */
  lemma NarrowTypesFit(t: IntType, i: int)
    requires t.Bits() <= 64 && t.Min() <= i <= t.Max()
    ensures I128_MIN <= i <= U128_MAX && |DecString(i)| <= BUF_LEN
  {
    LengthBound(i);
  }

  /** The 128-bit types have values that do not fit: `i128::MIN` and
      `u128::MAX` render longer than the buffer. */
  lemma WideTypesOverflow()
    ensures |DecString(I128.Min())| > BUF_LEN
    ensures |DecString(U128.Max())| > BUF_LEN
  {
    Pow10Add(10, 10);
    assert Pow10(10) == 10_000_000_000;
    DigitsLength(-I128_MIN, BUF_LEN);
    DigitsLength(U128_MAX, BUF_LEN);
  }

  /** The renderings of 0, -1, 789 and the 64-bit extremes, read back
      through `Deref`. */
  method Renderings() returns (zero: seq<u8>, minusOne: seq<u8>, n789: seq<u8>,
                               i64Min: seq<u8>, i64Max: seq<u8>, u64Max: seq<u8>)
    ensures zero == Ascii("0")
    ensures minusOne == Ascii("-1")
    ensures n789 == Ascii("789")
    ensures i64Min == Ascii("-9223372036854775808")
    ensures i64Max == Ascii("9223372036854775807")
    ensures u64Max == Ascii("18446744073709551615")
  {
    SmallValues();
    I64MinValue();
    I64MaxValue();
    U64MaxValue();
    var d := new DecInt(0);
    zero := d.Deref();
    d := new DecInt(-1);
    minusOne := d.Deref();
    d := new DecInt(789);
    n789 := d.Deref();
    NarrowTypesFit(I64, I64_MIN);
    d := new DecInt(I64_MIN);
    i64Min := d.Deref();
    NarrowTypesFit(I64, I64_MAX);
    d := new DecInt(I64_MAX);
    i64Max := d.Deref();
    NarrowTypesFit(U64, U64_MAX);
    d := new DecInt(U64_MAX);
    u64Max := d.Deref();
  }
}

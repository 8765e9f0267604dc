# DecInt — an integer as one decimal path component

`DecInt` (src/path/dec_int.rs) formats an integer into a 20-byte inline
buffer, records how many bytes the rendering took, and lends that prefix out
as a `Path`, so that paths such as `/proc/self/fd/<fd>` can be built without a
heap string. This project models it in three modules:

- `Decimal` (decimal.dfy): the canonical decimal rendering `DecString` of an
  integer as ASCII bytes, its decoder `Parse`, and the facts `DecInt` rests
  on: the rendering decodes back to its value, it is the one canonical
  spelling of that value, it fits in 20 bytes for every 64-bit signed or
  unsigned value (40 for 128-bit ones), it is a single path component, and
  it is exactly the text the test expects for 0, -1, 789, `i64::MIN`,
  `i64::MAX` and `u64::MAX`.
- `DigitWriter` (digit_writer.dfy): the `itoa::write` call that `new` relies
  on, written out as loops over arrays. The digits are produced right to
  left into a scratch buffer with the sign put in front, and the result is
  copied into the caller's slice with `write_all` semantics. The copy fails
  with `WriteZero` when the slice is too short, and the slice then keeps
  the prefix that fitted.
- `DecIntPath` (dec_int.dfy): the class `DecInt` with its
  buffer and length, the constructor (`new`), `FromFd`, `Deref` and
  `AsRef`. It also holds the primitive integer types the formatter accepts,
  with their ranges, and the test's six renderings read back through
  `Deref`.

`DecInt` is never changed after construction, so its buffer and length are
`const` fields. The value it was built from is a ghost field, because the
Rust struct does not store it.

The 20-byte buffer (src/path/dec_int.rs:13) is sized for 64-bit values, but
`new` accepts any `itoa::Integer`, 128-bit types included, and panics in
`unwrap` (src/path/dec_int.rs:25) when the rendering does not fit.
The constructor therefore requires exactly that the rendering fit. The
lemma `NarrowTypesFit` shows this always holds for types of 64 bits or less.
The lemma `WideTypesOverflow` shows it can fail for the 128-bit types.

## Model

| member | source | states |
|---|---|---|
| Decimal.DecStringShape | src/path/dec_int.rs:55-57 | a rendering is non-empty and starts with `-` exactly when the value is negative; every other byte is a decimal digit |
| Decimal.RoundTrip | src/path/dec_int.rs:58-69 | decoding the rendering of any integer gives that integer back |
| Decimal.DecStringInjective | src/path/dec_int.rs:58-69 | distinct integers have distinct renderings, a consequence of `RoundTrip`; so the rendering identifies its value as `to_string` does |
| Decimal.DecStringCanonical | src/path/dec_int.rs:55-57 | every rendering is canonical: an optional `-`, then digits with no leading zero, and `0` alone for zero (never `-0` or `00`) |
| Decimal.CanonicalIsDecString | src/path/dec_int.rs:58-69 | conversely, any canonical decimal text decodes to a value whose rendering is that text, so the rendering is the `to_string` spelling |
| Decimal.DigitsLength | src/path/dec_int.rs:13 | a natural number has at most k digits exactly when it is below 10^k |
| Decimal.LengthBound | src/path/dec_int.rs:13 | every value from `i64::MIN` to `u64::MAX` renders in at most 20 bytes |
| Decimal.WideLengthBound | src/path/dec_int.rs:1 | every value from `i128::MIN` to `u128::MAX` renders in at most 40 bytes, the size of the formatter's scratch buffer |
| Decimal.DecStringIsPathComponent | src/path/dec_int.rs:9-11 | a rendering is non-empty, holds no `/` and no NUL, and is neither `.` nor `..`: it names exactly one directory entry |
| Decimal.SmallValues | src/path/dec_int.rs:55-57 | 0 renders as `0`, -1 as `-1` and 789 as `789` |
| Decimal.I64MinValue | src/path/dec_int.rs:58-61 | `i64::MIN` renders as `-9223372036854775808` |
| Decimal.I64MaxValue | src/path/dec_int.rs:62-65 | `i64::MAX` renders as `9223372036854775807` |
| Decimal.U64MaxValue | src/path/dec_int.rs:66-69 | `u64::MAX` renders as `18446744073709551615` |
| DigitWriter.WriteDigits | src/path/dec_int.rs:25 | the digit loop leaves the digits of the magnitude right-aligned in the buffer and does not touch the bytes before them |
| DigitWriter.Format | src/path/dec_int.rs:25 | the scratch buffer's tail from the returned start is the rendering of the value, sign included |
| DigitWriter.WriteAll | src/path/dec_int.rs:25 | the copy succeeds exactly when the source fits and then reports its length; the slice holds the copied prefix, and the bytes after it are unchanged |
| DigitWriter.Write | src/path/dec_int.rs:25 | the write succeeds exactly when the rendering fits the slice and then returns its length; the slice holds as much of the rendering as fits, and the rest is unchanged |
| DecIntPath.DecInt.constructor | src/path/dec_int.rs:20-27 | the buffer holds the rendering followed by zeros, `len` is the rendering's length, and the object is valid for the given value |
| DecIntPath.DecInt.FromFd | src/path/dec_int.rs:31-33 | a descriptor gives the same buffer contents and length as constructing from its number |
| DecIntPath.DecInt.Deref | src/path/dec_int.rs:40-43 | the view is the rendering of the value, no more and no less; it decodes back to the value and is a single path component |
| DecIntPath.DecInt.AsRef | src/path/dec_int.rs:48-50 | the view is the same as `Deref`'s |
| DecIntPath.NarrowTypesFit | src/path/dec_int.rs:25 | for every type of at most 64 bits, every value fits the 20-byte buffer, so the `unwrap` cannot fail |
| DecIntPath.WideTypesOverflow | src/path/dec_int.rs:20-27 | `i128::MIN` and `u128::MAX` render longer than 20 bytes, so the 64-bit bound is tight in the type sense |
| DecIntPath.Renderings | src/path/dec_int.rs:53-70 | constructing from 0, -1, 789, `i64::MIN`, `i64::MAX` and `u64::MAX` and dereferencing yields exactly the expected texts |

## Left out

- The two-digits-per-step lookup table inside `itoa` is not modelled. `DigitWriter.WriteDigits` writes one digit per iteration and produces the same bytes.
- Which integer types `itoa::Integer` covers depends on a build feature of that crate. The model takes every primitive type up to 128 bits, with `isize`/`usize` at 64 bits.
- The generic constructor over `Int: Integer` is modelled as one constructor on an unbounded `int` restricted to the 128-bit range. The type is only reflected in `IntType`'s ranges.
- DecIntPath.DecInt.constructor: the panic of `unwrap` on a rendering longer than 20 bytes is a precondition, not modelled behaviour.
- `OsStr::from_bytes`, `Path::new` and the test's `to_str().unwrap()` are not modelled. The view is the byte sequence itself, and the rendering is ASCII, so the UTF-8 conversion never fails.
- `AsRawFd` is not modelled: a descriptor is its `RawFd` number, a C `int`. No descriptor is opened or inspected.
- Lifetimes and borrowing are not modelled. `Deref` and `AsRef` return the bytes as a sequence value, not a reference into the buffer.
- Error kinds other than `WriteZero` are not modelled; writing into a byte slice cannot produce any other.
- `#[inline]` hints have no counterpart.

/** The parts of the Java platform the converters and the clip envelope rely on:
    null references, thrown exceptions, locales and the fixed-width integer types. */
module JavaLang {

  /** A Java reference that may be null. */
  datatype Option<+T> = None | Some(value: T)

  /** `Objects.requireNonNullElse(o, d)` with a non-null default. */
  function RequireNonNullElse<T>(o: Option<T>, d: T): T {
    if o.Some? then o.value else d
  }

  /** The exceptions the modelled code throws or lets through. */
  datatype Exception =
    | RuntimeException(detail: Option<string>, cause: Option<Exception>)
    | ParseException(message: string)
    | NullPointerException
    | IllegalArgumentException(message: string)
    | DateTimeException(message: string)

  /** The outcome of a Java call: it returns a value or it throws. */
  datatype Result<+T> = Returns(value: T) | Throws(exception: Exception)

  /** What a `java.text` parse from a `ParsePosition` leaves behind: the parsed object (null if
      nothing was parsed) and the position's index afterwards. */
  datatype ParseOutcome<+T> = ParseOutcome(value: Option<T>, index: nat)

  /** A `java.util.Locale`, identified by its language tag. */
  datatype Locale = Locale(tag: string)

  const INT_MIN: int := -0x8000_0000
  const INT_MAX: int := 0x7fff_ffff
  const LONG_MIN: int := -0x8000_0000_0000_0000
  const LONG_MAX: int := 0x7fff_ffff_ffff_ffff
  /** The number of distinct `long` values. */
  const LONG_MODULUS: int := 0x1_0000_0000_0000_0000

  /** `x` fits in a Java `int`. */
  predicate IsInt(x: int) { INT_MIN <= x <= INT_MAX }

  /** `x` fits in a Java `long`. */
  predicate IsLong(x: int) { LONG_MIN <= x <= LONG_MAX }

  /** The value Java's 64-bit `long` arithmetic yields for the mathematical result `x`:
      `x` reduced into the two's-complement range. */
  function WrapLong(x: int): (r: int)
    ensures IsLong(r)
    ensures IsLong(x) ==> r == x
  {
    (x - LONG_MIN) % LONG_MODULUS + LONG_MIN
  }

  /** `WrapLong` subtracts a whole multiple of 2^64. */
  lemma WrapLongSubtractsMultiple(x: int)
    ensures WrapLong(x) == x - ((x - LONG_MIN) / LONG_MODULUS) * LONG_MODULUS
  {
  }

  /** Adding a multiple of 2^64 does not change what a `long` computation yields. */
  lemma WrapLongPeriodic(x: int, k: int)
    ensures WrapLong(x + k * LONG_MODULUS) == WrapLong(x)
  {
    var a := x - LONG_MIN;
    var q, r := a / LONG_MODULUS, a % LONG_MODULUS;
    assert a + k * LONG_MODULUS == (q + k) * LONG_MODULUS + r;
    ModOfMultiplePlus(q + k, r);
  }

  /** Euclidean division by 2^64 is unique. */
  lemma ModOfMultiplePlus(q: int, r: int)
    requires 0 <= r < LONG_MODULUS
    ensures (q * LONG_MODULUS + r) % LONG_MODULUS == r
  {
  }
}

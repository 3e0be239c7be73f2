/** The parts of `java.time.format` the date and time converters build on. A formatter is a
    value recording how it was made (which localized styles or which pattern), its locale, its
    chronology override (`getChronology`, possibly null) and its decimal style. What a
    formatter prints or parses is foreign and is handed in by the caller as `TemporalOps`. */
module DateTimeFormatters {
  import opened JavaLang

  /** `java.time.format.FormatStyle`. */
  datatype FormatStyle = FULL | LONG | MEDIUM | SHORT

  /** A `java.time.chrono.Chronology`: ISO, or one of the others, by its id. */
  datatype Chronology = IsoChronology | OtherChronology(id: string)

  /** What a formatter prints and parses. */
  datatype Printer =
    /** `ofLocalizedDate`, `ofLocalizedTime` or `ofLocalizedDateTime`, by their styles. */
    | Localized(dateStyle: Option<FormatStyle>, timeStyle: Option<FormatStyle>)
    /** A pattern the formatter was built from, parsed strictly unless `lenient`. */
    | Pattern(pattern: string, lenient: bool)
    /** Any other formatter a caller built. */
    | Built(description: string)

  /** A `DateTimeFormatter`. `decimalStyle` is the locale given to `DecimalStyle.of`, or
      `None` for `DecimalStyle.STANDARD`. */
  datatype DateTimeFormatter = DateTimeFormatter(
    printer: Printer,
    locale: Locale,
    chronology: Option<Chronology>,
    decimalStyle: Option<Locale>)
  {
    /** `withLocale`. */
    function WithLocale(l: Locale): (r: DateTimeFormatter)
      ensures r.locale == l && r.(locale := locale) == this
    {
      this.(locale := l)
    }

    /** `withChronology` with a non-null chronology. */
    function WithChronology(c: Chronology): (r: DateTimeFormatter)
      ensures r.chronology == Some(c) && r.(chronology := chronology) == this
    {
      this.(chronology := Some(c))
    }

    /** `withDecimalStyle(DecimalStyle.of(l))`. */
    function WithDecimalStyle(l: Locale): (r: DateTimeFormatter)
      ensures r.decimalStyle == Some(l) && r.(decimalStyle := decimalStyle) == this
    {
      this.(decimalStyle := Some(l))
    }
  }

  /** `DateTimeFormatterBuilder.getLocalizedDateTimePattern` for a chronology and a locale,
      as the locale data gives it. */
  type PatternTable = (Option<FormatStyle>, Option<FormatStyle>, Chronology, Locale) -> string

  /** The platform the converters read: `Locale.getDefault(Locale.Category.FORMAT)` and the
      pattern table of the locale data. */
  datatype Platform = Platform(defaultLocale: Locale, patterns: PatternTable)

  /** `getLocalizedDateTimePattern`: rejects a pair of null styles. */
  function LocalizedPattern(platform: Platform, dateStyle: Option<FormatStyle>, timeStyle: Option<FormatStyle>,
                            chronology: Chronology, locale: Locale): (r: Result<string>)
    ensures r.Throws? <==> dateStyle.None? && timeStyle.None?
    ensures r.Throws? ==> r.exception.IllegalArgumentException?
    ensures r.Returns? ==> r.value == platform.patterns(dateStyle, timeStyle, chronology, locale)
  {
    if dateStyle.None? && timeStyle.None? then
      Throws(IllegalArgumentException("Either dateStyle or timeStyle must be non-null"))
    else
      Returns(platform.patterns(dateStyle, timeStyle, chronology, locale))
  }

  /** `ofLocalizedDate` and `ofLocalizedDateTime`: the localized styles, the default locale and
      the ISO chronology. */
  function OfLocalized(platform: Platform, dateStyle: FormatStyle, timeStyle: Option<FormatStyle>): (r: DateTimeFormatter)
    ensures r.printer == Localized(Some(dateStyle), timeStyle)
    ensures r.chronology == Some(IsoChronology) && r.locale == platform.defaultLocale
  {
    DateTimeFormatter(Localized(Some(dateStyle), timeStyle), platform.defaultLocale, Some(IsoChronology), None)
  }

  /** `DateTimeFormatter.ofPattern(pattern)`: a strict pattern formatter in the default locale,
      with no chronology override. */
  function OfPattern(platform: Platform, pattern: string): (r: DateTimeFormatter)
    ensures r.printer == Pattern(pattern, false)
    ensures r.chronology.None? && r.locale == platform.defaultLocale && r.decimalStyle.None?
  {
    DateTimeFormatter(Pattern(pattern, false), platform.defaultLocale, None, None)
  }

  /** `new DateTimeFormatterBuilder().parseLenient().appendPattern(pattern).toFormatter()`:
      a lenient pattern formatter in the default locale, with no chronology override. */
  function LenientPattern(platform: Platform, pattern: string): (r: DateTimeFormatter)
    ensures r.printer == Pattern(pattern, true)
    ensures r.chronology.None? && r.locale == platform.defaultLocale && r.decimalStyle.None?
  {
    DateTimeFormatter(Pattern(pattern, true), platform.defaultLocale, None, None)
  }

  /** A value of the temporal type `D` as it is handed to `DateTimeFormatter.format`: the value
      itself, or its conversion into another chronology. */
  datatype ChronoValue<D> = IsoValue(value: D) | Converted(chronology: Chronology, value: D)

  /** The foreign behaviour of `java.time` for one temporal type `D`, with parsed fields of type
      `A`:
      - `parse`: `DateTimeFormatter.parse(String)`;
      - `resolve`: `chronology.date(temporal)` (or `localDateTime`) followed by `D.from`;
      - `convert`: `chronology.date(value)` (or `localDateTime`) on a value of type `D`;
      - `format`: `DateTimeFormatter.format`. */
  datatype TemporalOps<!A, !D> = TemporalOps(
    parse: (DateTimeFormatter, string) -> Result<A>,
    resolve: (Chronology, A) -> Result<D>,
    convert: (Chronology, D) -> Result<ChronoValue<D>>,
    format: (DateTimeFormatter, ChronoValue<D>) -> Result<string>)
}

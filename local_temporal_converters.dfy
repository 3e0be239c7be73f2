/** What `LocalDateStringConverter` and `LocalDateTimeStringConverter` share: a formatter and a
    parser fixed at construction, the default ones built from localized styles (a date style,
    and for date-times also a time style), the choice between supplied and default ones, and the
    conversion of a value into the formatter's chronology before it is printed. The two classes
    differ only in their styles and constructors, which their own modules give. */
module LocalTemporalConverters {
  import opened JavaLang
  import opened DateTimeFormatters
  import opened FourDigitYear
  import Base = BaseStringConverter

  /** `DEFAULT_STYLE` and `DEFAULT_CHRONOLOGY`. */
  const DEFAULT_STYLE: FormatStyle := SHORT
  const DEFAULT_CHRONOLOGY: Chronology := IsoChronology

  /** The styles of the default formatter and parser: the date style, and the time style of a
      date-time converter (`None` for a date converter). */
  datatype Styles = Styles(dateStyle: FormatStyle, timeStyle: Option<FormatStyle>)

  /** The two final fields of a converter. */
  datatype Converter = Converter(formatter: DateTimeFormatter, parser: DateTimeFormatter)

  /** Both formatters answer `getChronology` with a chronology rather than null. */
  predicate HasChronologies(c: Converter) {
    c.formatter.chronology.Some? && c.parser.chronology.Some?
  }

  /** The localized pattern of the styles. The date style is never null here, so the lookup
      does not throw. */
  function PatternOf(platform: Platform, styles: Styles, chronology: Chronology, locale: Locale): (r: string)
    ensures LocalizedPattern(platform, Some(styles.dateStyle), styles.timeStyle, chronology, locale) == Returns(r)
  {
    platform.patterns(Some(styles.dateStyle), styles.timeStyle, chronology, locale)
  }

  /** `getDefaultParser`: a lenient formatter of the localized pattern as the locale data gives
      it, without the four-digit-year fix, so that two-digit years are still read. */
  function DefaultParser(platform: Platform, styles: Styles, locale: Locale, chronology: Chronology): (r: DateTimeFormatter)
    ensures r.printer == Pattern(PatternOf(platform, styles, chronology, locale), true)
    ensures r.chronology == Some(chronology) && r.decimalStyle == Some(locale)
  {
    LenientPattern(platform, PatternOf(platform, styles, chronology, locale)).WithChronology(chronology).WithDecimalStyle(locale)
  }

  /** The localized formatter `getDefaultFormatter` starts from, before the four-digit-year fix. */
  function LocalizedFormatter(platform: Platform, styles: Styles, locale: Locale, chronology: Chronology): (r: DateTimeFormatter)
    ensures r.printer == Localized(Some(styles.dateStyle), styles.timeStyle)
    ensures r.locale == locale && r.chronology == Some(chronology) && r.decimalStyle == Some(locale)
  {
    OfLocalized(platform, styles.dateStyle, styles.timeStyle).WithLocale(locale).WithChronology(chronology).WithDecimalStyle(locale)
  }

  /** `getDefaultFormatter` with the corrected fix: the localized formatter, or a formatter of
      the widened pattern when the localized pattern shows a two-letter year. Either way it
      has the requested chronology. */
  function DefaultFormatter(platform: Platform, styles: Styles, locale: Locale, chronology: Chronology): (r: DateTimeFormatter)
    ensures r.chronology == Some(chronology) && r.decimalStyle == Some(locale)
    ensures var pattern := PatternOf(platform, styles, chronology, locale);
      && (!NeedsFourDigitYear(pattern) ==> r == LocalizedFormatter(platform, styles, locale, chronology))
      && (NeedsFourDigitYear(pattern) ==> r.printer == Pattern(FourDigitYearPattern(pattern), false) && NoTwoLetterYear(r.printer.pattern))
  {
    FixFourDigitYear(platform, LocalizedFormatter(platform, styles, locale, chronology), styles.dateStyle, styles.timeStyle, chronology, locale)
  }

  /** `getDefaultFormatter` as written: the rewritten formatter has no chronology. */
  function DefaultFormatterAsWritten(platform: Platform, styles: Styles, locale: Locale, chronology: Chronology): (r: DateTimeFormatter)
    ensures r.chronology.None? <==> NeedsFourDigitYear(PatternOf(platform, styles, chronology, locale))
    ensures r.chronology.Some? ==> r == DefaultFormatter(platform, styles, locale, chronology)
  {
    FixFourDigitYearAsWritten(platform, LocalizedFormatter(platform, styles, locale, chronology), styles.dateStyle, styles.timeStyle, chronology, locale)
  }

  /** The style constructor, once its null arguments have been replaced by the defaults: the
      default parser and formatter of the styles, locale and chronology. */
  function FromStyles(platform: Platform, styles: Styles, locale: Locale, chronology: Chronology): (r: Converter)
    ensures HasChronologies(r)
    ensures r.parser == DefaultParser(platform, styles, locale, chronology)
    ensures r.formatter == DefaultFormatter(platform, styles, locale, chronology)
  {
    Converter(DefaultFormatter(platform, styles, locale, chronology), DefaultParser(platform, styles, locale, chronology))
  }

  /** The style constructor as written, over `DefaultFormatterAsWritten`: the formatter lacks a
      chronology exactly when the fix applies, and otherwise the converter is the corrected one.
      The parser is the same in both. */
  function FromStylesAsWritten(platform: Platform, styles: Styles, locale: Locale, chronology: Chronology): (r: Converter)
    ensures r.parser == FromStyles(platform, styles, locale, chronology).parser
    ensures r.formatter.chronology.None? <==> NeedsFourDigitYear(PatternOf(platform, styles, chronology, locale))
    ensures !NeedsFourDigitYear(PatternOf(platform, styles, chronology, locale)) ==> r == FromStyles(platform, styles, locale, chronology)
  {
    Converter(DefaultFormatterAsWritten(platform, styles, locale, chronology), DefaultParser(platform, styles, locale, chronology))
  }

  /** A supplied formatter whose `getChronology` is null is given the ISO chronology. */
  function WithDefaultChronology(f: DateTimeFormatter): (r: DateTimeFormatter)
    ensures r.chronology.Some?
    ensures f.chronology.Some? ==> r == f
    ensures f.chronology.None? ==> r == f.WithChronology(DEFAULT_CHRONOLOGY)
  {
    if f.chronology.None? then f.WithChronology(DEFAULT_CHRONOLOGY) else f
  }

  /** The formatter-and-parser constructor. The formatter is the supplied one, or the default
      one for `defaults` in the default locale and ISO chronology. The parser is the supplied
      one; failing that the formatter, if one was supplied; failing that the default parser.
      Supplied formatters without a chronology get the ISO one, and nothing else about them
      changes. */
  function FromFormatters(platform: Platform, defaults: Styles, formatter: Option<DateTimeFormatter>,
                          parser: Option<DateTimeFormatter>): (r: Converter)
    ensures HasChronologies(r)
    ensures formatter.None? ==> r.formatter == DefaultFormatter(platform, defaults, platform.defaultLocale, DEFAULT_CHRONOLOGY)
    ensures formatter.Some? ==> r.formatter.(chronology := formatter.value.chronology) == formatter.value
    ensures formatter.Some? && formatter.value.chronology.Some? ==> r.formatter == formatter.value
    ensures parser.Some? ==> r.parser.(chronology := parser.value.chronology) == parser.value
    ensures parser.Some? && parser.value.chronology.Some? ==> r.parser == parser.value
    ensures parser.None? && formatter.Some? ==> r.parser == r.formatter
    ensures parser.None? && formatter.None? ==> r.parser == DefaultParser(platform, defaults, platform.defaultLocale, DEFAULT_CHRONOLOGY)
  {
    var f := if formatter.None? then DefaultFormatter(platform, defaults, platform.defaultLocale, DEFAULT_CHRONOLOGY)
             else WithDefaultChronology(formatter.value);
    var p := if parser.None? then
               (if formatter.None? then DefaultParser(platform, defaults, platform.defaultLocale, DEFAULT_CHRONOLOGY) else f)
             else WithDefaultChronology(parser.value);
    Converter(f, p)
  }

  /** The formatter-and-parser constructor as written: it differs from the corrected one only
      when no formatter is supplied, in which case its formatter is the as-written default, which
      lacks a chronology exactly when the fix applies. */
  function FromFormattersAsWritten(platform: Platform, defaults: Styles, formatter: Option<DateTimeFormatter>,
                                   parser: Option<DateTimeFormatter>): (r: Converter)
    ensures formatter.Some? ==> r == FromFormatters(platform, defaults, formatter, parser)
    ensures formatter.None? ==> r.parser == FromFormatters(platform, defaults, formatter, parser).parser
    ensures formatter.None? ==>
      (r.formatter.chronology.None? <==> NeedsFourDigitYear(PatternOf(platform, defaults, DEFAULT_CHRONOLOGY, platform.defaultLocale)))
    ensures !NeedsFourDigitYear(PatternOf(platform, defaults, DEFAULT_CHRONOLOGY, platform.defaultLocale)) ==>
      r == FromFormatters(platform, defaults, formatter, parser)
  {
    var f := if formatter.None? then DefaultFormatterAsWritten(platform, defaults, platform.defaultLocale, DEFAULT_CHRONOLOGY)
             else WithDefaultChronology(formatter.value);
    var p := if parser.None? then
               (if formatter.None? then DefaultParser(platform, defaults, platform.defaultLocale, DEFAULT_CHRONOLOGY) else f)
             else WithDefaultChronology(parser.value);
    Converter(f, p)
  }

  /** The value `toStringFromNonNull` prints: the value converted into `chronology`, or the
      value itself when that conversion throws a `DateTimeException`. */
  function DateInChronology<A, D>(ops: TemporalOps<A, D>, chronology: Chronology, value: D): (r: Result<ChronoValue<D>>)
    ensures ops.convert(chronology, value).Returns? ==> r == ops.convert(chronology, value)
    ensures ops.convert(chronology, value).Throws? && ops.convert(chronology, value).exception.DateTimeException? ==>
      r == Returns(IsoValue(value))
    ensures r.Throws? ==> r == ops.convert(chronology, value) && !r.exception.DateTimeException?
  {
    match ops.convert(chronology, value)
    case Returns(v) => Returns(v)
    case Throws(e) => if e.DateTimeException? then Returns(IsoValue(value)) else Throws(e)
  }

  /** `toStringFromNonNull`: asks the formatter for its chronology, which throws a
      `NullPointerException` when there is none, and prints the value in that chronology. */
  function ToStringFromNonNull<A, D>(formatter: DateTimeFormatter, ops: TemporalOps<A, D>, value: D): (r: Result<string>)
    ensures formatter.chronology.None? ==> r == Throws(NullPointerException)
    ensures formatter.chronology.Some? && DateInChronology(ops, formatter.chronology.value, value).Returns? ==>
      r == ops.format(formatter, DateInChronology(ops, formatter.chronology.value, value).value)
    ensures formatter.chronology.Some? && DateInChronology(ops, formatter.chronology.value, value).Throws? ==>
      r == Throws(DateInChronology(ops, formatter.chronology.value, value).exception)
  {
    match formatter.chronology
    case None => Throws(NullPointerException)
    case Some(c) =>
      match DateInChronology(ops, c, value)
      case Throws(e) => Throws(e)
      case Returns(v) => ops.format(formatter, v)
  }

  /** `fromNonEmptyString`: parses the text and resolves the parsed fields in the parser's
      chronology. */
  function FromNonEmptyString<A, D>(parser: DateTimeFormatter, ops: TemporalOps<A, D>, text: string): (r: Result<Option<D>>)
    ensures ops.parse(parser, text).Throws? ==> r == Throws(ops.parse(parser, text).exception)
    ensures ops.parse(parser, text).Returns? && parser.chronology.None? ==> r == Throws(NullPointerException)
    ensures ops.parse(parser, text).Returns? && parser.chronology.Some? ==>
      var resolved := ops.resolve(parser.chronology.value, ops.parse(parser, text).value);
      (resolved.Returns? ==> r == Returns(Some(resolved.value))) && (resolved.Throws? ==> r == Throws(resolved.exception))
  {
    match ops.parse(parser, text)
    case Throws(e) => Throws(e)
    case Returns(fields) =>
      match parser.chronology
      case None => Throws(NullPointerException)
      case Some(c) =>
        match ops.resolve(c, fields)
        case Throws(e) => Throws(e)
        case Returns(d) => Returns(Some(d))
  }

  /** The inherited `fromString`, with this converter's parser: null and blank text give null,
      other text is trimmed and parsed. */
  function FromString<A, D>(c: Converter, ops: TemporalOps<A, D>, s: Option<string>): (r: Result<Option<D>>)
    ensures s.None? || JavaStrings.AllTrimmable(s.value) ==> r == Returns(None)
    ensures s.Some? && !JavaStrings.AllTrimmable(s.value) ==> r == FromNonEmptyString(c.parser, ops, JavaStrings.Trim(s.value))
  {
    Base.FromString(s, (text: string) => FromNonEmptyString(c.parser, ops, text))
  }

  /** The inherited `toString`, with this converter's formatter: the empty string for null. */
  function ToString<A, D>(c: Converter, ops: TemporalOps<A, D>, value: Option<D>): (r: Result<string>)
    ensures value.None? ==> r == Returns("")
    ensures value.Some? ==> r == ToStringFromNonNull(c.formatter, ops, value.value)
  {
    Base.ToString(value, (v: D) => ToStringFromNonNull(c.formatter, ops, v))
  }

  /** The library calls succeed: printing never throws, and a chronology conversion fails, if
      at all, with a `DateTimeException`. */
  ghost predicate WellBehaved<A, D(!new)>(ops: TemporalOps<A, D>) {
    && (forall f, v :: ops.format(f, v).Returns?)
    && (forall c, d :: ops.convert(c, d).Returns? || ops.convert(c, d).exception.DateTimeException?)
  }

  /** A converter whose formatter has a chronology prints every non-null value when the library
      calls succeed; a failed chronology conversion does not surface. */
  lemma FormattingSucceeds<A, D(!new)>(c: Converter, ops: TemporalOps<A, D>, value: D)
    requires HasChronologies(c) && WellBehaved(ops)
    ensures ToString(c, ops, Some(value)).Returns?
  {
    var conv := ops.convert(c.formatter.chronology.value, value);
    assert conv.Returns? || conv.exception.DateTimeException?;
    var date := DateInChronology(ops, c.formatter.chronology.value, value);
    assert date.Returns?;
    assert ops.format(c.formatter, date.value).Returns?;
  }

  /** A converter whose parser has a chronology throws no `NullPointerException` of its own when
      parsing: it returns null for blank text, and otherwise what the parse and the resolution
      give. */
  lemma ParsingUsesParserChronology<A, D>(c: Converter, ops: TemporalOps<A, D>, s: string)
    requires HasChronologies(c) && !JavaStrings.AllTrimmable(s)
    requires ops.parse(c.parser, JavaStrings.Trim(s)).Returns?
    ensures var resolved := ops.resolve(c.parser.chronology.value, ops.parse(c.parser, JavaStrings.Trim(s)).value);
      && (resolved.Returns? ==> FromString(c, ops, Some(s)) == Returns(Some(resolved.value)))
      && (resolved.Throws? ==> FromString(c, ops, Some(s)) == Throws(resolved.exception))
  {
  }

  /** Null and blank text convert to null without reaching the parser. */
  lemma BlankTextIsNull<A, D>(c: Converter, ops: TemporalOps<A, D>, s: string)
    requires JavaStrings.AllTrimmable(s)
    ensures FromString(c, ops, Some(s)) == Returns(None) && FromString(c, ops, None) == Returns(None)
  {
  }

  /** Every converter the style constructor builds prints every value. */
  lemma StyleConvertersFormat<A, D(!new)>(platform: Platform, styles: Styles, locale: Locale, chronology: Chronology,
                                    ops: TemporalOps<A, D>, value: D)
    requires WellBehaved(ops)
    ensures ToString(FromStyles(platform, styles, locale, chronology), ops, Some(value)).Returns?
  {
    FormattingSucceeds(FromStyles(platform, styles, locale, chronology), ops, value);
  }

  /** Every converter the formatter-and-parser constructor builds prints every value. */
  lemma SuppliedConvertersFormat<A, D(!new)>(platform: Platform, defaults: Styles, formatter: Option<DateTimeFormatter>,
                                       parser: Option<DateTimeFormatter>, ops: TemporalOps<A, D>, value: D)
    requires WellBehaved(ops)
    ensures ToString(FromFormatters(platform, defaults, formatter, parser), ops, Some(value)).Returns?
  {
    FormattingSucceeds(FromFormatters(platform, defaults, formatter, parser), ops, value);
  }

  /** Where the fix applies, the default formatter and parser differ: the formatter prints a
      four-letter year, while the parser keeps the two-letter pattern and reads it leniently. */
  lemma ParserKeepsTwoLetterYear(platform: Platform, styles: Styles, locale: Locale, chronology: Chronology)
    requires NeedsFourDigitYear(PatternOf(platform, styles, chronology, locale))
    ensures var c := FromStyles(platform, styles, locale, chronology);
      && c.parser.printer.Pattern? && c.parser.printer.lenient && NeedsFourDigitYear(c.parser.printer.pattern)
      && c.formatter.printer.Pattern? && !NeedsFourDigitYear(c.formatter.printer.pattern)
      && NoTwoLetterYear(c.formatter.printer.pattern)
  {
    RewriteIsStable(PatternOf(platform, styles, chronology, locale));
  }

  /** As written, a style converter whose localized pattern shows a two-letter year has a
      formatter without a chronology, and printing any value throws a `NullPointerException`,
      however well the library behaves. */
  lemma AsWrittenFormattingThrows<A, D>(platform: Platform, styles: Styles, locale: Locale, chronology: Chronology,
                                        ops: TemporalOps<A, D>, value: D)
    requires NeedsFourDigitYear(PatternOf(platform, styles, chronology, locale))
    ensures ToString(FromStylesAsWritten(platform, styles, locale, chronology), ops, Some(value)) == Throws(NullPointerException)
  {
  }

  /** The same holds of the formatter-and-parser constructor when no formatter is supplied, with
      or without a parser, in a default locale whose pattern shows a two-letter year. */
  lemma AsWrittenDefaultFormatterThrows<A, D>(platform: Platform, defaults: Styles, parser: Option<DateTimeFormatter>,
                                              ops: TemporalOps<A, D>, value: D)
    requires NeedsFourDigitYear(PatternOf(platform, defaults, DEFAULT_CHRONOLOGY, platform.defaultLocale))
    ensures ToString(FromFormattersAsWritten(platform, defaults, None, parser), ops, Some(value)) == Throws(NullPointerException)
  {
  }
}

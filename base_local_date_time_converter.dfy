/** `BaseTemporalConverter`: a common base for temporal converters whose subclass supplies the
    localized formatter of a pair of styles, either of which may be null. Unlike the date
    converters it passes null styles through, prints values without consulting the formatter's
    chronology, and computes its default formatter and parser even when formatters are
    supplied. */
module BaseTemporalConverter {
  import opened JavaLang
  import opened DateTimeFormatters
  import opened FourDigitYear

  /** `getLocalizedFormatter`, the subclass hook: a localized formatter of the styles, or the
      exception it throws (for instance for a null style it needs). */
  type LocalizedFactory = (Option<FormatStyle>, Option<FormatStyle>) -> Result<DateTimeFormatter>

  /** The two final fields of a converter. */
  datatype Converter = Converter(formatter: DateTimeFormatter, parser: DateTimeFormatter)

  /** `getDefaultParser`: a lenient formatter of the localized pattern, which cannot be looked
      up when both styles are null. */
  function DefaultParser(platform: Platform, dateStyle: Option<FormatStyle>, timeStyle: Option<FormatStyle>,
                         locale: Locale, chronology: Chronology): (r: Result<DateTimeFormatter>)
    ensures r.Throws? <==> dateStyle.None? && timeStyle.None?
    ensures r.Throws? ==> r.exception.IllegalArgumentException?
    ensures r.Returns? ==>
      && r.value.printer == Pattern(platform.patterns(dateStyle, timeStyle, chronology, locale), true)
      && r.value.chronology == Some(chronology) && r.value.decimalStyle == Some(locale)
  {
    match LocalizedPattern(platform, dateStyle, timeStyle, chronology, locale)
    case Throws(e) => Throws(e)
    case Returns(pattern) => Returns(LenientPattern(platform, pattern).WithChronology(chronology).WithDecimalStyle(locale))
  }

  /** `getDefaultFormatter`: the subclass's localized formatter in the locale and chronology, with
      the four-digit-year fix applied only when there is a date style. */
  function DefaultFormatter(platform: Platform, localized: LocalizedFactory, dateStyle: Option<FormatStyle>,
                            timeStyle: Option<FormatStyle>, locale: Locale, chronology: Chronology): (r: Result<DateTimeFormatter>)
    ensures localized(dateStyle, timeStyle).Throws? ==> r == localized(dateStyle, timeStyle)
    ensures localized(dateStyle, timeStyle).Returns? ==>
      var base := localized(dateStyle, timeStyle).value.WithLocale(locale).WithChronology(chronology).WithDecimalStyle(locale);
      && (dateStyle.None? ==> r == Returns(base))
      && (dateStyle.Some? ==> r == Returns(FixFourDigitYearAsWritten(platform, base, dateStyle.value, timeStyle, chronology, locale)))
  {
    match localized(dateStyle, timeStyle)
    case Throws(e) => Throws(e)
    case Returns(f) =>
      var base := f.WithLocale(locale).WithChronology(chronology).WithDecimalStyle(locale);
      if dateStyle.Some? then Returns(FixFourDigitYearAsWritten(platform, base, dateStyle.value, timeStyle, chronology, locale))
      else Returns(base)
  }

  /** The style constructor: a null locale is the default locale, a null chronology ISO, and the
      styles are used as given. The parser is built first, so its exception is the one seen when
      both fail. */
  function FromStyles(platform: Platform, localized: LocalizedFactory, dateStyle: Option<FormatStyle>,
                      timeStyle: Option<FormatStyle>, locale: Option<Locale>, chronology: Option<Chronology>): (r: Result<Converter>)
    ensures var l := RequireNonNullElse(locale, platform.defaultLocale);
      var c := RequireNonNullElse(chronology, IsoChronology);
      var p := DefaultParser(platform, dateStyle, timeStyle, l, c);
      var f := DefaultFormatter(platform, localized, dateStyle, timeStyle, l, c);
      && (p.Throws? ==> r == Throws(p.exception))
      && (p.Returns? && f.Throws? ==> r == Throws(f.exception))
      && (p.Returns? && f.Returns? ==> r == Returns(Converter(f.value, p.value)))
  {
    var l := RequireNonNullElse(locale, platform.defaultLocale);
    var c := RequireNonNullElse(chronology, IsoChronology);
    match DefaultParser(platform, dateStyle, timeStyle, l, c)
    case Throws(e) => Throws(e)
    case Returns(p) =>
      match DefaultFormatter(platform, localized, dateStyle, timeStyle, l, c)
      case Throws(e) => Throws(e)
      case Returns(f) => Returns(Converter(f, p))
  }

  /** The formatter-and-parser constructor: the formatter is the supplied one or the default one;
      the parser is the supplied one, else the supplied formatter, else the default parser. The
      defaults are built in the default locale and ISO chronology before the choice is made, so
      their exceptions surface even when both formatters are supplied. */
  function FromFormatters(platform: Platform, localized: LocalizedFactory, formatter: Option<DateTimeFormatter>,
                          parser: Option<DateTimeFormatter>, dateStyle: Option<FormatStyle>, timeStyle: Option<FormatStyle>): (r: Result<Converter>)
    ensures var f := DefaultFormatter(platform, localized, dateStyle, timeStyle, platform.defaultLocale, IsoChronology);
      var p := DefaultParser(platform, dateStyle, timeStyle, platform.defaultLocale, IsoChronology);
      && (f.Throws? ==> r == Throws(f.exception))
      && (f.Returns? && p.Throws? ==> r == Throws(p.exception))
      && (f.Returns? && p.Returns? ==>
        r == Returns(Converter(RequireNonNullElse(formatter, f.value), RequireNonNullElse(parser, RequireNonNullElse(formatter, p.value)))))
  {
    match DefaultFormatter(platform, localized, dateStyle, timeStyle, platform.defaultLocale, IsoChronology)
    case Throws(e) => Throws(e)
    case Returns(defaultFormatter) =>
      match DefaultParser(platform, dateStyle, timeStyle, platform.defaultLocale, IsoChronology)
      case Throws(e) => Throws(e)
      case Returns(defaultParser) =>
        Returns(Converter(RequireNonNullElse(formatter, defaultFormatter),
                          RequireNonNullElse(parser, RequireNonNullElse(formatter, defaultParser))))
  }

  /** `toStringFromNonNull`: the formatter prints the value as it is. Its chronology is not
      asked for, so a formatter without one prints as well as any other. */
  function ToStringFromNonNull<D>(c: Converter, format: (DateTimeFormatter, D) -> Result<string>, value: D): (r: Result<string>)
    ensures r == format(c.formatter, value)
  {
    format(c.formatter, value)
  }

  /** `fromNonEmptyString`: the parser reads the text with the subclass's temporal query; its
      exception propagates, and a value it returns is never null. */
  function FromNonEmptyString<D>(c: Converter, parseQuery: (DateTimeFormatter, string) -> Result<D>, text: string): (r: Result<Option<D>>)
    ensures parseQuery(c.parser, text).Throws? ==> r == Throws(parseQuery(c.parser, text).exception)
    ensures parseQuery(c.parser, text).Returns? ==> r == Returns(Some(parseQuery(c.parser, text).value))
  {
    match parseQuery(c.parser, text)
    case Throws(e) => Throws(e)
    case Returns(d) => Returns(Some(d))
  }

  /** Without a date style the default formatter is the localized one, even when its pattern
      shows a two-letter year. */
  lemma NoDateStyleNoFix(platform: Platform, localized: LocalizedFactory, timeStyle: Option<FormatStyle>,
                         locale: Locale, chronology: Chronology)
    requires localized(None, timeStyle).Returns?
    ensures DefaultFormatter(platform, localized, None, timeStyle, locale, chronology).Returns?
    ensures DefaultFormatter(platform, localized, None, timeStyle, locale, chronology).value.printer
      == localized(None, timeStyle).value.printer
  {
  }

  /** Two null styles make every constructor throw: the style constructor with an
      `IllegalArgumentException` from the pattern lookup, and the formatter-and-parser
      constructor as well, even when it is given both formatters. */
  lemma NullStylesThrow(platform: Platform, localized: LocalizedFactory, formatter: Option<DateTimeFormatter>,
                        parser: Option<DateTimeFormatter>, locale: Option<Locale>, chronology: Option<Chronology>)
    ensures FromStyles(platform, localized, None, None, locale, chronology).Throws?
    ensures FromStyles(platform, localized, None, None, locale, chronology).exception.IllegalArgumentException?
    ensures FromFormatters(platform, localized, formatter, parser, None, None).Throws?
  {
  }

  /** With a date style and a localized formatter that can be built, the formatter-and-parser
      constructor keeps what it is given: a supplied formatter is used for printing, and a
      supplied parser, or else the supplied formatter, for parsing. */
  lemma SuppliedFormattersWin(platform: Platform, localized: LocalizedFactory, formatter: DateTimeFormatter,
                              parser: Option<DateTimeFormatter>, dateStyle: FormatStyle, timeStyle: Option<FormatStyle>)
    requires localized(Some(dateStyle), timeStyle).Returns?
    ensures FromFormatters(platform, localized, Some(formatter), parser, Some(dateStyle), timeStyle).Returns?
    ensures FromFormatters(platform, localized, Some(formatter), parser, Some(dateStyle), timeStyle).value
      == Converter(formatter, RequireNonNullElse(parser, formatter))
  {
  }
}

/** `LocalDateStringConverter`: the converter of `LocalDate` values, whose default formatter
    and parser use a date style only. */
module LocalDateStringConverter {
  import opened JavaLang
  import opened DateTimeFormatters
  import opened LocalTemporalConverters

  /** The styles of a date converter with date style `dateStyle`. */
  function DateStyles(dateStyle: FormatStyle): (s: Styles)
    ensures s.dateStyle == dateStyle && s.timeStyle.None?
  {
    Styles(dateStyle, None)
  }

  /** The constructor taking a style, a locale and a chronology: a null style is `SHORT`, a null
      locale the default locale and a null chronology ISO. */
  function WithStyleLocaleChronology(platform: Platform, dateStyle: Option<FormatStyle>, locale: Option<Locale>,
                                     chronology: Option<Chronology>): (r: Converter)
    ensures HasChronologies(r)
    ensures r == FromStyles(platform, DateStyles(RequireNonNullElse(dateStyle, SHORT)),
                            RequireNonNullElse(locale, platform.defaultLocale), RequireNonNullElse(chronology, IsoChronology))
  {
    FromStyles(platform, DateStyles(RequireNonNullElse(dateStyle, DEFAULT_STYLE)),
               RequireNonNullElse(locale, platform.defaultLocale), RequireNonNullElse(chronology, DEFAULT_CHRONOLOGY))
  }

  /** The constructor taking a style: the default locale and the ISO chronology. */
  function WithStyle(platform: Platform, dateStyle: Option<FormatStyle>): (r: Converter)
    ensures r == WithStyleLocaleChronology(platform, dateStyle, None, None)
  {
    WithStyleLocaleChronology(platform, dateStyle, Some(platform.defaultLocale), Some(DEFAULT_CHRONOLOGY))
  }

  /** The no-argument constructor: the `SHORT` style. */
  function Default(platform: Platform): (r: Converter)
    ensures r == FromStyles(platform, DateStyles(SHORT), platform.defaultLocale, IsoChronology)
    ensures r == WithStyleLocaleChronology(platform, None, None, None)
  {
    WithStyle(platform, Some(DEFAULT_STYLE))
  }

  /** The constructor taking a formatter and a parser, with `SHORT` defaults. */
  function WithFormatters(platform: Platform, formatter: Option<DateTimeFormatter>, parser: Option<DateTimeFormatter>): (r: Converter)
    ensures HasChronologies(r)
    ensures formatter.None? && parser.None? ==> r == Default(platform)
    ensures formatter.Some? && parser.None? ==> r.parser == r.formatter
  {
    FromFormatters(platform, DateStyles(DEFAULT_STYLE), formatter, parser)
  }

  /** The default converter in a locale whose short date pattern is `M/d/yy`, as in US English:
      it prints with `M/d/yyyy` and parses with `M/d/yy`. */
  lemma UsDefaultConverter(platform: Platform)
    requires platform.patterns(Some(SHORT), None, IsoChronology, platform.defaultLocale) == "M/d/yy"
    ensures Default(platform).formatter.printer == Pattern("M/d/yyyy", false)
    ensures Default(platform).parser.printer == Pattern("M/d/yy", true)
    ensures Default(platform).formatter.chronology == Some(IsoChronology)
  {
    FourDigitYear.ShortUsPattern();
  }

  /** As written, the default converter of such a locale cannot print a date: its formatter has
      no chronology, and `toString` throws a `NullPointerException` for every non-null value. So
      does the formatter-and-parser constructor given no formatter. */
  lemma UsDefaultConverterAsWrittenThrows<A, D>(platform: Platform, parser: Option<DateTimeFormatter>,
                                                ops: TemporalOps<A, D>, value: D)
    requires platform.patterns(Some(SHORT), None, IsoChronology, platform.defaultLocale) == "M/d/yy"
    ensures FromStylesAsWritten(platform, DateStyles(SHORT), platform.defaultLocale, IsoChronology).formatter.chronology.None?
    ensures ToString(FromStylesAsWritten(platform, DateStyles(SHORT), platform.defaultLocale, IsoChronology), ops, Some(value))
      == Throws(NullPointerException)
    ensures ToString(FromFormattersAsWritten(platform, DateStyles(SHORT), None, parser), ops, Some(value))
      == Throws(NullPointerException)
  {
    FourDigitYear.ShortUsPattern();
    AsWrittenFormattingThrows(platform, DateStyles(SHORT), platform.defaultLocale, IsoChronology, ops, value);
    AsWrittenDefaultFormatterThrows(platform, DateStyles(SHORT), parser, ops, value);
  }
}

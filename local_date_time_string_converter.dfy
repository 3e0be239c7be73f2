/** `LocalDateTimeStringConverter`: the converter of `LocalDateTime` values, whose default
    formatter and parser use a date style and a time style. */
module LocalDateTimeStringConverter {
  import opened JavaLang
  import opened DateTimeFormatters
  import opened LocalTemporalConverters

  /** The styles of a date-time converter. */
  function DateTimeStyles(dateStyle: FormatStyle, timeStyle: FormatStyle): (s: Styles)
    ensures s.dateStyle == dateStyle && s.timeStyle == Some(timeStyle)
  {
    Styles(dateStyle, Some(timeStyle))
  }

  /** The constructor taking two styles, a locale and a chronology: null styles are `SHORT`, a
      null locale the default locale and a null chronology ISO. */
  function WithStylesLocaleChronology(platform: Platform, dateStyle: Option<FormatStyle>, timeStyle: Option<FormatStyle>,
                                      locale: Option<Locale>, chronology: Option<Chronology>): (r: Converter)
    ensures HasChronologies(r)
    ensures r == FromStyles(platform, DateTimeStyles(RequireNonNullElse(dateStyle, SHORT), RequireNonNullElse(timeStyle, SHORT)),
                            RequireNonNullElse(locale, platform.defaultLocale), RequireNonNullElse(chronology, IsoChronology))
  {
    FromStyles(platform, DateTimeStyles(RequireNonNullElse(dateStyle, DEFAULT_STYLE), RequireNonNullElse(timeStyle, DEFAULT_STYLE)),
               RequireNonNullElse(locale, platform.defaultLocale), RequireNonNullElse(chronology, DEFAULT_CHRONOLOGY))
  }

  /** The constructor taking two styles: the default locale and the ISO chronology. */
  function WithStyles(platform: Platform, dateStyle: Option<FormatStyle>, timeStyle: Option<FormatStyle>): (r: Converter)
    ensures r == WithStylesLocaleChronology(platform, dateStyle, timeStyle, None, None)
  {
    WithStylesLocaleChronology(platform, dateStyle, timeStyle, Some(platform.defaultLocale), Some(DEFAULT_CHRONOLOGY))
  }

  /** The no-argument constructor: `SHORT` for both styles. */
  function Default(platform: Platform): (r: Converter)
    ensures r == FromStyles(platform, DateTimeStyles(SHORT, SHORT), platform.defaultLocale, IsoChronology)
    ensures r == WithStylesLocaleChronology(platform, None, None, None, None)
  {
    WithStyles(platform, Some(DEFAULT_STYLE), Some(DEFAULT_STYLE))
  }

  /** The constructor taking a formatter and a parser, with `SHORT` defaults for both styles. */
  function WithFormatters(platform: Platform, formatter: Option<DateTimeFormatter>, parser: Option<DateTimeFormatter>): (r: Converter)
    ensures HasChronologies(r)
    ensures formatter.None? && parser.None? ==> r == Default(platform)
    ensures formatter.Some? && parser.None? ==> r.parser == r.formatter
  {
    FromFormatters(platform, DateTimeStyles(DEFAULT_STYLE, DEFAULT_STYLE), formatter, parser)
  }
}

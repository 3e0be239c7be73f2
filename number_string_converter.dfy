/** `NumberStringConverter`: a converter around a `java.text.NumberFormat`, chosen once by the
    constructors. It repeats the null and blank handling of `BaseStringConverter` itself. */
module NumberStringConverter {
  import opened JavaLang
  import opened JavaStrings
  import Base = BaseStringConverter
  import FormatStringConverter

  /** The number format a converter holds: a `DecimalFormat` of a pattern with the symbols of a
      locale, the number instance of a locale (`getSpecializedNumberFormat`), or any other
      format a caller supplied. */
  datatype NumberFormat =
    | DecimalFormat(pattern: string, symbols: Locale)
    | NumberInstance(locale: Locale)
    | OtherFormat(description: string)

  /** The foreign behaviour of number formats over numbers of type `N`: `parse(text,
      new ParsePosition(start))` and `format`, which may throw. */
  datatype NumberFormatOps<!N> = NumberFormatOps(parse: (NumberFormat, string, nat) -> ParseOutcome<N>,
                                                 format: (NumberFormat, N) -> Result<string>)

  /** The private constructor: a supplied format wins; otherwise a non-null pattern gives a
      `DecimalFormat`; otherwise the locale's number instance. A null locale is the default. */
  function Construct(defaultLocale: Locale, locale: Option<Locale>, pattern: Option<string>,
                     numberFormat: Option<NumberFormat>): (r: NumberFormat)
    ensures numberFormat.Some? ==> r == numberFormat.value
    ensures numberFormat.None? && pattern.Some? ==> r == DecimalFormat(pattern.value, RequireNonNullElse(locale, defaultLocale))
    ensures numberFormat.None? && pattern.None? ==> r == NumberInstance(RequireNonNullElse(locale, defaultLocale))
  {
    if numberFormat.Some? then numberFormat.value
    else
      var newLocale := RequireNonNullElse(locale, defaultLocale);
      if pattern.Some? then DecimalFormat(pattern.value, newLocale) else NumberInstance(newLocale)
  }

  /** The constructor taking a locale and a pattern. */
  function WithLocaleAndPattern(defaultLocale: Locale, locale: Option<Locale>, pattern: Option<string>): (r: NumberFormat)
    ensures r == Construct(defaultLocale, locale, pattern, None)
    ensures !r.OtherFormat?
  {
    Construct(defaultLocale, locale, pattern, None)
  }

  /** The constructor taking a locale. */
  function WithLocale(defaultLocale: Locale, locale: Option<Locale>): (r: NumberFormat)
    ensures r == NumberInstance(RequireNonNullElse(locale, defaultLocale))
  {
    WithLocaleAndPattern(defaultLocale, locale, None)
  }

  /** The constructor taking a pattern, in the default locale. */
  function WithPattern(defaultLocale: Locale, pattern: Option<string>): (r: NumberFormat)
    ensures pattern.Some? ==> r == DecimalFormat(pattern.value, defaultLocale)
    ensures pattern.None? ==> r == NumberInstance(defaultLocale)
  {
    WithLocaleAndPattern(defaultLocale, Some(defaultLocale), pattern)
  }

  /** The no-argument constructor: the default locale's number instance. */
  function Default(defaultLocale: Locale): (r: NumberFormat)
    ensures r == NumberInstance(defaultLocale)
  {
    WithLocale(defaultLocale, Some(defaultLocale))
  }

  /** The constructor taking a number format. */
  function WithNumberFormat(defaultLocale: Locale, numberFormat: Option<NumberFormat>): (r: NumberFormat)
    ensures numberFormat.Some? ==> r == numberFormat.value
  {
    Construct(defaultLocale, None, None, numberFormat)
  }

  /** A null number format, a null locale and a null pattern all fall back to the default. */
  lemma NullArgumentsFallBack(defaultLocale: Locale)
    ensures WithNumberFormat(defaultLocale, None) == Default(defaultLocale)
    ensures WithLocale(defaultLocale, None) == Default(defaultLocale)
    ensures WithPattern(defaultLocale, None) == Default(defaultLocale)
    ensures WithLocaleAndPattern(defaultLocale, None, None) == Default(defaultLocale)
  {
  }

  /** The message of the `ParseException` of `NumberFormat.parse`: the text in quotes after a
      fixed prefix of 21 characters, so the text can be read back from it. */
  function UnparseableMessage(text: string): (m: string)
    ensures |m| == |text| + 22 && m[21..|m| - 1] == text
    ensures JavaStrings.StartsWith(m, "Unparseable number: \"")
  {
    "Unparseable number: \"" + text + "\""
  }

  /** `NumberFormat.parse(String)`: parses from the start, and throws a `ParseException` when the
      parse did not move past the start. Text after the number is not looked at. */
  function Parse<N>(ops: NumberFormatOps<N>, nf: NumberFormat, text: string): (r: Result<Option<N>>)
    ensures r.Throws? <==> ops.parse(nf, text, 0).index == 0
    ensures r.Throws? ==> r.exception == ParseException(UnparseableMessage(text))
    ensures r.Returns? ==> r.value == ops.parse(nf, text, 0).value
  {
    var outcome := ops.parse(nf, text, 0);
    if outcome.index == 0 then Throws(ParseException(UnparseableMessage(text))) else Returns(outcome.value)
  }

  /** `new RuntimeException(ex)`: the cause, and the cause's `toString` as the message. */
  function WrapParseException(message: string): (e: Exception)
    ensures e.RuntimeException? && e.cause == Some(ParseException(message))
    ensures e.detail == Some("java.text.ParseException: " + message)
  {
    RuntimeException(Some("java.text.ParseException: " + message), Some(ParseException(message)))
  }

  /** `fromString`: null for null or blank text; otherwise the trimmed text is parsed, and a
      parse that reads nothing throws a `RuntimeException` around the `ParseException`. */
  function FromString<N>(ops: NumberFormatOps<N>, nf: NumberFormat, s: Option<string>): (r: Result<Option<N>>)
    ensures s.None? || AllTrimmable(s.value) ==> r == Returns(None)
    ensures s.Some? && !AllTrimmable(s.value) ==>
      var outcome := ops.parse(nf, Trim(s.value), 0);
      && (r.Throws? <==> outcome.index == 0)
      && (r.Throws? ==> r.exception == WrapParseException(UnparseableMessage(Trim(s.value))))
      && (r.Returns? ==> r.value == outcome.value)
  {
    if s.None? then Returns(None)
    else
      var value := Trim(s.value);
      if value == [] then Returns(None)
      else
        match Parse(ops, nf, value)
        case Throws(e) => Throws(WrapParseException(e.message))
        case Returns(n) => Returns(n)
  }

  /** `toString`: the empty string for null, else the format prints the number, and an
      exception of the format passes through. */
  function ToString<N>(ops: NumberFormatOps<N>, nf: NumberFormat, value: Option<N>): (r: Result<string>)
    ensures value.None? ==> r == Returns("")
    ensures value.Some? ==> r == ops.format(nf, value.value)
  {
    if value.None? then Returns("") else ops.format(nf, value.value)
  }

  /** The parse with its exception wrapped, as a hook of the shared template. */
  function FromNonEmptyString<N>(ops: NumberFormatOps<N>, nf: NumberFormat, text: string): (r: Result<Option<N>>)
    ensures r.Throws? <==> ops.parse(nf, text, 0).index == 0
    ensures r.Throws? ==> r.exception == WrapParseException(UnparseableMessage(text))
    ensures r.Returns? ==> r.value == ops.parse(nf, text, 0).value
  {
    match Parse(ops, nf, text)
    case Throws(e) => Throws(WrapParseException(e.message))
    case Returns(n) => Returns(n)
  }

  /** The converter's own null and blank handling is the template's, and so is its `toString`. */
  lemma AgreesWithTemplate<N>(ops: NumberFormatOps<N>, nf: NumberFormat, s: Option<string>, value: Option<N>)
    ensures FromString(ops, nf, s) == Base.FromString(s, (text: string) => FromNonEmptyString(ops, nf, text))
    ensures ToString(ops, nf, value) == Base.ToString(value, (n: N) => ops.format(nf, n))
  {
  }

  /** Text with surrounding blanks converts as the trimmed text does: `" 10 "` as `"10"`. */
  lemma PaddingIgnored<N>(ops: NumberFormatOps<N>, nf: NumberFormat, s: string)
    ensures FromString(ops, nf, Some(s)) == FromString(ops, nf, Some(Trim(s)))
  {
    AgreesWithTemplate(ops, nf, Some(s), None);
    AgreesWithTemplate(ops, nf, Some(Trim(s)), None);
    Base.FromStringIgnoresPadding(s, (text: string) => FromNonEmptyString(ops, nf, text));
  }

  /** Text that the format cannot start to read, such as `abcdefg` for a number instance, is an
      error. */
  lemma UnreadableTextThrows<N>(ops: NumberFormatOps<N>, nf: NumberFormat)
    requires ops.parse(nf, "abcdefg", 0).index == 0
    ensures FromString(ops, nf, Some("abcdefg")) == Throws(WrapParseException(UnparseableMessage("abcdefg")))
  {
    TrimmedIsFixpoint("abcdefg");
  }

  /** Unlike a `FormatStringConverter` over the same parse, this converter accepts text of which
      only a prefix is a number, and returns that number. */
  lemma PrefixAccepted<N>(ops: NumberFormatOps<N>, nf: NumberFormat, s: string)
    requires !AllTrimmable(s)
    requires 0 < ops.parse(nf, Trim(s), 0).index < |Trim(s)|
    ensures FromString(ops, nf, Some(s)) == Returns(ops.parse(nf, Trim(s), 0).value)
    ensures FormatStringConverter.FromString(
              FormatStringConverter.Format((text: string, start: nat) => ops.parse(nf, text, start), (n: N) => ops.format(nf, n)),
              Some(s)).Throws?
  {
  }
}

/** `FormatStringConverter`: a converter around a `java.text.Format`, which must read the whole
    text for the parse to count. */
module FormatStringConverter {
  import opened JavaLang
  import opened JavaStrings
  import Base = BaseStringConverter

  /** A `java.text.Format`: `parseObject(text, new ParsePosition(start))`, and `format`, which
      throws (an `IllegalArgumentException`) for an object the format cannot print. */
  datatype Format<!T> = Format(parseObject: (string, nat) -> ParseOutcome<T>, format: T -> Result<string>)

  const NOT_ACCORDING_TO_FORMAT: string := "Parsed string not according to the format"

  /** `fromNonEmptyString`: parses from the start of the text and throws unless the parse ended
      exactly at its end. */
  function FromNonEmptyString<T>(f: Format<T>, text: string): (r: Result<Option<T>>)
    ensures r.Throws? <==> f.parseObject(text, 0).index != |text|
    ensures r.Throws? ==> r.exception == RuntimeException(Some(NOT_ACCORDING_TO_FORMAT), None)
    ensures r.Returns? ==> r.value == f.parseObject(text, 0).value
  {
    var outcome := f.parseObject(text, 0);
    if outcome.index != |text| then Throws(RuntimeException(Some(NOT_ACCORDING_TO_FORMAT), None))
    else Returns(outcome.value)
  }

  /** The inherited `fromString`: null for null or blank text; otherwise the trimmed text must
      be read in full. */
  function FromString<T>(f: Format<T>, s: Option<string>): (r: Result<Option<T>>)
    ensures s.None? || AllTrimmable(s.value) ==> r == Returns(None)
    ensures s.Some? && !AllTrimmable(s.value) ==> r == FromNonEmptyString(f, Trim(s.value))
  {
    Base.FromString(s, (text: string) => FromNonEmptyString(f, text))
  }

  /** `toStringFromNonNull`: the format prints the object; an exception of the format passes
      through unchanged. */
  function ToStringFromNonNull<T>(f: Format<T>, o: T): (r: Result<string>)
    ensures r.Throws? <==> f.format(o).Throws?
    ensures r.Throws? ==> r.exception == f.format(o).exception
    ensures r.Returns? ==> r.value == f.format(o).value
  {
    f.format(o)
  }

  /** The inherited `toString`. */
  function ToString<T>(f: Format<T>, o: Option<T>): (r: Result<string>)
    ensures o.None? ==> r == Returns("")
    ensures o.Some? ==> r == f.format(o.value)
  {
    Base.ToString(o, (v: T) => ToStringFromNonNull(f, v))
  }

  /** Non-blank text converts only when the format reads all of it once trimmed, and then to
      what the format read. */
  lemma WholeTextOrThrow<T>(f: Format<T>, s: string)
    requires !AllTrimmable(s)
    ensures var outcome := f.parseObject(Trim(s), 0);
      && (FromString(f, Some(s)).Throws? <==> outcome.index != |Trim(s)|)
      && (FromString(f, Some(s)).Returns? ==> FromString(f, Some(s)).value == outcome.value)
  {
  }

  /** Printing then parsing gives the object back when the format prints it, reads its own
      output in full, and that output is non-empty and has no surrounding blanks. */
  lemma RoundTrip<T>(f: Format<T>, o: T)
    requires f.format(o).Returns?
    requires var text := f.format(o).value; text != [] && IsTrimmed(text) && f.parseObject(text, 0) == ParseOutcome(Some(o), |text|)
    ensures ToString(f, Some(o)).Returns?
    ensures FromString(f, Some(ToString(f, Some(o)).value)) == Returns(Some(o))
  {
    TrimmedIsFixpoint(f.format(o).value);
  }
}

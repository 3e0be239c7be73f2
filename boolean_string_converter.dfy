/** `BooleanStringConverter`: `Boolean.toString` for printing and `Boolean.valueOf` for parsing,
    inside the null and blank handling of `BaseStringConverter`. */
module BooleanStringConverter {
  import opened JavaLang
  import opened JavaStrings
  import Base = BaseStringConverter

  /** `Boolean.valueOf(String)`: true exactly for `true` written in any mix of cases. No
      character outside ASCII has `t`, `r`, `u` or `e` as its case mapping, so the ASCII case
      mapping decides this comparison as the full one does. */
  function BooleanValueOf(s: string): (b: bool)
    ensures b ==> |s| == 4
    ensures s == "true" || s == "TRUE" || s == "True" ==> b
  {
    EqualsIgnoreCase(s, "true")
  }

  /** `Boolean.toString`. */
  function BooleanToString(b: bool): (s: string)
    ensures BooleanValueOf(s) == b
    ensures IsTrimmed(s) && s != []
  {
    if b then "true" else "false"
  }

  /** `fromNonEmptyString`: never throws, and gives a non-null value, true exactly for `true`
      in any mix of cases. */
  function FromNonEmptyString(s: string): (r: Result<Option<bool>>)
    ensures r.Returns? && r.value.Some?
    ensures r.value.value <==> EqualsIgnoreCase(s, "true")
  {
    Returns(Some(BooleanValueOf(s)))
  }

  /** The inherited `fromString`: never throws; null for null or blank text, otherwise whether
      the trimmed text is `true` ignoring case. */
  function FromString(s: Option<string>): (r: Result<Option<bool>>)
    ensures r.Returns?
    ensures r.value.None? <==> s.None? || AllTrimmable(s.value)
    ensures r.value.Some? ==> (r.value.value <==> EqualsIgnoreCase(Trim(s.value), "true"))
  {
    Base.FromString(s, FromNonEmptyString)
  }

  /** The inherited `toString` with the inherited `toStringFromNonNull`, `Boolean.toString`:
      the empty string for null, else `true` or `false`. */
  function ToString(b: Option<bool>): (r: Result<string>)
    ensures r.Returns?
    ensures b.None? ==> r.value == ""
    ensures b.Some? ==> r.value == BooleanToString(b.value)
  {
    Base.ToString(b, (v: bool) => Base.DefaultToStringFromNonNull(v, (x: bool) => Returns(BooleanToString(x))))
  }

  /** Printing then parsing gives back every value, null included. */
  lemma RoundTrip(b: Option<bool>)
    ensures FromString(Some(ToString(b).value)) == Returns(b)
  {
    if b.Some? {
      TrimmedIsFixpoint(BooleanToString(b.value));
    } else {
      assert AllTrimmable(ToString(b).value);
    }
  }

  /** Letter case does not matter, and any other word is false. */
  lemma ParsingExamples()
    ensures FromString(Some("TRUE")) == Returns(Some(true))
    ensures FromString(Some("yes")) == Returns(Some(false))
  {
    TrimmedIsFixpoint("TRUE");
    TrimmedIsFixpoint("yes");
  }

  /** Surrounding blanks do not matter either. */
  lemma PaddingIgnored(s: string)
    ensures FromString(Some(s)) == FromString(Some(Trim(s)))
  {
    Base.FromStringIgnoresPadding(s, FromNonEmptyString);
  }
}

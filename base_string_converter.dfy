/** `BaseStringConverter`: the null and blank handling every converter in the package shares.
    A subclass supplies the two hooks, `fromNonEmptyString` and `toStringFromNonNull`, which
    are passed here as functions. */
module BaseStringConverter {
  import opened JavaLang
  import opened JavaStrings

  /** `fromString`: null and blank strings give null; any other string is trimmed and handed
      to the hook, whose result or exception is the result. */
  function FromString<T>(s: Option<string>, fromNonEmptyString: string -> Result<Option<T>>): (r: Result<Option<T>>)
    ensures s.None? ==> r == Returns(None)
    ensures s.Some? && AllTrimmable(s.value) ==> r == Returns(None)
    ensures s.Some? && !AllTrimmable(s.value) ==> r == fromNonEmptyString(Trim(s.value))
  {
    if s.None? then Returns(None)
    else
      var trimmed := Trim(s.value);
      if trimmed == [] then Returns(None) else fromNonEmptyString(trimmed)
  }

  /** `toString`: null gives the empty string; anything else goes to the hook. */
  function ToString<T>(o: Option<T>, toStringFromNonNull: T -> Result<string>): (r: Result<string>)
    ensures o.None? ==> r == Returns("")
    ensures o.Some? ==> r == toStringFromNonNull(o.value)
  {
    if o.None? then Returns("") else toStringFromNonNull(o.value)
  }

  /** The default `toStringFromNonNull`: the object's own `toString`, whose text or exception
      is the result. */
  function DefaultToStringFromNonNull<T>(o: T, objectToString: T -> Result<string>): (r: Result<string>)
    ensures r.Throws? <==> objectToString(o).Throws?
    ensures r.Throws? ==> r.exception == objectToString(o).exception
    ensures r.Returns? ==> r.value == objectToString(o).value
  {
    objectToString(o)
  }

  /** A string that is non-empty and trimmed: the only kind the parsing hook is given. */
  predicate IsHookInput(s: string) {
    s != [] && IsTrimmed(s)
  }

  /** The hook is consulted on non-empty trimmed strings only: two hooks that agree there give
      the same `fromString` on every input. */
  lemma HookSeesOnlyTrimmedText<T>(s: Option<string>, hook1: string -> Result<Option<T>>, hook2: string -> Result<Option<T>>)
    requires forall x :: IsHookInput(x) ==> hook1(x) == hook2(x)
    ensures FromString(s, hook1) == FromString(s, hook2)
  {
    if s.Some? && !AllTrimmable(s.value) {
      assert IsHookInput(Trim(s.value));
    }
  }

  /** Leading and trailing blanks never matter: a string parses as its trimmed form does. */
  lemma FromStringIgnoresPadding<T>(s: string, hook: string -> Result<Option<T>>)
    ensures FromString(Some(s), hook) == FromString(Some(Trim(s)), hook)
  {
    TrimIdempotent(s);
  }
}

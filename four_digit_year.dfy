/** The four-digit-year fix of the date converters' default formatters: a localized pattern
    that shows the year with exactly two letters (`yy` present, `yyy` absent) has every `yy`
    widened to `yyyy`, so that a year such as 1955 is printed in full and is not read back
    as 2055. */
module FourDigitYear {
  import opened JavaLang
  import opened JavaStrings
  import opened DateTimeFormatters

  /** The guard of `fixFourDigitYear`: the pattern contains `yy` but not `yyy`. A pattern that
      passes it shows a year field of exactly two letters. */
  predicate NeedsFourDigitYear(pattern: string)
    ensures NeedsFourDigitYear(pattern) ==> !NoTwoLetterYear(pattern)
  {
    if Contains(pattern, "yy") && !Contains(pattern, "yyy") then
      GuardFindsTwoLetterYear(pattern);
      true
    else false
  }

  /** `pattern.replace("yy", "yyyy")`: it never shortens the pattern, and leaves a pattern
      without `yy` as it is. */
  function FourDigitYearPattern(pattern: string): (r: string)
    ensures |r| >= |pattern|
    ensures !Contains(pattern, "yy") ==> r == pattern
  {
    if Contains(pattern, "yy") then Replace(pattern, "yy", "yyyy")
    else
      ReplaceAbsent(pattern, "yy", "yyyy");
      Replace(pattern, "yy", "yyyy")
  }

  /** No maximal run of `y` in `s` has exactly two letters: every run that starts with `yy`
      goes on to a third `y`. */
  predicate NoTwoLetterYear(s: string) {
    forall i {:trigger s[i]} :: 0 <= i && i + 2 <= |s| && s[i] == 'y' && s[i + 1] == 'y' && (i == 0 || s[i - 1] != 'y') ==>
      i + 2 < |s| && s[i + 2] == 'y'
  }

  /** The first `yy` of a pattern without `yyy` starts a run of exactly two letters. */
  lemma {:induction false} GuardFindsTwoLetterYear(p: string)
    requires Contains(p, "yy") && !Contains(p, "yyy")
    ensures !NoTwoLetterYear(p)
    decreases |p|
  {
    if StartsWith(p, "yy") {
      assert p[0] == 'y' && p[1] == 'y' by { assert p[..2] == "yy"; }
      assert !StartsWith(p, "yyy");
      if |p| > 2 {
        assert p[..3] == [p[0], p[1], p[2]];
      }
    } else {
      var u := p[1..];
      assert Contains(u, "yy");
      assert !Contains(u, "yyy");
      GuardFindsTwoLetterYear(u);
      var j :| 0 <= j && j + 2 <= |u| && u[j] == 'y' && u[j + 1] == 'y' && (j == 0 || u[j - 1] != 'y')
               && !(j + 2 < |u| && u[j + 2] == 'y');
      assert p[j + 1] == 'y' && p[j + 2] == 'y';
      if j == 0 {
        assert p[..2] == [p[0], p[1]];
      } else {
        assert p[j] == u[j - 1];
      }
      assert j + 3 < |p| ==> p[j + 3] == u[j + 2];
    }
  }

  /** `s` without its `y` letters: the non-year part of a pattern, in order. */
  function NonYearLetters(s: string): string {
    if s == [] then [] else (if s[0] == 'y' then [] else [s[0]]) + NonYearLetters(s[1..])
  }

  lemma PrependNonYear(c: char, u: string)
    requires c != 'y' && NoTwoLetterYear(u)
    ensures NoTwoLetterYear([c] + u)
  {
    var t := [c] + u;
    forall i | 0 <= i && i + 2 <= |t| && t[i] == 'y' && t[i + 1] == 'y' && (i == 0 || t[i - 1] != 'y')
      ensures i + 2 < |t| && t[i + 2] == 'y'
    {
      assert i != 0 by { assert t[0] == c; }
      var j := i - 1;
      assert t[i] == u[j] && t[i + 1] == u[j + 1];
      assert j == 0 || u[j - 1] == t[i - 1];
      assert 0 <= j && j + 2 <= |u| && u[j] == 'y' && u[j + 1] == 'y' && (j == 0 || u[j - 1] != 'y');
      assert j + 2 < |u| && u[j + 2] == 'y';
      assert t[i + 2] == u[j + 2];
    }
  }

  lemma PrependLoneYear(u: string)
    requires NoTwoLetterYear(u) && (u == [] || u[0] != 'y')
    ensures NoTwoLetterYear("y" + u)
  {
    var t := "y" + u;
    forall i | 0 <= i && i + 2 <= |t| && t[i] == 'y' && t[i + 1] == 'y' && (i == 0 || t[i - 1] != 'y')
      ensures i + 2 < |t| && t[i + 2] == 'y'
    {
      assert i != 0 by { assert t[1] == u[0]; }
      assert u[i - 1] == 'y' && u[i] == 'y';
      assert u[i - 2] != 'y';
    }
  }

  lemma PrependFourYears(u: string)
    requires NoTwoLetterYear(u)
    ensures NoTwoLetterYear("yyyy" + u)
  {
    var t := "yyyy" + u;
    forall i | 0 <= i && i + 2 <= |t| && t[i] == 'y' && t[i + 1] == 'y' && (i == 0 || t[i - 1] != 'y')
      ensures i + 2 < |t| && t[i + 2] == 'y'
    {
      if i >= 5 {
        assert u[i - 4] == 'y' && u[i - 3] == 'y';
        assert u[i - 5] != 'y';
      }
    }
  }

  /** The rewrite starts with the first letter of its input when that letter is not `y`. */
  lemma RewriteKeepsFirstLetter(s: string)
    requires s != [] && s[0] != 'y'
    ensures FourDigitYearPattern(s) != [] && FourDigitYearPattern(s)[0] == s[0]
  {
  }

  /** After the rewrite no year field of two letters is left, whatever the pattern. */
  lemma {:induction false} RewriteLeavesNoTwoLetterYear(s: string)
    ensures NoTwoLetterYear(FourDigitYearPattern(s))
    decreases |s|
  {
    if |s| < 2 {
    } else if s[..2] == "yy" {
      RewriteLeavesNoTwoLetterYear(s[2..]);
      PrependFourYears(FourDigitYearPattern(s[2..]));
    } else {
      RewriteLeavesNoTwoLetterYear(s[1..]);
      if s[0] != 'y' {
        PrependNonYear(s[0], FourDigitYearPattern(s[1..]));
      } else {
        RewriteKeepsFirstLetter(s[1..]);
        PrependLoneYear(FourDigitYearPattern(s[1..]));
      }
    }
  }

  lemma {:induction false} NonYearLettersConcat(a: string, b: string)
    ensures NonYearLetters(a + b) == NonYearLetters(a) + NonYearLetters(b)
    decreases |a|
  {
    if a == [] {
      assert a + b == b;
    } else {
      assert (a + b)[0] == a[0];
      assert (a + b)[1..] == a[1..] + b;
      NonYearLettersConcat(a[1..], b);
    }
  }

  /** The rewrite only adds `y` letters: every other letter of the pattern is kept, in order. */
  lemma {:induction false} RewriteKeepsOtherLetters(s: string)
    ensures NonYearLetters(FourDigitYearPattern(s)) == NonYearLetters(s)
    decreases |s|
  {
    if |s| < 2 {
    } else if s[..2] == "yy" {
      RewriteKeepsOtherLetters(s[2..]);
      NonYearLettersConcat("yyyy", FourDigitYearPattern(s[2..]));
      assert s == "yy" + s[2..];
      NonYearLettersConcat("yy", s[2..]);
    } else {
      RewriteKeepsOtherLetters(s[1..]);
      NonYearLettersConcat([s[0]], FourDigitYearPattern(s[1..]));
    }
  }

  /** A pattern containing `yy` is rewritten into one containing `yyyy`. */
  lemma {:induction false} RewriteWidensYear(s: string)
    requires Contains(s, "yy")
    ensures Contains(FourDigitYearPattern(s), "yyyy")
    decreases |s|
  {
    if s[..2] != "yy" {
      RewriteWidensYear(s[1..]);
      var r := [s[0]] + FourDigitYearPattern(s[1..]);
      assert r[1..] == FourDigitYearPattern(s[1..]);
    } else {
      var r := FourDigitYearPattern(s);
      assert r[..4] == "yyyy";
    }
  }

  lemma {:induction false} ContainsShorter(s: string)
    requires Contains(s, "yyyy")
    ensures Contains(s, "yyy")
    decreases |s|
  {
    if !StartsWith(s, "yyyy") {
      ContainsShorter(s[1..]);
    } else {
      assert s[..3] == "yyy";
    }
  }

  /** The fix does not apply twice: once rewritten, a pattern no longer passes the guard. */
  lemma RewriteIsStable(pattern: string)
    requires NeedsFourDigitYear(pattern)
    ensures !NeedsFourDigitYear(FourDigitYearPattern(pattern))
  {
    RewriteWidensYear(pattern);
    ContainsShorter(FourDigitYearPattern(pattern));
  }

  /** The short date pattern of US English. */
  lemma ShortUsPattern()
    ensures NeedsFourDigitYear("M/d/yy")
    ensures FourDigitYearPattern("M/d/yy") == "M/d/yyyy"
  {
    assert StartsWith("yy", "yy");
    assert "M/d/yy"[1..][1..][1..][1..] == "yy";
    assert !Contains("", "yyy");
    assert !Contains("y", "yyy");
    assert !Contains("yy", "yyy");
    assert "/yy"[1..] == "yy";
    assert !StartsWith("/yy", "yyy") by { assert "/yy"[..3][0] == '/'; }
    assert !Contains("/yy", "yyy");
    assert !Contains("d/yy", "yyy");
    assert !Contains("/d/yy", "yyy");
    assert !Contains("M/d/yy", "yyy");
    assert Replace("yy", "yy", "yyyy") == "yyyy";
    assert Replace("/yy", "yy", "yyyy") == "/yyyy";
    assert Replace("d/yy", "yy", "yyyy") == "d/yyyy";
    assert Replace("/d/yy", "yy", "yyyy") == "/d/yyyy";
  }

  /** `fixFourDigitYear` as the three converters write it. The localized pattern for the styles
      is looked up; if it passes the guard, a new formatter of the widened pattern replaces
      `formatter`. That formatter is made by `DateTimeFormatter.ofPattern`, so it has the default
      locale and no chronology. */
  function FixFourDigitYearAsWritten(platform: Platform, formatter: DateTimeFormatter, dateStyle: FormatStyle,
                                     timeStyle: Option<FormatStyle>, chronology: Chronology, locale: Locale): (r: DateTimeFormatter)
    ensures var pattern := platform.patterns(Some(dateStyle), timeStyle, chronology, locale);
      && (!NeedsFourDigitYear(pattern) ==> r == formatter)
      && (NeedsFourDigitYear(pattern) ==>
        && r.printer == Pattern(FourDigitYearPattern(pattern), false)
        && NoTwoLetterYear(r.printer.pattern) && NonYearLetters(r.printer.pattern) == NonYearLetters(pattern)
        && r.chronology.None? && r.locale == platform.defaultLocale && r.decimalStyle == Some(locale))
  {
    var pattern := platform.patterns(Some(dateStyle), timeStyle, chronology, locale);
    if NeedsFourDigitYear(pattern) then
      RewriteLeavesNoTwoLetterYear(pattern);
      RewriteKeepsOtherLetters(pattern);
      OfPattern(platform, FourDigitYearPattern(pattern)).WithDecimalStyle(locale)
    else
      formatter
  }

  /** `fixFourDigitYear` with the rewritten formatter given the converter's chronology, which
      it needs because the converter asks the formatter for its chronology when formatting. */
  function FixFourDigitYear(platform: Platform, formatter: DateTimeFormatter, dateStyle: FormatStyle,
                            timeStyle: Option<FormatStyle>, chronology: Chronology, locale: Locale): (r: DateTimeFormatter)
    ensures var pattern := platform.patterns(Some(dateStyle), timeStyle, chronology, locale);
      && (!NeedsFourDigitYear(pattern) ==> r == formatter)
      && (NeedsFourDigitYear(pattern) ==>
        && r.printer == Pattern(FourDigitYearPattern(pattern), false)
        && NoTwoLetterYear(r.printer.pattern) && NonYearLetters(r.printer.pattern) == NonYearLetters(pattern)
        && r.chronology == Some(chronology) && r.locale == platform.defaultLocale && r.decimalStyle == Some(locale))
    ensures formatter.chronology == Some(chronology) ==> r.chronology == Some(chronology)
  {
    var pattern := platform.patterns(Some(dateStyle), timeStyle, chronology, locale);
    if NeedsFourDigitYear(pattern) then
      RewriteLeavesNoTwoLetterYear(pattern);
      RewriteKeepsOtherLetters(pattern);
      OfPattern(platform, FourDigitYearPattern(pattern)).WithChronology(chronology).WithDecimalStyle(locale)
    else
      formatter
  }

  /** The two differ only in the chronology of a rewritten formatter. */
  lemma FixDiffersOnlyInChronology(platform: Platform, formatter: DateTimeFormatter, dateStyle: FormatStyle,
                                   timeStyle: Option<FormatStyle>, chronology: Chronology, locale: Locale)
    ensures var asWritten := FixFourDigitYearAsWritten(platform, formatter, dateStyle, timeStyle, chronology, locale);
      var fixed := FixFourDigitYear(platform, formatter, dateStyle, timeStyle, chronology, locale);
      fixed == asWritten || fixed == asWritten.WithChronology(chronology)
  {
  }
}

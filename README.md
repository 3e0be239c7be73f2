# JavaFX clip envelopes and string converters in Dafny

This project models two small parts of JavaFX and proves properties of the models.

**The clip envelope of an animation.** `ClipEnvelope` holds the loop state of an animation clip:
- the rate;
- the tick count of one cycle;
- the current cycle;
- the play head `ticks`;
- the offset `deltaTicks` between the pulse clock and the play head;
- the flags of the pulse in progress.

`ClipEnvelope.create` picks one of three variants for an animation. `SingleLoopClipEnvelope` plays a single cycle. It replaces itself with another variant when a new cycle count or cycle duration calls for one.

The envelopes are Dafny classes whose methods update their fields in place. The single-loop variant holds its base state as a `ClipEnvelope` object, because the model uses composition where Java uses inheritance. Java `long` arithmetic is written out as two's-complement wrap-around (`JavaLang.WrapLong`). The calls an envelope makes into its animation through `AnimationAccessor` are kept in a ghost log of events.

**The string converters of `javafx.util.converter`.** `BaseStringConverter` turns null and blank text into null. It trims all other text before the subclass parses it, and prints null as the empty string. On top of it:
- `BooleanStringConverter`;
- `FormatStringConverter`, over a `java.text.Format`, which must read the whole text;
- `LocalDateStringConverter` and `LocalDateTimeStringConverter`. Their default formatter widens a two-letter year pattern to four letters, and their default parser keeps the two-letter pattern;
- the abstract `BaseTemporalConverter`.

`NumberStringConverter` repeats the null and blank handling itself, and picks its `NumberFormat` in a private constructor.

The converters are pure functions over values:
- a Java null is `Option`;
- a thrown exception is the `Throws` case of `Result`;
- a `DateTimeFormatter` is a value that records how it was built, its locale, its chronology override (possibly null) and its decimal style.

What `java.time` and `java.text` do when they actually parse or print is foreign code. It is passed in as functions:
- `TemporalOps` for the temporal types;
- `Format` for `java.text.Format`;
- `NumberFormatOps` for number formats;
- a `Platform` for the default locale and the localized pattern table.

The date and date-time converters come in two versions. The version named without a suffix uses a corrected four-digit-year fix, described under "## Findings". The members ending in `AsWritten` follow the code as written. The pattern rewrite of `fixFourDigitYear` is modelled on strings. It is proved to leave no two-letter year field, to keep every other letter in order, and never to apply twice.

The rewritten formatter of `fixFourDigitYear` comes from `DateTimeFormatter.ofPattern`. The default parser, built with `DateTimeFormatterBuilder.toFormatter()`, likewise starts out in the default locale. Both use the platform's default locale rather than the converter's locale, which they receive only as a decimal style. The model keeps this behaviour (`DateTimeFormatters.OfPattern`, `DateTimeFormatters.LenientPattern`).

## Model

Source paths are relative to the root of the JavaFX repository.

| member | source | states |
|---|---|---|
| JavaLang.WrapLong | modules/javafx.graphics/src/main/java/com/sun/scenario/animation/shared/SingleLoopClipEnvelope.java:92 | the result of a `long` sum is a `long`, and is the mathematical sum when that sum fits |
| JavaLang.WrapLongPeriodic | modules/javafx.graphics/src/main/java/com/sun/scenario/animation/shared/SingleLoopClipEnvelope.java:112 | adding a multiple of 2^64 does not change what `long` arithmetic yields |
| JavaLang.WrapLongSubtractsMultiple | modules/javafx.graphics/src/main/java/com/sun/scenario/animation/shared/SingleLoopClipEnvelope.java:112 | the wrapped value differs from the mathematical one by a whole multiple of 2^64 |
| JavaStrings.Trim | modules/javafx.base/src/main/java/javafx/util/converter/BaseStringConverter.java:12 | the trimmed text starts and ends above U+0020; it is empty exactly when every character is at most U+0020; the input is a blank prefix, the result and a blank suffix |
| JavaStrings.TrimmedIsFixpoint | modules/javafx.base/src/main/java/javafx/util/converter/BaseStringConverter.java:12 | text that is already trimmed is left as it is |
| JavaStrings.TrimIdempotent | modules/javafx.base/src/main/java/javafx/util/converter/BaseStringConverter.java:12 | trimming twice is trimming once |
| JavaStrings.Contains | modules/javafx.base/src/main/java/javafx/util/converter/LocalDateStringConverter.java:167 | `String.contains`: true exactly when the text occurs at some index |
| JavaStrings.Replace | modules/javafx.base/src/main/java/javafx/util/converter/LocalDateStringConverter.java:169 | `String.replace` scanning from the left: a replacement at least as long as the target never shortens the text, and a text starting with the target starts with the replacement |
| JavaStrings.ReplaceAbsent | modules/javafx.base/src/main/java/javafx/util/converter/LocalDateStringConverter.java:169 | replacing a target that does not occur changes nothing |
| JavaStrings.EqualsIgnoreCase | modules/javafx.base/src/main/java/javafx/util/converter/BooleanStringConverter.java:45 | equal strings compare equal, and only strings of the same length do |
| JavaStrings.EqualsIgnoreCaseSymmetric | modules/javafx.base/src/main/java/javafx/util/converter/BooleanStringConverter.java:45 | the comparison does not depend on the order of its arguments |
| ClipEnvelopes.Create | modules/javafx.graphics/src/main/java/com/sun/scenario/animation/shared/ClipEnvelope.java:82-90 | the chosen variant is the only one that applies: single loop for one cycle or an indefinite cycle; infinite loop for an indefinite count of finite cycles; finite loop otherwise |
| ClipEnvelopes.DocumentedRunningRate | modules/javafx.graphics/src/main/java/com/sun/scenario/animation/shared/ClipEnvelope.java:97-111 | the documented current rate is always `+rate` or `-rate` |
| ClipEnvelopes.ClipEnvelope.constructor | modules/javafx.graphics/src/main/java/com/sun/scenario/animation/shared/ClipEnvelope.java:74-80 | a non-null animation gives its cycle ticks and rate; null gives rate 1 and an empty cycle; every other field starts at 0 or false; the field invariants hold |
| ClipEnvelopes.ClipEnvelope.WasSynched | modules/javafx.graphics/src/main/java/com/sun/scenario/animation/shared/ClipEnvelope.java:125-127 | true exactly when the cycle is not empty |
| ClipEnvelopes.ClipEnvelope.SetCurrentRate | modules/javafx.graphics/src/main/java/com/sun/scenario/animation/shared/ClipEnvelope.java:113-115 | exactly one rate event is sent to the animation; no field changes |
| ClipEnvelopes.ClipEnvelope.UpdateCycleTicks | modules/javafx.graphics/src/main/java/com/sun/scenario/animation/shared/ClipEnvelope.java:121-123 | only the cycle length changes; the invariants are kept; the play head stays in the cycle exactly when it is not beyond the new length |
| ClipEnvelopes.ClipEnvelope.Start | modules/javafx.graphics/src/main/java/com/sun/scenario/animation/shared/ClipEnvelope.java:129-132 | the delta becomes the old play head and nothing else changes |
| ClipEnvelopes.ClipEnvelope.Stop | modules/javafx.graphics/src/main/java/com/sun/scenario/animation/shared/ClipEnvelope.java:134-137 | the play head and the delta become 0, nothing else changes, and the play head is in the cycle |
| ClipEnvelopes.ClipEnvelope.AbortCurrentPulse | modules/javafx.graphics/src/main/java/com/sun/scenario/animation/shared/ClipEnvelope.java:143-148 | inside a pulse it marks the pulse aborted and leaves it; outside a pulse it changes nothing; afterwards no pulse is in progress |
| ClipEnvelopes.StopThenStart | modules/javafx.graphics/src/main/java/com/sun/scenario/animation/shared/ClipEnvelope.java:129-137 | after a stop and a start, the play head and the delta are both 0 |
| ClipEnvelopes.AbortTwice | modules/javafx.graphics/src/main/java/com/sun/scenario/animation/shared/ClipEnvelope.java:143-148 | aborting twice has the effect of aborting once |
| SingleLoopClipEnvelopes.Clamp | modules/javafx.graphics/src/main/java/com/sun/scenario/animation/shared/SingleLoopClipEnvelope.java:107 | the result lies within the bounds; it is the value when the value already does, and otherwise the bound it overshoots |
| SingleLoopClipEnvelopes.ClampedPlayHeadReachesEnd | modules/javafx.graphics/src/main/java/com/sun/scenario/animation/shared/SingleLoopClipEnvelope.java:85-93 | a clamped play head is at the end of the cycle exactly when the candidate reaches or passes that end in the direction of travel |
| SingleLoopClipEnvelopes.ShiftKeepsOffset | modules/javafx.graphics/src/main/java/com/sun/scenario/animation/shared/SingleLoopClipEnvelope.java:106-112 | moving the play head and the delta by the same amount keeps their `long` difference, and their exact difference when nothing overflows |
| SingleLoopClipEnvelopes.SingleLoopClipEnvelope.constructor | modules/javafx.graphics/src/main/java/com/sun/scenario/animation/shared/SingleLoopClipEnvelope.java:40-45 | the base state as the base constructor gives it, plus the animation's cycle count (0 for null) |
| SingleLoopClipEnvelopes.SingleLoopClipEnvelope.SetAutoReverse | modules/javafx.graphics/src/main/java/com/sun/scenario/animation/shared/SingleLoopClipEnvelope.java:47-50 | nothing changes |
| SingleLoopClipEnvelopes.SingleLoopClipEnvelope.SetCycleDuration | modules/javafx.graphics/src/main/java/com/sun/scenario/animation/shared/SingleLoopClipEnvelope.java:52-59 | the envelope is replaced, by the factory's choice and with its state untouched, exactly when the count is not 1 and the duration is finite; otherwise only the cycle length changes; for a consistent animation it keeps itself exactly when the factory would pick a single loop |
| SingleLoopClipEnvelopes.SingleLoopClipEnvelope.SetCycleCount | modules/javafx.graphics/src/main/java/com/sun/scenario/animation/shared/SingleLoopClipEnvelope.java:61-68 | the envelope is replaced, by the factory's choice, exactly when the count is not 1 and the cycle is not `INDEFINITE`; otherwise the count is stored and nothing else changes; for a consistent animation it keeps itself exactly when the factory would pick a single loop |
| SingleLoopClipEnvelopes.SingleLoopClipEnvelope.GetCycleNum | modules/javafx.graphics/src/main/java/com/sun/scenario/animation/shared/SingleLoopClipEnvelope.java:70-73 | always the first cycle, 0 |
| SingleLoopClipEnvelopes.SingleLoopClipEnvelope.CalculateCurrentRunningRate | modules/javafx.graphics/src/main/java/com/sun/scenario/animation/shared/SingleLoopClipEnvelope.java:75-78 | the rate that `ClipEnvelope.calculateCurrentRunningRate`'s documentation gives for cycle 0, with and without auto-reverse |
| SingleLoopClipEnvelopes.SingleLoopClipEnvelope.WasSynched | modules/javafx.graphics/src/main/java/com/sun/scenario/animation/shared/SingleLoopClipEnvelope.java:80-83 | true exactly when the cycle is not empty and the cycle count is not 0 |
| SingleLoopClipEnvelopes.SingleLoopClipEnvelope.HasReachedEnd | modules/javafx.graphics/src/main/java/com/sun/scenario/animation/shared/SingleLoopClipEnvelope.java:85-88 | moving forwards, true exactly when the play head is at the cycle's end; moving backwards, exactly when it is at 0 |
| SingleLoopClipEnvelopes.SingleLoopClipEnvelope.CalculateNewTicks | modules/javafx.graphics/src/main/java/com/sun/scenario/animation/shared/SingleLoopClipEnvelope.java:90-93 | the new play head always lies within the cycle, and is the clamped sum when the `long` sum does not overflow |
| SingleLoopClipEnvelopes.SingleLoopClipEnvelope.DoPlayTo | modules/javafx.graphics/src/main/java/com/sun/scenario/animation/shared/SingleLoopClipEnvelope.java:95-98 | exactly one play-to event with the play head and the cycle length is sent; no field changes |
| SingleLoopClipEnvelopes.SingleLoopClipEnvelope.JumpTo | modules/javafx.graphics/src/main/java/com/sun/scenario/animation/shared/SingleLoopClipEnvelope.java:100-117 | with an empty cycle, or when the play head does not move, nothing changes; otherwise the play head is the clamped target, the delta moves by the same amount, one jump event is sent and the pulse is aborted; the difference between play head and delta is kept; the invariants hold |
| BaseStringConverter.FromString | modules/javafx.base/src/main/java/javafx/util/converter/BaseStringConverter.java:7-17 | null and blank text give null; any other text gives what the hook gives for the trimmed text, exceptions included |
| BaseStringConverter.ToString | modules/javafx.base/src/main/java/javafx/util/converter/BaseStringConverter.java:21-24 | null prints as the empty string; anything else as the hook prints it |
| BaseStringConverter.DefaultToStringFromNonNull | modules/javafx.base/src/main/java/javafx/util/converter/BaseStringConverter.java:26-28 | the default hook gives the object's own `toString`: its text, or the exception it throws |
| BaseStringConverter.HookSeesOnlyTrimmedText | modules/javafx.base/src/main/java/javafx/util/converter/BaseStringConverter.java:12-16 | two hooks that agree on non-empty trimmed text give the same `fromString` on every input |
| BaseStringConverter.FromStringIgnoresPadding | modules/javafx.base/src/main/java/javafx/util/converter/BaseStringConverter.java:12-16 | text converts as its trimmed form does |
| BooleanStringConverter.BooleanValueOf | modules/javafx.base/src/main/java/javafx/util/converter/BooleanStringConverter.java:43-46 | only four-letter text can be true; `true`, `TRUE` and `True` are |
| BooleanStringConverter.BooleanToString | modules/javafx.base/src/main/java/javafx/util/converter/BaseStringConverter.java:26-28 | the printed text reads back as the same value, and is non-empty and trimmed |
| BooleanStringConverter.FromNonEmptyString | modules/javafx.base/src/main/java/javafx/util/converter/BooleanStringConverter.java:43-46 | never throws and never gives null; true exactly for `true` ignoring case |
| BooleanStringConverter.FromString | modules/javafx.base/src/main/java/javafx/util/converter/BooleanStringConverter.java:43-46 | never throws; null exactly for null or blank text; otherwise true exactly when the trimmed text is `true` ignoring case |
| BooleanStringConverter.ToString | modules/javafx.base/src/main/java/javafx/util/converter/BaseStringConverter.java:21-28 | never throws; the empty string for null, `true` or `false` otherwise |
| BooleanStringConverter.RoundTrip | modules/javafx.base/src/main/java/javafx/util/converter/BooleanStringConverter.java:43-46 | printing then parsing gives back every value, null included |
| BooleanStringConverter.ParsingExamples | modules/javafx.base/src/main/java/javafx/util/converter/BooleanStringConverter.java:43-46 | `TRUE` parses as true and `yes` as false |
| BooleanStringConverter.PaddingIgnored | modules/javafx.base/src/main/java/javafx/util/converter/BaseStringConverter.java:12-16 | surrounding blanks do not change the parsed value |
| FormatStringConverter.FromNonEmptyString | modules/javafx.base/src/main/java/javafx/util/converter/FormatStringConverter.java:53-62 | throws the "not according to the format" exception exactly when the parse did not end at the end of the text; otherwise returns what was parsed |
| FormatStringConverter.FromString | modules/javafx.base/src/main/java/javafx/util/converter/BaseStringConverter.java:7-17 | null and blank text give null; other text is trimmed and must be read in full by the format |
| FormatStringConverter.ToStringFromNonNull | modules/javafx.base/src/main/java/javafx/util/converter/FormatStringConverter.java:64-67 | the format's text for the object; it throws exactly when the format throws (an `IllegalArgumentException` for an object the format cannot print), with the same exception |
| FormatStringConverter.ToString | modules/javafx.base/src/main/java/javafx/util/converter/FormatStringConverter.java:64-67 | the empty string for null; otherwise the format's text or its exception |
| FormatStringConverter.WholeTextOrThrow | modules/javafx.base/src/main/java/javafx/util/converter/FormatStringConverter.java:53-62 | non-blank text throws exactly when the format does not read all of the trimmed text, and otherwise converts to what the format read |
| FormatStringConverter.RoundTrip | modules/javafx.base/src/main/java/javafx/util/converter/FormatStringConverter.java:53-67 | an object comes back from its printed form when the format prints it and reads its own non-empty, trimmed output in full |
| NumberStringConverter.Construct | modules/javafx.base/src/main/java/javafx/util/converter/NumberStringConverter.java:83-95 | a supplied format wins; otherwise a pattern gives a `DecimalFormat` with the locale's symbols; otherwise the locale's number instance; a null locale is the default one |
| NumberStringConverter.WithLocaleAndPattern | modules/javafx.base/src/main/java/javafx/util/converter/NumberStringConverter.java:72-74 | the private constructor without a format, so never a caller's format |
| NumberStringConverter.WithLocale | modules/javafx.base/src/main/java/javafx/util/converter/NumberStringConverter.java:54-56 | the number instance of the locale, or of the default locale for null |
| NumberStringConverter.WithPattern | modules/javafx.base/src/main/java/javafx/util/converter/NumberStringConverter.java:63-65 | a `DecimalFormat` of the pattern in the default locale; the default number instance for a null pattern |
| NumberStringConverter.Default | modules/javafx.base/src/main/java/javafx/util/converter/NumberStringConverter.java:47-49 | the default locale's number instance |
| NumberStringConverter.WithNumberFormat | modules/javafx.base/src/main/java/javafx/util/converter/NumberStringConverter.java:79-81 | a supplied format is kept as it is |
| NumberStringConverter.NullArgumentsFallBack | modules/javafx.base/src/main/java/javafx/util/converter/NumberStringConverter.java:83-95 | a null format, locale or pattern gives the same format as the no-argument constructor |
| NumberStringConverter.UnparseableMessage | modules/javafx.base/src/main/java/javafx/util/converter/NumberStringConverter.java:109 | the `ParseException` message is the text in quotes after the `Unparseable number: ` prefix, so the text can be read back from it |
| NumberStringConverter.WrapParseException | modules/javafx.base/src/main/java/javafx/util/converter/NumberStringConverter.java:111 | `new RuntimeException(ex)`: a runtime exception whose cause is the parse exception and whose message is the cause's `toString` |
| NumberStringConverter.FromNonEmptyString | modules/javafx.base/src/main/java/javafx/util/converter/NumberStringConverter.java:108-112 | throws the wrapped parse exception exactly when the parse reads nothing; otherwise returns what was read |
| NumberStringConverter.Parse | modules/javafx.base/src/main/java/javafx/util/converter/NumberStringConverter.java:109 | throws a `ParseException` with the "Unparseable number" message exactly when the parse reads nothing; otherwise returns what was read, even if text is left over |
| NumberStringConverter.FromString | modules/javafx.base/src/main/java/javafx/util/converter/NumberStringConverter.java:98-113 | null and blank text give null; otherwise the trimmed text is parsed, and a parse that reads nothing throws a `RuntimeException` wrapping the `ParseException` |
| NumberStringConverter.ToString | modules/javafx.base/src/main/java/javafx/util/converter/NumberStringConverter.java:116-119 | the empty string for null; otherwise the format's text or its exception |
| NumberStringConverter.AgreesWithTemplate | modules/javafx.base/src/main/java/javafx/util/converter/NumberStringConverter.java:98-119 | its own null and blank handling and printing are those of `BaseStringConverter` with the parse as hook |
| NumberStringConverter.PaddingIgnored | modules/javafx.base/src/test/java/test/javafx/util/converter/NumberStringConverterTest.java:107-110 | text with surrounding blanks converts as the trimmed text does |
| NumberStringConverter.UnreadableTextThrows | modules/javafx.base/src/test/java/test/javafx/util/converter/NumberStringConverterTest.java:112-115 | `abcdefg`, whose parse reads nothing, throws the wrapped parse exception |
| NumberStringConverter.PrefixAccepted | modules/javafx.base/src/main/java/javafx/util/converter/NumberStringConverter.java:108-112 | text of which only a prefix is a number converts to that number, where a `FormatStringConverter` over the same parse throws |
| DateTimeFormatters.DateTimeFormatter.WithLocale | modules/javafx.base/src/main/java/javafx/util/converter/LocalDateStringConverter.java:158 | the new formatter has the locale and is otherwise the same |
| DateTimeFormatters.DateTimeFormatter.WithChronology | modules/javafx.base/src/main/java/javafx/util/converter/LocalDateStringConverter.java:159 | the new formatter has the chronology and is otherwise the same |
| DateTimeFormatters.DateTimeFormatter.WithDecimalStyle | modules/javafx.base/src/main/java/javafx/util/converter/LocalDateStringConverter.java:160 | the new formatter has the locale's decimal style and is otherwise the same |
| DateTimeFormatters.LocalizedPattern | modules/javafx.base/src/main/java/javafx/util/converter/BaseLocalDateTimeConverter.java:67 | throws an `IllegalArgumentException` exactly when both styles are null; otherwise gives the locale data's pattern |
| DateTimeFormatters.OfLocalized | modules/javafx.base/src/main/java/javafx/util/converter/LocalDateStringConverter.java:157 | a localized formatter of the styles, in the default locale and the ISO chronology |
| DateTimeFormatters.OfPattern | modules/javafx.base/src/main/java/javafx/util/converter/LocalDateStringConverter.java:170 | a strict pattern formatter in the default locale, with no chronology and the standard decimal style |
| DateTimeFormatters.LenientPattern | modules/javafx.base/src/main/java/javafx/util/converter/LocalDateStringConverter.java:145-147 | a lenient pattern formatter in the default locale, with no chronology and the standard decimal style |
| FourDigitYear.NeedsFourDigitYear | modules/javafx.base/src/main/java/javafx/util/converter/LocalDateStringConverter.java:167 | a pattern that passes the guard has a year field of exactly two letters |
| FourDigitYear.GuardFindsTwoLetterYear | modules/javafx.base/src/main/java/javafx/util/converter/LocalDateStringConverter.java:167 | the first `yy` of a pattern without `yyy` starts a run of exactly two `y` letters |
| FourDigitYear.FourDigitYearPattern | modules/javafx.base/src/main/java/javafx/util/converter/LocalDateStringConverter.java:169 | the rewrite never shortens the pattern and leaves a pattern without `yy` as it is |
| FourDigitYear.RewriteLeavesNoTwoLetterYear | modules/javafx.base/src/main/java/javafx/util/converter/LocalDateStringConverter.java:168-169 | after the rewrite, no run of `y` letters has exactly two letters, whatever the pattern |
| FourDigitYear.RewriteKeepsOtherLetters | modules/javafx.base/src/main/java/javafx/util/converter/LocalDateStringConverter.java:169 | the rewrite keeps every letter other than `y`, in order |
| FourDigitYear.RewriteWidensYear | modules/javafx.base/src/main/java/javafx/util/converter/LocalDateStringConverter.java:169 | a pattern containing `yy` is rewritten into one containing `yyyy` |
| FourDigitYear.RewriteIsStable | modules/javafx.base/src/main/java/javafx/util/converter/LocalDateStringConverter.java:167-169 | a rewritten pattern no longer passes the guard, so the fix never applies twice |
| FourDigitYear.ShortUsPattern | modules/javafx.base/src/main/java/javafx/util/converter/LocalDateStringConverter.java:166-169 | `M/d/yy` passes the guard and becomes `M/d/yyyy` |
| FourDigitYear.FixFourDigitYearAsWritten | modules/javafx.base/src/main/java/javafx/util/converter/LocalDateStringConverter.java:164-173 | without a two-letter year the formatter is kept; with one it is replaced by a strict formatter of the widened pattern, which has no two-letter year and the same other letters, the default locale, the converter's decimal style and no chronology |
| FourDigitYear.FixFourDigitYear | modules/javafx.base/src/main/java/javafx/util/converter/LocalDateStringConverter.java:164-173 | as the as-written fix, except that the replacement carries the converter's chronology, so a formatter with that chronology keeps it |
| FourDigitYear.FixDiffersOnlyInChronology | modules/javafx.base/src/main/java/javafx/util/converter/LocalDateStringConverter.java:170 | the corrected formatter is the as-written one, or the as-written one with the chronology set |
| LocalTemporalConverters.PatternOf | modules/javafx.base/src/main/java/javafx/util/converter/LocalDateStringConverter.java:166 | with a non-null date style, the pattern lookup does not throw |
| LocalTemporalConverters.DefaultParser | modules/javafx.base/src/main/java/javafx/util/converter/LocalDateStringConverter.java:143-150 | a lenient formatter of the un-rewritten localized pattern, with the chronology and the locale's decimal style |
| LocalTemporalConverters.LocalizedFormatter | modules/javafx.base/src/main/java/javafx/util/converter/LocalDateStringConverter.java:157-160 | the localized formatter of the styles, with the locale, the chronology and the decimal style |
| LocalTemporalConverters.DefaultFormatter | modules/javafx.base/src/main/java/javafx/util/converter/LocalDateStringConverter.java:156-162 | corrected: always has the chronology; it is the localized formatter unless the pattern shows a two-letter year, in which case it prints the widened pattern |
| LocalTemporalConverters.DefaultFormatterAsWritten | modules/javafx.base/src/main/java/javafx/util/converter/LocalDateStringConverter.java:156-162 | as written: it has no chronology exactly when the fix applies, and otherwise equals the corrected default formatter |
| LocalTemporalConverters.FromStyles | modules/javafx.base/src/main/java/javafx/util/converter/LocalDateStringConverter.java:103-109 | corrected: the default parser and formatter of the styles, locale and chronology; both have a chronology |
| LocalTemporalConverters.WithDefaultChronology | modules/javafx.base/src/main/java/javafx/util/converter/LocalDateStringConverter.java:137 | a formatter without a chronology gets the ISO one, and one with a chronology is kept |
| LocalTemporalConverters.FromFormatters | modules/javafx.base/src/main/java/javafx/util/converter/LocalDateStringConverter.java:134-141 | corrected: a supplied formatter or parser is kept apart from a missing chronology; a missing parser is the supplied formatter, or else the default parser; a missing formatter is the default one; both have a chronology |
| LocalTemporalConverters.DateInChronology | modules/javafx.base/src/main/java/javafx/util/converter/LocalDateStringConverter.java:185-191 | the converted value, or the value itself when the conversion throws a `DateTimeException`; any other exception propagates |
| LocalTemporalConverters.ToStringFromNonNull | modules/javafx.base/src/main/java/javafx/util/converter/LocalDateStringConverter.java:182-193 | a `NullPointerException` when the formatter has no chronology; otherwise the value in that chronology, printed by the formatter |
| LocalTemporalConverters.FromNonEmptyString | modules/javafx.base/src/main/java/javafx/util/converter/LocalDateStringConverter.java:175-180 | a parse failure propagates; a parser without a chronology throws a `NullPointerException`; otherwise the parsed fields resolved in the parser's chronology |
| LocalTemporalConverters.FormattingSucceeds | modules/javafx.base/src/main/java/javafx/util/converter/LocalDateStringConverter.java:182-193 | a converter whose formatter has a chronology prints every value when the library calls succeed |
| LocalTemporalConverters.ParsingUsesParserChronology | modules/javafx.base/src/main/java/javafx/util/converter/LocalDateStringConverter.java:175-180 | a converter whose parser has a chronology returns, for non-blank text, exactly what the parse and the resolution give |
| LocalTemporalConverters.BlankTextIsNull | modules/javafx.base/src/main/java/javafx/util/converter/BaseStringConverter.java:9-15 | null and blank text convert to null without reaching the parser |
| LocalTemporalConverters.StyleConvertersFormat | modules/javafx.base/src/main/java/javafx/util/converter/LocalDateStringConverter.java:103-109 | corrected: every converter built from styles prints every value when the library calls succeed |
| LocalTemporalConverters.SuppliedConvertersFormat | modules/javafx.base/src/main/java/javafx/util/converter/LocalDateStringConverter.java:134-141 | corrected: every converter built from formatters prints every value when the library calls succeed |
| LocalTemporalConverters.ParserKeepsTwoLetterYear | modules/javafx.base/src/main/java/javafx/util/converter/LocalDateStringConverter.java:66-73 | corrected: where the fix applies, the default parser keeps the lenient two-letter pattern while the formatter has no two-letter year |
| LocalTemporalConverters.AsWrittenFormattingThrows | modules/javafx.base/src/main/java/javafx/util/converter/LocalDateTimeStringConverter.java:181-209 | as written, a style converter whose localized pattern shows a two-letter year throws a `NullPointerException` when printing any value |
| LocalTemporalConverters.AsWrittenDefaultFormatterThrows | modules/javafx.base/src/main/java/javafx/util/converter/LocalDateStringConverter.java:134-141 | as written, the formatter-and-parser constructor given no formatter, in a default locale whose pattern shows a two-letter year, throws a `NullPointerException` when printing any value |
| LocalTemporalConverters.FromStylesAsWritten | modules/javafx.base/src/main/java/javafx/util/converter/LocalDateStringConverter.java:103-109 | as written: the parser is the corrected one's; the formatter has no chronology exactly when the fix applies; otherwise the converter equals the corrected one |
| LocalTemporalConverters.FromFormattersAsWritten | modules/javafx.base/src/main/java/javafx/util/converter/LocalDateStringConverter.java:134-141 | as written: equals the corrected converter whenever a formatter is supplied or the fix does not apply; without a formatter, its formatter has no chronology exactly when the fix applies |
| LocalTemporalConverters.FromString | modules/javafx.base/src/main/java/javafx/util/converter/BaseStringConverter.java:7-17 | null and blank text give null; other text is trimmed and handed to the parser hook |
| LocalTemporalConverters.ToString | modules/javafx.base/src/main/java/javafx/util/converter/BaseStringConverter.java:21-24 | null prints as the empty string; other values go to the chronology-converting hook |
| LocalDateStringConverter.WithStyleLocaleChronology | modules/javafx.base/src/main/java/javafx/util/converter/LocalDateStringConverter.java:103-109 | corrected: null style, locale and chronology become `SHORT`, the default locale and ISO; the defaults are built from them; both formatters have a chronology |
| LocalDateStringConverter.WithStyle | modules/javafx.base/src/main/java/javafx/util/converter/LocalDateStringConverter.java:87-89 | corrected: the same converter as with a null locale and a null chronology |
| LocalDateStringConverter.Default | modules/javafx.base/src/main/java/javafx/util/converter/LocalDateStringConverter.java:75-77 | corrected: the `SHORT` default converter in the default locale and ISO, the same as with all arguments null |
| LocalDateStringConverter.WithFormatters | modules/javafx.base/src/main/java/javafx/util/converter/LocalDateStringConverter.java:134-141 | corrected: two nulls give the default converter; a formatter without a parser also parses; both have a chronology |
| LocalDateStringConverter.UsDefaultConverter | modules/javafx.base/src/main/java/javafx/util/converter/LocalDateStringConverter.java:66-73 | corrected: with the pattern `M/d/yy`, the default converter prints with `M/d/yyyy` in ISO and parses leniently with `M/d/yy` |
| LocalDateStringConverter.UsDefaultConverterAsWrittenThrows | modules/javafx.base/src/main/java/javafx/util/converter/LocalDateStringConverter.java:164-193 | as written, with the pattern `M/d/yy`, the style converter's formatter has no chronology; it and the formatter-and-parser converter given no formatter throw a `NullPointerException` when printing any date |
| LocalDateTimeStringConverter.WithStylesLocaleChronology | modules/javafx.base/src/main/java/javafx/util/converter/LocalDateTimeStringConverter.java:118-125 | corrected: null styles, locale and chronology become `SHORT`, the default locale and ISO; the defaults are built from them; both formatters have a chronology |
| LocalDateTimeStringConverter.WithStyles | modules/javafx.base/src/main/java/javafx/util/converter/LocalDateTimeStringConverter.java:96-98 | corrected: the same converter as with a null locale and a null chronology |
| LocalDateTimeStringConverter.Default | modules/javafx.base/src/main/java/javafx/util/converter/LocalDateTimeStringConverter.java:79-81 | corrected: `SHORT` for both styles in the default locale and ISO, the same as with all arguments null |
| LocalDateTimeStringConverter.WithFormatters | modules/javafx.base/src/main/java/javafx/util/converter/LocalDateTimeStringConverter.java:150-157 | corrected: two nulls give the default converter; a formatter without a parser also parses; both have a chronology |
| BaseTemporalConverter.DefaultParser | modules/javafx.base/src/main/java/javafx/util/converter/BaseLocalDateTimeConverter.java:65-73 | throws an `IllegalArgumentException` exactly when both styles are null; otherwise a lenient pattern formatter with the chronology and the decimal style |
| BaseTemporalConverter.DefaultFormatter | modules/javafx.base/src/main/java/javafx/util/converter/BaseLocalDateTimeConverter.java:79-89 | the subclass's exception, or its formatter with locale, chronology and decimal style, passed through the four-digit-year fix only when there is a date style |
| BaseTemporalConverter.FromStyles | modules/javafx.base/src/main/java/javafx/util/converter/BaseLocalDateTimeConverter.java:50-55 | null locale and chronology become the defaults; the parser's exception comes first, then the formatter's; otherwise both defaults |
| BaseTemporalConverter.FromFormatters | modules/javafx.base/src/main/java/javafx/util/converter/BaseLocalDateTimeConverter.java:57-63 | both defaults are built first and their exceptions surface; otherwise the supplied formatter or the default, and the supplied parser, else the supplied formatter, else the default parser |
| BaseTemporalConverter.ToStringFromNonNull | modules/javafx.base/src/main/java/javafx/util/converter/BaseLocalDateTimeConverter.java:104-107 | the formatter prints the value itself, with no chronology conversion, so a formatter without a chronology prints too |
| BaseTemporalConverter.FromNonEmptyString | modules/javafx.base/src/main/java/javafx/util/converter/BaseLocalDateTimeConverter.java:109-112 | the query's exception propagates, and a value it returns is never null |
| BaseTemporalConverter.NoDateStyleNoFix | modules/javafx.base/src/main/java/javafx/util/converter/BaseLocalDateTimeConverter.java:85-87 | without a date style, the default formatter prints as the localized one does |
| BaseTemporalConverter.NullStylesThrow | modules/javafx.base/src/main/java/javafx/util/converter/BaseLocalDateTimeConverter.java:50-63 | two null styles make both constructors throw, even when both formatters are supplied |
| BaseTemporalConverter.SuppliedFormattersWin | modules/javafx.base/src/main/java/javafx/util/converter/BaseLocalDateTimeConverter.java:57-63 | with buildable defaults, a supplied formatter prints, and the supplied parser, else that formatter, parses |

## Left out

- `ClipEnvelope.timePulse`, `setRate` and `jumpTo` are abstract in `ClipEnvelope`, and `SingleLoopClipEnvelope.java` gives no `timePulse` or `setRate`. The model therefore has neither.
- `ClipEnvelope.ticksRateChange` is not modelled. It rounds a floating-point product, and `double` arithmetic is outside this model.
- `FiniteClipEnvelope`, `InfiniteClipEnvelope`, `Animation`, `AnimationAccessor`, `TickCalculation` and `Utils` are not part of this model, for these reasons:
  - a replacement envelope is named by its variant and not constructed;
  - a cycle duration arrives as its tick count;
  - the accessor's calls are recorded as events;
  - `Utils.clamp` is taken to be the usual clamp.
- `Animation.INDEFINITE` is taken to be -1 as a cycle count. Only its comparison with the count matters.
- The converters of `LocalTemporalConverters`, `LocalDateStringConverter` and `LocalDateTimeStringConverter` are built on the corrected fix. So their contracts do not describe the code as written for a locale whose pattern shows a two-letter year. In particular, "both formatters have a chronology" and "prints every value" do not hold of the source there. This covers `DefaultFormatter`, `FromStyles`, `FromFormatters`, `StyleConvertersFormat`, `SuppliedConvertersFormat`, `ParserKeepsTwoLetterYear`, `WithStyleLocaleChronology`, `WithStylesLocaleChronology`, `WithStyle`, `WithStyles`, `Default`, `WithFormatters` and `UsDefaultConverter`. The as-written behaviour is stated by `DefaultFormatterAsWritten`, `FromStylesAsWritten` and `FromFormattersAsWritten`, and by the lemmas about them. The public constructors are not repeated in an as-written version.
- ClipEnvelopes.ClipEnvelope.constructor: requires a non-zero rate, following the comment on the `rate` field. `Animation`, which would guarantee that rate, is not part of this model.
- ClipEnvelopes.ClipEnvelope.UpdateCycleTicks: does not promise that the play head stays in the cycle. `updateCycleTicks` does not clamp the play head, so `0 <= ticks <= cycleTicks` is stated apart from the other invariants (`PlayHeadInCycle`) and is not preserved by a shrinking cycle.
- The envelope's `animation` field is not modelled. The factory and the setters take the animation's configuration as a parameter instead.
- SingleLoopClipEnvelopes.SingleLoopClipEnvelope.DoPlayTo: its three arguments are unused, as in the source.
- The logging of a failed chronology conversion is I/O and is left out.
- `String.equalsIgnoreCase` is modelled with ASCII case mapping. This is exact for comparisons with `true`, the only ones made.
- Java strings are sequences of UTF-16 code units; the model's strings are sequences of Unicode characters, so its lengths and parse indices (such as the one `FormatStringConverter.fromNonEmptyString` compares with the text's length) count characters, not UTF-16 units. Nothing the model computes depends on the difference: `trim` stops at U+0020 and the replaced text is ASCII.
- `String.replace` with an empty target is not modelled. The converters only replace `yy`.
- What `java.time` and `java.text` formatters actually print and parse is foreign code. It is a parameter (`TemporalOps`, `Format`, `NumberFormatOps`, `Platform.patterns`).
- `appendPattern` and `ofPattern` rejecting a malformed pattern is not modelled, because the patterns come from the locale data.
- The default locale is a parameter of the platform:
  - `BaseTemporalConverter.DEFAULT_LOCALE` is captured once when the class is loaded;
  - the date converters ask for the `FORMAT` category default on each call;
  - `NumberStringConverter` uses `Locale.getDefault()`.

  One locale stands for all three in each call.
- Subclasses overriding `NumberStringConverter.getSpecializedNumberFormat` are not part of this model, and neither are the accessors `getNumberFormat` and `getFormat`. The model's converter is its format.
- `DateTimeStringConverter`, `LocalTimeStringConverter` and the tests of the percentage converter are not part of this model.
- `getTemporalQuery` and `getLocalizedFormatter` of `BaseTemporalConverter` are abstract. They are parameters.

## Findings

| source | as written | input that shows it | evidently intended | confidence | as-written member | corrected member |
|---|---|---|---|---|---|---|
| modules/javafx.base/src/main/java/javafx/util/converter/LocalDateStringConverter.java:170 | `fixFourDigitYear` builds the replacement formatter with `DateTimeFormatter.ofPattern`, which has no chronology override. `toStringFromNonNull` then calls `formatter.getChronology().date(value)` at line 186. | a locale whose short date pattern is `M/d/yy` (US English), any non-null `LocalDate`, and either the no-argument converter or `new LocalDateStringConverter(null, parser)`: `toString` throws a `NullPointerException` | print the date with a four-digit year in the converter's chronology | high; not executed | LocalDateStringConverter.UsDefaultConverterAsWrittenThrows | LocalDateStringConverter.UsDefaultConverter |
| modules/javafx.base/src/main/java/javafx/util/converter/LocalDateTimeStringConverter.java:187 | the same replacement formatter without a chronology. `toStringFromNonNull` calls `formatter.getChronology().localDateTime(value)` at line 202. | a localized date-time pattern containing `yy` but not `yyy`, any non-null `LocalDateTime`, and either a style converter or the formatter-and-parser converter given no formatter: `toString` throws a `NullPointerException` | print the value with a four-digit year in the converter's chronology | high; not executed | LocalTemporalConverters.AsWrittenFormattingThrows | LocalTemporalConverters.StyleConvertersFormat |

The corrected fix (`FourDigitYear.FixFourDigitYear`) gives the replacement formatter the converter's chronology. The date and date-time converters are built on it. `BaseTemporalConverter` keeps the as-written fix (`FourDigitYear.FixFourDigitYearAsWritten`), since its `toStringFromNonNull` prints without asking the formatter for a chronology.

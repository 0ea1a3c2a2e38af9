# HandyBase utilities: a verified model

This project models the core of the `com.handy.base.utils` Android utilities in Dafny:

- **`LogUtils`**, the logging engine. It holds the static switches and the `Builder` that sets them. `log` routes each call by severity (V, D, I, W, E, A) and by the pseudo-kinds FILE, JSON and XML. `processContents` resolves the tag and renders the body, the head line and the left-border frame. `printLog` cuts the message into 4000-character console writes between a top and a bottom border. `print2File` finds or creates the day's file and queues the text block for a single worker.
- **`TimeUtils`**, the calendar and duration arithmetic: leap years, the Chinese zodiac and the star signs, unit conversion and spans, the greedy day/hour/minute/second/millisecond text, and the "today" and "friendly" classifications.
- **`TimeConstants`**, the five unit constants.
- **`AesUtils`**, the guarded default key.

The static state is a `Logger` object (`log_utils.dfy`). Its methods change the fields a call touches and are proved against specification functions on the old state. The rendering is pure (`log_format.dfy`). The filesystem is a value with Java `File` semantics on Unix paths (`log_files.dfy`). The console is a trace of `(level, tag, text)` lines. The executor is a FIFO queue of tasks that `RunNext` runs one at a time. These become parameters: the caller frame of `getStackTrace()[5]`, the thread name, the date for the file name, the current time `now`, the storage state of the `Builder`, and the pretty-printers of org.json and the XML transformer.

Java semantics are written out:
- `/` and `%` round toward zero (`JavaLang`).
- `Character.isWhitespace` is modelled.
- `String.split` on a one-character literal drops trailing empty pieces (`JavaSplit`).
- Concatenating a null string appends `"null"`.
- A Java null is `None`.
- An exception thrown by `processContents` is the `thrown` result of `Log`.

`FILE_SEP` and `LINE_SEP` take their Android values, `/` and `\n`.

## Model

| member | source | states |
|---|---|---|
| TimeConstants.UnitLadder | Library/src/main/java/com/handy/base/utils/constant/TimeConstants.java:21-37 | MSEC is 1 and each later unit is the previous one times 1000, 60, 60 and 24 |
| TimeConstants.UnitPositive | Library/src/main/java/com/handy/base/utils/constant/TimeConstants.java:39-42 | a `@Unit` value is one of the five constants and is at least 1, so dividing by it is defined |
| TimeUtils.IsLeapYear | Library/src/main/java/com/handy/base/utils/TimeUtils.java:1209-1211 | the result is true iff the year is divisible by 4 and not by 100, or by 400 (Java remainder shown equal to the mathematical one for that test) |
| TimeUtils.LeapYearExamples | Library/src/main/java/com/handy/base/utils/TimeUtils.java:1209-1211 | 2000 and 2016 are leap years; 1900 and 2017 are not |
| TimeUtils.LeapYearsByMultiples | Library/src/main/java/com/handy/base/utils/TimeUtils.java:1209-1211 | the leap years in any window are the multiples of 4, minus those of 100, plus those of 400 |
| TimeUtils.LeapIndicator | Library/src/main/java/com/handy/base/utils/TimeUtils.java:1209-1211 | a year counts as a multiple of 4, minus one of 100, plus one of 400 exactly when it is a leap year |
| TimeUtils.LeapYearsPerCycle | Library/src/main/java/com/handy/base/utils/TimeUtils.java:1209-1211 | any 400 consecutive years hold exactly 97 leap years |
| TimeUtils.ChineseZodiac | Library/src/main/java/com/handy/base/utils/TimeUtils.java:1525-1527 | defined exactly when Java's `year % 12` is a valid index (year >= 0 or a multiple of 12); then it is the table entry at the Euclidean remainder |
| TimeUtils.ChineseZodiacCycle | Library/src/main/java/com/handy/base/utils/TimeUtils.java:1525-1527 | for year >= 0 the sign repeats every 12 years |
| TimeUtils.ChineseZodiacExamples | Library/src/main/java/com/handy/base/utils/TimeUtils.java:1525-1527 | 2016 is the monkey, 2020 the rat, and year -1 throws |
| TimeUtils.ZodiacIndex | Library/src/main/java/com/handy/base/utils/TimeUtils.java:1583-1587 | the index is in [0,12): this month's sign from its flag day on, otherwise the sign before it, December wrapping to January |
| TimeUtils.Zodiac | Library/src/main/java/com/handy/base/utils/TimeUtils.java:1583-1587 | defined exactly for months 1..12, where the flag lookup does not throw; then the sign at `ZodiacIndex` |
| TimeUtils.ZodiacContinuousAcrossMonths | Library/src/main/java/com/handy/base/utils/TimeUtils.java:1583-1587 | the sign of the 31st of a month is the sign of the 1st of the next |
| TimeUtils.ZodiacChangesOnlyOnFlagDay | Library/src/main/java/com/handy/base/utils/TimeUtils.java:1583-1587 | within a month the sign changes only on the flag day |
| TimeUtils.ZodiacExamples | Library/src/main/java/com/handy/base/utils/TimeUtils.java:1583-1587 | 21 March is Aries, 20 March Pisces, 1 January and 22 December Capricorn, month 13 throws |
| TimeUtils.TimeSpan2Millis | Library/src/main/java/com/handy/base/utils/TimeUtils.java:1603-1605 | the millisecond count is at least the span, or at most it for a negative span |
| TimeUtils.Millis2TimeSpan | Library/src/main/java/com/handy/base/utils/TimeUtils.java:1621-1623 | the count of whole units, rounded toward zero as Java's `/` rounds |
| TimeUtils.ConversionRoundTrip | Library/src/main/java/com/handy/base/utils/TimeUtils.java:1603-1623 | converting a span to milliseconds and back gives it back, for every unit and every sign |
| TimeUtils.GetTimeSpan | Library/src/main/java/com/handy/base/utils/TimeUtils.java:387-389 | non-negative, and the number of whole units in the distance between the two instants |
| TimeUtils.GetTimeSpanSymmetric | Library/src/main/java/com/handy/base/utils/TimeUtils.java:387-389 | swapping the two instants gives the same span |
| TimeUtils.GetMillis | Library/src/main/java/com/handy/base/utils/TimeUtils.java:772-774 | the instant is at least (at most for a negative span) `timeSpan` milliseconds away from `millis` |
| TimeUtils.GetMillisThenTimeSpan | Library/src/main/java/com/handy/base/utils/TimeUtils.java:772-774 | measuring from `millis` to `getMillis(millis, t, u)` in unit `u` gives `|t|` |
| TimeUtils.UnitLenAreTheUnits | Library/src/main/java/com/handy/base/utils/TimeUtils.java:1647 | the place values of the loop are DAY, HOUR, MIN, SEC and MSEC |
| TimeUtils.FitTimeSpan | Library/src/main/java/com/handy/base/utils/TimeUtils.java:1641-1645 | null exactly when millis < 0 or precision <= 0; zero gives "0" and the unit of the capped precision |
| TimeUtils.FitPrecisionCapped | Library/src/main/java/com/handy/base/utils/TimeUtils.java:1643 | any precision of 5 or more behaves like 5 |
| TimeUtils.FitDecomposition | Library/src/main/java/com/handy/base/utils/TimeUtils.java:1648-1654 | the weighted digits plus what is left equal the input, and what is left is below the smallest included unit |
| TimeUtils.FitDigitsBounded | Library/src/main/java/com/handy/base/utils/TimeUtils.java:1648-1654 | every digit after the first is below its radix (24 hours, 60 minutes, 60 seconds, 1000 ms) |
| TimeUtils.FitBelowSmallestUnit | Library/src/main/java/com/handy/base/utils/TimeUtils.java:1648-1654 | a value below the smallest included unit gives no text |
| TimeUtils.FitTimeSpanBelowUnit | Library/src/main/java/com/handy/base/utils/TimeUtils.java:1641-1656 | a positive span below the smallest included unit yields the empty string |
| TimeUtils.FitTimeSpanExample | Library/src/main/java/com/handy/base/utils/TimeUtils.java:1641-1656 | 90061001 ms is "1天1小时1分钟1秒1毫秒" at precision 5 |
| TimeUtils.FitTimeSpanExampleDayHour | Library/src/main/java/com/handy/base/utils/TimeUtils.java:1641-1656 | the same span is "1天1小时" at precision 2 |
| TimeUtils.FitTimeSpanSkipsZeros | Library/src/main/java/com/handy/base/utils/TimeUtils.java:1648-1654 | zero places are skipped: one hour is "1小时" |
| TimeUtils.FitTextStep | Library/src/main/java/com/handy/base/utils/TimeUtils.java:1649-1653 | one turn of the loop: the place's digit is `millis / unitLen[i]`, positive iff `millis >= unitLen[i]`, and the remainder is below the place value |
| TimeUtils.Millis2FitTimeSpan | Library/src/main/java/com/handy/base/utils/TimeUtils.java:1641-1656 | the loop returns the null/zero edge cases and otherwise the greedy digits, each non-zero one followed by its unit, in day-to-millisecond order |
| TimeUtils.GetFitTimeSpan | Library/src/main/java/com/handy/base/utils/TimeUtils.java:462-464 | the fitted text of the distance between the instants; null exactly when precision <= 0 |
| TimeUtils.FitTimeSpanSymmetric | Library/src/main/java/com/handy/base/utils/TimeUtils.java:462-464 | swapping the two instants gives the same text |
| TimeUtils.Wee | Library/src/main/java/com/handy/base/utils/TimeUtils.java:1152-1155 | the intended day start: the last UTC+8 midnight at or before `now` |
| TimeUtils.WeeAsWritten | Library/src/main/java/com/handy/base/utils/TimeUtils.java:1153 | the day start as written, `(now / DAY) * DAY - 8 h` with Java's truncating division; the as-written half of the first finding, whose defect IsTodayAsWrittenMissesNow and IsTodayCounterexample state |
| TimeUtils.IsTodayAsWritten | Library/src/main/java/com/handy/base/utils/TimeUtils.java:1153-1154 | `isToday` as written: the one-day window that starts at WeeAsWritten; the as-written half of the first finding |
| TimeUtils.IsToday | Library/src/main/java/com/handy/base/utils/TimeUtils.java:1152-1155 | `isToday` with the intended day start Wee; the corrected half of the first finding, whose window TodayWindow states |
| TimeUtils.TodayWindow | Library/src/main/java/com/handy/base/utils/TimeUtils.java:1152-1155 | the "today" window holds `now`, runs from the day start up to one day later, and any two instants in it are less than a day apart |
| TimeUtils.IsTodayAsWrittenMissesNow | Library/src/main/java/com/handy/base/utils/TimeUtils.java:1153-1154 | from 16:00 UTC on, the window as written excludes the present instant |
| TimeUtils.IsTodayAsWrittenAgreesBefore16Utc | Library/src/main/java/com/handy/base/utils/TimeUtils.java:1153-1154 | outside that period the written and the intended check agree |
| TimeUtils.IsTodayCounterexample | Library/src/main/java/com/handy/base/utils/TimeUtils.java:1152-1155 | at 1970-01-02 00:00 UTC+8 the written check says the present is not today; the corrected one says it is |
| TimeUtils.ClassifySpan | Library/src/main/java/com/handy/base/utils/TimeUtils.java:736-754 | each outcome exactly on its interval of `now - millis`: future, under 1 s, under 1 min (whole seconds), under 1 h (whole minutes), then today / yesterday / earlier by the day start |
| TimeUtils.FriendlyText | Library/src/main/java/com/handy/base/utils/TimeUtils.java:736-754 | the text returned for each outcome: the `%tc` rendering, "刚刚", the count and "秒前", the count and "分钟前", "今天" or "昨天" and the `%tR` rendering, the `%tF` rendering |
| TimeUtils.FriendlyAsWritten | Library/src/main/java/com/handy/base/utils/TimeUtils.java:747 | `getFriendlyTimeSpanByNow` as written: ClassifySpan with WeeAsWritten as the day start; the as-written half of the second finding, shown by FriendlyCounterexample |
| TimeUtils.FriendlyTimeSpanByNow | Library/src/main/java/com/handy/base/utils/TimeUtils.java:734-755 | `getFriendlyTimeSpanByNow` with the intended day start Wee; the corrected half of the second finding, tied to IsToday by FriendlyAgreesWithIsToday |
| TimeUtils.FriendlyAgreesWithIsToday | Library/src/main/java/com/handy/base/utils/TimeUtils.java:734-755 | past the first hour, "today" holds iff `IsToday` and "yesterday" iff the instant one day later is today |
| TimeUtils.FriendlyCounterexample | Library/src/main/java/com/handy/base/utils/TimeUtils.java:747-751 | for 23:00 the evening before, asked at 02:00 UTC+8, the written code says "today" and the corrected one "yesterday" |
| AesUtils.IsEmpty | Library/src/main/java/com/handy/base/utils/AesUtils.java:44 | `EmptyUtils.isEmpty` on a string, null or empty; NextKey and Diagnostic state the branch it selects |
| AesUtils.NextKey | Library/src/main/java/com/handy/base/utils/AesUtils.java:43-51 | an empty or null input keeps the key, a length other than 16 keeps it, a 16-char input replaces it |
| AesUtils.Diagnostic | Library/src/main/java/com/handy/base/utils/AesUtils.java:44-47 | a message is logged exactly when the input is refused; the empty-key message for null or empty input |
| AesUtils.InitialKeyLength | Library/src/main/java/com/handy/base/utils/AesUtils.java:33 | the initial key has length 16 |
| AesUtils.NextKeyKeepsLength | Library/src/main/java/com/handy/base/utils/AesUtils.java:43-51 | from a 16-char key a setter call leaves a 16-char key, either the old one or its own input |
| AesUtils.KeyAfter | Library/src/main/java/com/handy/base/utils/AesUtils.java:43-51 | the key after a sequence of setter calls, in order; KeyAfterKeepsLength, RefusedInputsKeepKey and LastAcceptedKeyWins state its properties |
| AesUtils.KeyAfterKeepsLength | Library/src/main/java/com/handy/base/utils/AesUtils.java:43-51 | after any sequence of setter calls the key is 16 chars long and is the start key or one of the inputs |
| AesUtils.RefusedInputsKeepKey | Library/src/main/java/com/handy/base/utils/AesUtils.java:43-51 | a sequence of refused inputs leaves the key unchanged |
| AesUtils.LastAcceptedKeyWins | Library/src/main/java/com/handy/base/utils/AesUtils.java:43-51 | after an accepted 16-char key, any run of refused inputs leaves that key in place, whatever the key was before |
| AesUtils.KeyStore.constructor | Library/src/main/java/com/handy/base/utils/AesUtils.java:33 | the store starts with "HANDY_SECRET_KEY" |
| AesUtils.KeyStore.GetDefaultKey | Library/src/main/java/com/handy/base/utils/AesUtils.java:39-41 | returns the stored key, of length 16, and changes nothing |
| AesUtils.KeyStore.SetDefaultKey | Library/src/main/java/com/handy/base/utils/AesUtils.java:43-51 | the new key is `NextKey(old key, input)`, the 16-char invariant is kept, and the returned message is the one logged |
| JavaLang.JDiv | Library/src/main/java/com/handy/base/utils/TimeUtils.java:1650 | Java division by a positive divisor, rounding toward zero |
| JavaLang.JRem | Library/src/main/java/com/handy/base/utils/TimeUtils.java:1526 | Java remainder: the sign of the dividend, and `a == (a / b) * b + a % b` |
| JavaLang.JRemZero | Library/src/main/java/com/handy/base/utils/TimeUtils.java:1210 | a Java remainder is zero exactly when the Euclidean one is |
| JavaLang.NatToString | Library/src/main/java/com/handy/base/utils/TimeUtils.java:1652 | the decimal digits, with no leading zero |
| JavaLang.ParseNatToString | Library/src/main/java/com/handy/base/utils/TimeUtils.java:1652 | reading the digits back gives the number |
| JavaLang.NatToStringInjective | Library/src/main/java/com/handy/base/utils/TimeUtils.java:1652 | different numbers print differently |
| JavaLang.JStr | Library/src/main/java/com/handy/base/utils/LogUtils.java:206 | string concatenation of null appends "null" |
| JavaLang.IsWhitespace | Library/src/main/java/com/handy/base/utils/LogUtils.java:371 | `Character.isWhitespace` by code point; IsWhitespaceExamples pins the space, the controls and the excluded no-break spaces |
| JavaLang.IsWhitespaceExamples | Library/src/main/java/com/handy/base/utils/LogUtils.java:371 | space, tab, LF and CR are whitespace; a letter and U+00A0, U+2007 and U+202F are not |
| JavaLang.IsBlank | Library/src/main/java/com/handy/base/utils/LogUtils.java:368-376 | null or whitespace only, the meaning of `isSpace`; LogUtils.IsSpace is proved equal to it |
| JavaLang.IndexOf | Library/src/main/java/com/handy/base/utils/LogUtils.java:192 | the first occurrence, or none exactly when the character is absent |
| JavaLang.ReplaceFirst | Library/src/main/java/com/handy/base/utils/LogUtils.java:254 | replaces the first occurrence of the character, or returns the string when there is none |
| JavaSplit.DropTrailingEmpty | Library/src/main/java/com/handy/base/utils/LogUtils.java:224 | removes exactly the empty pieces at the end |
| JavaSplit.Split | Library/src/main/java/com/handy/base/utils/LogUtils.java:224 | `split` on a one-character separator: the whole string when the separator is absent, else the pieces without trailing empty ones; SplitHasNoSep, SplitRejoin, SplitTerminated and SplitEmpty state its properties |
| JavaSplit.PiecesHaveNoSep | Library/src/main/java/com/handy/base/utils/LogUtils.java:188-193 | no raw piece contains the separator |
| JavaSplit.JoinPieces | Library/src/main/java/com/handy/base/utils/LogUtils.java:224 | rejoining the raw pieces gives the string back |
| JavaSplit.SplitHasNoSep | Library/src/main/java/com/handy/base/utils/LogUtils.java:224 | no piece of `split` contains the separator |
| JavaSplit.SplitRejoin | Library/src/main/java/com/handy/base/utils/LogUtils.java:224 | rejoining the pieces gives a prefix of the string, and what is missing is separators only |
| JavaSplit.SplitTerminated | Library/src/main/java/com/handy/base/utils/LogUtils.java:224-227 | splitting lines that were each terminated by the separator gives the lines back |
| JavaSplit.SplitEmpty | Library/src/main/java/com/handy/base/utils/LogUtils.java:193 | `split` returns no pieces exactly for a non-empty run of separators |
| LogFormat.BordersShape | Library/src/main/java/com/handy/base/utils/LogUtils.java:55-57 | the top and bottom borders are 100 chars: their own corner, then the same 99 bars; the left border is 2 chars with no line break |
| LogFormat.Flag | Library/src/main/java/com/handy/base/utils/LogUtils.java:44-49 | the six severities are 0x01..0x20 |
| LogFormat.FlagMonotone | Library/src/main/java/com/handy/base/utils/LogUtils.java:44-49 | the flags order the severities: `type >= filter` means "at least as severe" |
| LogFormat.TypeCodeInjective | Library/src/main/java/com/handy/base/utils/LogUtils.java:155-178 | the nine type constants are distinct, so the switch tells them apart |
| LogFormat.TypeCode | Library/src/main/java/com/handy/base/utils/LogUtils.java:44-52 | the `int` constant of each kind; TypeCodeInjective says the nine are distinct |
| LogFormat.SimpleClassName | Library/src/main/java/com/handy/base/utils/LogUtils.java:188-194 | the caller's simple class name: the last `.` segment, cut before the first `$`, or a throw; SimpleClassNameThrows says exactly when it throws |
| LogFormat.Resolve | Library/src/main/java/com/handy/base/utils/LogUtils.java:183-201 | tag and head resolution, or a throw; TagPinned, TagFromClassName, TagKept, HeadOnlyWithSwitch and ResolveThrows state its cases |
| LogFormat.HeadLine | Library/src/main/java/com/handy/base/utils/LogUtils.java:199 | the `Formatter` head line: thread, method, class and line number, ending in a line break; HeadOnlyWithSwitch states when it is used |
| LogFormat.SimpleClassNameThrows | Library/src/main/java/com/handy/base/utils/LogUtils.java:188-194 | deriving the simple name throws exactly when the last segment is a non-empty run of `$` |
| LogFormat.SimpleClassNameQualified | Library/src/main/java/com/handy/base/utils/LogUtils.java:188-191 | `pkg.Name` gives `Name` |
| LogFormat.SimpleClassNameNested | Library/src/main/java/com/handy/base/utils/LogUtils.java:188-194 | `pkg.Outer$Inner` gives `Outer` |
| LogFormat.SimpleClassNameDollar | Library/src/main/java/com/handy/base/utils/LogUtils.java:192-193 | a class named `$` makes the derivation throw |
| LogFormat.TagPinned | Library/src/main/java/com/handy/base/utils/LogUtils.java:183-184 | with the tag pinned and no head, the tag is the global tag whatever was passed |
| LogFormat.TagFromClassName | Library/src/main/java/com/handy/base/utils/LogUtils.java:195-196 | under a blank global tag a blank tag becomes the caller's simple class name |
| LogFormat.TagKept | Library/src/main/java/com/handy/base/utils/LogUtils.java:185-197 | in every other case the passed tag is kept |
| LogFormat.HeadOnlyWithSwitch | Library/src/main/java/com/handy/base/utils/LogUtils.java:198-200 | there is a head exactly when the head switch is on: the thread, method, class and line, ending in a line break |
| LogFormat.ResolveThrows | Library/src/main/java/com/handy/base/utils/LogUtils.java:183-194 | resolution throws exactly when the caller frame is needed and its class name cannot be cut |
| LogFormat.BodyOfNullArray | Library/src/main/java/com/handy/base/utils/LogUtils.java:202-203 | a null contents array gives "Log with null object." |
| LogFormat.BodyOfOneValue | Library/src/main/java/com/handy/base/utils/LogUtils.java:204-211 | one element gives its text or "null"; only JSON and XML reformat it |
| LogFormat.BodyOfEmptyArray | Library/src/main/java/com/handy/base/utils/LogUtils.java:212-219 | an empty array gives an empty body |
| LogFormat.ArgsText | Library/src/main/java/com/handy/base/utils/LogUtils.java:212-219 | the `args[i] = v` listing, each line terminated; ArgsTextLines splits it back into its lines, and LogUtils.ArgsBody is proved equal to it |
| LogFormat.ArgsTextLines | Library/src/main/java/com/handy/base/utils/LogUtils.java:212-219 | the body of several values splits back into the `args[i] = v` lines, in index order |
| LogFormat.FormatJson | Library/src/main/java/com/handy/base/utils/LogUtils.java:233-244 | `formatJson` over the abstract org.json printers; FormatJsonPassThrough and FormatJsonFallback state its cases |
| LogFormat.FormatJsonPassThrough | Library/src/main/java/com/handy/base/utils/LogUtils.java:233-243 | text starting with neither `{` nor `[` is returned unchanged |
| LogFormat.FormatJsonFallback | Library/src/main/java/com/handy/base/utils/LogUtils.java:233-243 | when org.json throws, the input is returned |
| LogFormat.FormatXml | Library/src/main/java/com/handy/base/utils/LogUtils.java:246-258 | `formatXml` over the abstract transformer; FormatXmlFallback and FormatXmlBreaksFirstTag state its two cases |
| LogFormat.FormatXmlFallback | Library/src/main/java/com/handy/base/utils/LogUtils.java:246-258 | when the transformer throws, the input is returned |
| LogFormat.FormatXmlBreaksFirstTag | Library/src/main/java/com/handy/base/utils/LogUtils.java:254 | otherwise a line break follows the first `>` of the output |
| LogFormat.Body | Library/src/main/java/com/handy/base/utils/LogUtils.java:202-220 | the body for the contents array; BodyOfNullArray, BodyOfOneValue, BodyOfEmptyArray and ArgsTextLines state its cases |
| LogFormat.Framed | Library/src/main/java/com/handy/base/utils/LogUtils.java:222-229 | the message with each `split` piece behind the left border and terminated; FramedLines, FramedOneLine, FramedEmpty and FramedStrip state its properties |
| LogFormat.Process | Library/src/main/java/com/handy/base/utils/LogUtils.java:181-231 | `processContents`: the resolved tag and the head plus body, framed iff the border is on, or a throw; Logger.ProcessContents is proved against it |
| LogFormat.FramedLines | Library/src/main/java/com/handy/base/utils/LogUtils.java:221-229 | every line of the framed message is a piece of the message behind the left border |
| LogFormat.FramedOneLine | Library/src/main/java/com/handy/base/utils/LogUtils.java:222-228 | a one-line message becomes one bordered, terminated line |
| LogFormat.FramedEmpty | Library/src/main/java/com/handy/base/utils/LogUtils.java:222-228 | the empty message still gives one bordered line |
| LogFormat.FramedStrip | Library/src/main/java/com/handy/base/utils/LogUtils.java:222-228 | stripping the borders and rejoining gives the message up to trailing line breaks |
| LogFormat.Cut | Library/src/main/java/com/handy/base/utils/LogUtils.java:263-278 | the raw body pieces of `printLog`, at least one; CutCount, CutIndex, CutBound, CutLastEmpty and CutConcat state them |
| LogFormat.BodyWrites | Library/src/main/java/com/handy/base/utils/LogUtils.java:264-275 | the body writes of `printLog`, one per piece of Cut; LaterWritesBordered and UnborderRebuilds state them, and Logger.PrintPieces and Logger.PrintChunks are proved equal to them |
| LogFormat.PrintTexts | Library/src/main/java/com/handy/base/utils/LogUtils.java:261-280 | everything `printLog` writes, in order; PrintTextsFrame states the borders, and Logger.PrintLog is proved equal to it |
| LogFormat.CutCount | Library/src/main/java/com/handy/base/utils/LogUtils.java:263-278 | `printLog` makes `len / 4000 + 1` body writes, also for short messages |
| LogFormat.CutIndex | Library/src/main/java/com/handy/base/utils/LogUtils.java:264-275 | write `i` is the `i`-th 4000-char slice and the last one is the rest |
| LogFormat.CutBound | Library/src/main/java/com/handy/base/utils/LogUtils.java:266-275 | every piece has at most 4000 chars and all but the last exactly 4000 |
| LogFormat.CutLastEmpty | Library/src/main/java/com/handy/base/utils/LogUtils.java:274-275 | the last piece is empty exactly when the length is a multiple of 4000 |
| LogFormat.CutConcat | Library/src/main/java/com/handy/base/utils/LogUtils.java:263-278 | the pieces concatenate back to the message |
| LogFormat.ShortMessageOneWrite | Library/src/main/java/com/handy/base/utils/LogUtils.java:276-277 | a message under 4000 chars is one write, unchanged |
| LogFormat.LaterWritesBordered | Library/src/main/java/com/handy/base/utils/LogUtils.java:266-275 | writes after the first carry the left border iff the border is on |
| LogFormat.UnborderRebuilds | Library/src/main/java/com/handy/base/utils/LogUtils.java:266-275 | taking the borders off the writes and concatenating rebuilds the message exactly |
| LogFormat.PrintTextsFrame | Library/src/main/java/com/handy/base/utils/LogUtils.java:262-279 | the top border comes first and the bottom border last, iff the border is on |
| LogFormat.Stamp | Library/src/main/java/com/handy/base/utils/LogUtils.java:59 | `FORMAT.format(now)` for "MM-dd HH:mm:ss.SSS ", 19 characters with zero-padded fields |
| LogFormat.DatePart | Library/src/main/java/com/handy/base/utils/LogUtils.java:308 | `format.substring(0, 5)`; DatePartIs shows it is "MM-dd" and FilePathDistinctDays that it tells days apart |
| LogFormat.TimePart | Library/src/main/java/com/handy/base/utils/LogUtils.java:309 | `format.substring(6)`; DatePartIs shows it is "HH:mm:ss.SSS " |
| LogFormat.DatePartIs | Library/src/main/java/com/handy/base/utils/LogUtils.java:307-309 | the date part is "MM-dd" and the time part "HH:mm:ss.SSS " |
| LogFormat.TwoInjective | Library/src/main/java/com/handy/base/utils/LogUtils.java:59 | two-digit fields are injective |
| LogFormat.FilePath | Library/src/main/java/com/handy/base/utils/LogUtils.java:310 | the day's file path; FilePathSameDay, FilePathDistinctDays and FilePathDirectory state its properties |
| LogFormat.FilePathSameDay | Library/src/main/java/com/handy/base/utils/LogUtils.java:310 | the same month and day give the same path |
| LogFormat.FilePathDistinctDays | Library/src/main/java/com/handy/base/utils/LogUtils.java:310 | different days give different paths |
| LogFormat.FilePathDirectory | Library/src/main/java/com/handy/base/utils/LogUtils.java:310 | the path starts with `dir`, else `defaultDir`, else "null", and ends in ".txt" |
| LogFormat.FileBlock | Library/src/main/java/com/handy/base/utils/LogUtils.java:315-323 | the text one `print2File` queues; FileBlockParts splits it into header, message and footer |
| LogFormat.FileBlockParts | Library/src/main/java/com/handy/base/utils/LogUtils.java:315-323 | the block is its header, the message and its footer, with the border lines iff the border is on |
| LogFiles.LastIndexOf | Library/src/main/java/com/handy/base/utils/LogUtils.java:355 | the last occurrence, or none exactly when absent |
| LogFiles.Parent | Library/src/main/java/com/handy/base/utils/LogUtils.java:355 | a parent path is a strictly shorter prefix |
| LogFiles.Mkdir | Library/src/main/java/com/handy/base/utils/LogUtils.java:365 | on success exactly the one directory is added |
| LogFiles.CreateNewFile | Library/src/main/java/com/handy/base/utils/LogUtils.java:357 | on success exactly one empty file is added |
| LogFiles.AppendFile | Library/src/main/java/com/handy/base/utils/LogUtils.java:333-334 | an existing writable file gets the text at its end; a read-only path fails |
| LogFiles.Mkdirs | Library/src/main/java/com/handy/base/utils/LogUtils.java:365 | `File.mkdirs`; MkdirsAddsOnlyDirs states that it only adds directories and when it succeeds |
| LogFiles.MkdirsAddsOnlyDirs | Library/src/main/java/com/handy/base/utils/LogUtils.java:365 | `mkdirs` only adds directories, on success the path is a directory, and an existing path fails |
| LogFiles.CreateOrExistsDir | Library/src/main/java/com/handy/base/utils/LogUtils.java:364-366 | `createOrExistsDir`; CreateOrExistsDirExisting and CreateOrExistsDirSpec state its cases |
| LogFiles.CreateOrExistsDirExisting | Library/src/main/java/com/handy/base/utils/LogUtils.java:365 | an existing path is accepted iff it is a directory, unchanged |
| LogFiles.CreateOrExistsDirSpec | Library/src/main/java/com/handy/base/utils/LogUtils.java:364-366 | a null path fails; on success the directory exists; only directories are added |
| LogFiles.CreateOrExistsFile | Library/src/main/java/com/handy/base/utils/LogUtils.java:352-362 | `createOrExistsFile`; CreateOrExistsFileExisting, CreateOrExistsFileSpec and CreateOrExistsFileNeedsParent state its cases |
| LogFiles.CreateOrExistsFileExisting | Library/src/main/java/com/handy/base/utils/LogUtils.java:354 | an existing path is accepted iff it is a file, and nothing changes |
| LogFiles.CreateOrExistsFileSpec | Library/src/main/java/com/handy/base/utils/LogUtils.java:352-362 | on success the path is a file, new ones empty; nothing existing changes; besides it only directories are added |
| LogFiles.CreateOrExistsFileNeedsParent | Library/src/main/java/com/handy/base/utils/LogUtils.java:352-366 | a bare name with no parent cannot be created |
| LogFiles.AppendFileExtends | Library/src/main/java/com/handy/base/utils/LogUtils.java:333-334 | appending extends only that file |
| LogUtils.IsSpace | Library/src/main/java/com/handy/base/utils/LogUtils.java:368-376 | true exactly for null or an all-whitespace string |
| LogUtils.ArgsBody | Library/src/main/java/com/handy/base/utils/LogUtils.java:213-218 | the loop builds the `args[i] = v` lines, each terminated |
| LogUtils.FrameMessage | Library/src/main/java/com/handy/base/utils/LogUtils.java:223-228 | the loop builds the bordered, terminated lines of the split message |
| LogUtils.PrintTextsLines | Library/src/main/java/com/handy/base/utils/LogUtils.java:261-280 | the console lines of one `printLog`: top border, pieces, bottom border |
| LogUtils.Logger.constructor | Library/src/main/java/com/handy/base/utils/LogUtils.java:63-72 | the initial switches and an empty console and queue |
| LogUtils.Logger.Print | Library/src/main/java/com/handy/base/utils/LogUtils.java:282-303 | appends exactly one line at the given level and tag |
| LogUtils.Logger.ProcessContents | Library/src/main/java/com/handy/base/utils/LogUtils.java:181-231 | returns the resolved tag and the rendered message, or throws exactly when resolution does |
| LogUtils.Logger.ResolveTag | Library/src/main/java/com/handy/base/utils/LogUtils.java:183-201 | the tag and the head line are those of the resolution, or it throws when the class name cannot be cut |
| LogUtils.ContentsBody | Library/src/main/java/com/handy/base/utils/LogUtils.java:202-220 | the body is the null tip, the one value (reformatted for JSON and XML) or the `args[i] = v` listing |
| LogUtils.Logger.PrintLog | Library/src/main/java/com/handy/base/utils/LogUtils.java:261-280 | appends the borders (iff on) and the 4000-char pieces in order, and changes nothing else |
| LogUtils.Logger.PrintPieces | Library/src/main/java/com/handy/base/utils/LogUtils.java:263-278 | the body writes are appended in order: one piece for a short message |
| LogUtils.Logger.PrintChunks | Library/src/main/java/com/handy/base/utils/LogUtils.java:265-275 | the chunk loop appends the 4000-char pieces and the rest in order, bordered after the first iff the border is on |
| LogUtils.ChunkFirst | Library/src/main/java/com/handy/base/utils/LogUtils.java:266 | the first write of a long message is its first 4000 chars |
| LogUtils.ChunkNext | Library/src/main/java/com/handy/base/utils/LogUtils.java:269-272 | piece `i` sits at offset `4000 * i` and continues the trace |
| LogUtils.ChunkLast | Library/src/main/java/com/handy/base/utils/LogUtils.java:274-275 | the rest after the last full piece completes the trace |
| LogUtils.Logger.Print2File | Library/src/main/java/com/handy/base/utils/LogUtils.java:305-350 | checks or creates the day's file, then queues one block or prints one failure line |
| LogUtils.Logger.Log | Library/src/main/java/com/handy/base/utils/LogUtils.java:150-179 | the whole call: the switch, the throw, the severity filter and the four routes |
| LogUtils.Logger.Deliver | Library/src/main/java/com/handy/base/utils/LogUtils.java:155-178 | the processed message goes to the console, the file, both or neither, by type, filter and file switch |
| LogUtils.Logger.PrintLogAndFile | Library/src/main/java/com/handy/base/utils/LogUtils.java:162-167 | one `printLog`, then one `print2File` iff the file switch is on |
| LogUtils.Logger.RunNext | Library/src/main/java/com/handy/base/utils/LogUtils.java:328-348 | the worker runs the oldest task: appends its block and reports success, or reports failure |
| LogUtils.Logger.RunPending | Library/src/main/java/com/handy/base/utils/LogUtils.java:325-349 | the worker runs the queue to its end, in order |
| LogUtils.Printed | Library/src/main/java/com/handy/base/utils/LogUtils.java:261-280 | one `printLog` on the sinks: the console grows by the lines of PrintTexts, nothing else changes; Logger.PrintLog is proved against it |
| LogUtils.FileEffect | Library/src/main/java/com/handy/base/utils/LogUtils.java:305-327 | one `print2File` on the sinks; Logger.Print2File is proved against it and FileEffectOnce, FileEffectExistingFile and FileEffectExistingDir state its outcomes |
| LogUtils.LogEffect | Library/src/main/java/com/handy/base/utils/LogUtils.java:150-179 | one `log` call: nothing with the switch off, a throw from resolution, else the delivery of the processed message; Logger.Log is proved against it and LogSwitchOff and ThrowsLeavesState state its first two cases |
| LogUtils.Delivered | Library/src/main/java/com/handy/base/utils/LogUtils.java:155-178 | where the processed message goes, by type, filter and file switch; Logger.Deliver is proved against it and FilteredOut, StdAtOrAboveFilter, FileOnly and JsonXmlAtDebug state its routes |
| LogUtils.Step | Library/src/main/java/com/handy/base/utils/LogUtils.java:328-348 | the worker runs the oldest task; Logger.RunNext is proved against it and StepWritable states the writable case |
| LogUtils.Drain | Library/src/main/java/com/handy/base/utils/LogUtils.java:325-349 | the worker runs every queued task in order; Logger.RunPending is proved against it, DrainFileContents states the files it leaves for any queue, and DrainReports and DrainAppendsInOrder the reports for a queue of writable targets |
| LogUtils.FileEffectOnce | Library/src/main/java/com/handy/base/utils/LogUtils.java:310-327 | each `print2File` either queues exactly one block for the day's file or prints exactly one failure line and queues nothing |
| LogUtils.FileEffectExistingFile | Library/src/main/java/com/handy/base/utils/LogUtils.java:352-354 | an existing day file is used as it is: the filesystem is untouched and one block is queued |
| LogUtils.FileEffectExistingDir | Library/src/main/java/com/handy/base/utils/LogUtils.java:310-313 | a directory at the path gives one failure line and nothing else |
| LogUtils.NoBuilderNoFile | Library/src/main/java/com/handy/base/utils/LogUtils.java:310-313 | without a Builder the path is "null" plus "MM-dd.txt", which can only fail unless it already exists |
| LogUtils.DrainAppendsInOrder | Library/src/main/java/com/handy/base/utils/LogUtils.java:325-349 | with writable targets, each file gets its blocks in queue order and there is one success line per task, in order |
| LogUtils.DrainReports | Library/src/main/java/com/handy/base/utils/LogUtils.java:328-349 | the queue empties, one success line per task in queue order, no path added or removed |
| LogUtils.DrainFileContents | Library/src/main/java/com/handy/base/utils/LogUtils.java:325-349 | for any queue, also one with tasks to read-only or missing paths: the read-only paths stay, every writable file ends with exactly its own queued blocks in queue order, and every other existing entry stays as it was |
| LogUtils.DrainEntry | Library/src/main/java/com/handy/base/utils/LogUtils.java:328-348 | at one existing path, for any queue: a writable file gains exactly the blocks queued for it, in order; anything else stays |
| LogUtils.DrainWritableEntry | Library/src/main/java/com/handy/base/utils/LogUtils.java:325-349 | a writable file ends with exactly its queued blocks in queue order, whatever the other tasks do |
| LogUtils.DrainOtherEntry | Library/src/main/java/com/handy/base/utils/LogUtils.java:325-349 | an existing entry the worker cannot append to, such as a read-only file, stays as it was |
| LogUtils.StepEntry | Library/src/main/java/com/handy/base/utils/LogUtils.java:330-338 | one worker step at an existing path: the writable target gains its block, every other entry stays, nothing is removed, and the read-only paths are the same |
| LogUtils.DrainKeepsReadOnly | Library/src/main/java/com/handy/base/utils/LogUtils.java:325-349 | the worker never changes which paths are read-only |
| LogUtils.StepWritable | Library/src/main/java/com/handy/base/utils/LogUtils.java:330-338 | one worker step on a writable target appends the block, reports success and keeps the rest writable |
| LogUtils.DrainOneFile | Library/src/main/java/com/handy/base/utils/LogUtils.java:325-349 | one day's file grows by the queued blocks, one after the other |
| LogUtils.LogSwitchOff | Library/src/main/java/com/handy/base/utils/LogUtils.java:151 | with the switch off nothing is printed or filed |
| LogUtils.ThrowsLeavesState | Library/src/main/java/com/handy/base/utils/LogUtils.java:186-194 | a call throws exactly when the caller's class name cannot be cut, and then nothing is emitted |
| LogUtils.FilteredOut | Library/src/main/java/com/handy/base/utils/LogUtils.java:162 | a severity below the filter emits nothing |
| LogUtils.StdAtOrAboveFilter | Library/src/main/java/com/handy/base/utils/LogUtils.java:156-167 | at or above the filter: one `printLog` at that level, then one `print2File` iff the file switch is on |
| LogUtils.FileOnly | Library/src/main/java/com/handy/base/utils/LogUtils.java:169-171 | FILE goes only to the file sink |
| LogUtils.JsonXmlAtDebug | Library/src/main/java/com/handy/base/utils/LogUtils.java:172-177 | JSON and XML print at level D whatever the filter and the file switch, and never file |
| LogUtils.PlainInfoExample | Library/src/main/java/com/handy/base/utils/LogUtils.java:150-280 | with border and head off, `i("T", "hello")` prints the one line "hello" at I under "T" |
| LogUtils.BorderedInfoExample | Library/src/main/java/com/handy/base/utils/LogUtils.java:150-280 | with the border on the same call prints the top border, "║ hello", and the bottom border |
| LogUtils.DefaultDirAfter | Library/src/main/java/com/handy/base/utils/LogUtils.java:384-392 | `defaultDir` after a `Builder` is constructed; DefaultDirAssignedOnce and Builder.constructor state it |
| LogUtils.DirSetting | Library/src/main/java/com/handy/base/utils/LogUtils.java:420-427 | `setDir(String)`; DirSettingSpec states its result |
| LogUtils.DirFromFile | Library/src/main/java/com/handy/base/utils/LogUtils.java:429-432 | `setDir(File)`; DirFromFileSpec states its result |
| LogUtils.DirFromFileSpec | Library/src/main/java/com/handy/base/utils/LogUtils.java:429-432 | null iff the file is null; otherwise the absolute path followed by exactly one separator |
| LogUtils.TagSetting | Library/src/main/java/com/handy/base/utils/LogUtils.java:399-408 | `setGlobalTag`; TagSettingSpec states its result and Builder.SetGlobalTag is proved against it |
| LogUtils.DefaultDirAssignedOnce | Library/src/main/java/com/handy/base/utils/LogUtils.java:384-392 | the first Builder sets `defaultDir` to a path ending in "/log/"; later ones keep it |
| LogUtils.DirSettingSpec | Library/src/main/java/com/handy/base/utils/LogUtils.java:420-427 | `setDir` stores null iff the path is blank, else the path ending in one separator; idempotent |
| LogUtils.TagSettingSpec | Library/src/main/java/com/handy/base/utils/LogUtils.java:399-408 | `setGlobalTag` never leaves the tag null, records blankness in `sTagIsSpace`, and changes nothing else |
| LogUtils.GlobalTagOverrides | Library/src/main/java/com/handy/base/utils/LogUtils.java:183-184 | a non-blank global tag with the head off replaces any passed tag |
| LogUtils.BlankGlobalTagUsesClass | Library/src/main/java/com/handy/base/utils/LogUtils.java:195-196 | a blank global tag lets a blank call tag become the class name |
| LogUtils.Builder.constructor | Library/src/main/java/com/handy/base/utils/LogUtils.java:384-392 | `defaultDir` is set from the storage inputs only when it is still null; nothing else changes |
| LogUtils.Builder.SetLogSwitch | Library/src/main/java/com/handy/base/utils/LogUtils.java:394-397 | sets the switch, nothing else |
| LogUtils.Builder.SetGlobalTag | Library/src/main/java/com/handy/base/utils/LogUtils.java:399-408 | the configuration becomes `TagSetting` of the old one |
| LogUtils.Builder.SetLogHeadSwitch | Library/src/main/java/com/handy/base/utils/LogUtils.java:410-413 | sets the switch, nothing else |
| LogUtils.Builder.SetLog2FileSwitch | Library/src/main/java/com/handy/base/utils/LogUtils.java:415-418 | sets the switch, nothing else |
| LogUtils.Builder.SetDir | Library/src/main/java/com/handy/base/utils/LogUtils.java:420-427 | stores `DirSetting(dir)`, nothing else |
| LogUtils.Builder.SetDirFromFile | Library/src/main/java/com/handy/base/utils/LogUtils.java:429-432 | stores the absolute path plus a separator, or null |
| LogUtils.Builder.SetBorderSwitch | Library/src/main/java/com/handy/base/utils/LogUtils.java:434-437 | sets the switch, nothing else |
| LogUtils.Builder.SetLogFilter | Library/src/main/java/com/handy/base/utils/LogUtils.java:439-442 | sets the filter, nothing else |

## Left out

- Android `Log.*`, `Environment` and `Utils.getApplicationContext()`: the console is a trace, and the storage state and cache directories are `Builder` constructor inputs.
- The stack walk and `Thread.currentThread().getName()`: the caller frame is a `CallSite` value.
- `SimpleDateFormat` with `Locale.getDefault()`: the clock is a month/day/hour/minute/second/milli value, and the stamp is rendered with ASCII digits.
- Locale digits of `%d`: the line number in the head line (`LogUtils.java:199`, a `Formatter` on the default locale) and the counts in "%d秒前" and "%d分钟前" (`TimeUtils.java:742` and `TimeUtils.java:744`, `Locale.getDefault()`) are rendered with ASCII digits by `IntToString` and `NatToString`. A locale with other digits (Arabic, for example) gives different text.
- The `%tc`, `%tR` and `%tF` outputs in `getFriendlyTimeSpanByNow`: these are the abstract `DateFormats`. The outcome is the `Friendly` classification.
- The date parsing and formatting overloads of `TimeUtils` (`string2Millis`, `millis2String`, week names and numbers, the `String`/`Date` variants): these are library calls.
- org.json and `javax.xml.transform`: these are partial functions in `Pretty`. Only the prefix choice, the fallback on an exception and the `replaceFirst` are modelled.
- `Object.toString` of the contents: the contents are already their strings, with null as `None`.
- The public entry points `v`, `d`, `i`, `w`, `e`, `a`, `file`, `json` and `xml` just forward to `log`. The one-argument forms pass `sGlobalTag` as the tag and wrap the argument in a one-element array. `Log` takes the tag and the array directly.
- Threads: the executor is a sequential queue, `RunNext` stands for the worker picking the oldest task, and interleavings of log calls with the worker are not modelled.
- I/O exceptions in the worker: an append fails exactly on read-only paths, on directories and where a missing file cannot be created. Other I/O errors are not distinguished.
- Filesystem paths are taken literally: no normalisation of `.`, `..` or duplicate separators.
- Parentless paths: `createOrExistsFile` refuses a log-file path without a parent on its own, because `getParentFile()` is null and `createOrExistsDir(null)` is false (`LogUtils.java:355` and `LogUtils.java:365`). The model follows that. A separate assumption, that the process's working directory is the read-only root, is used only where Java would resolve a one-segment relative name against the working directory: `Mkdirs` making a relative top directory such as `log`, and the worker's `AppendFile` creating a missing parentless file. There the model fails where Java, in a writable working directory, would succeed.
- `String.split` regular-expression generality: the separators used are one literal character each (`\\.`, `\\$`, the line separator).
- Integer width: all arithmetic is unbounded. 64-bit overflow of `timeSpan * unit`, of `millis0 - millis1` and of `Math.abs(Long.MIN_VALUE)` is not modelled. Neither are `int` and `long` limits on precision and the zodiac arguments.
- String length counts code points (`seq<char>`), not UTF-16 units. This affects two places for text outside the Basic Multilingual Plane. The 4000-character cut of `printLog` can fall elsewhere. The key-length test of `setDEFAULT_KEY` (`AesUtils.java:46`) counts UTF-16 units, while `NextKey` and `Diagnostic` count code points. For example, "😀" followed by 14 ASCII characters has 15 code points, so the model refuses it, but it has 16 UTF-16 units, so the source accepts it.
- `AesUtils` `encrypt`/`decrypt` and `CleanUtils`: these are thin wrappers over `javax.crypto`, `Base64Utils` and `FileUtils`, which are not part of this model. `EmptyUtils.isEmpty` is taken as "null or length 0".
- AesUtils.KeyStore.SetDefaultKey: does not call `LogUtils.d` itself. It returns the message it would log, because the key store and the logger are separate objects here.
- `Builder.toString`: it is display text only. It throws a `NullPointerException` while `sGlobalTag` is still null.
- `getChineseZodiac(long)` and `getZodiac(long)`: these go through `Date` and `Calendar`.
- Chunk count: the code makes `len / 4000 + 1` body writes for `len >= 4000`, so the last write is empty when the length is a multiple of 4000. This is what the model states, not a ceiling division.
- Zero span: the documentation of `millis2FitTimeSpan` says that millis <= 0 gives null. The code returns `"0"` plus the unit for 0, and the model follows the code.

## Findings

| source | as written | input that shows it | evidently intended | confidence | as-written member | corrected member |
|---|---|---|---|---|---|---|
| Library/src/main/java/com/handy/base/utils/TimeUtils.java:1152-1155 | `wee = (now / DAY) * DAY - 8 * HOUR`, the UTC+8 midnight of the current UTC date | `now = 16 * HOUR` (1970-01-02 00:00 in UTC+8): the window is [-8 h, 16 h) and excludes `now`; the same holds every day from 00:00 to 08:00 UTC+8 | the last UTC+8 midnight at or before `now`, `((now + 8 h) / DAY) * DAY - 8 h`, modelled by Wee and used by IsToday | not executed | TimeUtils.IsTodayCounterexample | TimeUtils.TodayWindow |
| Library/src/main/java/com/handy/base/utils/TimeUtils.java:734-755 | the same day start in `getFriendlyTimeSpanByNow` | `millis = 15 * HOUR` (23:00 the day before in UTC+8), `now = 18 * HOUR` (02:00): the code says "today" | "yesterday", as FriendlyTimeSpanByNow gives with the day start Wee | not executed | TimeUtils.FriendlyCounterexample | TimeUtils.FriendlyAgreesWithIsToday |

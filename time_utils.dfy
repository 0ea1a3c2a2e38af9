/**
 * The calendar and duration arithmetic of `TimeUtils`: the Gregorian leap-year
 * rule, the Chinese-zodiac and star-sign tables, unit conversion and time spans,
 * the greedy day/hour/minute/second/millisecond breakdown, and the "today" and
 * "friendly" classifications. Instants are milliseconds since the epoch; the
 * current time is a parameter `now`.
 */
module TimeUtils {
  import opened Optional
  import opened JavaLang
  import opened TimeConstants

  const CHINESE_ZODIAC: seq<string> := ["猴", "鸡", "狗", "猪", "鼠", "牛", "虎", "兔", "龙", "蛇", "马", "羊"]
  const ZODIAC: seq<string> := ["水瓶座", "双鱼座", "白羊座", "金牛座", "双子座", "巨蟹座", "狮子座", "处女座", "天秤座", "天蝎座", "射手座", "魔羯座"]
  /** The day of month on which the sign of ZODIAC[m - 1] begins in month `m`. */
  const ZODIAC_FLAGS: seq<int> := [20, 19, 21, 21, 21, 22, 23, 23, 23, 24, 23, 22]

  // ===========================================================================
  // Leap years
  // ===========================================================================

  /** `isLeapYear(int)`, written with Java's remainder. */
  function IsLeapYear(year: int): (r: bool)
    ensures r <==> (year % 4 == 0 && year % 100 != 0) || year % 400 == 0
  {
    JRemZero(year, 4);
    JRemZero(year, 100);
    JRemZero(year, 400);
    (JRem(year, 4) == 0 && JRem(year, 100) != 0) || JRem(year, 400) == 0
  }

  lemma LeapYearExamples()
    ensures IsLeapYear(2000) && !IsLeapYear(1900) && IsLeapYear(2016) && !IsLeapYear(2017)
  {
  }

  /** Number of leap years among `start`, `start + 1`, ..., `start + n - 1`. */
  function LeapYearsIn(start: int, n: nat): nat {
    if n == 0 then 0 else LeapYearsIn(start, n - 1) + (if IsLeapYear(start + n - 1) then 1 else 0)
  }

  /** How many multiples of `k` lie in `start .. start + n - 1` (floor arithmetic). */
  function MultiplesIn(k: int, start: int, n: nat): int
    requires k > 0
  {
    (start + n - 1) / k - (start - 1) / k
  }

  /** 1 when `k` divides `y`, else 0. */
  function Divides(k: int, y: int): int
    requires k > 0
  {
    if y % k == 0 then 1 else 0
  }

  /** Any 400 consecutive years hold exactly 97 leap years (the Gregorian cycle). */
  lemma LeapYearsPerCycle(start: int)
    ensures LeapYearsIn(start, 400) == 97
  {
    LeapYearsByMultiples(start, 400);
  }

  lemma {:induction false} LeapYearsByMultiples(start: int, n: nat)
    ensures LeapYearsIn(start, n) == MultiplesIn(4, start, n) - MultiplesIn(100, start, n) + MultiplesIn(400, start, n)
  {
    if n > 0 {
      LeapYearsByMultiples(start, n - 1);
      MultiplesInStep(4, start, n);
      MultiplesInStep(100, start, n);
      MultiplesInStep(400, start, n);
      LeapIndicator(start + n - 1);
    }
  }

  /** A year counts once as a multiple of 4, minus once as one of 100, plus once as one of 400. */
  lemma LeapIndicator(y: int)
    ensures (if IsLeapYear(y) then 1 else 0) == Divides(4, y) - Divides(100, y) + Divides(400, y)
  {
    DivisibilityChain(y);
  }

  /** Every multiple of 400 is one of 100, and every multiple of 100 is one of 4. */
  lemma DivisibilityChain(y: int)
    ensures y % 400 == 0 ==> y % 100 == 0
    ensures y % 100 == 0 ==> y % 4 == 0
  {
    if y % 400 == 0 {
      ModUnique(y, (y / 400) * 4, 0, 100);
    }
    if y % 100 == 0 {
      ModUnique(y, (y / 100) * 25, 0, 4);
    }
  }

  /** Stepping the window past `y` adds one multiple of `k` exactly when `k` divides `y`. */
  lemma MultipleStep(k: int, y: int)
    requires k == 4 || k == 100 || k == 400
    ensures y / k - (y - 1) / k == if y % k == 0 then 1 else 0
  {
  }

  /** Growing the window by its next year `y` adds one multiple of `k` exactly when `k` divides `y`. */
  lemma MultiplesInStep(k: int, start: int, n: nat)
    requires k == 4 || k == 100 || k == 400
    requires n > 0
    ensures MultiplesIn(k, start, n) == MultiplesIn(k, start, n - 1) + Divides(k, start + n - 1)
  {
    MultipleStep(k, start + n - 1);
  }

  // ===========================================================================
  // Zodiac tables
  // ===========================================================================

  /**
   * `getChineseZodiac(int)`: the table entry at Java's `year % 12`; `None` when
   * that remainder is negative and the array access throws.
   */
  function ChineseZodiac(year: int): (r: Option<string>)
    ensures r.Some? <==> year >= 0 || year % 12 == 0
    ensures r.Some? ==> r.value == CHINESE_ZODIAC[year % 12]
  {
    JRemZero(year, 12);
    var i := JRem(year, 12);
    if i >= 0 then Some(CHINESE_ZODIAC[i]) else None
  }

  /** The Chinese zodiac repeats every twelve years. */
  lemma ChineseZodiacCycle(year: int)
    requires year >= 0
    ensures ChineseZodiac(year + 12) == ChineseZodiac(year)
  {
  }

  lemma ChineseZodiacExamples()
    ensures ChineseZodiac(2016) == Some("猴") && ChineseZodiac(2020) == Some("鼠")
    ensures ChineseZodiac(-1).None?
  {
  }

  /**
   * The table index `getZodiac(month, day)` reads: this month's sign from its
   * flag day on, the sign before it (cyclically) earlier in the month.
   */
  function ZodiacIndex(month: int, day: int): (i: int)
    requires 1 <= month <= 12
    ensures 0 <= i < 12
    ensures day >= ZODIAC_FLAGS[month - 1] ==> i == month - 1
    ensures day < ZODIAC_FLAGS[month - 1] ==> (i + 1) % 12 == month - 1
  {
    if day >= ZODIAC_FLAGS[month - 1] then month - 1 else JRem(month + 10, 12)
  }

  /** `getZodiac(int, int)`; `None` for a month outside 1..12, where the flag lookup throws. */
  function Zodiac(month: int, day: int): (r: Option<string>)
    ensures r.Some? <==> 1 <= month <= 12
    ensures r.Some? ==> r.value == ZODIAC[ZodiacIndex(month, day)]
  {
    if 1 <= month <= 12 then Some(ZODIAC[ZodiacIndex(month, day)]) else None
  }

  /**
   * The table is continuous across month ends: the sign of the 31st of a month
   * is the sign of the 1st of the next (December wrapping to January).
   */
  lemma ZodiacContinuousAcrossMonths(month: int)
    requires 1 <= month <= 12
    ensures Zodiac(month, 31) == Zodiac(month % 12 + 1, 1)
  {
    var next := month % 12 + 1;
    assert 1 <= next <= 12 && ZODIAC_FLAGS[next - 1] > 1 && ZODIAC_FLAGS[month - 1] <= 31;
    if month == 12 {
      assert next == 1 && JRem(next + 10, 12) == 11;
    } else {
      assert next == month + 1 && JRem(next + 10, 12) == month - 1;
    }
    assert ZodiacIndex(next, 1) == month - 1 == ZodiacIndex(month, 31);
  }

  /** Within a month the sign changes only on the flag day. */
  lemma ZodiacChangesOnlyOnFlagDay(month: int, day: int)
    requires 1 <= month <= 12
    requires day + 1 != ZODIAC_FLAGS[month - 1]
    ensures Zodiac(month, day + 1) == Zodiac(month, day)
  {
  }

  lemma ZodiacExamples()
    ensures Zodiac(3, 21) == Some("白羊座") && Zodiac(3, 20) == Some("双鱼座")
    ensures Zodiac(1, 1) == Some("魔羯座") && Zodiac(12, 22) == Some("魔羯座")
    ensures Zodiac(13, 1).None?
  {
  }

  // ===========================================================================
  // Units and spans
  // ===========================================================================

  /** `timeSpan2Millis`: a span counted in `unit` as milliseconds. */
  function TimeSpan2Millis(timeSpan: int, unit: Unit): (r: int)
    ensures timeSpan >= 0 ==> r >= timeSpan
    ensures timeSpan < 0 ==> r <= timeSpan
  {
    MulGrows(timeSpan, unit);
    timeSpan * unit
  }

  /** `millis2TimeSpan`: whole units in a span, rounded toward zero as Java's `/` does. */
  function Millis2TimeSpan(millis: int, unit: Unit): (r: int)
    ensures millis >= 0 ==> 0 <= r && r * unit <= millis < r * unit + unit
    ensures millis < 0 ==> r * unit - unit < millis <= r * unit
  {
    JDiv(millis, unit)
  }

  /** Converting a whole number of units to milliseconds and back is lossless. */
  lemma ConversionRoundTrip(timeSpan: int, unit: Unit)
    ensures Millis2TimeSpan(TimeSpan2Millis(timeSpan, unit), unit) == timeSpan
  {
    var m := TimeSpan2Millis(timeSpan, unit);
    if timeSpan >= 0 {
      ModUnique(m, timeSpan, 0, unit);
    } else {
      assert -m == (-timeSpan) * unit;
      ModUnique(-m, -timeSpan, 0, unit);
    }
  }

  /** `getTimeSpan(long, long, int)`: whole units between two instants, in either order. */
  function GetTimeSpan(millis0: int, millis1: int, unit: Unit): (r: int)
    ensures r >= 0
    ensures r * unit <= Abs(millis0 - millis1) < r * unit + unit
  {
    Millis2TimeSpan(Abs(millis0 - millis1), unit)
  }

  lemma GetTimeSpanSymmetric(millis0: int, millis1: int, unit: Unit)
    ensures GetTimeSpan(millis0, millis1, unit) == GetTimeSpan(millis1, millis0, unit)
  {
  }

  /** `getMillis(long, long, int)`: the instant `timeSpan` units after (or before) `millis`. */
  function GetMillis(millis: int, timeSpan: int, unit: Unit): (r: int)
    ensures timeSpan >= 0 ==> r >= millis + timeSpan
    ensures timeSpan < 0 ==> r <= millis + timeSpan
  {
    millis + TimeSpan2Millis(timeSpan, unit)
  }

  /** Moving `timeSpan` units away and measuring the span in that unit gives `|timeSpan|` back. */
  lemma GetMillisThenTimeSpan(millis: int, timeSpan: int, unit: Unit)
    ensures GetTimeSpan(millis, GetMillis(millis, timeSpan, unit), unit) == Abs(timeSpan)
  {
    var d := GetMillis(millis, timeSpan, unit) - millis;
    assert Abs(millis - GetMillis(millis, timeSpan, unit)) == TimeSpan2Millis(Abs(timeSpan), unit);
    ConversionRoundTrip(Abs(timeSpan), unit);
  }

  // ===========================================================================
  // Fitted time spans: millis2FitTimeSpan
  // ===========================================================================

  const FIT_UNITS: seq<string> := ["天", "小时", "分钟", "秒", "毫秒"]
  const UNIT_LEN: seq<int> := [86400000, 3600000, 60000, 1000, 1]

  lemma UnitLenAreTheUnits()
    ensures UNIT_LEN == [DAY, HOUR, MIN, SEC, MSEC]
  {
  }

  /** Greedy mixed-radix digits of `m` at the places `from .. to - 1` of UNIT_LEN. */
  function FitDigits(m: nat, from: nat, to: nat): (ds: seq<nat>)
    requires from <= to <= 5
    ensures |ds| == to - from
    decreases 5 - from
  {
    if from == to then []
    else
      var l := UNIT_LEN[from];
      assert l > 0;
      [m / l] + FitDigits(m % l, from + 1, to)
  }

  /** What is left of `m` after taking the digits at places `from .. to - 1`. */
  function FitRest(m: nat, from: nat, to: nat): nat
    requires from <= to <= 5
    decreases 5 - from
  {
    if from == to then m
    else
      var l := UNIT_LEN[from];
      assert l > 0;
      FitRest(m % l, from + 1, to)
  }

  /** The milliseconds the digits stand for, the first at place `from`. */
  function Weighted(ds: seq<nat>, from: nat): int
    requires from + |ds| <= 5
  {
    if ds == [] then 0 else ds[0] * UNIT_LEN[from] + Weighted(ds[1..], from + 1)
  }

  /** Each non-zero digit followed by its unit name, in place order; zeros are skipped. */
  function FitText(ds: seq<nat>, from: nat): string
    requires from + |ds| <= 5
  {
    if ds == [] then ""
    else (if ds[0] > 0 then NatToString(ds[0]) + FIT_UNITS[from] else "") + FitText(ds[1..], from + 1)
  }

  /** What `millis2FitTimeSpan(millis, precision)` returns (`None` for Java's null). */
  function FitTimeSpan(millis: int, precision: int): (r: Option<string>)
    ensures r.None? <==> millis < 0 || precision <= 0
    ensures millis == 0 && precision > 0 ==> r == Some("0" + FIT_UNITS[Min(precision, 5) - 1])
  {
    if millis < 0 || precision <= 0 then None
    else
      var p := Min(precision, 5);
      if millis == 0 then Some("0" + FIT_UNITS[p - 1])
      else Some(FitText(FitDigits(millis, 0, p), 0))
  }

  /** Any precision above five behaves like five. */
  lemma FitPrecisionCapped(millis: int, precision: int)
    requires precision >= 5
    ensures FitTimeSpan(millis, precision) == FitTimeSpan(millis, 5)
  {
  }

  /**
   * The digits and what is left add back up to the input, and what is left is
   * below the smallest included unit.
   */
  lemma {:induction false} FitDecomposition(m: nat, from: nat, to: nat)
    requires from < to <= 5
    ensures Weighted(FitDigits(m, from, to), from) + FitRest(m, from, to) == m
    ensures FitRest(m, from, to) < UNIT_LEN[to - 1]
    decreases 5 - from
  {
    var l := UNIT_LEN[from];
    if from + 1 < to {
      FitDecomposition(m % l, from + 1, to);
    }
    assert FitDigits(m, from, to)[1..] == FitDigits(m % l, from + 1, to);
    assert m == (m / l) * l + m % l;
  }

  /** Every digit after the first fits its place: fewer than 24 hours, 60 minutes, 60 seconds, 1000 ms. */
  lemma {:induction false} FitDigitsBounded(m: nat, from: nat, to: nat)
    requires from <= to <= 5
    requires from > 0 ==> m < UNIT_LEN[from - 1]
    ensures (forall i :: 0 <= i < to - from && from + i > 0 ==> FitDigits(m, from, to)[i] * UNIT_LEN[from + i] < UNIT_LEN[from + i - 1])
    decreases 5 - from
  {
    if from < to {
      var l := UNIT_LEN[from];
      FitDigitsBounded(m % l, from + 1, to);
      var ds := FitDigits(m, from, to);
      assert ds[1..] == FitDigits(m % l, from + 1, to);
      assert (m / l) * l <= m;
      forall i | 1 <= i < to - from
        ensures ds[i] * UNIT_LEN[from + i] < UNIT_LEN[from + i - 1]
      {
        assert ds[i] == ds[1..][i - 1];
      }
    }
  }

  /** A positive span below the smallest included unit has only zero digits, so the text is empty. */
  lemma {:induction false} FitBelowSmallestUnit(m: nat, from: nat, to: nat)
    requires from < to <= 5
    requires m < UNIT_LEN[to - 1]
    ensures FitText(FitDigits(m, from, to), from) == ""
    decreases 5 - from
  {
    assert m / UNIT_LEN[from] == 0 && m % UNIT_LEN[from] == m;
    if from + 1 < to {
      FitBelowSmallestUnit(m, from + 1, to);
    }
    assert FitDigits(m, from, to)[1..] == FitDigits(m, from + 1, to);
  }

  lemma FitTimeSpanBelowUnit(millis: int, precision: int)
    requires 1 <= precision <= 5 && 0 < millis < UNIT_LEN[precision - 1]
    ensures FitTimeSpan(millis, precision) == Some("")
  {
    FitBelowSmallestUnit(millis, 0, precision);
  }

  /** A day, an hour, a minute, a second and a millisecond, at full precision. */
  lemma FitTimeSpanExample()
    ensures FitTimeSpan(90061001, 5) == Some("1天1小时1分钟1秒1毫秒")
  {
    FitDigitsOfOnes();
    FitTextOfOnes();
  }

  /** The same span at day-and-hour precision. */
  lemma FitTimeSpanExampleDayHour()
    ensures FitTimeSpan(90061001, 2) == Some("1天1小时")
  {
    assert NatToString(1) == "1";
    assert FitDigits(3661001, 1, 2) == [1];
    assert FitDigits(90061001, 0, 2) == [1, 1];
    assert FitText([1], 1) == "1小时";
    assert FitText([1, 1], 0) == "1天1小时";
  }

  lemma FitDigitsOfOnes()
    ensures FitDigits(90061001, 0, 5) == [1, 1, 1, 1, 1]
  {
    assert FitDigits(1, 4, 5) == [1];
    assert FitDigits(1001, 3, 5) == [1, 1];
    assert FitDigits(61001, 2, 5) == [1, 1, 1];
    assert FitDigits(3661001, 1, 5) == [1, 1, 1, 1];
  }

  lemma FitTextOfOnes()
    ensures FitText([1, 1, 1, 1, 1], 0) == "1天1小时1分钟1秒1毫秒"
  {
    FitTextOfOnesFromHour();
    FitTextCons(1, [1, 1, 1, 1], 0);
  }

  lemma FitTextOfOnesFromHour()
    ensures NatToString(1) == "1"
    ensures FitText([1, 1, 1, 1], 1) == "1小时1分钟1秒1毫秒"
  {
    FitTextOfOnesFromSecond();
    FitTextCons(1, [1, 1], 2);
    assert FitText([1, 1, 1], 2) == "1分钟1秒1毫秒";
    FitTextCons(1, [1, 1, 1], 1);
  }

  lemma FitTextOfOnesFromSecond()
    ensures NatToString(1) == "1"
    ensures FitText([1, 1], 3) == "1秒1毫秒"
  {
    assert NatToString(1) == "1";
    FitTextCons(1, [], 4);
    FitTextCons(1, [1], 3);
  }

  /** Zero places are skipped: exactly one hour is just "1小时". */
  lemma FitTimeSpanSkipsZeros()
    ensures FitTimeSpan(3600000, 5) == Some("1小时")
  {
    FitDigitsOfOneHour();
    FitTextOfOneHour();
  }

  lemma FitDigitsOfOneHour()
    ensures FitDigits(3600000, 0, 5) == [0, 1, 0, 0, 0]
  {
    assert FitDigits(0, 4, 5) == [0];
    assert FitDigits(0, 3, 5) == [0, 0];
    assert FitDigits(0, 2, 5) == [0, 0, 0];
    assert FitDigits(3600000, 1, 5) == [1, 0, 0, 0];
  }

  lemma FitTextOfOneHour()
    ensures FitText([0, 1, 0, 0, 0], 0) == "1小时"
  {
    FitTextOfZeros([0, 0, 0], 2);
    FitTextCons(1, [0, 0, 0], 1);
    FitTextCons(0, [1, 0, 0, 0], 0);
    assert NatToString(1) + FIT_UNITS[1] == "1小时";
    assert [1] + [0, 0, 0] == [1, 0, 0, 0];
    assert [0] + [1, 0, 0, 0] == [0, 1, 0, 0, 0];
  }

  /** `FitText` on a digit list with a first digit: that digit's text, then the rest's. */
  lemma FitTextCons(d: nat, ds: seq<nat>, from: nat)
    requires from + 1 + |ds| <= 5
    ensures FitText([d] + ds, from) == (if d > 0 then NatToString(d) + FIT_UNITS[from] else "") + FitText(ds, from + 1)
  {
    assert ([d] + ds)[1..] == ds;
  }

  /** Zero digits give no text. */
  lemma {:induction false} FitTextOfZeros(ds: seq<nat>, from: nat)
    requires from + |ds| <= 5
    requires forall i :: 0 <= i < |ds| ==> ds[i] == 0
    ensures FitText(ds, from) == ""
    decreases |ds|
  {
    if ds != [] {
      FitTextOfZeros(ds[1..], from + 1);
    }
  }

  /** One place of the greedy loop: its digit's text (if non-zero), then the text of the remainder. */
  lemma FitTextStep(m: nat, i: nat, p: nat)
    requires i < p <= 5
    ensures UNIT_LEN[i] > 0
    ensures m >= UNIT_LEN[i] ==> m / UNIT_LEN[i] > 0
    ensures m < UNIT_LEN[i] ==> m / UNIT_LEN[i] == 0
    ensures 0 <= m - (m / UNIT_LEN[i]) * UNIT_LEN[i] < UNIT_LEN[i]
    ensures FitText(FitDigits(m, i, p), i)
      == (if m >= UNIT_LEN[i] then NatToString(m / UNIT_LEN[i]) + FIT_UNITS[i] else "")
         + FitText(FitDigits(m - (m / UNIT_LEN[i]) * UNIT_LEN[i], i + 1, p), i + 1)
  {
    var l := UNIT_LEN[i];
    var ds := FitDigits(m, i, p);
    assert m % l == m - (m / l) * l;
    assert ds[1..] == FitDigits(m % l, i + 1, p);
    if m < l {
      assert m / l == 0;
    } else {
      assert (m / l) * l <= m;
      assert m / l >= 1;
    }
  }

  /** A turn of the loop that takes a digit: the text so far plus the digit's text plus the rest's text. */
  lemma FitLoopTake(sb0: string, m: nat, i: nat, p: nat, mode: int, next: int)
    requires i < p <= 5 && m >= UNIT_LEN[i]
    requires mode == m / UNIT_LEN[i] && next == m - mode * UNIT_LEN[i]
    ensures mode > 0 && next >= 0
    ensures sb0 + NatToString(mode) + FIT_UNITS[i] + FitText(FitDigits(next, i + 1, p), i + 1)
      == sb0 + FitText(FitDigits(m, i, p), i)
  {
    var l := UNIT_LEN[i];
    assert l > 0;
    assert m % l == next;
    assert mode >= 1 by { assert mode * l <= m; }
    var ds := FitDigits(next, i + 1, p);
    assert FitDigits(m, i, p) == [mode] + ds;
    FitTextCons(mode, ds, i);
    var d, u, t := NatToString(mode), FIT_UNITS[i], FitText(ds, i + 1);
    assert sb0 + d + u + t == sb0 + (d + u + t);
  }

  /** A turn of the loop that skips its place. */
  lemma FitLoopSkip(m: nat, i: nat, p: nat)
    requires i < p <= 5 && m < UNIT_LEN[i]
    ensures FitText(FitDigits(m, i + 1, p), i + 1) == FitText(FitDigits(m, i, p), i)
  {
    FitTextStep(m, i, p);
    assert m - (m / UNIT_LEN[i]) * UNIT_LEN[i] == m;
    assert FitText(FitDigits(m, i, p), i) == "" + FitText(FitDigits(m, i + 1, p), i + 1);
  }

  /** `millis2FitTimeSpan`: the source's greedy loop over the five places. */
  method Millis2FitTimeSpan(millis: int, precision: int) returns (r: Option<string>)
    ensures r == FitTimeSpan(millis, precision)
  {
    if millis < 0 || precision <= 0 {
      return None;
    }
    var p := Min(precision, 5);
    if millis == 0 {
      return Some("0" + FIT_UNITS[p - 1]);
    }
    var sb := "";
    var rest: nat := millis;
    for i := 0 to p
      invariant sb + FitText(FitDigits(rest, i, p), i) == FitText(FitDigits(millis, 0, p), 0)
    {
      var len := UNIT_LEN[i];
      if rest >= len {
        var mode := rest / len;
        var next := rest - mode * len;
        FitLoopTake(sb, rest, i, p, mode, next);
        rest := next;
        sb := sb + NatToString(mode) + FIT_UNITS[i];
      } else {
        FitLoopSkip(rest, i, p);
      }
    }
    assert FitText(FitDigits(rest, p, p), p) == "";
    assert sb + "" == sb;
    r := Some(sb);
  }

  /** `getFitTimeSpan(long, long, int)`: the fitted text of the distance between two instants. */
  method GetFitTimeSpan(millis0: int, millis1: int, precision: int) returns (r: Option<string>)
    ensures r == FitTimeSpan(Abs(millis0 - millis1), precision)
    ensures r.Some? <==> precision > 0
  {
    r := Millis2FitTimeSpan(Abs(millis0 - millis1), precision);
  }

  lemma FitTimeSpanSymmetric(millis0: int, millis1: int, precision: int)
    ensures FitTimeSpan(Abs(millis0 - millis1), precision) == FitTimeSpan(Abs(millis1 - millis0), precision)
  {
  }

  // ===========================================================================
  // "Today" and friendly spans
  // ===========================================================================

  /** The day start `isToday` and `getFriendlyTimeSpanByNow` compute: `(now / DAY) * DAY - 8 * HOUR`. */
  function WeeAsWritten(now: int): int {
    JDiv(now, DAY) * DAY - 8 * HOUR
  }

  /** The intended day start: the last midnight in UTC+8 (China Standard Time) at or before `now`. */
  function Wee(now: int): (w: int)
    ensures w <= now < w + DAY
    ensures (w + 8 * HOUR) % DAY == 0
  {
    ((now + 8 * HOUR) / DAY) * DAY - 8 * HOUR
  }

  /** `isToday(long)` as written. */
  predicate IsTodayAsWritten(millis: int, now: int) {
    millis >= WeeAsWritten(now) && millis < WeeAsWritten(now) + DAY
  }

  /** `isToday(long)` with the UTC+8 day start it intends. */
  predicate IsToday(millis: int, now: int) {
    millis >= Wee(now) && millis < Wee(now) + DAY
  }

  /** The "today" window is exactly one day long and holds the current instant. */
  lemma TodayWindow(now: int)
    ensures IsToday(now, now)
    ensures IsToday(Wee(now), now) && IsToday(Wee(now) + DAY - 1, now)
    ensures !IsToday(Wee(now) - 1, now) && !IsToday(Wee(now) + DAY, now)
    ensures forall m, m' :: IsToday(m, now) && IsToday(m', now) ==> Abs(m - m') < DAY
  {
  }

  /** From 16:00 UTC (00:00 in UTC+8) the written day start lags a day: the present is not "today". */
  lemma IsTodayAsWrittenMissesNow(now: int)
    requires now >= 0 && now % DAY >= 16 * HOUR
    ensures !IsTodayAsWritten(now, now)
    ensures IsToday(now, now)
  {
  }

  /** Before 16:00 UTC both day starts coincide. */
  lemma IsTodayAsWrittenAgreesBefore16Utc(millis: int, now: int)
    requires now >= 0 && now % DAY < 16 * HOUR
    ensures IsTodayAsWritten(millis, now) == IsToday(millis, now)
  {
    assert WeeAsWritten(now) == Wee(now);
  }

  /** 1970-01-02 00:00 in UTC+8: the written check says the present instant is not today. */
  lemma IsTodayCounterexample()
    ensures !IsTodayAsWritten(16 * HOUR, 16 * HOUR) && IsToday(16 * HOUR, 16 * HOUR)
  {
    IsTodayAsWrittenMissesNow(16 * HOUR);
  }

  /** The outcome of `getFriendlyTimeSpanByNow(long)`; the date-formatted ones keep the instant. */
  datatype Friendly =
    | FullDate(at: int)      // String.format("%tc", millis)
    | JustNow                // "刚刚"
    | SecondsAgo(n: nat)     // n + "秒前"
    | MinutesAgo(n: nat)     // n + "分钟前"
    | TodayAt(at: int)       // "今天" + %tR
    | YesterdayAt(at: int)   // "昨天" + %tR
    | DateOf(at: int)        // %tF

  /** `java.util.Formatter` renderings of an instant, which this model leaves abstract. */
  datatype DateFormats = DateFormats(tc: int -> string, tR: int -> string, tF: int -> string)

  /** The text the source returns for a classification. */
  function FriendlyText(f: Friendly, fmt: DateFormats): string {
    match f
    case FullDate(at) => fmt.tc(at)
    case JustNow => "刚刚"
    case SecondsAgo(n) => NatToString(n) + "秒前"
    case MinutesAgo(n) => NatToString(n) + "分钟前"
    case TodayAt(at) => "今天" + fmt.tR(at)
    case YesterdayAt(at) => "昨天" + fmt.tR(at)
    case DateOf(at) => fmt.tF(at)
  }

  /** The if-chain of `getFriendlyTimeSpanByNow`, given the day start it compares against. */
  function ClassifySpan(millis: int, now: int, wee: int): (f: Friendly)
    ensures f.FullDate? <==> now < millis
    ensures f.JustNow? <==> 0 <= now - millis < 1000
    ensures f.SecondsAgo? <==> 1000 <= now - millis < MIN
    ensures f.SecondsAgo? ==> 1 <= f.n < 60 && f.n * SEC <= now - millis < f.n * SEC + SEC
    ensures f.MinutesAgo? <==> MIN <= now - millis < HOUR
    ensures f.MinutesAgo? ==> 1 <= f.n < 60 && f.n * MIN <= now - millis < f.n * MIN + MIN
    ensures f.TodayAt? <==> now - millis >= HOUR && millis >= wee
    ensures f.YesterdayAt? <==> now - millis >= HOUR && wee - DAY <= millis < wee
    ensures f.DateOf? <==> now - millis >= HOUR && millis < wee - DAY
  {
    var span := now - millis;
    if span < 0 then FullDate(millis)
    else if span < 1000 then JustNow
    else if span < MIN then SecondsAgo(span / SEC)
    else if span < HOUR then MinutesAgo(span / MIN)
    else if millis >= wee then TodayAt(millis)
    else if millis >= wee - DAY then YesterdayAt(millis)
    else DateOf(millis)
  }

  /** `getFriendlyTimeSpanByNow(long)` as written. */
  function FriendlyAsWritten(millis: int, now: int): Friendly {
    ClassifySpan(millis, now, WeeAsWritten(now))
  }

  /** `getFriendlyTimeSpanByNow(long)` with the UTC+8 day start it intends. */
  function FriendlyTimeSpanByNow(millis: int, now: int): Friendly {
    ClassifySpan(millis, now, Wee(now))
  }

  /** Past the first hour, "today" and "yesterday" agree with the one-day window of `IsToday`. */
  lemma FriendlyAgreesWithIsToday(millis: int, now: int)
    requires now - millis >= HOUR
    ensures FriendlyTimeSpanByNow(millis, now).TodayAt? <==> IsToday(millis, now)
    ensures FriendlyTimeSpanByNow(millis, now).YesterdayAt? <==> IsToday(millis + DAY, now)
  {
  }

  /**
   * 02:00 on 1970-01-02 in UTC+8, asking about 23:00 the evening before: the
   * written code says "today", the intended day start says "yesterday".
   */
  lemma FriendlyCounterexample()
    ensures FriendlyAsWritten(15 * HOUR, 18 * HOUR) == TodayAt(15 * HOUR)
    ensures FriendlyTimeSpanByNow(15 * HOUR, 18 * HOUR) == YesterdayAt(15 * HOUR)
  {
  }
}

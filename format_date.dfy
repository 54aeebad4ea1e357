/**
 * Date display (`src/utils/formatDate.ts`): the Korean relative-age label of a post
 * ("오늘", "어제", "3일 전", "2주 전", "5개월 전", "1년 전") and the catch-fallback of the
 * absolute formatter. Instants are millisecond timestamps; the date library's parser and
 * formatter are parameters.
 */
module FormatDate {
  import opened Wrappers
  import opened Text

  /** 1000 * 60 * 60 * 24. */
  const MsPerDay := 86400000

  /** The pattern `formatDate` uses when the caller gives none. */
  const DefaultFormat := "yyyy년 MM월 dd일"

  /** `Math.floor(diffInMs / MsPerDay)`: whole days elapsed, rounded towards minus infinity. */
  function DayDifference(diffInMs: int): (days: int)
    ensures days * MsPerDay <= diffInMs < (days + 1) * MsPerDay
    ensures diffInMs >= 0 <==> days >= 0
  {
    diffInMs / MsPerDay
  }

  /** The buckets of the relative label, with the number each one shows. */
  datatype RelativeTime =
    | Today
    | Yesterday
    | DaysAgo(days: int)
    | WeeksAgo(weeks: int)
    | MonthsAgo(months: int)
    | YearsAgo(years: int)

  /** The chain of conditional returns, on a day difference. */
  function Bucket(d: int): (r: RelativeTime)
    ensures r == Today <==> d == 0
    ensures r == Yesterday <==> d == 1
    ensures r.DaysAgo? <==> d < 7 && d != 0 && d != 1
    ensures r.DaysAgo? ==> r.days == d
    ensures r.WeeksAgo? <==> 7 <= d < 30
    ensures r.WeeksAgo? ==> 1 <= r.weeks <= 4 && 7 * r.weeks <= d < 7 * (r.weeks + 1)
    ensures r.MonthsAgo? <==> 30 <= d < 365
    ensures r.MonthsAgo? ==> 1 <= r.months <= 12 && 30 * r.months <= d < 30 * (r.months + 1)
    ensures r.YearsAgo? <==> 365 <= d
    ensures r.YearsAgo? ==> 1 <= r.years && 365 * r.years <= d < 365 * (r.years + 1)
  {
    if d == 0 then Today
    else if d == 1 then Yesterday
    else if d < 7 then DaysAgo(d)
    else if d < 30 then WeeksAgo(d / 7)
    else if d < 365 then MonthsAgo(d / 30)
    else YearsAgo(d / 365)
  }

  /** The Korean label of a bucket. */
  function Render(r: RelativeTime): string {
    match r
    case Today => "오늘"
    case Yesterday => "어제"
    case DaysAgo(n) => IntToString(n) + "일 전"
    case WeeksAgo(n) => IntToString(n) + "주 전"
    case MonthsAgo(n) => IntToString(n) + "개월 전"
    case YearsAgo(n) => IntToString(n) + "년 전"
  }

  /** The label shown when the date does not parse: every comparison with NaN is false. */
  const InvalidDateLabel := "NaN년 전"

  /**
   * `getRelativeTime(dateString)` on the difference `now - date` in milliseconds; `None`
   * stands for an unparseable date, whose difference is NaN.
   */
  function GetRelativeTime(diffInMs: Option<int>): (text: string)
    ensures diffInMs.None? ==> text == InvalidDateLabel
    ensures diffInMs.Some? ==> text == Render(Bucket(DayDifference(diffInMs.value)))
    ensures diffInMs.Some? ==> ParseRelativeTime(text) == Some(Bucket(DayDifference(diffInMs.value)))
  {
    match diffInMs
    case None => InvalidDateLabel
    case Some(ms) =>
      var r := Bucket(DayDifference(ms));
      RenderRoundTrip(r);
      Render(r)
  }

  // ---------------------------------------------------------------- reading a label back

  function WithUnit(s: string, unit: string, make: int -> RelativeTime): Option<RelativeTime>
    requires EndsWith(s, unit)
  {
    match ParseInt(s[..|s| - |unit|])
    case Some(n) => Some(make(n))
    case None => None
  }

  /** Reads a label back into its bucket. */
  function ParseRelativeTime(s: string): Option<RelativeTime> {
    if s == "오늘" then Some(Today)
    else if s == "어제" then Some(Yesterday)
    else if EndsWith(s, "개월 전") then WithUnit(s, "개월 전", n => MonthsAgo(n))
    else if EndsWith(s, "일 전") then WithUnit(s, "일 전", n => DaysAgo(n))
    else if EndsWith(s, "주 전") then WithUnit(s, "주 전", n => WeeksAgo(n))
    else if EndsWith(s, "년 전") then WithUnit(s, "년 전", n => YearsAgo(n))
    else None
  }

  lemma NumberWithUnit(n: int, unit: string)
    ensures EndsWith(IntToString(n) + unit, unit)
    ensures ParseInt((IntToString(n) + unit)[..|IntToString(n) + unit| - |unit|]) == Some(n)
  {
    var s := IntToString(n) + unit;
    assert s[|s| - |unit|..] == unit;
    assert s[..|s| - |unit|] == IntToString(n);
    IntToStringRoundTrip(n);
  }

  lemma DaysRoundTrip(n: int)
    ensures ParseRelativeTime(IntToString(n) + "일 전") == Some(DaysAgo(n))
  {
    var s := IntToString(n) + "일 전";
    NumberWithUnit(n, "일 전");
    assert s != "오늘" && s != "어제" by { assert |s| >= 4; }
    assert !EndsWith(s, "개월 전") by { assert s[|s| - 3] == '일'; }
  }

  lemma WeeksRoundTrip(n: int)
    ensures ParseRelativeTime(IntToString(n) + "주 전") == Some(WeeksAgo(n))
  {
    var s := IntToString(n) + "주 전";
    NumberWithUnit(n, "주 전");
    assert s != "오늘" && s != "어제" by { assert |s| >= 4; }
    assert !EndsWith(s, "개월 전") && !EndsWith(s, "일 전") by { assert s[|s| - 3] == '주'; }
  }

  lemma MonthsRoundTrip(n: int)
    ensures ParseRelativeTime(IntToString(n) + "개월 전") == Some(MonthsAgo(n))
  {
    var s := IntToString(n) + "개월 전";
    NumberWithUnit(n, "개월 전");
    assert s != "오늘" && s != "어제" by { assert |s| >= 5; }
  }

  lemma YearsRoundTrip(n: int)
    ensures ParseRelativeTime(IntToString(n) + "년 전") == Some(YearsAgo(n))
  {
    var s := IntToString(n) + "년 전";
    NumberWithUnit(n, "년 전");
    assert s != "오늘" && s != "어제" by { assert |s| >= 4; }
    assert !EndsWith(s, "개월 전") && !EndsWith(s, "일 전") && !EndsWith(s, "주 전") by {
      assert s[|s| - 3] == '년';
    }
  }

  /** Every label names exactly one bucket: reading it back gives the bucket again. */
  lemma RenderRoundTrip(r: RelativeTime)
    ensures ParseRelativeTime(Render(r)) == Some(r)
  {
    match r {
      case Today =>
      case Yesterday =>
      case DaysAgo(n) => DaysRoundTrip(n);
      case WeeksAgo(n) => WeeksRoundTrip(n);
      case MonthsAgo(n) => MonthsRoundTrip(n);
      case YearsAgo(n) => YearsRoundTrip(n);
    }
  }

  /** The rank of a bucket, youngest first; a date in the future ranks below "today". */
  function Age(r: RelativeTime): int {
    match r
    case Today => 0
    case Yesterday => 1
    case DaysAgo(n) => if n < 0 then -1 else 2
    case WeeksAgo(_) => 3
    case MonthsAgo(_) => 4
    case YearsAgo(_) => 5
  }

  /** The number a label shows. */
  function Shown(r: RelativeTime): int {
    match r
    case Today => 0
    case Yesterday => 1
    case DaysAgo(n) => n
    case WeeksAgo(n) => n
    case MonthsAgo(n) => n
    case YearsAgo(n) => n
  }

  /**
   * A larger day difference never shows a younger label: the bucket's rank does not drop,
   * and within one bucket the number shown does not drop.
   */
  lemma BucketMonotone(d1: int, d2: int)
    requires d1 <= d2
    ensures Age(Bucket(d1)) <= Age(Bucket(d2))
    ensures Age(Bucket(d1)) == Age(Bucket(d2)) ==> Shown(Bucket(d1)) <= Shown(Bucket(d2))
  {
  }

  // ---------------------------------------------------------------- absolute dates

  /**
   * `formatDate(dateString, formatStr = DefaultFormat)`: the library's parse and format
   * steps are parameters; `None` from either stands for the error they raise, and then
   * the input string itself is shown.
   */
  function FormatDate(dateString: string, parse: string -> Option<int>, format: (int, string) -> Option<string>,
                      formatStr: string := DefaultFormat): (shown: string)
    ensures parse(dateString).None? ==> shown == dateString
    ensures parse(dateString).Some? && format(parse(dateString).value, formatStr).None? ==> shown == dateString
    ensures parse(dateString).Some? && format(parse(dateString).value, formatStr).Some? ==>
      shown == format(parse(dateString).value, formatStr).value
  {
    match parse(dateString)
    case None => dateString
    case Some(instant) => format(instant, formatStr).GetOr(dateString)
  }
}

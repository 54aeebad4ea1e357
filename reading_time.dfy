/**
 * Reading-time estimate and its Korean rendering (`src/utils/readingTime.ts`), and the
 * whitespace split that both copies of the estimate use.
 */
module ReadingTime {
  import opened Wrappers
  import opened Text

  const DefaultWordsPerMinute := 200

  predicate NoSpace(s: string) {
    forall k :: 0 <= k < |s| ==> !IsSpace(s[k])
  }

  /** Number of maximal runs of whitespace in `s`: positions where a run begins. */
  function SpaceRuns(s: string): nat {
    if s == [] then 0
    else
      var init := s[..|s| - 1];
      var starts := IsSpace(s[|s| - 1]) && (init == [] || !IsSpace(init[|init| - 1]));
      SpaceRuns(init) + if starts then 1 else 0
  }

  /** The characters of `s` that are not whitespace, in order. */
  function NonSpace(s: string): string {
    if s == [] then []
    else NonSpace(s[..|s| - 1]) + if IsSpace(s[|s| - 1]) then [] else [s[|s| - 1]]
  }

  function Concat(pieces: seq<string>): string {
    if pieces == [] then [] else Concat(pieces[..|pieces| - 1]) + pieces[|pieces| - 1]
  }

  /** A new empty piece after a whitespace run leaves the text the pieces hold unchanged. */
  lemma {:induction false} SplitSpaceStep(pieces: seq<string>)
    requires forall k :: 0 <= k < |pieces| ==> NoSpace(pieces[k])
    ensures forall k :: 0 <= k < |pieces + [""]| ==> NoSpace((pieces + [""])[k])
    ensures Concat(pieces + [""]) == Concat(pieces)
  {
    assert (pieces + [""])[..|pieces|] == pieces;
  }

  /** A non-space character extends the last piece and the text the pieces hold. */
  lemma {:induction false} SplitCharStep(pieces: seq<string>, c: char)
    requires pieces != [] && !IsSpace(c)
    requires forall k :: 0 <= k < |pieces| ==> NoSpace(pieces[k])
    ensures var r := pieces[..|pieces| - 1] + [pieces[|pieces| - 1] + [c]];
      && |r| == |pieces|
      && (forall k :: 0 <= k < |r| ==> NoSpace(r[k]))
      && Concat(r) == Concat(pieces) + [c]
      && r[|r| - 1] != []
  {
    var init := pieces[..|pieces| - 1];
    var r := init + [pieces[|pieces| - 1] + [c]];
    assert r[..|init|] == init;
    assert forall k :: 0 <= k < |init| ==> r[k] == pieces[k];
  }

  /**
   * `s.split(/\s+/)`: the pieces between the maximal whitespace runs, empty pieces at
   * the ends included, so there is always one piece more than there are runs.
   */
  function SplitOnWhitespace(s: string): (pieces: seq<string>)
    ensures |pieces| == SpaceRuns(s) + 1
    ensures forall k :: 0 <= k < |pieces| ==> NoSpace(pieces[k])
    ensures Concat(pieces) == NonSpace(s)
    ensures s != [] && IsSpace(s[|s| - 1]) ==> pieces[|pieces| - 1] == []
  {
    if s == [] then [""]
    else
      var init, c := s[..|s| - 1], s[|s| - 1];
      var p := SplitOnWhitespace(init);
      if IsSpace(c) then
        if init != [] && IsSpace(init[|init| - 1]) then p
        else
          SplitSpaceStep(p);
          p + [""]
      else
        SplitCharStep(p, c);
        p[..|p| - 1] + [p[|p| - 1] + [c]]
  }

  /** The number of words the estimate uses: the length of the split. */
  function WordCount(content: string): (n: nat)
    ensures n == SpaceRuns(content) + 1
  {
    |SplitOnWhitespace(content)|
  }

  /** `Math.ceil(a / b)` for a positive divisor. */
  function CeilDiv(a: int, b: int): (q: int)
    requires b > 0
    ensures (q - 1) * b < a <= q * b
  {
    -((-a) / b)
  }

  /** `calculateReadingTime(content, wordsPerMinute)`: minutes needed at the given speed. */
  function CalculateReadingTime(content: string, wordsPerMinute: int := DefaultWordsPerMinute): (minutes: int)
    requires wordsPerMinute >= 1
    ensures minutes >= 1
    ensures (minutes - 1) * wordsPerMinute < WordCount(content) <= minutes * wordsPerMinute
  {
    CeilDiv(WordCount(content), wordsPerMinute)
  }

  /** More words never take less time. */
  lemma CeilDivMonotone(a: int, b: int, wpm: int)
    requires wpm >= 1 && a <= b
    ensures CeilDiv(a, wpm) <= CeilDiv(b, wpm)
  {
  }

  /** The text for `hours` whole hours and `rest` further minutes. */
  function HoursText(hours: int, rest: int): string {
    if rest == 0 then IntToString(hours) + "시간"
    else IntToString(hours) + "시간 " + IntToString(rest) + "분"
  }

  /**
   * `formatReadingTime(minutes)`: "{m}분" under an hour; from an hour on, the whole
   * hours and the remaining minutes, the minutes left out when there are none.
   */
  function FormatReadingTime(minutes: int): (s: string)
    ensures minutes < 60 ==> s == IntToString(minutes) + "분"
    ensures minutes >= 60 ==> exists h: int, r: int ::
      h >= 1 && 0 <= r <= 59 && h * 60 + r == minutes && s == HoursText(h, r)
  {
    if minutes < 60 then IntToString(minutes) + "분"
    else
      var hours := minutes / 60;
      var remainingMinutes := minutes % 60;
      assert hours >= 1 && hours * 60 + remainingMinutes == minutes;
      HoursText(hours, remainingMinutes)
  }

  /** Reads a rendered reading time back into minutes. */
  function ParseReadingTime(s: string): Option<int> {
    if EndsWith(s, "시간") then
      match ParseInt(s[..|s| - 2])
      case Some(h) => Some(h * 60)
      case None => None
    else if EndsWith(s, "분") && '시' !in s then ParseInt(s[..|s| - 1])
    else ParseHoursMinutes(s)
  }

  /** Reads "{h}시간 {r}분". */
  function ParseHoursMinutes(s: string): Option<int> {
    var k := IndexOf(s, '시');
    if k + 3 <= |s| - 1 && s[k..k + 3] == "시간 " && EndsWith(s, "분") then
      match (ParseInt(s[..k]), ParseInt(s[k + 3..|s| - 1]))
      case (Some(h), Some(r)) => Some(h * 60 + r)
      case _ => None
    else None
  }

  /** The rendering loses nothing: every minute count is recovered from its text. */
  lemma FormatReadingTimeRoundTrip(minutes: int)
    ensures ParseReadingTime(FormatReadingTime(minutes)) == Some(minutes)
  {
    if minutes < 60 {
      MinutesRoundTrip(minutes);
    } else if minutes % 60 == 0 {
      HoursRoundTrip(minutes / 60);
    } else {
      HoursMinutesRoundTrip(minutes / 60, minutes % 60);
    }
  }

  lemma MinutesRoundTrip(minutes: int)
    ensures ParseReadingTime(IntToString(minutes) + "분") == Some(minutes)
  {
    var n := IntToString(minutes);
    var s := n + "분";
    IntToStringRoundTrip(minutes);
    assert s[..|s| - 1] == n;
    assert !EndsWith(s, "시간") by {
      assert s[|s| - 2] == n[|n| - 1];
    }
    assert '시' !in s by {
      forall k | 0 <= k < |s| ensures s[k] != '시' {
        if k < |n| { assert s[k] == n[k]; }
      }
    }
  }

  lemma HoursRoundTrip(h: int)
    ensures ParseReadingTime(IntToString(h) + "시간") == Some(h * 60)
  {
    var hs := IntToString(h);
    var s := hs + "시간";
    IntToStringRoundTrip(h);
    assert s[..|s| - 2] == hs;
  }

  lemma HoursMinutesShape(hs: string, rs: string)
    requires forall j :: 0 <= j < |hs| ==> hs[j] != '시'
    ensures var s := hs + "시간 " + rs + "분";
      && IndexOf(s, '시') == |hs|
      && s[..|hs|] == hs
      && s[|hs|..|hs| + 3] == "시간 "
      && s[|hs| + 3..|s| - 1] == rs
      && EndsWith(s, "분") && !EndsWith(s, "시간")
  {
    var s := hs + "시간 " + rs + "분";
    assert s[|hs|] == '시';
    assert forall j :: 0 <= j < |hs| ==> s[j] == hs[j];
    assert s[|s| - 1] == '분';
  }

  lemma ParseHoursMinutesOf(hs: string, rs: string, h: int, r: int)
    requires forall j :: 0 <= j < |hs| ==> hs[j] != '시'
    requires ParseInt(hs) == Some(h) && ParseInt(rs) == Some(r)
    ensures ParseHoursMinutes(hs + "시간 " + rs + "분") == Some(h * 60 + r)
  {
    HoursMinutesShape(hs, rs);
    var s := hs + "시간 " + rs + "분";
    var k := IndexOf(s, '시');
    assert k == |hs| && k + 3 <= |s| - 1;
    assert ParseInt(s[..k]) == Some(h) && ParseInt(s[k + 3..|s| - 1]) == Some(r);
  }

  lemma HoursMinutesRoundTrip(h: int, r: int)
    requires 1 <= r <= 59
    ensures ParseReadingTime(IntToString(h) + "시간 " + IntToString(r) + "분") == Some(h * 60 + r)
  {
    var hs, rs := IntToString(h), IntToString(r);
    IntToStringRoundTrip(h);
    IntToStringRoundTrip(r);
    ParseHoursMinutesOf(hs, rs, h, r);
    HoursMinutesShape(hs, rs);
    var s := hs + "시간 " + rs + "분";
    assert s[|hs|] == '시';
  }
}

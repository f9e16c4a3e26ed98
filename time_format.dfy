/**
 * Times of day as the views show them: the `formatTime` helper that every view repeats,
 * the hour-row labels of the week and day views, the hour an event starts in, and the
 * `HH:00` time that a view's add button proposes.
 */
module TimeFormat {
  import opened Wrappers
  import opened Text

  /** The 12-hour clock number of hour `h`: 0 shows as 12, 13..23 as 1..11. */
  function ClockHour(h: int): int {
    if h == 0 then 12 else if h > 12 then h - 12 else h
  }

  function Meridiem(h: int): string {
    if h >= 12 then "PM" else "AM"
  }

  /**
   * `formatTime(time)`: the hour before the first `:` through `Number.parseInt`, then the
   * minutes text exactly as written. A missing minutes piece prints as `undefined`; an hour
   * that does not parse (NaN) prints as `NaN` with `AM`, since NaN is not `>= 12`.
   */
  function FormatTime(time: string): string {
    var pieces := Split(time, ':');
    var minutes := if |pieces| > 1 then pieces[1] else "undefined";
    match ParseInt(pieces[0])
    case None => "NaN:" + minutes + " AM"
    case Some(h) => IntToString(ClockHour(h)) + ":" + minutes + " " + Meridiem(h)
  }

  /** A time written `HH:MM`: two digits, a colon, then minutes text without a colon. */
  predicate WellFormedTime(hh: string, mm: string) {
    |hh| == 2 && AllDigits(hh) && ':' !in mm
  }

  /**
   * On a well-formed time, hour 0 is 12 AM, 1..11 are AM, 12 is 12 PM and 13..23 are
   * `h - 12` PM; the minutes are copied unchanged.
   */
  lemma FormatTimeClock(hh: string, mm: string)
    requires WellFormedTime(hh, mm)
    ensures DigitsValue(hh) == 0 ==> FormatTime(hh + ":" + mm) == "12:" + mm + " AM"
    ensures 0 < DigitsValue(hh) < 12 ==>
              FormatTime(hh + ":" + mm) == IntToString(DigitsValue(hh)) + ":" + mm + " AM"
    ensures DigitsValue(hh) == 12 ==> FormatTime(hh + ":" + mm) == "12:" + mm + " PM"
    ensures DigitsValue(hh) > 12 ==>
              FormatTime(hh + ":" + mm) == IntToString(DigitsValue(hh) - 12) + ":" + mm + " PM"
  {
    FormatTimeParts(hh, mm);
    ClockCases(DigitsValue(hh), mm);
  }

  lemma ClockCases(h: int, mm: string)
    ensures h == 0 ==> IntToString(ClockHour(h)) + ":" + mm + " " + Meridiem(h) == "12:" + mm + " AM"
    ensures 0 < h < 12 ==> IntToString(ClockHour(h)) + ":" + mm + " " + Meridiem(h) == IntToString(h) + ":" + mm + " AM"
    ensures h == 12 ==> IntToString(ClockHour(h)) + ":" + mm + " " + Meridiem(h) == "12:" + mm + " PM"
    ensures h > 12 ==> IntToString(ClockHour(h)) + ":" + mm + " " + Meridiem(h) == IntToString(h - 12) + ":" + mm + " PM"
  {
    if h == 0 || h == 12 {
      TwelveText();
    }
  }

  lemma TwelveText()
    ensures IntToString(12) == "12"
  {
    assert NatToString(12) == NatToString(1) + [DigitChar(2)];
    assert NatToString(1) == "1";
    assert DigitChar(2) == '2';
  }

  lemma FormatTimeParts(hh: string, mm: string)
    requires WellFormedTime(hh, mm)
    ensures FormatTime(hh + ":" + mm)
            == IntToString(ClockHour(DigitsValue(hh))) + ":" + mm + " " + Meridiem(DigitsValue(hh))
  {
    SplitHourMinutes(hh, mm);
    ParseIntDigits(hh);
  }

  lemma SplitHourMinutes(hh: string, mm: string)
    requires ':' !in hh && ':' !in mm
    ensures Split(hh + ":" + mm, ':') == [hh, mm]
  {
    SplitAt(hh, ':', mm);
    SplitNone(mm, ':');
  }

  /** The hour shown on a 12-hour clock is always 1..12 for the hours of a day. */
  lemma ClockHourRange(h: int)
    requires 0 <= h < 24
    ensures 1 <= ClockHour(h) <= 12
  {
  }

  /** The hour of the day that an `HH:MM` start time falls in: `Number.parseInt` of the piece before the colon. */
  function StartHour(startTime: string): Option<int> {
    ParseInt(Split(startTime, ':')[0])
  }

  /** The label of hour row `i`: the 12-hour number padded to two digits, then AM or PM. */
  function HourLabel(i: int): string {
    Pad2(ClockHour(i)) + " " + (if i < 12 then "AM" else "PM")
  }

  /** The time an hour row's add button proposes: `HH:00`. */
  function SlotTime(h: int): string {
    Pad2(h) + ":00"
  }

  /** An event whose start time comes from hour `h`'s add button starts in hour `h`. */
  lemma SlotTimeStartHour(h: int)
    requires 0 <= h < 24
    ensures |SlotTime(h)| == 5
    ensures StartHour(SlotTime(h)) == Some(h)
  {
    Pad2Exact(h);
    StartHourOfDigits(Pad2(h));
  }

  lemma StartHourOfDigits(p: string)
    requires p != [] && AllDigits(p)
    ensures StartHour(p + ":00") == Some(DigitsValue(p))
  {
    assert ':' !in p by {
      assert forall k :: 0 <= k < |p| ==> IsDigit(p[k]);
    }
    SplitHourMinutes(p, "00");
    assert p + ":00" == p + ":" + "00";
    ParseIntDigits(p);
  }

  /** The 24 labels are pairwise different (they are the rows' React keys). */
  lemma HourLabelsDistinct(i: int, j: int)
    requires 0 <= i < 24 && 0 <= j < 24 && i != j
    ensures HourLabel(i) != HourLabel(j)
  {
    var a, b := ClockHour(i), ClockHour(j);
    var s, t := (if i < 12 then "AM" else "PM"), (if j < 12 then "AM" else "PM");
    Pad2Exact(a);
    Pad2Exact(b);
    LabelParts(Pad2(a), s, Pad2(b), t);
    if Pad2(a) == Pad2(b) {
      assert a == b;
    }
  }

  /** Labels made of a two-character number, a space and a suffix agree only when both parts do. */
  lemma LabelParts(p: string, s: string, q: string, t: string)
    requires |p| == 2 && |q| == 2
    ensures p + " " + s == q + " " + t ==> p == q && s == t
  {
    if p + " " + s == q + " " + t {
      assert (p + " " + s)[..2] == p;
      assert (q + " " + t)[..2] == q;
      assert (p + " " + s)[3..] == s;
      assert (q + " " + t)[3..] == t;
    }
  }
}

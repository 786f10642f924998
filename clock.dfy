/**
 * Times of day as the questionnaire handles them: strings written by the time picker as
 * `%02d:%02d`, read back with `LocalTime.parse(_, "HH:mm")`, and compared as minutes of the day.
 */
module Clock {
  import opened Wrappers
  import Text

  const MinutesPerDay: int := 1440

  predicate IsClockMinute(m: int) { 0 <= m < MinutesPerDay }

  /**
   * `LocalTime.parse(s, ofPattern("HH:mm"))` as minutes after midnight, or `None` where it throws:
   * exactly two digits, a colon and two digits, minutes below 60 and hours below 24; the default
   * (smart) resolver also reads `24:00` as midnight.
   */
  function ParseTime(s: string): (r: Option<int>)
    ensures r.Some? ==> IsClockMinute(r.value)
    ensures r.Some? ==> |s| == 5 && s[2] == ':'
  {
    if |s| == 5 && s[2] == ':' && Text.IsDigit(s[0]) && Text.IsDigit(s[1]) && Text.IsDigit(s[3]) && Text.IsDigit(s[4]) then
      var h := 10 * Text.DigitValue(s[0]) + Text.DigitValue(s[1]);
      var m := 10 * Text.DigitValue(s[3]) + Text.DigitValue(s[4]);
      if m >= 60 then None
      else if h < 24 then Some(60 * h + m)
      else if h == 24 && m == 0 then Some(0)
      else None
    else None
  }

  /** `%02d` for a number below 100. */
  function TwoDigits(n: int): (r: string)
    requires 0 <= n < 100
    ensures |r| == 2 && Text.IsDigit(r[0]) && Text.IsDigit(r[1])
    ensures 10 * Text.DigitValue(r[0]) + Text.DigitValue(r[1]) == n
  {
    [('0' as int + n / 10) as char, ('0' as int + n % 10) as char]
  }

  /** The time picker's `String.format("%02d:%02d", hour, minute)`. */
  function FormatTime(t: int): (r: string)
    requires IsClockMinute(t)
    ensures |r| == 5 && r[2] == ':'
  {
    TwoDigits(t / 60) + ":" + TwoDigits(t % 60)
  }

  /** Every time the picker writes is read back as the same minute. */
  lemma ParseFormattedTime(t: int)
    requires IsClockMinute(t)
    ensures ParseTime(FormatTime(t)) == Some(t)
  {
    var s := FormatTime(t);
    assert s[0..2] == TwoDigits(t / 60) && s[3..5] == TwoDigits(t % 60);
    assert s[0] == s[0..2][0] && s[1] == s[0..2][1] && s[3] == s[3..5][0] && s[4] == s[3..5][1];
  }

  /** Every accepted string except the alias `24:00` is exactly what the picker writes for its minute. */
  lemma FormatParsedTime(s: string)
    requires ParseTime(s).Some? && s != "24:00"
    ensures FormatTime(ParseTime(s).value) == s
  {
    var h := 10 * Text.DigitValue(s[0]) + Text.DigitValue(s[1]);
    var m := 10 * Text.DigitValue(s[3]) + Text.DigitValue(s[4]);
    var t := 60 * h + m;
    assert ParseTime(s) == Some(t);
    assert t / 60 == h && t % 60 == m;
    var r := FormatTime(t);
    assert r[0..2] == TwoDigits(h) && r[3..5] == TwoDigits(m);
    assert r[0] == r[0..2][0] && r[1] == r[0..2][1] && r[3] == r[3..5][0] && r[4] == r[3..5][1];
    assert r[0] == s[0] && r[1] == s[1] && r[3] == s[3] && r[4] == s[4];
    assert r == s;
  }

  /** The smart resolver reads `24:00` as the same midnight as `00:00`. */
  lemma MidnightAlias()
    ensures ParseTime("24:00") == ParseTime("00:00") == Some(0)
  {
  }

  /** `LocalTime.minusHours`: the clock turned back, wrapping past midnight. */
  function MinusHours(t: int, hours: int): (r: int)
    requires IsClockMinute(t)
    ensures IsClockMinute(r)
    ensures t >= 60 * hours >= 0 ==> r == t - 60 * hours
    ensures 0 <= hours <= 24 && t < 60 * hours ==> r == t - 60 * hours + MinutesPerDay
  {
    (t - 60 * hours) % MinutesPerDay
  }

  /** The minutes that pass going forward on the clock from `from` until `to` next shows. */
  function Gap(from: int, to: int): (r: int)
    requires IsClockMinute(from) && IsClockMinute(to)
    ensures IsClockMinute(r)
    ensures r == 0 <==> from == to
    ensures from <= to ==> r == to - from
    ensures to < from ==> r == to - from + MinutesPerDay
  {
    (to - from) % MinutesPerDay
  }

  /** The clock `k` minutes after `t`. */
  function Advance(t: int, k: int): (r: int)
    requires IsClockMinute(t) && k >= 0
    ensures IsClockMinute(r)
  {
    (t + k) % MinutesPerDay
  }

  /** `to` is not reached within `d` minutes of `from` exactly when the gap between them exceeds `d`. */
  lemma GapExceeds(from: int, to: int, d: int)
    requires IsClockMinute(from) && IsClockMinute(to) && 0 <= d < MinutesPerDay
    ensures Gap(from, to) > d <==> forall k | 0 <= k <= d :: Advance(from, k) != to
  {
    var g := Gap(from, to);
    assert Advance(from, g) == to;
    forall k | 0 <= k <= d && Advance(from, k) == to
      ensures g <= d
    {
      if from + k < MinutesPerDay {
        assert to == from + k;
      } else {
        assert to == from + k - MinutesPerDay;
      }
    }
  }
}

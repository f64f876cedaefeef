/**
 * A point's time as `pd.to_datetime` yields it for the API's
 * `YYYY-MM-DDTHH:MM:SS.sssZ` strings (UTC), the `.dt.minute == 0` filter,
 * and the `strftime('%Y-%m-%d %H:%M')` label used as a table row key.
 */
module Timestamps {
  import opened Wrappers
  import opened Ordering
  import opened Text

  datatype Timestamp = Timestamp(year: nat, month: nat, day: nat, hour: nat, minute: nat, second: nat, millis: nat)

  predicate IsLeapYear(y: nat)
  {
    y % 4 == 0 && (y % 100 != 0 || y % 400 == 0)
  }

  function DaysInMonth(y: nat, m: nat): nat
  {
    if m == 2 then (if IsLeapYear(y) then 29 else 28)
    else if m == 4 || m == 6 || m == 9 || m == 11 then 30
    else 31
  }

  /** A calendar date and a time of day that the parser accepts. */
  predicate Valid(t: Timestamp)
  {
    && 1 <= t.year <= 9999 && 1 <= t.month <= 12 && 1 <= t.day <= DaysInMonth(t.year, t.month)
    && t.hour < 24 && t.minute < 60 && t.second < 60 && t.millis < 1000
  }

  /** The chronological sort key (how pandas orders datetimes). */
  function Instant(t: Timestamp): seq<int>
  {
    [t.year, t.month, t.day, t.hour, t.minute, t.second, t.millis]
  }

  /** `.dt.minute == 0`: seconds and milliseconds are not looked at. */
  predicate OnTheHour(t: Timestamp)
  {
    t.minute == 0
  }

  /** `n` in decimal on exactly `width` digits, zero-padded (the high digits of a too-large `n` are cut). */
  function Pad(n: nat, width: nat): (r: string)
    ensures |r| == width
    ensures forall i :: 0 <= i < |r| ==> IsDigit(r[i])
  {
    if width == 0 then [] else Pad(n / 10, width - 1) + [DigitChar(n % 10)]
  }

  /** `strftime('%Y-%m-%d %H:%M')` */
  function Label(t: Timestamp): string
  {
    Pad(t.year, 4) + "-" + (Pad(t.month, 2) + "-" + (Pad(t.day, 2) + " " + (Pad(t.hour, 2) + ":" + Pad(t.minute, 2))))
  }

  function Pow10(w: nat): (r: nat)
    ensures r >= 1
  {
    if w == 0 then 1 else 10 * Pow10(w - 1)
  }

  /** Two numbers that fit in `width` digits have the same padding only if they are equal. */
  lemma {:induction false} PadInjective(a: nat, b: nat, width: nat)
    requires a < Pow10(width) && b < Pow10(width)
    requires Pad(a, width) == Pad(b, width)
    ensures a == b
  {
    if width > 0 {
      var pa := Pad(a, width);
      assert pa[..width - 1] == Pad(a / 10, width - 1);
      assert Pad(b, width)[..width - 1] == Pad(b / 10, width - 1);
      assert DigitChar(a % 10) == pa[width - 1] == DigitChar(b % 10);
      assert a / 10 < Pow10(width - 1);
      assert b / 10 < Pow10(width - 1);
      PadInjective(a / 10, b / 10, width - 1);
    }
  }

  /** The label is 16 characters: the five fields at fixed places between fixed separators. */
  lemma LabelFields(t: Timestamp)
    ensures |Label(t)| == 16
    ensures Label(t)[..4] == Pad(t.year, 4) && Label(t)[5..7] == Pad(t.month, 2) && Label(t)[8..10] == Pad(t.day, 2)
    ensures Label(t)[11..13] == Pad(t.hour, 2) && Label(t)[14..16] == Pad(t.minute, 2)
    ensures Label(t)[4] == '-' && Label(t)[7] == '-' && Label(t)[10] == ' ' && Label(t)[13] == ':'
  {
  }

  /**
   * Two valid timestamps get the same label exactly when they fall in the
   * same minute: seconds and milliseconds are dropped, nothing else is lost.
   */
  lemma LabelSameMinute(t: Timestamp, u: Timestamp)
    requires Valid(t) && Valid(u)
    ensures Label(t) == Label(u) <==>
      t.year == u.year && t.month == u.month && t.day == u.day && t.hour == u.hour && t.minute == u.minute
  {
    if Label(t) == Label(u) {
      LabelFields(t);
      LabelFields(u);
      assert Pow10(4) == 10000 && Pow10(2) == 100;
      PadInjective(t.year, u.year, 4);
      PadInjective(t.month, u.month, 2);
      PadInjective(t.day, u.day, 2);
      PadInjective(t.hour, u.hour, 2);
      PadInjective(t.minute, u.minute, 2);
    }
  }
}

/** Time-of-day arithmetic and formatting (src/utils/time.ts). */
module Time {
  import opened Wrappers
  import opened LocalClock

  /** A wall-clock time. The type itself does not bound its fields; the
      editor keeps them in 0..23 and 0..59 (see `ValidTime`), but values
      loaded from storage are not range-checked. */
  datatype TimeOfDay = TimeOfDay(hour: int, minute: int)

  predicate ValidTime(t: TimeOfDay) {
    0 <= t.hour <= 23 && 0 <= t.minute <= 59
  }

  /** Milliseconds after midnight at which `t` falls. */
  function OffsetMs(t: TimeOfDay): (r: int)
    ensures ValidTime(t) ==> 0 <= r < MS_PER_DAY
  {
    t.hour * MS_PER_HOUR + t.minute * MS_PER_MINUTE
  }

  // ---------------------------------------------------------------------
  // Decimal digits and `String(n)` for whole numbers

  predicate IsDigit(c: char) { '0' <= c <= '9' }

  function DigitChar(d: int): (c: char)
    requires 0 <= d <= 9
    ensures IsDigit(c)
  {
    ('0' as int + d) as char
  }

  function DigitValue(c: char): (d: int)
    requires IsDigit(c)
    ensures 0 <= d <= 9 && DigitChar(d) == c
  {
    c as int - '0' as int
  }

  /** Decimal notation of a natural number, without leading zeros. */
  function NatToString(n: nat): (s: string)
    ensures 1 <= |s|
    ensures forall i :: 0 <= i < |s| ==> IsDigit(s[i])
    ensures n < 10 <==> |s| == 1
  {
    if n < 10 then [DigitChar(n)] else NatToString(n / 10) + [DigitChar(n % 10)]
  }

  /** The number a run of decimal digits spells, most significant first. */
  function DecimalValue(s: string): (v: nat)
    requires forall i :: 0 <= i < |s| ==> IsDigit(s[i])
  {
    if |s| == 0 then 0 else 10 * DecimalValue(s[..|s| - 1]) + DigitValue(s[|s| - 1])
  }

  /** The digits of `String(n)` spell `n`. */
  lemma {:induction false} NatToStringValue(n: nat)
    ensures DecimalValue(NatToString(n)) == n
  {
    if n >= 10 {
      var s := NatToString(n);
      assert s[..|s| - 1] == NatToString(n / 10);
      NatToStringValue(n / 10);
    }
  }

  /** `String(n)` for an integer `n`: a minus sign for a negative `n`,
      then the digits of its magnitude. */
  function IntToString(n: int): (s: string)
    ensures 1 <= |s|
    ensures n < 0 <==> s[0] == '-'
    ensures n >= 0 ==> (forall i :: 0 <= i < |s| ==> IsDigit(s[i])) && DecimalValue(s) == n
    ensures n < 0 ==> (forall i :: 1 <= i < |s| ==> IsDigit(s[i])) && DecimalValue(s[1..]) == -n
  {
    if n < 0 then
      NatToStringValue(-n);
      assert ("-" + NatToString(-n))[1..] == NatToString(-n);
      "-" + NatToString(-n)
    else
      NatToStringValue(n);
      NatToString(n)
  }

  /** Numbers below 100 are written with one or two digits. */
  lemma SmallDecimal(n: int)
    ensures 0 <= n < 10 ==> NatToString(n) == [DigitChar(n)]
    ensures 10 <= n < 100 ==> NatToString(n) == [DigitChar(n / 10), DigitChar(n % 10)]
  {
    if 10 <= n < 100 {
      assert NatToString(n / 10) == [DigitChar(n / 10)];
    }
  }

  /** `String(n).padStart(2, '0')`: for 0..99, the two decimal digits of `n`. */
  function Pad2(n: int): (s: string)
    ensures 0 <= n <= 99 ==> s == [DigitChar(n / 10), DigitChar(n % 10)]
    ensures 0 <= n <= 99 ==> (s[0] == '0' <==> n < 10)
  {
    SmallDecimal(n);
    var digits := IntToString(n);
    if |digits| < 2 then "0" + digits else digits
  }

  /** `formatTimeOfDay24`: `HH:MM`. */
  function FormatTimeOfDay24(t: TimeOfDay): (s: string)
    ensures ValidTime(t) ==> |s| == 5 && s[2] == ':'
  {
    Pad2(t.hour) + ":" + Pad2(t.minute)
  }

  // ---------------------------------------------------------------------
  // 12-hour and 24-hour clock display of an instant

  /** The hour shown on a 12-hour clock face for a 24-hour `h24`. */
  function Hour12(h24: int): (h12: int)
    requires 0 <= h24 <= 23
    ensures 1 <= h12 <= 12 && h12 % 12 == h24 % 12
  {
    (h24 + 11) % 12 + 1
  }

  /** The half of the day: "AM" before noon, "PM" from noon on. */
  function Meridiem(h24: int): (m: string)
    ensures m == "AM" || m == "PM"
    ensures m == "AM" <==> h24 < 12
  {
    if h24 >= 12 then "PM" else "AM"
  }

  /** `formatTime12h`: `h:MM:SS AM` with an unpadded hour. */
  function FormatTime12h(t: int): (s: string)
    ensures |s| >= 3 && s[|s| - 3..] == " " + Meridiem(Hours(t))
  {
    var h24 := Hours(t);
    var face := IntToString(Hour12(h24)) + ":" + Pad2(Minutes(t)) + ":" + Pad2(Seconds(t));
    var suffix := " " + Meridiem(h24);
    assert (face + suffix)[|face + suffix| - 3..] == suffix;
    face + suffix
  }

  /** `formatTime24h`: `HH:MM:SS`. */
  function FormatTime24h(t: int): (s: string)
    ensures |s| == 8 && s[2] == ':' && s[5] == ':'
  {
    Pad2(Hours(t)) + ":" + Pad2(Minutes(t)) + ":" + Pad2(Seconds(t))
  }

  /** The 12-hour face shows 1..12, midnight as 12 AM, noon as 12 PM, and
      keeps the hour modulo 12; it is AM exactly before noon. */
  lemma TwelveHourClock(h24: int)
    requires 0 <= h24 <= 23
    ensures 1 <= Hour12(h24) <= 12
    ensures Hour12(h24) % 12 == h24 % 12
    ensures h24 == 0 ==> Hour12(h24) == 12 && Meridiem(h24) == "AM"
    ensures h24 == 12 ==> Hour12(h24) == 12 && Meridiem(h24) == "PM"
    ensures Meridiem(h24) == "AM" <==> h24 < 12
    ensures h24 == (if Meridiem(h24) == "AM" then 0 else 12) + Hour12(h24) % 12
  {
  }

  // ---------------------------------------------------------------------
  // Parsing `HH:MM`

  datatype ParseError = InvalidTime

  /** The pattern `^([01]\d|2[0-3]):([0-5]\d)$`. */
  predicate IsHHMM(s: string)
    ensures IsHHMM(s) ==> |s| == 5 && s[2] == ':'
    ensures IsHHMM(s) ==>
              IsDigit(s[0]) && IsDigit(s[1]) && IsDigit(s[3]) && IsDigit(s[4])
              && 0 <= DigitValue(s[0]) * 10 + DigitValue(s[1]) <= 23
              && 0 <= DigitValue(s[3]) * 10 + DigitValue(s[4]) <= 59
  {
    && |s| == 5
    && ((('0' <= s[0] <= '1') && IsDigit(s[1])) || (s[0] == '2' && '0' <= s[1] <= '3'))
    && s[2] == ':'
    && '0' <= s[3] <= '5'
    && IsDigit(s[4])
  }

  /** Two decimal digits `a`, `b` read as the number `10a + b`. */
  lemma TwoDigitValue(a: int, b: int)
    requires 0 <= a <= 9 && 0 <= b <= 9
    ensures (a * 10 + b) / 10 == a && (a * 10 + b) % 10 == b
  {
  }

  /** `parseHHMM`: a failed match throws, modelled as `Err(InvalidTime)`.
      Whatever it accepts is a valid time whose canonical text is the
      input itself. */
  function ParseHHMM(s: string): (r: Result<TimeOfDay, ParseError>)
    ensures r.Ok? ==> ValidTime(r.value) && FormatTimeOfDay24(r.value) == s
    ensures r.Err? ==> r == Err(InvalidTime)
  {
    if IsHHMM(s) then
      var h1, h2, m1, m2 := DigitValue(s[0]), DigitValue(s[1]), DigitValue(s[3]), DigitValue(s[4]);
      TwoDigitValue(h1, h2);
      TwoDigitValue(m1, m2);
      var t := TimeOfDay(h1 * 10 + h2, m1 * 10 + m2);
      assert FormatTimeOfDay24(t) == [s[0], s[1], ':', s[3], s[4]];
      assert s == [s[0], s[1], ':', s[3], s[4]];
      Ok(t)
    else
      Err(InvalidTime)
  }

  /** Every valid time formats to text that parses back to it. */
  lemma ParseFormatRoundTrip(t: TimeOfDay)
    requires ValidTime(t)
    ensures ParseHHMM(FormatTimeOfDay24(t)) == Ok(t)
  {
    var s := FormatTimeOfDay24(t);
    assert s == [DigitChar(t.hour / 10), DigitChar(t.hour % 10), ':', DigitChar(t.minute / 10), DigitChar(t.minute % 10)];
    var h1, h2, m1, m2 := t.hour / 10, t.hour % 10, t.minute / 10, t.minute % 10;
    assert 0 <= h1 <= 2 && (h1 == 2 ==> h2 <= 3) && 0 <= m1 <= 5;
    assert IsHHMM(s);
    assert DigitValue(s[0]) == h1 && DigitValue(s[1]) == h2;
    assert DigitValue(s[3]) == m1 && DigitValue(s[4]) == m2;
  }

  /** Hence `parseHHMM` accepts exactly the canonical texts of valid times. */
  lemma ParseAcceptsExactlyCanonical(s: string)
    ensures ParseHHMM(s).Ok? <==> exists t :: ValidTime(t) && FormatTimeOfDay24(t) == s
  {
    if exists t :: ValidTime(t) && FormatTimeOfDay24(t) == s {
      var t :| ValidTime(t) && FormatTimeOfDay24(t) == s;
      ParseFormatRoundTrip(t);
    }
  }

  // ---------------------------------------------------------------------
  // Next occurrence of a time of day

  /** `nextOccurrence`: today's instance of `tod`, with seconds and
      milliseconds zeroed, when that is strictly after `now`, else the one
      a day later. */
  function NextOccurrence(now: int, tod: TimeOfDay): (r: int)
    ensures r % MS_PER_MINUTE == 0
  {
    var candidate := SetHours(now, tod.hour, tod.minute);
    var minutes := DayIndex(now) * 1440 + tod.hour * 60 + tod.minute;
    assert candidate == minutes * MS_PER_MINUTE;
    assert AddDays(candidate, 1) == (minutes + 1440) * MS_PER_MINUTE;
    if candidate <= now then AddDays(candidate, 1) else candidate
  }

  /** For a valid time, `nextOccurrence` is the first instant strictly
      after `now` that shows `tod` on the clock: at most a day ahead,
      today when `tod` is still to come today, else tomorrow. */
  lemma NextOccurrenceIsNext(now: int, tod: TimeOfDay)
    requires ValidTime(tod)
    ensures now < NextOccurrence(now, tod) <= now + MS_PER_DAY
    ensures MsOfDay(NextOccurrence(now, tod)) == OffsetMs(tod)
    ensures DayIndex(NextOccurrence(now, tod))
         == if MsOfDay(now) < OffsetMs(tod) then DayIndex(now) else DayIndex(now) + 1
    ensures forall s :: now < s < NextOccurrence(now, tod) ==> MsOfDay(s) != OffsetMs(tod)
  {
    var d, off := DayIndex(now), OffsetMs(tod);
    var start := StartOfDay(now);
    var c := SetHours(now, tod.hour, tod.minute);
    assert c == start + off;
    InDay(c, d);
    if c <= now {
      AddDaysShift(c, 1);
      forall s | now < s < c + MS_PER_DAY
        ensures MsOfDay(s) != off
      {
        if s < start + MS_PER_DAY {
          InDay(s, d);
        } else {
          InDay(s, d + 1);
        }
      }
    } else {
      forall s | now < s < c
        ensures MsOfDay(s) != off
      {
        InDay(s, d);
      }
    }
  }
}

/** The part of the JavaScript `Date` API the alarm clock uses, on a
    fixed-offset local timeline: an instant is a whole number of
    milliseconds, a local day is exactly `MS_PER_DAY` long and there is
    no daylight-saving shift. */
module LocalClock {

  const MS_PER_SECOND: int := 1000
  const MS_PER_MINUTE: int := 60000
  const MS_PER_HOUR: int := 3600000
  const MS_PER_DAY: int := 86400000

  /** Local day 0 (1 January 1970) is a Thursday; `getDay` numbers the
      weekdays 0 = Sunday .. 6 = Saturday. */
  const EPOCH_WEEKDAY: int := 4

  function Max(a: int, b: int): int { if a < b then b else a }

  /** Number of the local day that contains `t`. */
  function DayIndex(t: int): int { t / MS_PER_DAY }

  /** Milliseconds since local midnight. */
  function MsOfDay(t: int): (r: int)
    ensures 0 <= r < MS_PER_DAY
  {
    t % MS_PER_DAY
  }

  /** Local midnight of the day that contains `t`. */
  function StartOfDay(t: int): (r: int)
    ensures r <= t < r + MS_PER_DAY
    ensures t == r + MsOfDay(t)
  {
    DayIndex(t) * MS_PER_DAY
  }

  /** `Date.getDay()`. */
  function Weekday(t: int): (w: int)
    ensures 0 <= w < 7
  {
    (DayIndex(t) + EPOCH_WEEKDAY) % 7
  }

  /** `Date.getHours()`, `getMinutes()`, `getSeconds()`. */
  function Hours(t: int): (h: int)
    ensures 0 <= h < 24
  {
    MsOfDay(t) / MS_PER_HOUR
  }

  function Minutes(t: int): (m: int)
    ensures 0 <= m < 60
  {
    MsOfDay(t) / MS_PER_MINUTE % 60
  }

  function Seconds(t: int): (s: int)
    ensures 0 <= s < 60
  {
    MsOfDay(t) / MS_PER_SECOND % 60
  }

  /** `setHours(h, m, 0, 0)`: the instant `h` hours and `m` minutes after
      local midnight of the day of `t`. Like the `Date` API, an hour or
      minute out of range rolls over into neighbouring days. */
  function SetHours(t: int, h: int, m: int): int {
    StartOfDay(t) + h * MS_PER_HOUR + m * MS_PER_MINUTE
  }

  /** `setDate(getDate() + n)`: the same local time `n` days later. */
  function AddDays(t: int, n: int): int {
    t + n * MS_PER_DAY
  }

  /** An instant pins down its day and its time of day. */
  lemma InDay(t: int, d: int)
    requires d * MS_PER_DAY <= t < d * MS_PER_DAY + MS_PER_DAY
    ensures DayIndex(t) == d
    ensures MsOfDay(t) == t - d * MS_PER_DAY
  {
    assert t == DayIndex(t) * MS_PER_DAY + MsOfDay(t);
  }

  /** `setHours(h, m, 0, 0)` lands on a minute boundary; with an hour
      and minute in range it stays on the same day, exactly `h:m` after
      midnight. */
  lemma SetHoursInDay(t: int, h: int, m: int)
    ensures SetHours(t, h, m) % MS_PER_MINUTE == 0
    ensures 0 <= h <= 23 && 0 <= m <= 59 ==>
              DayIndex(SetHours(t, h, m)) == DayIndex(t)
              && MsOfDay(SetHours(t, h, m)) == h * MS_PER_HOUR + m * MS_PER_MINUTE
  {
    var r := SetHours(t, h, m);
    assert r == (DayIndex(t) * 1440 + h * 60 + m) * MS_PER_MINUTE;
    if 0 <= h <= 23 && 0 <= m <= 59 {
      InDay(r, DayIndex(t));
    }
  }

  /** Moving by whole days keeps the time of day and advances the day. */
  lemma AddDaysShift(t: int, n: int)
    ensures DayIndex(AddDays(t, n)) == DayIndex(t) + n
    ensures MsOfDay(AddDays(t, n)) == MsOfDay(t)
  {
    var d := DayIndex(t) + n;
    assert AddDays(t, n) == d * MS_PER_DAY + MsOfDay(t);
    InDay(AddDays(t, n), d);
  }

  /** Two instants with the same time of day are a whole number of days apart. */
  lemma SameTimeOfDay(s: int, t: int)
    requires MsOfDay(s) == MsOfDay(t)
    ensures s == AddDays(t, DayIndex(s) - DayIndex(t))
  {
    assert s == StartOfDay(s) + MsOfDay(s);
    assert t == StartOfDay(t) + MsOfDay(t);
  }
}

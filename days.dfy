/** Weekday keys of instants and the short day-list text
    (src/utils/days.ts). */
module Days {
  import opened Wrappers
  import opened LocalClock
  import opened Alarms

  /** `DAY_KEYS`: the keys in Monday-first display order. */
  const DAY_KEYS: seq<DayKey> := [Mon, Tue, Wed, Thu, Fri, Sat, Sun]

  /** `DAY_KEYS` lists every key exactly once. */
  lemma DayKeysListEachKeyOnce()
    ensures |DAY_KEYS| == 7
    ensures forall k :: k in DAY_KEYS
    ensures forall i, j :: 0 <= i < j < |DAY_KEYS| ==> DAY_KEYS[i] != DAY_KEYS[j]
  {
    forall k ensures k in DAY_KEYS {
      match k
      case Mon => assert DAY_KEYS[0] == k;
      case Tue => assert DAY_KEYS[1] == k;
      case Wed => assert DAY_KEYS[2] == k;
      case Thu => assert DAY_KEYS[3] == k;
      case Fri => assert DAY_KEYS[4] == k;
      case Sat => assert DAY_KEYS[5] == k;
      case Sun => assert DAY_KEYS[6] == k;
    }
  }

  /** The `getDay` number of a key: 0 = Sunday .. 6 = Saturday. */
  function WeekdayNumber(k: DayKey): (w: int)
    ensures 0 <= w < 7
  {
    match k
    case Sun => 0
    case Mon => 1
    case Tue => 2
    case Wed => 3
    case Thu => 4
    case Fri => 5
    case Sat => 6
  }

  /** The `switch` of `dayKeyForDate`, including its `'mon'` default for a
      number outside 0..6. On 0..6 it inverts `WeekdayNumber`. */
  function DayKeyForWeekday(w: int): (k: DayKey)
    ensures 0 <= w < 7 ==> WeekdayNumber(k) == w
    ensures !(0 <= w < 7) ==> k == Mon
  {
    if w == 0 then Sun
    else if w == 1 then Mon
    else if w == 2 then Tue
    else if w == 3 then Wed
    else if w == 4 then Thu
    else if w == 5 then Fri
    else if w == 6 then Sat
    else Mon
  }

  /** Each key is produced by exactly one weekday number. */
  lemma DayKeyForWeekdayBijective(k: DayKey, w: int)
    requires 0 <= w < 7
    ensures DayKeyForWeekday(w) == k <==> w == WeekdayNumber(k)
  {
  }

  /** `dayKeyForDate`: the key of the local weekday of `t`. */
  function DayKeyForDate(t: int): (k: DayKey)
    ensures WeekdayNumber(k) == Weekday(t)
  {
    DayKeyForWeekday(Weekday(t))
  }

  /** The day `n` days after `t` is `n` weekdays further round the week. */
  lemma DayKeyAfterDays(t: int, n: int)
    ensures WeekdayNumber(DayKeyForDate(AddDays(t, n))) == (WeekdayNumber(DayKeyForDate(t)) + n) % 7
  {
    AddDaysShift(t, n);
  }

  /** Any seven consecutive days show every key: from `t`, key `k` is
      reached after some `i` in 0..6 days. */
  lemma WeekCoversEveryKey(t: int, k: DayKey) returns (i: int)
    ensures 0 <= i < 7
    ensures DayKeyForDate(AddDays(t, i)) == k
  {
    i := (WeekdayNumber(k) - Weekday(t)) % 7;
    DayKeyAfterDays(t, i);
    DayKeyForWeekdayBijective(k, Weekday(AddDays(t, i)));
  }

  // ---------------------------------------------------------------------
  // formatDaysShort

  /** Shown when no day is selected. */
  const NO_DAYS: string := "\U{2014}"

  function ShortName(k: DayKey): string {
    match k
    case Mon => "Mon"
    case Tue => "Tue"
    case Wed => "Wed"
    case Thu => "Thu"
    case Fri => "Fri"
    case Sat => "Sat"
    case Sun => "Sun"
  }

  /** The short names of the keys of `keys` that `d` selects, in the order of `keys`. */
  function SelectedNames(keys: seq<DayKey>, d: DaysOfWeek): (names: seq<string>)
    ensures |names| <= |keys|
  {
    if keys == [] then []
    else
      var last := keys[|keys| - 1];
      SelectedNames(keys[..|keys| - 1], d) + (if d.Has(last) then [ShortName(last)] else [])
  }

  /** `parts.join(sep)`. */
  function Join(parts: seq<string>, sep: string): string {
    if |parts| == 0 then ""
    else if |parts| == 1 then parts[0]
    else parts[0] + sep + Join(parts[1..], sep)
  }

  /** A joined text starts with the first part and ends with the last;
      with more than one part, the separator follows the first. */
  lemma {:induction false} JoinEnds(parts: seq<string>, sep: string)
    requires |parts| > 0
    ensures parts[0] <= Join(parts, sep)
    ensures |parts| > 1 ==> parts[0] + sep <= Join(parts, sep)
    ensures var s, last := Join(parts, sep), parts[|parts| - 1];
            |last| <= |s| && s[|s| - |last|..] == last
  {
    if |parts| > 1 {
      JoinEnds(parts[1..], sep);
      var s, last, rest := Join(parts, sep), parts[|parts| - 1], Join(parts[1..], sep);
      assert s == parts[0] + sep + rest;
      assert parts[1..][|parts| - 2] == last;
      assert s[|s| - |last|..] == rest[|rest| - |last|..];
    }
  }

  /** The name of `k` if `selected`, else nothing. */
  function NameIf(selected: bool, k: DayKey): seq<string> {
    if selected then [ShortName(k)] else []
  }

  /** The selected names, spelled out one day at a time. */
  lemma SelectedNamesByDay(d: DaysOfWeek)
    ensures SelectedNames(DAY_KEYS, d)
         == NameIf(d.mon, Mon) + NameIf(d.tue, Tue) + NameIf(d.wed, Wed) + NameIf(d.thu, Thu)
          + NameIf(d.fri, Fri) + NameIf(d.sat, Sat) + NameIf(d.sun, Sun)
  {
    var p6: seq<DayKey> := [Mon, Tue, Wed, Thu, Fri, Sat];
    var p5: seq<DayKey> := [Mon, Tue, Wed, Thu, Fri];
    var p4: seq<DayKey> := [Mon, Tue, Wed, Thu];
    var p3: seq<DayKey> := [Mon, Tue, Wed];
    var p2: seq<DayKey> := [Mon, Tue];
    var p1: seq<DayKey> := [Mon];
    assert DAY_KEYS[..6] == p6 && p6[..5] == p5 && p5[..4] == p4;
    assert p4[..3] == p3 && p3[..2] == p2 && p2[..1] == p1 && p1[..0] == [];
    assert SelectedNames(p1, d) == NameIf(d.mon, Mon);
    assert SelectedNames(p2, d) == SelectedNames(p1, d) + NameIf(d.tue, Tue);
    assert SelectedNames(p3, d) == SelectedNames(p2, d) + NameIf(d.wed, Wed);
    assert SelectedNames(p4, d) == SelectedNames(p3, d) + NameIf(d.thu, Thu);
    assert SelectedNames(p5, d) == SelectedNames(p4, d) + NameIf(d.fri, Fri);
    assert SelectedNames(p6, d) == SelectedNames(p5, d) + NameIf(d.sat, Sat);
    assert SelectedNames(DAY_KEYS, d) == SelectedNames(p6, d) + NameIf(d.sun, Sun);
  }

  /** The names `d` selects, Monday first: no name at all exactly when no
      day is selected. */
  lemma SelectedNamesEmptyIffNoDay(d: DaysOfWeek)
    ensures |SelectedNames(DAY_KEYS, d)| == 0 <==> !IsAnyDaySelected(d)
  {
    SelectedNamesByDay(d);
  }

  /** `formatDaysShort`: a dash for a missing day-set or one with no day,
      otherwise the selected day names, Monday first, separated by single
      spaces. */
  method FormatDaysShort(days: Option<DaysOfWeek>) returns (s: string)
    ensures days.None? ==> s == NO_DAYS
    ensures days.Some? && !IsAnyDaySelected(days.value) ==> s == NO_DAYS
    ensures days.Some? && IsAnyDaySelected(days.value) ==> s == Join(SelectedNames(DAY_KEYS, days.value), " ")
  {
    if days.None? {
      return NO_DAYS;
    }
    var d := days.value;
    var parts: seq<string> := [];
    if d.mon { parts := parts + [ShortName(Mon)]; }
    ghost var spelled := NameIf(d.mon, Mon);
    assert parts == spelled;
    if d.tue { parts := parts + [ShortName(Tue)]; }
    spelled := spelled + NameIf(d.tue, Tue);
    assert parts == spelled;
    if d.wed { parts := parts + [ShortName(Wed)]; }
    spelled := spelled + NameIf(d.wed, Wed);
    assert parts == spelled;
    if d.thu { parts := parts + [ShortName(Thu)]; }
    spelled := spelled + NameIf(d.thu, Thu);
    assert parts == spelled;
    if d.fri { parts := parts + [ShortName(Fri)]; }
    spelled := spelled + NameIf(d.fri, Fri);
    assert parts == spelled;
    if d.sat { parts := parts + [ShortName(Sat)]; }
    spelled := spelled + NameIf(d.sat, Sat);
    assert parts == spelled;
    if d.sun { parts := parts + [ShortName(Sun)]; }
    spelled := spelled + NameIf(d.sun, Sun);
    assert parts == spelled;
    SelectedNamesByDay(d);
    SelectedNamesEmptyIffNoDay(d);
    s := if |parts| > 0 then Join(parts, " ") else NO_DAYS;
  }
}

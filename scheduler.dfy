/** Choosing which alarm rings next and keeping one timer armed for it
    (src/hooks/useMultiAlarmScheduler.ts). */
module MultiAlarmScheduler {
  import opened Wrappers
  import opened LocalClock
  import opened Time
  import opened Alarms
  import opened Days

  /** The alarm chosen to ring next and the instant it is due. */
  datatype DueAlarm = DueAlarm(alarmId: string, dueAtMs: int)

  // ---------------------------------------------------------------------
  // nextOccurrenceOnSelectedDay

  /** One step of the search: a day later, then `setHours` to the alarm's
      time. */
  function NextDayAt(c: int, tod: TimeOfDay): int {
    SetHours(AddDays(c, 1), tod.hour, tod.minute)
  }

  /** For a valid time, a search step lands on the next day at that time;
      from an instant already showing the time, that is exactly one day
      later. */
  lemma NextDayAtIsNextDay(c: int, tod: TimeOfDay)
    requires ValidTime(tod)
    ensures DayIndex(NextDayAt(c, tod)) == DayIndex(c) + 1
    ensures MsOfDay(NextDayAt(c, tod)) == OffsetMs(tod)
    ensures MsOfDay(c) == OffsetMs(tod) ==> NextDayAt(c, tod) == AddDays(c, 1)
  {
    AddDaysShift(c, 1);
    SetHoursInDay(AddDays(c, 1), tod.hour, tod.minute);
    assert AddDays(c, 1) == StartOfDay(AddDays(c, 1)) + MsOfDay(c);
  }

  /** The search loop from candidate `c` with `steps` iterations left: the
      first candidate whose weekday is selected. */
  function SearchSelectedDay(c: int, cfg: AlarmConfig, steps: nat): (r: Option<int>)
    ensures r.Some? ==> cfg.days.Has(DayKeyForDate(r.value))
    decreases steps
  {
    if steps == 0 then None
    else if cfg.days.Has(DayKeyForDate(c)) then Some(c)
    else SearchSelectedDay(NextDayAt(c, cfg.time), cfg, steps - 1)
  }

  /** What `nextOccurrenceOnSelectedDay` returns: `None` when no day is
      selected, else the first of seven daily candidates from the next
      occurrence of the alarm's time that falls on a selected day. */
  function ScheduledDue(now: int, cfg: AlarmConfig): (r: Option<int>)
    ensures r.Some? ==> IsAnyDaySelected(cfg.days) && cfg.days.Has(DayKeyForDate(r.value))
  {
    if !IsAnyDaySelected(cfg.days) then None
    else SearchSelectedDay(NextOccurrence(now, cfg.time), cfg, 7)
  }

  /** `nextOccurrenceOnSelectedDay`, with its seven-step loop. */
  method NextOccurrenceOnSelectedDay(now: int, a: Alarm) returns (r: Option<int>)
    ensures r == ScheduledDue(now, a.config)
  {
    if !IsAnyDaySelected(a.config.days) {
      return None;
    }
    var candidate := NextOccurrence(now, a.config.time);
    ghost var start := candidate;
    for i := 0 to 7
      invariant SearchSelectedDay(candidate, a.config, 7 - i) == SearchSelectedDay(start, a.config, 7)
    {
      var key := DayKeyForDate(candidate);
      if a.config.days.Has(key) {
        return Some(candidate);
      }
      assert SearchSelectedDay(candidate, a.config, 7 - i)
          == SearchSelectedDay(NextDayAt(candidate, a.config.time), a.config, 7 - i - 1);
      candidate := NextDayAt(candidate, a.config.time);
    }
    return None;
  }

  /** For a valid time, the search from an instant showing that time visits
      that instant and the following days at the same time: it stops after
      `i` days on the first selected one, or gives up after `steps`. */
  lemma {:induction false} SearchVisitsDays(c: int, cfg: AlarmConfig, steps: nat) returns (i: nat)
    requires ValidTime(cfg.time) && MsOfDay(c) == OffsetMs(cfg.time)
    ensures i <= steps
    ensures forall j :: 0 <= j < i ==> !cfg.days.Has(DayKeyForDate(AddDays(c, j)))
    ensures i < steps ==> SearchSelectedDay(c, cfg, steps) == Some(AddDays(c, i))
    ensures i == steps ==> SearchSelectedDay(c, cfg, steps).None?
    decreases steps
  {
    if steps == 0 || cfg.days.Has(DayKeyForDate(c)) {
      i := 0;
    } else {
      var next := NextDayAt(c, cfg.time);
      NextDayAtIsNextDay(c, cfg.time);
      AddDaysShift(c, 1);
      var rest := SearchVisitsDays(next, cfg, steps - 1);
      i := rest + 1;
      forall j | 0 <= j < i
        ensures !cfg.days.Has(DayKeyForDate(AddDays(c, j)))
      {
        if j > 0 {
          assert AddDays(c, j) == AddDays(next, j - 1);
        }
      }
      assert AddDays(c, i) == AddDays(next, rest);
    }
  }

  /** For a valid time, the scheduled instant exists exactly when some day
      is selected; it is then strictly after `now`, at most a week ahead,
      shows the alarm's time, falls on a selected day, and no earlier
      instant after `now` does all that. */
  lemma ScheduledDueCharacterised(now: int, cfg: AlarmConfig)
    requires ValidTime(cfg.time)
    ensures ScheduledDue(now, cfg).None? <==> !IsAnyDaySelected(cfg.days)
    ensures ScheduledDue(now, cfg).Some? ==>
              var t := ScheduledDue(now, cfg).value;
              && now < t <= now + 7 * MS_PER_DAY
              && MsOfDay(t) == OffsetMs(cfg.time)
              && cfg.days.Has(DayKeyForDate(t))
              && forall s :: now < s < t && MsOfDay(s) == OffsetMs(cfg.time) ==> !cfg.days.Has(DayKeyForDate(s))
  {
    if IsAnyDaySelected(cfg.days) {
      var off := OffsetMs(cfg.time);
      var c0 := NextOccurrence(now, cfg.time);
      NextOccurrenceIsNext(now, cfg.time);
      var i := SearchVisitsDays(c0, cfg, 7);
      var k :| cfg.days.Has(k);
      var i0 := WeekCoversEveryKey(c0, k);
      assert i <= i0 < 7;
      var t := AddDays(c0, i);
      assert ScheduledDue(now, cfg) == Some(t);
      AddDaysShift(c0, i);
      forall s | now < s < t && MsOfDay(s) == off
        ensures !cfg.days.Has(DayKeyForDate(s))
      {
        SameTimeOfDay(s, c0);
        var j := DayIndex(s) - DayIndex(c0);
        assert c0 <= s;
        assert 0 <= j < i;
      }
    }
  }

  // ---------------------------------------------------------------------
  // computeNextDueAlarm

  /** The instant an alarm competes with: none when it is disabled or
      ringing; else its snooze instant when it has one, else its scheduled
      instant; an instant of 0 counts as none, since the source tests it
      for truthiness. */
  function CandidateDue(now: int, a: Alarm): (r: Option<int>)
    ensures r.Some? ==> a.config.enabled && a.runtime.status != Ringing && r.value != 0
    ensures r.Some? && a.runtime.snoozeUntilMs.Some? ==> r == a.runtime.snoozeUntilMs
    ensures r.Some? && a.runtime.snoozeUntilMs.None? ==> r == ScheduledDue(now, a.config)
    ensures (a.config.enabled && a.runtime.status != Ringing
             && a.runtime.snoozeUntilMs.Some? && a.runtime.snoozeUntilMs.value != 0)
            ==> r == a.runtime.snoozeUntilMs
    ensures (a.config.enabled && a.runtime.status != Ringing
             && a.runtime.snoozeUntilMs.None? && ScheduledDue(now, a.config) != Some(0))
            ==> r == ScheduledDue(now, a.config)
  {
    if !a.config.enabled || a.runtime.status == Ringing then None
    else
      var due := if a.runtime.snoozeUntilMs.Some? then a.runtime.snoozeUntilMs else ScheduledDue(now, a.config);
      if due.None? || due.value == 0 then None else due
  }

  /** Among the first `n` alarms, alarm `k` competes, no competitor is due
      earlier, and every competitor before it is due strictly later. */
  predicate FirstEarliestAmong(now: int, alarms: seq<Alarm>, k: int, n: int)
    requires 0 <= n <= |alarms|
  {
    && 0 <= k < n
    && CandidateDue(now, alarms[k]).Some?
    && (forall j :: 0 <= j < n && CandidateDue(now, alarms[j]).Some? ==>
          CandidateDue(now, alarms[k]).value <= CandidateDue(now, alarms[j]).value)
    && (forall j :: 0 <= j < k && CandidateDue(now, alarms[j]).Some? ==>
          CandidateDue(now, alarms[k]).value < CandidateDue(now, alarms[j]).value)
  }

  predicate IsFirstEarliest(now: int, alarms: seq<Alarm>, k: int) {
    FirstEarliestAmong(now, alarms, k, |alarms|)
  }

  /** `computeNextDueAlarm`: `None` exactly when no alarm competes, else the
      id and instant of the earliest competitor, the first one on a tie. */
  method ComputeNextDueAlarm(now: int, alarms: seq<Alarm>) returns (best: Option<DueAlarm>)
    ensures best.None? <==> forall k :: 0 <= k < |alarms| ==> CandidateDue(now, alarms[k]).None?
    ensures best.Some? ==> exists k :: IsFirstEarliest(now, alarms, k)
                                   && best.value == DueAlarm(alarms[k].config.id, CandidateDue(now, alarms[k]).value)
  {
    best := None;
    ghost var bestIdx := 0;
    var i := 0;
    while i < |alarms|
      invariant 0 <= i <= |alarms|
      invariant best.None? <==> forall k :: 0 <= k < i ==> CandidateDue(now, alarms[k]).None?
      invariant best.Some? ==>
                  && FirstEarliestAmong(now, alarms, bestIdx, i)
                  && best.value == DueAlarm(alarms[bestIdx].config.id, CandidateDue(now, alarms[bestIdx]).value)
    {
      var a := alarms[i];
      if !a.config.enabled || a.runtime.status == Ringing {
        i := i + 1;
        continue;
      }
      var dueAtMs: Option<int>;
      if a.runtime.snoozeUntilMs.Some? {
        dueAtMs := a.runtime.snoozeUntilMs;
      } else {
        dueAtMs := NextOccurrenceOnSelectedDay(now, a);
      }
      if dueAtMs.None? || dueAtMs.value == 0 {
        i := i + 1;
        continue;
      }
      if best.None? || dueAtMs.value < best.value.dueAtMs {
        best := Some(DueAlarm(a.config.id, dueAtMs.value));
        bestIdx := i;
      }
      i := i + 1;
    }
  }

  /** At most one alarm is the first earliest, so the choice is determined. */
  lemma FirstEarliestUnique(now: int, alarms: seq<Alarm>, k1: int, k2: int)
    requires IsFirstEarliest(now, alarms, k1) && IsFirstEarliest(now, alarms, k2)
    ensures k1 == k2
  {
  }

  // ---------------------------------------------------------------------
  // Worked cases

  /** An alarm set for every day, with no snooze, armed when enabled. */
  function SampleAlarm(id: string, enabled: bool, hour: int, minute: int): (a: Alarm)
    ensures a.config.days == EveryDay() && a.runtime.snoozeUntilMs.None?
    ensures a.config.enabled == enabled && a.config.time == TimeOfDay(hour, minute)
  {
    Alarm(
      AlarmConfig(id, id, enabled, TimeOfDay(hour, minute), EveryDay(), Beep, Seconds(30), 5),
      AlarmRuntime(if enabled then Armed else Idle, None))
  }

  /** An enabled every-day alarm without a snooze competes with the next
      occurrence of its time. */
  lemma EveryDayCandidate(now: int, a: Alarm)
    requires a.config.enabled && a.runtime.status != Ringing && a.runtime.snoozeUntilMs.None?
    requires a.config.days == EveryDay() && NextOccurrence(now, a.config.time) != 0
    ensures CandidateDue(now, a) == Some(NextOccurrence(now, a.config.time))
  {
    PresetsPartitionWeek();
  }

  /** 2026-02-20 08:00 local time: day 20504 since the epoch. */
  const FRIDAY_0800: int := 20504 * MS_PER_DAY + 8 * MS_PER_HOUR

  /** A disabled alarm never competes. */
  lemma DisabledAlarmNeverDue()
    ensures CandidateDue(FRIDAY_0800, SampleAlarm("a", false, 9, 0)).None?
  {
  }

  /** At 08:00, an alarm for 08:30 is chosen over one for 09:00. */
  lemma EarlierAlarmChosen()
    ensures IsFirstEarliest(FRIDAY_0800, [SampleAlarm("a", true, 9, 0), SampleAlarm("b", true, 8, 30)], 1)
  {
    var a, b := SampleAlarm("a", true, 9, 0), SampleAlarm("b", true, 8, 30);
    var alarms := [a, b];
    assert StartOfDay(FRIDAY_0800) == 20504 * MS_PER_DAY;
    EveryDayCandidate(FRIDAY_0800, a);
    EveryDayCandidate(FRIDAY_0800, b);
    assert CandidateDue(FRIDAY_0800, alarms[0]) == Some(FRIDAY_0800 + MS_PER_HOUR);
    assert CandidateDue(FRIDAY_0800, alarms[1]) == Some(FRIDAY_0800 + 30 * MS_PER_MINUTE);
  }

  /** A snooze instant takes precedence over the scheduled time. */
  lemma SnoozeTakesPrecedence()
    ensures var a := SampleAlarm("a", true, 9, 0);
            var snoozed := a.(runtime := a.runtime.(snoozeUntilMs := Some(FRIDAY_0800 + 2 * MS_PER_MINUTE)));
            IsFirstEarliest(FRIDAY_0800, [snoozed], 0)
            && CandidateDue(FRIDAY_0800, snoozed) == Some(FRIDAY_0800 + 2 * MS_PER_MINUTE)
  {
  }

  /** 2026-02-20 20:00 local time. */
  const FRIDAY_2000: int := 20504 * MS_PER_DAY + 20 * MS_PER_HOUR

  /** The loader keeps any number as the hour, and `nextOccurrence` only
      moves to the next day once: at 20:00 an hour of -5 is 19:00 the same
      day, an hour in the past, and that is the instant the alarm competes
      with. */
  lemma OutOfRangeHourDueInPast()
    ensures NextOccurrence(FRIDAY_2000, TimeOfDay(-5, 0)) == FRIDAY_2000 - MS_PER_HOUR
    ensures CandidateDue(FRIDAY_2000, SampleAlarm("a", true, -5, 0)) == Some(FRIDAY_2000 - MS_PER_HOUR)
  {
    assert StartOfDay(FRIDAY_2000) == 20504 * MS_PER_DAY;
    EveryDayCandidate(FRIDAY_2000, SampleAlarm("a", true, -5, 0));
  }

  // ---------------------------------------------------------------------
  // The timer effect

  /** A `setTimeout` waiting to ring `alarmId` after `delayMs`. */
  datatype PendingTimer = PendingTimer(alarmId: string, delayMs: int)

  /** The hook's timer reference: at most one pending timer, and the log of
      timers it has cleared. */
  class AlarmTimer {
    var pending: Option<PendingTimer>
    var cleared: seq<PendingTimer>

    constructor()
      ensures pending.None? && cleared == []
    {
      pending := None;
      cleared := [];
    }

    /** Clears the pending timer, if any. */
    method Clear()
      modifies this
      ensures pending.None?
      ensures cleared == old(cleared) + (if old(pending).Some? then [old(pending).value] else [])
    {
      if pending.Some? {
        cleared := cleared + [pending.value];
        pending := None;
      }
    }

    /** The effect body: clear the old timer, then arm one for `due`, if
        any, so that it fires at the due instant, or at once when the
        instant has passed. `clockMs` is the value of `Date.now()`. */
    method Rearm(due: Option<DueAlarm>, clockMs: int)
      modifies this
      ensures cleared == old(cleared) + (if old(pending).Some? then [old(pending).value] else [])
      ensures due.None? ==> pending.None?
      ensures due.Some? ==> pending == Some(PendingTimer(due.value.alarmId, Max(0, due.value.dueAtMs - clockMs)))
      ensures due.Some? ==> clockMs + pending.value.delayMs == Max(clockMs, due.value.dueAtMs)
      ensures pending.Some? ==> pending.value.delayMs >= 0
    {
      Clear();
      if due.None? {
        return;
      }
      pending := Some(PendingTimer(due.value.alarmId, Max(0, due.value.dueAtMs - clockMs)));
    }

    /** `useMultiAlarmScheduler` on one render: recompute the next due
        alarm and re-arm the timer for it. */
    method Schedule(now: int, alarms: seq<Alarm>, clockMs: int) returns (nextDue: Option<DueAlarm>)
      modifies this
      ensures nextDue.None? <==> forall k :: 0 <= k < |alarms| ==> CandidateDue(now, alarms[k]).None?
      ensures nextDue.Some? ==> exists k :: IsFirstEarliest(now, alarms, k)
                                         && nextDue.value == DueAlarm(alarms[k].config.id, CandidateDue(now, alarms[k]).value)
      ensures nextDue.None? ==> pending.None?
      ensures nextDue.Some? ==> pending == Some(PendingTimer(nextDue.value.alarmId, Max(0, nextDue.value.dueAtMs - clockMs)))
      ensures cleared == old(cleared) + (if old(pending).Some? then [old(pending).value] else [])
    {
      nextDue := ComputeNextDueAlarm(now, alarms);
      Rearm(nextDue, clockMs);
    }
  }
}

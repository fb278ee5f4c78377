/** The alarm data model: day-sets, configuration, runtime status and the
    alarm factory (src/state/alarms.ts, with the tone ids of
    src/services/toneCatalog.ts). */
module Alarms {
  import opened Wrappers
  import opened Time

  /** The keys of `DaysOfWeek`. */
  datatype DayKey = Mon | Tue | Wed | Thu | Fri | Sat | Sun

  predicate IsWeekendDay(k: DayKey) { k == Sat || k == Sun }

  /** Seven flags: on which weekdays the alarm may ring. */
  datatype DaysOfWeek = DaysOfWeek(mon: bool, tue: bool, wed: bool, thu: bool, fri: bool, sat: bool, sun: bool)
  {
    /** `days[key]`. */
    function Has(k: DayKey): bool {
      match k
      case Mon => mon
      case Tue => tue
      case Wed => wed
      case Thu => thu
      case Fri => fri
      case Sat => sat
      case Sun => sun
    }
  }

  /** Two day-sets with the same flags are the same day-set. */
  lemma DaysExtensional(d: DaysOfWeek, e: DaysOfWeek)
    requires forall k :: d.Has(k) == e.Has(k)
    ensures d == e
  {
    assert d.Has(Mon) == e.Has(Mon) && d.Has(Tue) == e.Has(Tue) && d.Has(Wed) == e.Has(Wed);
    assert d.Has(Thu) == e.Has(Thu) && d.Has(Fri) == e.Has(Fri);
    assert d.Has(Sat) == e.Has(Sat) && d.Has(Sun) == e.Has(Sun);
  }

  function EveryDay(): (d: DaysOfWeek)
    ensures forall k :: d.Has(k)
  {
    DaysOfWeek(true, true, true, true, true, true, true)
  }

  function Weekdays(): (d: DaysOfWeek)
    ensures forall k :: d.Has(k) <==> !IsWeekendDay(k)
  {
    DaysOfWeek(true, true, true, true, true, false, false)
  }

  function Weekend(): (d: DaysOfWeek)
    ensures forall k :: d.Has(k) <==> IsWeekendDay(k)
  {
    DaysOfWeek(false, false, false, false, false, true, true)
  }

  /** `isAnyDaySelected`: some flag is set. */
  function IsAnyDaySelected(d: DaysOfWeek): (r: bool)
    ensures r <==> exists k :: d.Has(k)
  {
    assert d.mon ==> d.Has(Mon);
    assert d.tue ==> d.Has(Tue);
    assert d.wed ==> d.Has(Wed);
    assert d.thu ==> d.Has(Thu);
    assert d.fri ==> d.Has(Fri);
    assert d.sat ==> d.Has(Sat);
    assert d.sun ==> d.Has(Sun);
    d.mon || d.tue || d.wed || d.thu || d.fri || d.sat || d.sun
  }

  /** Weekdays and weekend split the week: they are disjoint, their union
      is every day, and each preset selects some day. */
  lemma PresetsPartitionWeek()
    ensures forall k :: !(Weekdays().Has(k) && Weekend().Has(k))
    ensures forall k :: EveryDay().Has(k) <==> Weekdays().Has(k) || Weekend().Has(k)
    ensures IsAnyDaySelected(EveryDay()) && IsAnyDaySelected(Weekdays()) && IsAnyDaySelected(Weekend())
    ensures !IsAnyDaySelected(DaysOfWeek(false, false, false, false, false, false, false))
  {
    assert EveryDay().Has(Mon) && Weekdays().Has(Mon) && Weekend().Has(Sun);
  }

  /** The four tones of the catalogue. Stored data may name any other
      string, which the loader keeps unchecked (`Unlisted`). */
  datatype ToneId = Beep | Chime | Digital | Bell | Unlisted(name: string)

  function ToneName(t: ToneId): string {
    match t
    case Beep => "beep"
    case Chime => "chime"
    case Digital => "digital"
    case Bell => "bell"
    case Unlisted(name) => name
  }

  function ToneFromName(s: string): (t: ToneId)
    ensures ToneName(t) == s
  {
    if s == "beep" then Beep
    else if s == "chime" then Chime
    else if s == "digital" then Digital
    else if s == "bell" then Bell
    else Unlisted(s)
  }

  /** A tone whose name is not mistaken for a catalogue tone. */
  predicate WellFormedTone(t: ToneId) {
    t.Unlisted? ==> t.name !in {"beep", "chime", "digital", "bell"}
  }

  /** Naming a well-formed tone and reading the name back gives the tone. */
  lemma ToneNameRoundTrip(t: ToneId)
    requires WellFormedTone(t)
    ensures ToneFromName(ToneName(t)) == t
  {
  }

  /** `playDurationSec`: a number of seconds, or the sentinel `'untilStop'`. */
  datatype Duration = Seconds(sec: int) | UntilStop

  datatype Status = Idle | Armed | Snoozed | Ringing

  /** The persisted settings of one alarm. The source field `label` is
      called `caption` here because `label` is a Dafny keyword. */
  datatype AlarmConfig = AlarmConfig(
    id: string,
    caption: string,
    enabled: bool,
    time: TimeOfDay,
    days: DaysOfWeek,
    toneId: ToneId,
    playDuration: Duration,
    snoozeMinutes: int)

  datatype AlarmRuntime = AlarmRuntime(status: Status, snoozeUntilMs: Option<int>)

  datatype Alarm = Alarm(config: AlarmConfig, runtime: AlarmRuntime)

  /** `Partial<AlarmConfig>`: each field may be supplied or left out. */
  datatype PartialConfig = PartialConfig(
    id: Option<string>,
    caption: Option<string>,
    enabled: Option<bool>,
    time: Option<TimeOfDay>,
    days: Option<DaysOfWeek>,
    toneId: Option<ToneId>,
    playDuration: Option<Duration>,
    snoozeMinutes: Option<int>)

  const NoOverrides: PartialConfig :=
    PartialConfig(None, None, None, None, None, None, None, None)

  function WithLabel(caption: string): PartialConfig {
    NoOverrides.(caption := Some(caption))
  }

  /** Idle and armed agree with the enabled flag: an armed alarm is
      enabled and an idle one is not. (Ringing and snoozed are free.) */
  predicate StatusConsistent(a: Alarm) {
    && (a.runtime.status == Armed ==> a.config.enabled)
    && (a.runtime.status == Idle ==> !a.config.enabled)
  }

  /** `createDefaultAlarm`: every supplied field is used, every other
      field gets its default; `generatedId` stands for `createAlarmId()`
      and is used only when no id is supplied. The new alarm is armed
      exactly when `enabled` was supplied as true, and is not snoozed. */
  function CreateDefaultAlarm(partial: PartialConfig, generatedId: string): (a: Alarm)
    ensures partial.id.Some? ==> a.config.id == partial.id.value
    ensures partial.id.None? ==> a.config.id == generatedId
    ensures a.config.caption == (if partial.caption.Some? then partial.caption.value else "Alarm")
    ensures a.config.enabled <==> partial.enabled == Some(true)
    ensures a.config.time == (if partial.time.Some? then partial.time.value else TimeOfDay(7, 30))
    ensures a.config.days == (if partial.days.Some? then partial.days.value else Weekdays())
    ensures a.config.toneId == (if partial.toneId.Some? then partial.toneId.value else Beep)
    ensures a.config.playDuration == (if partial.playDuration.Some? then partial.playDuration.value else Seconds(30))
    ensures a.config.snoozeMinutes == (if partial.snoozeMinutes.Some? then partial.snoozeMinutes.value else 7)
    ensures a.runtime.status == (if partial.enabled == Some(true) then Armed else Idle)
    ensures a.runtime.snoozeUntilMs == None
    ensures StatusConsistent(a)
  {
    var enabled := partial.enabled.GetOr(false);
    Alarm(
      AlarmConfig(
        partial.id.GetOr(generatedId),
        partial.caption.GetOr("Alarm"),
        enabled,
        partial.time.GetOr(TimeOfDay(7, 30)),
        partial.days.GetOr(Weekdays()),
        partial.toneId.GetOr(Beep),
        partial.playDuration.GetOr(Seconds(30)),
        partial.snoozeMinutes.GetOr(7)),
      AlarmRuntime(if enabled then Armed else Idle, None))
  }
}

/** The alarm list held by the application shell and the transitions its
    handlers apply to it (src/App.tsx). Each transition is a map or a
    filter over the list that touches only the alarms with a given id. */
module App {
  import opened Wrappers
  import opened LocalClock
  import opened Time
  import opened Alarms
  import opened MultiAlarmScheduler

  // ---------------------------------------------------------------------
  // Per-alarm transitions

  /** What a handler does to one matching alarm. */
  datatype Transition =
    | Ring                           // onRing
    | Snooze(untilMs: int)           // onSnooze
    | Stop                           // stopAlarm
    | AutoStop                       // the auto-stop timer callback
    | Reconfigure(next: AlarmConfig) // updateAlarmConfig

  /** Armed when enabled, idle otherwise. */
  function RestingStatus(enabled: bool): Status {
    if enabled then Armed else Idle
  }

  /** The new state of one alarm that a transition targets. Only
      `Reconfigure` changes the config; ringing and snoozing set the status
      and the snooze instant together; stopping clears the snooze; the
      auto-stop acts only on a ringing alarm and leaves the snooze as it
      is; reconfiguring keeps a ringing or snoozed status and otherwise
      follows the new `enabled`. Every transition keeps idle and armed in
      agreement with `enabled`. */
  function Apply(t: Transition, a: Alarm): (r: Alarm)
    ensures r.config == (if t.Reconfigure? then t.next else a.config)
    ensures t == Ring ==> r.runtime == AlarmRuntime(Ringing, None)
    ensures t.Snooze? ==> r.runtime == AlarmRuntime(Snoozed, Some(t.untilMs))
    ensures t == Stop ==> r.runtime == AlarmRuntime(RestingStatus(a.config.enabled), None)
    ensures t == AutoStop && a.runtime.status != Ringing ==> r == a
    ensures t == AutoStop && a.runtime.status == Ringing ==>
              r.runtime == a.runtime.(status := RestingStatus(a.config.enabled))
    ensures t.Reconfigure? && (a.runtime.status == Ringing || a.runtime.status == Snoozed) ==>
              r.runtime == a.runtime
    ensures t.Reconfigure? && a.runtime.status != Ringing && a.runtime.status != Snoozed ==>
              r.runtime == a.runtime.(status := RestingStatus(t.next.enabled))
    ensures StatusConsistent(a) ==> StatusConsistent(r)
    ensures t == Stop || t.Reconfigure? ==> StatusConsistent(r)
  {
    match t
    case Ring => a.(runtime := a.runtime.(status := Ringing, snoozeUntilMs := None))
    case Snooze(until) => a.(runtime := a.runtime.(status := Snoozed, snoozeUntilMs := Some(until)))
    case Stop => a.(runtime := a.runtime.(status := RestingStatus(a.config.enabled), snoozeUntilMs := None))
    case AutoStop =>
      if a.runtime.status == Ringing then a.(runtime := a.runtime.(status := RestingStatus(a.config.enabled)))
      else a
    case Reconfigure(next) =>
      var status :=
        if a.runtime.status == Ringing then Ringing
        else if a.runtime.status == Snoozed then Snoozed
        else RestingStatus(next.enabled);
      a.(config := next, runtime := a.runtime.(status := status))
  }

  /** `prev.map(a => a.config.id === id ? … : a)`: the transition applied
      to every alarm with the id, every other alarm unchanged, same order. */
  function ApplyTo(alarms: seq<Alarm>, id: string, t: Transition): (r: seq<Alarm>)
    ensures |r| == |alarms|
    ensures forall i :: 0 <= i < |alarms| && alarms[i].config.id != id ==> r[i] == alarms[i]
    ensures forall i :: 0 <= i < |alarms| && alarms[i].config.id == id ==> r[i] == Apply(t, alarms[i])
    ensures !t.Reconfigure? ==> forall i :: 0 <= i < |alarms| ==> r[i].config == alarms[i].config
  {
    seq(|alarms|, i requires 0 <= i < |alarms| => if alarms[i].config.id == id then Apply(t, alarms[i]) else alarms[i])
  }

  /** A list whose idle and armed alarms agree with `enabled` keeps that
      agreement under every transition. */
  lemma {:induction false} ApplyToKeepsConsistency(alarms: seq<Alarm>, id: string, t: Transition)
    requires forall a :: a in alarms ==> StatusConsistent(a)
    ensures forall a :: a in ApplyTo(alarms, id, t) ==> StatusConsistent(a)
  {
    var r := ApplyTo(alarms, id, t);
    forall a | a in r
      ensures StatusConsistent(a)
    {
      var i :| 0 <= i < |r| && r[i] == a;
      assert alarms[i] in alarms;
    }
  }

  // ---------------------------------------------------------------------
  // What the transitions mean for the scheduler

  /** An alarm that has just been rung never competes to ring next, so the
      next-due alarm after `onRing(id)` never has that id. */
  lemma RungAlarmNeverNextDue(now: int, alarms: seq<Alarm>, id: string, k: int)
    requires IsFirstEarliest(now, ApplyTo(alarms, id, Ring), k)
    ensures ApplyTo(alarms, id, Ring)[k].config.id != id
  {
    var r := ApplyTo(alarms, id, Ring);
    if r[k].config.id == id {
      assert false;
    }
  }

  /** The instant `onSnooze` snoozes until: `max(1, snoozeMinutes)` minutes
      after the clock, so at least one minute ahead. */
  function SnoozeUntil(clockMs: int, snoozeMinutes: int): (r: int)
    ensures r >= clockMs + MS_PER_MINUTE
    ensures snoozeMinutes >= 1 ==> r == clockMs + snoozeMinutes * MS_PER_MINUTE
    ensures snoozeMinutes < 1 ==> r == clockMs + MS_PER_MINUTE
  {
    clockMs + Max(1, snoozeMinutes) * MS_PER_MINUTE
  }

  /** A snoozed enabled alarm competes with its snooze instant, whatever
      its days and time (an instant of 0 aside). */
  lemma SnoozedAlarmDueAtUntil(now: int, a: Alarm, until: int)
    requires a.config.enabled && until != 0
    ensures CandidateDue(now, Apply(Snooze(until), a)) == Some(until)
  {
  }

  /** A stopped alarm no longer carries a snooze: it competes with its
      scheduled instant, and only when it is enabled. */
  lemma StoppedAlarmBackOnSchedule(now: int, a: Alarm)
    ensures CandidateDue(now, Apply(Stop, a)).Some? ==>
              a.config.enabled && CandidateDue(now, Apply(Stop, a)) == ScheduledDue(now, a.config)
    ensures a.config.enabled && ScheduledDue(now, a.config).Some? && ScheduledDue(now, a.config) != Some(0) ==>
              CandidateDue(now, Apply(Stop, a)) == ScheduledDue(now, a.config)
  {
  }

  /** Disabling a snoozed alarm keeps it snoozed, with its snooze instant,
      but it no longer competes to ring. */
  lemma DisabledSnoozedAlarmSilent(now: int, a: Alarm, next: AlarmConfig)
    requires a.runtime.status == Snoozed && !next.enabled
    ensures Apply(Reconfigure(next), a).runtime == a.runtime
    ensures CandidateDue(now, Apply(Reconfigure(next), a)).None?
  {
  }

  /** After a ring, the auto-stop leaves the alarm as stopping it would,
      and a second auto-stop changes nothing. */
  lemma AutoStopAfterRing(a: Alarm)
    ensures Apply(AutoStop, Apply(Ring, a)) == Apply(Stop, a)
    ensures Apply(AutoStop, Apply(AutoStop, a)) == Apply(AutoStop, a)
  {
  }

  /** How long the ringing alarm plays before the auto-stop: its duration
      in milliseconds, or no auto-stop for `'untilStop'`. */
  function AutoStopDelayMs(cfg: AlarmConfig): (r: Option<int>)
    ensures r.None? <==> cfg.playDuration == UntilStop
    ensures r.Some? ==> r.value == cfg.playDuration.sec * MS_PER_SECOND
  {
    match cfg.playDuration
    case UntilStop => None
    case Seconds(sec) => Some(sec * MS_PER_SECOND)
  }

  // ---------------------------------------------------------------------
  // List lookups, removal and selection

  /** `alarms.find(a => a.config.id === id) ?? null`: an alarm with the
      id, if the id is given and some alarm has it. */
  function FindById(alarms: seq<Alarm>, id: Option<string>): (r: Option<Alarm>)
    ensures r.Some? ==> r.value in alarms && id == Some(r.value.config.id)
    ensures r.None? <==> id.None? || forall a :: a in alarms ==> a.config.id != id.value
  {
    if |alarms| == 0 then None
    else if id == Some(alarms[0].config.id) then Some(alarms[0])
    else FindById(alarms[1..], id)
  }

  /** `prev.filter(a => a.config.id !== id)`: exactly the alarms with
      another id remain. */
  function WithoutId(alarms: seq<Alarm>, id: string): (r: seq<Alarm>)
    ensures |r| <= |alarms|
    ensures forall a :: a in r <==> a in alarms && a.config.id != id
    ensures (forall a :: a in alarms ==> a.config.id != id) ==> r == alarms
  {
    if |alarms| == 0 then []
    else if alarms[0].config.id == id then WithoutId(alarms[1..], id)
    else [alarms[0]] + WithoutId(alarms[1..], id)
  }

  /** Removal works piece by piece, so the remaining alarms keep their
      order. */
  lemma {:induction false} WithoutIdDistributes(xs: seq<Alarm>, ys: seq<Alarm>, id: string)
    ensures WithoutId(xs + ys, id) == WithoutId(xs, id) + WithoutId(ys, id)
  {
    if |xs| > 0 {
      assert (xs + ys)[0] == xs[0];
      assert (xs + ys)[1..] == xs[1..] + ys;
      WithoutIdDistributes(xs[1..], ys, id);
      if xs[0].config.id == id {
        assert WithoutId(xs, id) == WithoutId(xs[1..], id);
      } else {
        assert WithoutId(xs, id) == [xs[0]] + WithoutId(xs[1..], id);
      }
    } else {
      assert xs + ys == ys;
    }
  }

  /** Removing twice removes nothing more. */
  lemma WithoutIdIdempotent(alarms: seq<Alarm>, id: string)
    ensures WithoutId(WithoutId(alarms, id), id) == WithoutId(alarms, id)
  {
  }

  /** The selection-repair effect: a truthy selected id that some alarm has
      is kept; otherwise the first alarm's id, or none for an empty list. */
  function RepairedSelection(alarms: seq<Alarm>, selected: Option<string>): (r: Option<string>)
    ensures r.None? <==> |alarms| == 0
    ensures r.Some? ==> exists a :: a in alarms && a.config.id == r.value
    ensures selected.Some? && selected.value != "" && FindById(alarms, selected).Some? ==> r == selected
    ensures |alarms| > 0 && !(selected.Some? && selected.value != "" && FindById(alarms, selected).Some?) ==>
              r == Some(alarms[0].config.id)
  {
    if selected.Some? && selected.value != "" && FindById(alarms, selected).Some? then selected
    else if |alarms| > 0 then Some(alarms[0].config.id)
    else None
  }

  /** A repaired selection needs no further repair. */
  lemma RepairSettles(alarms: seq<Alarm>, selected: Option<string>)
    ensures RepairedSelection(alarms, RepairedSelection(alarms, selected)) == RepairedSelection(alarms, selected)
  {
    var r := RepairedSelection(alarms, selected);
    if r.Some? {
      var a :| a in alarms && a.config.id == r.value;
      assert FindById(alarms, r).Some?;
    }
  }

  /** The label `addAlarm` gives the alarm added to a list of `n`. */
  function NewAlarmLabel(n: nat): (s: string)
    ensures |s| > 6 && s[..6] == "Alarm "
    ensures forall i :: 6 <= i < |s| ==> IsDigit(s[i])
    ensures DecimalValue(s[6..]) == n + 1
  {
    NatToStringValue(n + 1);
    assert ("Alarm " + NatToString(n + 1))[6..] == NatToString(n + 1);
    "Alarm " + NatToString(n + 1)
  }

  // ---------------------------------------------------------------------
  // The host

  /** The selected id as read from storage: nothing usable (no item, an
      empty item or one that does not parse), a JSON `null`, or an id. */
  datatype StoredSelection = NothingStored | StoredNull | StoredId(id: string)

  /** The application's alarm state: the list, the ringing alarm's id, the
      selected alarm's id and the draft being edited. */
  class AlarmHost {
    var alarms: seq<Alarm>
    var ringingAlarmId: Option<string>
    var selectedAlarmId: Option<string>
    var draftConfig: Option<AlarmConfig>

    /** The first render: the loaded list, nothing ringing, the selection
        read from storage, and the selected alarm's config as the draft.
        With nothing stored the selection is the first alarm's id (none
        for an empty list); a stored `null` is no selection, and then no
        draft either. */
    constructor(loaded: seq<Alarm>, stored: StoredSelection)
      ensures alarms == loaded && ringingAlarmId.None?
      ensures stored.NothingStored? ==> selectedAlarmId == (if |loaded| > 0 then Some(loaded[0].config.id) else None)
      ensures stored.StoredNull? ==> selectedAlarmId.None? && draftConfig.None?
      ensures stored.StoredId? ==> selectedAlarmId == Some(stored.id)
      ensures draftConfig == (var s := FindById(loaded, selectedAlarmId); if s.Some? then Some(s.value.config) else None)
    {
      alarms := loaded;
      ringingAlarmId := None;
      var selection :=
        match stored
        case NothingStored => if |loaded| > 0 then Some(loaded[0].config.id) else None
        case StoredNull => None
        case StoredId(id) => Some(id);
      selectedAlarmId := selection;
      var s := FindById(loaded, selection);
      draftConfig := if s.Some? then Some(s.value.config) else None;
    }

    /** The alarm whose id is the ringing id, if any. */
    function RingingAlarm(): (r: Option<Alarm>)
      reads this
      ensures r.Some? ==> r.value in alarms && ringingAlarmId == Some(r.value.config.id)
      ensures r.None? <==> ringingAlarmId.None? || forall a :: a in alarms ==> a.config.id != ringingAlarmId.value
    {
      FindById(alarms, ringingAlarmId)
    }

    /** `onRing`: the alarm rings and becomes the ringing alarm. */
    method OnRing(alarmId: string)
      modifies this
      ensures alarms == ApplyTo(old(alarms), alarmId, Ring)
      ensures ringingAlarmId == Some(alarmId)
      ensures selectedAlarmId == old(selectedAlarmId) && draftConfig == old(draftConfig)
    {
      alarms := ApplyTo(alarms, alarmId, Ring);
      ringingAlarmId := Some(alarmId);
    }

    /** `onSnooze`: with an alarm ringing, it is snoozed until
        `max(1, snoozeMinutes)` minutes after the clock and nothing rings;
        otherwise nothing happens. `clockMs` is the value of `Date.now()`. */
    method OnSnooze(clockMs: int)
      modifies this
      ensures old(RingingAlarm()).None? ==> alarms == old(alarms) && ringingAlarmId == old(ringingAlarmId)
      ensures old(RingingAlarm()).Some? ==>
                var a := old(RingingAlarm()).value;
                && alarms == ApplyTo(old(alarms), a.config.id, Snooze(SnoozeUntil(clockMs, a.config.snoozeMinutes)))
                && ringingAlarmId.None?
      ensures selectedAlarmId == old(selectedAlarmId) && draftConfig == old(draftConfig)
    {
      var ringing := RingingAlarm();
      if ringing.None? {
        return;
      }
      var a := ringing.value;
      var until := SnoozeUntil(clockMs, a.config.snoozeMinutes);
      alarms := ApplyTo(alarms, a.config.id, Snooze(until));
      ringingAlarmId := None;
    }

    /** `stopAlarm`: the alarm rests, its snooze cleared; the ringing id is
        cleared only when it was this alarm's. */
    method StopAlarm(alarmId: string)
      modifies this
      ensures alarms == ApplyTo(old(alarms), alarmId, Stop)
      ensures ringingAlarmId == (if old(ringingAlarmId) == Some(alarmId) then None else old(ringingAlarmId))
      ensures selectedAlarmId == old(selectedAlarmId) && draftConfig == old(draftConfig)
    {
      alarms := ApplyTo(alarms, alarmId, Stop);
      if ringingAlarmId == Some(alarmId) {
        ringingAlarmId := None;
      }
    }

    /** `onStop`: stops the ringing alarm, if any. */
    method OnStop()
      modifies this
      ensures old(RingingAlarm()).None? ==> alarms == old(alarms) && ringingAlarmId == old(ringingAlarmId)
      ensures old(RingingAlarm()).Some? ==>
                alarms == ApplyTo(old(alarms), old(RingingAlarm()).value.config.id, Stop) && ringingAlarmId.None?
      ensures selectedAlarmId == old(selectedAlarmId) && draftConfig == old(draftConfig)
    {
      var ringing := RingingAlarm();
      if ringing.Some? {
        StopAlarm(ringing.value.config.id);
      }
    }

    /** The auto-stop timer callback for the alarm with id `alarmId`: a
        still-ringing alarm rests again, and the ringing id is cleared. */
    method AutoStopFired(alarmId: string)
      modifies this
      ensures alarms == ApplyTo(old(alarms), alarmId, AutoStop)
      ensures ringingAlarmId.None?
      ensures selectedAlarmId == old(selectedAlarmId) && draftConfig == old(draftConfig)
    {
      alarms := ApplyTo(alarms, alarmId, AutoStop);
      ringingAlarmId := None;
    }

    /** `updateAlarmConfig`. */
    method UpdateAlarmConfig(id: string, nextConfig: AlarmConfig)
      modifies this
      ensures alarms == ApplyTo(old(alarms), id, Reconfigure(nextConfig))
      ensures ringingAlarmId == old(ringingAlarmId)
      ensures selectedAlarmId == old(selectedAlarmId) && draftConfig == old(draftConfig)
    {
      alarms := ApplyTo(alarms, id, Reconfigure(nextConfig));
    }

    /** `addAlarm`: appends a disabled default alarm labelled
        `Alarm <n+1>` for a list of `n`, selects it and opens it as the
        draft. `freshId` stands for the id `createAlarmId()` generates. */
    method AddAlarm(freshId: string)
      modifies this
      ensures |alarms| == |old(alarms)| + 1 && alarms[..|old(alarms)|] == old(alarms)
      ensures alarms[|old(alarms)|] == CreateDefaultAlarm(WithLabel(NewAlarmLabel(|old(alarms)|)), freshId)
      ensures selectedAlarmId == Some(freshId) && draftConfig == Some(alarms[|old(alarms)|].config)
      ensures ringingAlarmId == old(ringingAlarmId)
    {
      var a := CreateDefaultAlarm(WithLabel(NewAlarmLabel(|alarms|)), freshId);
      alarms := alarms + [a];
      selectedAlarmId := Some(a.config.id);
      draftConfig := Some(a.config);
    }

    /** `removeAlarm`: removes every alarm with the id and clears the
        ringing id when it was that id. */
    method RemoveAlarm(id: string)
      modifies this
      ensures alarms == WithoutId(old(alarms), id)
      ensures ringingAlarmId == (if old(ringingAlarmId) == Some(id) then None else old(ringingAlarmId))
      ensures selectedAlarmId == old(selectedAlarmId) && draftConfig == old(draftConfig)
    {
      if ringingAlarmId == Some(id) {
        ringingAlarmId := None;
      }
      alarms := WithoutId(alarms, id);
    }

    /** `saveDraft`: with a selected alarm and a draft, the draft becomes
        the config of the alarms with the selected alarm's id; otherwise
        nothing changes. */
    method SaveDraft()
      modifies this
      ensures var s := FindById(old(alarms), old(selectedAlarmId));
              alarms == (if s.Some? && old(draftConfig).Some?
                         then ApplyTo(old(alarms), s.value.config.id, Reconfigure(old(draftConfig).value))
                         else old(alarms))
      ensures ringingAlarmId == old(ringingAlarmId)
      ensures selectedAlarmId == old(selectedAlarmId) && draftConfig == old(draftConfig)
    {
      var selected := FindById(alarms, selectedAlarmId);
      if selected.None? || draftConfig.None? {
        return;
      }
      UpdateAlarmConfig(selected.value.config.id, draftConfig.value);
    }

    /** `cancelDraft`: the draft goes back to the selected alarm's saved
        config, or to none when no alarm is selected. */
    method CancelDraft()
      modifies this
      ensures draftConfig == (var s := FindById(old(alarms), old(selectedAlarmId)); if s.Some? then Some(s.value.config) else None)
      ensures alarms == old(alarms) && ringingAlarmId == old(ringingAlarmId) && selectedAlarmId == old(selectedAlarmId)
    {
      var selected := FindById(alarms, selectedAlarmId);
      if selected.None? {
        draftConfig := None;
        return;
      }
      draftConfig := Some(selected.value.config);
    }

    /** `selectAlarm`: the id becomes the selection; the draft is reloaded
        from the alarm with that id when there is one, and kept otherwise. */
    method SelectAlarm(id: string)
      modifies this
      ensures selectedAlarmId == Some(id)
      ensures draftConfig == (var s := FindById(old(alarms), Some(id)); if s.Some? then Some(s.value.config) else old(draftConfig))
      ensures alarms == old(alarms) && ringingAlarmId == old(ringingAlarmId)
    {
      selectedAlarmId := Some(id);
      var saved := FindById(alarms, Some(id));
      if saved.Some? {
        draftConfig := Some(saved.value.config);
      }
    }

    /** The selection-repair effect. */
    method RepairSelection()
      modifies this
      ensures selectedAlarmId == RepairedSelection(old(alarms), old(selectedAlarmId))
      ensures alarms == old(alarms) && ringingAlarmId == old(ringingAlarmId) && draftConfig == old(draftConfig)
    {
      selectedAlarmId := RepairedSelection(alarms, selectedAlarmId);
    }
  }

  /** After `addAlarm`, the new alarm's selection stands: the repair effect
      keeps it. */
  lemma AddedAlarmStaysSelected(alarms: seq<Alarm>, freshId: string)
    requires freshId != ""
    ensures var added := alarms + [CreateDefaultAlarm(WithLabel(NewAlarmLabel(|alarms|)), freshId)];
            RepairedSelection(added, Some(freshId)) == Some(freshId)
  {
    var a := CreateDefaultAlarm(WithLabel(NewAlarmLabel(|alarms|)), freshId);
    var added := alarms + [a];
    assert a in added;
  }

  /** Selecting an alarm in the list sticks: the repair effect keeps a
      non-empty id that some alarm has, and then `selectAlarm` has filled
      the draft with that alarm's config. */
  lemma SelectedAlarmStaysSelected(alarms: seq<Alarm>, id: string)
    requires id != "" && exists a :: a in alarms && a.config.id == id
    ensures RepairedSelection(alarms, Some(id)) == Some(id)
    ensures FindById(alarms, Some(id)).Some? && FindById(alarms, Some(id)).value.config.id == id
  {
    var a :| a in alarms && a.config.id == id;
    assert FindById(alarms, Some(id)).Some?;
  }
}

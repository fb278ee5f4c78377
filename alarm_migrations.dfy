/** Loading a stored alarm list: a total decode-with-defaults from an
    already-parsed JSON value (src/state/alarmMigrations.ts). */
module AlarmMigrations {
  import opened Wrappers
  import opened Time
  import opened Alarms

  /** A parsed JSON value. Numbers are whole numbers in this model. */
  datatype Json =
    | JNull
    | JBool(b: bool)
    | JNum(n: int)
    | JStr(s: string)
    | JArr(items: seq<Json>)
    | JObj(fields: map<string, Json>)

  /** `isObject`: `typeof v === 'object' && v !== null`, which holds for
      arrays as well as plain objects. `None` is `undefined`. */
  predicate IsObject(v: Option<Json>)
    ensures IsObject(v) ==> v.Some? && !v.value.JNull?
    ensures v.Some? && (v.value.JArr? || v.value.JObj?) ==> IsObject(v)
  {
    v.Some? && (v.value.JObj? || v.value.JArr?)
  }

  /** The property read `v.key`: `undefined` unless `v` is an object that
      has `key` (the keys read here are never array properties). */
  function Prop(v: Option<Json>, key: string): (r: Option<Json>)
    ensures r.Some? ==> IsObject(v)
  {
    if v.Some? && v.value.JObj? && key in v.value.fields then Some(v.value.fields[key]) else None
  }

  /** `Boolean(v)`: JavaScript truthiness. `undefined`, `null`, `false`,
      `0` and the empty string are the falsy values; all else is truthy. */
  predicate Truthy(v: Option<Json>)
    ensures Truthy(v) <==> v.Some? && v.value !in {JNull, JBool(false), JNum(0), JStr("")}
  {
    match v
    case None => false
    case Some(JNull) => false
    case Some(JBool(b)) => b
    case Some(JNum(n)) => n != 0
    case Some(JStr(s)) => s != ""
    case Some(JArr(_)) => true
    case Some(JObj(_)) => true
  }

  /** `v.key` when `typeof v.key === 'string'`. */
  function StringProp(v: Option<Json>, key: string): Option<string> {
    match Prop(v, key)
    case Some(JStr(s)) => Some(s)
    case _ => None
  }

  /** `v.key` when `typeof v.key === 'number'`. */
  function NumberProp(v: Option<Json>, key: string): Option<int> {
    match Prop(v, key)
    case Some(JNum(n)) => Some(n)
    case _ => None
  }

  function StatusName(st: Status): string {
    match st
    case Idle => "idle"
    case Armed => "armed"
    case Snoozed => "snoozed"
    case Ringing => "ringing"
  }

  /** The four recognised status strings. */
  function StatusFromName(s: string): (r: Option<Status>)
    ensures forall st :: StatusName(st) == s ==> r == Some(st)
    ensures r.Some? ==> StatusName(r.value) == s
  {
    if s == "ringing" then Some(Ringing)
    else if s == "snoozed" then Some(Snoozed)
    else if s == "armed" then Some(Armed)
    else if s == "idle" then Some(Idle)
    else None
  }

  /** `normalizeRuntime`: a recognised status string is kept, anything else
      becomes armed or idle according to `enabled`; `snoozeUntilMs` is kept
      exactly when it is a number. */
  function NormalizeRuntime(raw: Option<Json>, enabled: bool): (r: AlarmRuntime)
    ensures forall st :: StringProp(raw, "status") == Some(StatusName(st)) ==> r.status == st
    ensures (forall st :: StringProp(raw, "status") != Some(StatusName(st))) ==>
              r.status == (if enabled then Armed else Idle)
    ensures r.snoozeUntilMs == NumberProp(raw, "snoozeUntilMs")
  {
    var base := AlarmRuntime(if enabled then Armed else Idle, None);
    if !IsObject(raw) then base
    else
      var status :=
        match StringProp(raw, "status")
        case Some(s) => StatusFromName(s).GetOr(base.status)
        case None => base.status;
      AlarmRuntime(status, NumberProp(raw, "snoozeUntilMs"))
  }

  /** The property names of the day flags. */
  function KeyName(k: DayKey): string {
    match k
    case Mon => "mon"
    case Tue => "tue"
    case Wed => "wed"
    case Thu => "thu"
    case Fri => "fri"
    case Sat => "sat"
    case Sun => "sun"
  }

  /** `normalizeDays`: each flag is the truthiness of the stored field, but a
      non-object or a day-set with no truthy flag becomes weekdays, so the
      result always selects some day. */
  function NormalizeDays(raw: Option<Json>): (d: DaysOfWeek)
    ensures IsAnyDaySelected(d)
    ensures (forall k :: !Truthy(Prop(raw, KeyName(k)))) ==> d == Weekdays()
    ensures (exists k :: Truthy(Prop(raw, KeyName(k)))) ==>
              forall k :: d.Has(k) == Truthy(Prop(raw, KeyName(k)))
  {
    if !IsObject(raw) then Weekdays()
    else
      var flags := DaysOfWeek(
        Truthy(Prop(raw, "mon")), Truthy(Prop(raw, "tue")), Truthy(Prop(raw, "wed")),
        Truthy(Prop(raw, "thu")), Truthy(Prop(raw, "fri")), Truthy(Prop(raw, "sat")),
        Truthy(Prop(raw, "sun")));
      assert forall k :: flags.Has(k) == Truthy(Prop(raw, KeyName(k)));
      if !IsAnyDaySelected(flags) then Weekdays() else flags
  }

  /** `playDurationSec`: `'untilStop'` or a number is kept, anything else is 30. */
  function NormalizeDuration(raw: Option<Json>): (r: Duration)
    ensures raw == Some(JStr("untilStop")) ==> r == UntilStop
    ensures forall n :: raw == Some(JNum(n)) ==> r == Seconds(n)
    ensures raw != Some(JStr("untilStop")) && !(raw.Some? && raw.value.JNum?) ==> r == Seconds(30)
  {
    match raw
    case Some(JStr(s)) => if s == "untilStop" then UntilStop else Seconds(30)
    case Some(JNum(n)) => Seconds(n)
    case _ => Seconds(30)
  }

  /** A stored alarm is loaded as the loader leaves it: some day selected
      and a tone whose name is not confused with a catalogue tone. */
  predicate Loaded(a: Alarm) {
    IsAnyDaySelected(a.config.days) && WellFormedTone(a.config.toneId)
  }

  /** `toneId` when it is a string (cast without a check), `'beep'` otherwise. */
  function DecodeTone(cfg: Option<Json>): (t: ToneId)
    ensures WellFormedTone(t)
    ensures StringProp(cfg, "toneId").None? ==> t == Beep
    ensures StringProp(cfg, "toneId").Some? ==> ToneName(t) == StringProp(cfg, "toneId").value
  {
    match StringProp(cfg, "toneId")
    case Some(s) => ToneFromName(s)
    case None => Beep
  }

  /** The config of a kept item: each field is kept when it has the right
      type and gets its default otherwise; a string id is kept and only a
      missing or non-string id is replaced by `generatedId`. */
  function DecodeConfig(cfg: Option<Json>, generatedId: string): (c: AlarmConfig)
    ensures c.id == StringProp(cfg, "id").GetOr(generatedId)
    ensures c.caption == StringProp(cfg, "label").GetOr("Alarm")
    ensures c.enabled == Truthy(Prop(cfg, "enabled"))
    ensures c.time.hour == NumberProp(Prop(cfg, "time"), "hour").GetOr(7)
    ensures c.time.minute == NumberProp(Prop(cfg, "time"), "minute").GetOr(30)
    ensures c.days == NormalizeDays(Prop(cfg, "days")) && IsAnyDaySelected(c.days)
    ensures c.toneId == DecodeTone(cfg)
    ensures c.playDuration == NormalizeDuration(Prop(cfg, "playDurationSec"))
    ensures c.snoozeMinutes == NumberProp(cfg, "snoozeMinutes").GetOr(7)
  {
    AlarmConfig(
      StringProp(cfg, "id").GetOr(generatedId),
      StringProp(cfg, "label").GetOr("Alarm"),
      Truthy(Prop(cfg, "enabled")),
      TimeOfDay(NumberProp(Prop(cfg, "time"), "hour").GetOr(7), NumberProp(Prop(cfg, "time"), "minute").GetOr(30)),
      NormalizeDays(Prop(cfg, "days")),
      DecodeTone(cfg),
      NormalizeDuration(Prop(cfg, "playDurationSec")),
      NumberProp(cfg, "snoozeMinutes").GetOr(7))
  }

  /** One iteration of the loop in `normalizeAlarms`: an item that is not
      an object, or whose `config` is not an object, is skipped (`None`);
      any other item gives one alarm whose runtime is normalised against
      the loaded `enabled` flag. `generatedId` stands for the id
      `createDefaultAlarm()` would generate. */
  function NormalizeItem(item: Json, generatedId: string): (r: Option<Alarm>)
    ensures r.None? <==> !IsObject(Some(item)) || !IsObject(Prop(Some(item), "config"))
    ensures r.Some? ==> Loaded(r.value)
    ensures r.Some? ==> r.value.config == DecodeConfig(Prop(Some(item), "config"), generatedId)
    ensures r.Some? ==> r.value.runtime == NormalizeRuntime(Prop(Some(item), "runtime"), r.value.config.enabled)
  {
    var cfg := Prop(Some(item), "config");
    if !IsObject(Some(item)) || !IsObject(cfg) then None
    else
      var config := DecodeConfig(cfg, generatedId);
      Some(Alarm(config, NormalizeRuntime(Prop(Some(item), "runtime"), config.enabled)))
  }

  /** The per-item outcomes of the loop: `gen(i)` is the id generated for
      the item at position `i`. */
  function Decoded(items: seq<Json>, gen: nat -> string): (rs: seq<Option<Alarm>>)
    ensures |rs| == |items|
    ensures forall i :: 0 <= i < |items| ==> rs[i] == NormalizeItem(items[i], gen(i))
  {
    seq(|items|, i requires 0 <= i < |items| => NormalizeItem(items[i], gen(i)))
  }

  /** The values pushed by a loop that skips the `None` outcomes. */
  function Kept<T>(rs: seq<Option<T>>): (out: seq<T>)
    ensures |out| <= |rs|
  {
    if |rs| == 0 then []
    else
      var prev := Kept(rs[..|rs| - 1]);
      match rs[|rs| - 1]
      case Some(x) => prev + [x]
      case None => prev
  }

  /** One more outcome adds its value, if any, at the end. */
  lemma KeptStep<T>(rs: seq<Option<T>>, i: int)
    requires 0 <= i < |rs|
    ensures Kept(rs[..i + 1]) == Kept(rs[..i]) + (if rs[i].Some? then [rs[i].value] else [])
  {
    assert rs[..i + 1][..i] == rs[..i];
  }

  /** What `normalizeAlarms` returns: the kept items' alarms, or a single
      default alarm when the stored value is not an array (`gen(0)`) or
      keeps nothing (`gen(|items|)`). */
  function NormalizedAlarms(raw: Json, gen: nat -> string): (out: seq<Alarm>)
    ensures |out| > 0
    ensures forall a :: a in out ==> Loaded(a)
    ensures !raw.JArr? ==> out == [CreateDefaultAlarm(WithLabel("Alarm 1"), gen(0))]
    ensures raw.JArr? && |Kept(Decoded(raw.items, gen))| == 0 ==>
              out == [CreateDefaultAlarm(WithLabel("Alarm 1").(days := Some(EveryDay())), gen(|raw.items|))]
    ensures raw.JArr? && |Kept(Decoded(raw.items, gen))| > 0 ==>
              out == Kept(Decoded(raw.items, gen))
  {
    if !raw.JArr? then
      PresetsPartitionWeek();
      [CreateDefaultAlarm(WithLabel("Alarm 1"), gen(0))]
    else
      var out := Kept(Decoded(raw.items, gen));
      KeptAreLoaded(raw.items, gen);
      if |out| > 0 then out
      else
        PresetsPartitionWeek();
        [CreateDefaultAlarm(WithLabel("Alarm 1").(days := Some(EveryDay())), gen(|raw.items|))]
  }

  /** `normalizeAlarms`: the loop over the stored array with its `continue`
      skips. */
  method NormalizeAlarms(raw: Json, gen: nat -> string) returns (out: seq<Alarm>)
    ensures out == NormalizedAlarms(raw, gen)
  {
    if !raw.JArr? {
      return [CreateDefaultAlarm(WithLabel("Alarm 1"), gen(0))];
    }
    var items := raw.items;
    ghost var rs := Decoded(items, gen);
    out := [];
    var i := 0;
    while i < |items|
      invariant 0 <= i <= |items|
      invariant out == Kept(rs[..i])
    {
      KeptStep(rs, i);
      var item := items[i];
      if !IsObject(Some(item)) {
        i := i + 1;
        continue;
      }
      var configRaw := Prop(Some(item), "config");
      if !IsObject(configRaw) {
        i := i + 1;
        continue;
      }
      var normalized := NormalizeItem(item, gen(i));
      out := out + [normalized.value];
      i := i + 1;
    }
    assert rs[..|items|] == rs;
    if |out| == 0 {
      out := [CreateDefaultAlarm(WithLabel("Alarm 1").(days := Some(EveryDay())), gen(|items|))];
    }
  }

  // ---------------------------------------------------------------------
  // Order: one alarm per kept item, in input order

  predicate StrictlyIncreasing(idx: seq<int>) {
    forall j, l :: 0 <= j < l < |idx| ==> idx[j] < idx[l]
  }

  /** The values kept are exactly those of the `Some` outcomes, in order:
      `idx` lists the positions of the `Some` outcomes, increasing. */
  lemma {:induction false} KeptKeepsOrder<T>(rs: seq<Option<T>>) returns (idx: seq<int>)
    ensures |idx| == |Kept(rs)|
    ensures StrictlyIncreasing(idx)
    ensures forall j :: 0 <= j < |idx| ==> 0 <= idx[j] < |rs| && rs[idx[j]] == Some(Kept(rs)[j])
    ensures forall i :: 0 <= i < |rs| && rs[i].Some? ==> i in idx
  {
    if |rs| == 0 {
      idx := [];
    } else {
      var n := |rs| - 1;
      var init := rs[..n];
      var prev := KeptKeepsOrder(init);
      assert forall i :: 0 <= i < n ==> init[i] == rs[i];
      if rs[n].Some? {
        var out := Kept(rs);
        assert out == Kept(init) + [rs[n].value];
        idx := prev + [n];
        forall j | 0 <= j < |idx|
          ensures 0 <= idx[j] < |rs| && rs[idx[j]] == Some(out[j])
        {
          if j < |prev| {
            assert idx[j] == prev[j] && out[j] == Kept(init)[j];
          }
        }
        forall i | 0 <= i < |rs| && rs[i].Some?
          ensures i in idx
        {
          if i < n {
            assert init[i].Some? && i in prev;
          }
        }
      } else {
        assert Kept(rs) == Kept(init);
        idx := prev;
      }
    }
  }

  /** Every alarm the loop keeps is loaded. */
  lemma KeptAreLoaded(items: seq<Json>, gen: nat -> string)
    ensures forall a :: a in Kept(Decoded(items, gen)) ==> Loaded(a)
  {
    var rs := Decoded(items, gen);
    var out := Kept(rs);
    var idx := KeptKeepsOrder(rs);
    forall a | a in out
      ensures Loaded(a)
    {
      var j :| 0 <= j < |out| && out[j] == a;
      assert rs[idx[j]] == Some(a);
    }
  }

  /** When every outcome is `Some`, the loop keeps all of them. */
  lemma {:induction false} KeptAll<T>(rs: seq<Option<T>>, xs: seq<T>)
    requires |rs| == |xs|
    requires forall i :: 0 <= i < |rs| ==> rs[i] == Some(xs[i])
    ensures Kept(rs) == xs
  {
    if |rs| > 0 {
      KeptAll(rs[..|rs| - 1], xs[..|xs| - 1]);
      assert xs == xs[..|xs| - 1] + [xs[|xs| - 1]];
    }
  }

  // ---------------------------------------------------------------------
  // Re-loading what was loaded changes nothing

  function EncodeDays(d: DaysOfWeek): Json {
    JObj(map["mon" := JBool(d.mon), "tue" := JBool(d.tue), "wed" := JBool(d.wed),
             "thu" := JBool(d.thu), "fri" := JBool(d.fri), "sat" := JBool(d.sat),
             "sun" := JBool(d.sun)])
  }

  function EncodeDuration(p: Duration): Json {
    match p
    case Seconds(n) => JNum(n)
    case UntilStop => JStr("untilStop")
  }

  function EncodeConfig(c: AlarmConfig): Json {
    JObj(map[
      "id" := JStr(c.id),
      "label" := JStr(c.caption),
      "enabled" := JBool(c.enabled),
      "time" := JObj(map["hour" := JNum(c.time.hour), "minute" := JNum(c.time.minute)]),
      "days" := EncodeDays(c.days),
      "toneId" := JStr(ToneName(c.toneId)),
      "playDurationSec" := EncodeDuration(c.playDuration),
      "snoozeMinutes" := JNum(c.snoozeMinutes)])
  }

  function EncodeRuntime(r: AlarmRuntime): Json {
    JObj(map[
      "status" := JStr(StatusName(r.status)),
      "snoozeUntilMs" := if r.snoozeUntilMs.Some? then JNum(r.snoozeUntilMs.value) else JNull])
  }

  /** An alarm as `JSON.stringify` stores it, read back by `JSON.parse`. */
  function EncodeAlarm(a: Alarm): Json {
    JObj(map["config" := EncodeConfig(a.config), "runtime" := EncodeRuntime(a.runtime)])
  }

  function EncodeAlarms(alarms: seq<Alarm>): (j: Json)
    ensures j.JArr? && |j.items| == |alarms|
    ensures forall i :: 0 <= i < |alarms| ==> j.items[i] == EncodeAlarm(alarms[i])
  {
    JArr(seq(|alarms|, i requires 0 <= i < |alarms| => EncodeAlarm(alarms[i])))
  }

  /** The properties a stored config exposes. */
  lemma EncodedConfigProps(c: AlarmConfig)
    ensures var cfg := Some(EncodeConfig(c));
      && IsObject(cfg)
      && StringProp(cfg, "id") == Some(c.id)
      && StringProp(cfg, "label") == Some(c.caption)
      && Prop(cfg, "enabled") == Some(JBool(c.enabled))
      && Prop(cfg, "time") == Some(JObj(map["hour" := JNum(c.time.hour), "minute" := JNum(c.time.minute)]))
      && Prop(cfg, "days") == Some(EncodeDays(c.days))
      && StringProp(cfg, "toneId") == Some(ToneName(c.toneId))
      && Prop(cfg, "playDurationSec") == Some(EncodeDuration(c.playDuration))
      && NumberProp(cfg, "snoozeMinutes") == Some(c.snoozeMinutes)
  {
  }

  /** The flag a stored day-set exposes for day `k`. */
  lemma EncodedDayProp(d: DaysOfWeek, k: DayKey)
    ensures Prop(Some(EncodeDays(d)), KeyName(k)) == Some(JBool(d.Has(k)))
  {
    var m := EncodeDays(d).fields;
    match k
    case Mon => assert m["mon"] == JBool(d.mon);
    case Tue => assert m["tue"] == JBool(d.tue);
    case Wed => assert m["wed"] == JBool(d.wed);
    case Thu => assert m["thu"] == JBool(d.thu);
    case Fri => assert m["fri"] == JBool(d.fri);
    case Sat => assert m["sat"] == JBool(d.sat);
    case Sun => assert m["sun"] == JBool(d.sun);
  }

  /** A day-set with some day selected, stored and loaded again, is the
      same day-set. */
  lemma DecodeEncodeDays(d: DaysOfWeek)
    requires IsAnyDaySelected(d)
    ensures NormalizeDays(Some(EncodeDays(d))) == d
  {
    var raw := Some(EncodeDays(d));
    forall k
      ensures Prop(raw, KeyName(k)) == Some(JBool(d.Has(k)))
    {
      EncodedDayProp(d, k);
    }
    var k :| d.Has(k);
    assert Truthy(Prop(raw, KeyName(k)));
    DaysExtensional(NormalizeDays(raw), d);
  }

  lemma DecodeEncodeRuntime(r: AlarmRuntime, enabled: bool)
    ensures NormalizeRuntime(Some(EncodeRuntime(r)), enabled) == r
  {
    var raw := Some(EncodeRuntime(r));
    assert StringProp(raw, "status") == Some(StatusName(r.status));
  }

  /** A loaded config, stored and loaded again, is the same config. */
  lemma DecodeEncodeConfig(c: AlarmConfig, generatedId: string)
    requires IsAnyDaySelected(c.days) && WellFormedTone(c.toneId)
    ensures DecodeConfig(Some(EncodeConfig(c)), generatedId) == c
  {
    EncodedConfigProps(c);
    DecodeEncodeDays(c.days);
    DecodeConfigFromProps(Some(EncodeConfig(c)), c, generatedId);
  }

  /** Any config value exposing the fields of a loaded config decodes to
      that config. */
  lemma DecodeConfigFromProps(cfg: Option<Json>, c: AlarmConfig, generatedId: string)
    requires WellFormedTone(c.toneId)
    requires StringProp(cfg, "id") == Some(c.id)
    requires StringProp(cfg, "label") == Some(c.caption)
    requires Prop(cfg, "enabled") == Some(JBool(c.enabled))
    requires Prop(cfg, "time") == Some(JObj(map["hour" := JNum(c.time.hour), "minute" := JNum(c.time.minute)]))
    requires NormalizeDays(Prop(cfg, "days")) == c.days
    requires StringProp(cfg, "toneId") == Some(ToneName(c.toneId))
    requires Prop(cfg, "playDurationSec") == Some(EncodeDuration(c.playDuration))
    requires NumberProp(cfg, "snoozeMinutes") == Some(c.snoozeMinutes)
    ensures DecodeConfig(cfg, generatedId) == c
  {
    ToneNameRoundTrip(c.toneId);
  }

  /** A loaded alarm, stored and loaded again, is the same alarm. */
  lemma DecodeEncodeAlarm(a: Alarm, generatedId: string)
    requires Loaded(a)
    ensures NormalizeItem(EncodeAlarm(a), generatedId) == Some(a)
  {
    var item := EncodeAlarm(a);
    assert Prop(Some(item), "config") == Some(EncodeConfig(a.config));
    assert Prop(Some(item), "runtime") == Some(EncodeRuntime(a.runtime));
    EncodedConfigProps(a.config);
    DecodeEncodeConfig(a.config, generatedId);
    DecodeEncodeRuntime(a.runtime, a.config.enabled);
  }

  /** Loading a stored copy of what the loader produced gives it back
      unchanged, whatever ids either load would generate. */
  lemma NormalizeIdempotent(raw: Json, gen: nat -> string, gen2: nat -> string)
    ensures NormalizedAlarms(EncodeAlarms(NormalizedAlarms(raw, gen)), gen2) == NormalizedAlarms(raw, gen)
  {
    var out := NormalizedAlarms(raw, gen);
    var stored := EncodeAlarms(out);
    var rs := Decoded(stored.items, gen2);
    forall i | 0 <= i < |out|
      ensures rs[i] == Some(out[i])
    {
      DecodeEncodeAlarm(out[i], gen2(i));
    }
    KeptAll(rs, out);
  }
}

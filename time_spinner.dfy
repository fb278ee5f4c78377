/** The arithmetic of the hour/minute picker
    (src/components/TimeSpinner.tsx). A handler yields the time it passes
    to `onChange`, or `None` when it emits nothing. */
module TimeSpinner {
  import opened Wrappers
  import opened LocalClock
  import opened Time

  function Min(a: int, b: int): int { if a < b then a else b }
  function Abs(n: int): nat { if n < 0 then -n else n }

  /** `clamp(n, lo, hi) = Math.min(hi, Math.max(lo, n))`. */
  function Clamp(n: int, lo: int, hi: int): (r: int)
    ensures lo <= hi ==> lo <= r <= hi
    ensures lo <= n <= hi ==> r == n
    ensures lo <= hi && n < lo ==> r == lo
    ensures lo <= hi && hi < n ==> r == hi
  {
    Min(hi, Max(lo, n))
  }

  /** JavaScript's `%` on integers: the remainder of the division
      truncated toward zero, so it takes the sign of `n`. */
  function TruncRem(n: int, m: int): (r: int)
    requires m != 0
    ensures Abs(r) < Abs(m)
    ensures n >= 0 ==> r >= 0
    ensures n <= 0 ==> r <= 0
  {
    var q := Abs(n) % Abs(m);
    if n < 0 then -q else q
  }

  /** `d` copies of a positive `m` make at least `m`. */
  lemma {:induction false} MulAtLeast(d: int, m: int)
    requires d >= 1 && m > 0
    ensures d * m >= m
    decreases d
  {
    if d > 1 {
      MulAtLeast(d - 1, m);
      assert d * m == (d - 1) * m + m;
    }
  }

  /** Euclidean division is unique: a quotient and a remainder in
      `[0, m)` that rebuild `a` are Dafny's `a / m` and `a % m`. */
  lemma EuclidUnique(a: int, m: int, q: int, r: int)
    requires m > 0 && a == q * m + r && 0 <= r < m
    ensures a % m == r && a / m == q
  {
    var q0, r0 := a / m, a % m;
    assert a == q0 * m + r0;
    if q0 < q {
      MulAtLeast(q - q0, m);
    } else if q < q0 {
      MulAtLeast(q0 - q, m);
    }
  }

  /** For a positive `m`, JavaScript's `%` agrees with Dafny's on a
      non-negative `n`, and on a negative `n` differs from it by `m`
      unless `m` divides `n`. */
  lemma TruncRemEuclid(n: int, m: int)
    requires m > 0
    ensures n >= 0 ==> TruncRem(n, m) == n % m
    ensures n < 0 && TruncRem(n, m) != 0 ==> TruncRem(n, m) + m == n % m
    ensures n < 0 && TruncRem(n, m) == 0 ==> n % m == 0
  {
    if n < 0 {
      var p := -n;
      var q, r := p / m, p % m;
      assert p == q * m + r;
      if r == 0 {
        EuclidUnique(n, m, -q, 0);
      } else {
        EuclidUnique(n, m, -q - 1, m - r);
      }
    }
  }

  /** `mod(n, m) = ((n % m) + m) % m` with JavaScript's `%`: for a positive
      `m`, the representative of `n` in `[0, m)`, which is Dafny's own
      (Euclidean) `n % m`. */
  function Mod(n: int, m: int): (r: int)
    requires m != 0
    ensures m > 0 ==> 0 <= r < m && r == n % m
  {
    var inner := TruncRem(n, m) + m;
    if m > 0 then
      TruncRemEuclid(n, m);
      TruncRemEuclid(inner, m);
      var t := TruncRem(n, m);
      if t + m < m then
        EuclidUnique(inner, m, 0, inner);
        TruncRem(inner, m)
      else
        EuclidUnique(inner, m, 1, t);
        TruncRem(inner, m)
    else
      TruncRem(inner, m)
  }

  /** For a positive modulus, `mod` leaves an in-range value alone and
      wraps one step past either end round to the other end. */
  lemma ModWraps(m: int)
    requires m > 0
    ensures forall n :: 0 <= n < m ==> Mod(n, m) == n
    ensures Mod(m, m) == 0 && Mod(-1, m) == m - 1
  {
    forall n | 0 <= n < m
      ensures Mod(n, m) == n
    {
      EuclidUnique(n, m, 0, n);
    }
    EuclidUnique(m, m, 1, 0);
    EuclidUnique(-1, m, -1, m - 1);
  }

  /** `setHour`: the hour wrapped into 0..23, the minute unchanged. */
  function SetHour(value: TimeOfDay, h: int): (t: TimeOfDay)
    ensures 0 <= t.hour < 24 && t.minute == value.minute
    ensures 0 <= h < 24 ==> t.hour == h
  {
    value.(hour := Mod(h, 24))
  }

  /** `setMinute`: the minute wrapped into 0..59, the hour unchanged. */
  function SetMinute(value: TimeOfDay, m: int): (t: TimeOfDay)
    ensures 0 <= t.minute < 60 && t.hour == value.hour
    ensures 0 <= m < 60 ==> t.minute == m
  {
    value.(minute := Mod(m, 60))
  }

  /** The hour field's `onChange`: `input` is `Number(e.target.value)`,
      `None` when that is `NaN`. A number is clamped to 0..23 and set. */
  function HourTyped(value: TimeOfDay, input: Option<int>): (r: Option<TimeOfDay>)
    ensures r.None? <==> input.None?
    ensures r.Some? ==> r.value.hour == Clamp(input.value, 0, 23) && r.value.minute == value.minute
  {
    match input
    case None => None
    case Some(n) => Some(SetHour(value, Clamp(n, 0, 23)))
  }

  /** The minute field's `onChange`, like the hour's with 0..59. */
  function MinuteTyped(value: TimeOfDay, input: Option<int>): (r: Option<TimeOfDay>)
    ensures r.None? <==> input.None?
    ensures r.Some? ==> r.value.minute == Clamp(input.value, 0, 59) && r.value.hour == value.hour
  {
    match input
    case None => None
    case Some(n) => Some(SetMinute(value, Clamp(n, 0, 59)))
  }

  /** One wheel notch: up (`deltaY < 0`) adds one, anything else takes
      one away. */
  function WheelStep(deltaY: int): (step: int)
    ensures step == 1 || step == -1
    ensures step == 1 <==> deltaY < 0
  {
    if deltaY < 0 then 1 else -1
  }

  /** The hour field's `onWheel`: nothing when disabled, else one hour up
      or down, wrapping round the day. */
  function HourWheel(value: TimeOfDay, disabled: bool, deltaY: int): (r: Option<TimeOfDay>)
    ensures r.None? <==> disabled
    ensures r.Some? ==> r.value.hour == (value.hour + WheelStep(deltaY)) % 24 && r.value.minute == value.minute
  {
    if disabled then None else Some(SetHour(value, value.hour + WheelStep(deltaY)))
  }

  /** The minute field's `onWheel`: one minute up or down, wrapping round
      the hour without carrying into it. */
  function MinuteWheel(value: TimeOfDay, disabled: bool, deltaY: int): (r: Option<TimeOfDay>)
    ensures r.None? <==> disabled
    ensures r.Some? ==> r.value.minute == (value.minute + WheelStep(deltaY)) % 60 && r.value.hour == value.hour
  {
    if disabled then None else Some(SetMinute(value, value.minute + WheelStep(deltaY)))
  }

  /** Whatever is typed, a time the picker emits is a valid time once
      both fields have been set through it. */
  lemma TypedTimeValid(value: TimeOfDay, h: int, m: int)
    ensures var t := HourTyped(value, Some(h)).value;
            ValidTime(MinuteTyped(t, Some(m)).value)
    ensures ValidTime(value) ==> ValidTime(HourTyped(value, Some(h)).value)
    ensures ValidTime(value) ==> ValidTime(MinuteTyped(value, Some(m)).value)
  {
  }

  /** The wheel keeps a valid time valid and wraps at the ends: 23 up is 0,
      0 down is 23, 59 up is 0 and 0 down is 59. */
  lemma WheelWrapsAround(value: TimeOfDay)
    requires ValidTime(value)
    ensures forall dy :: ValidTime(HourWheel(value, false, dy).value) && ValidTime(MinuteWheel(value, false, dy).value)
    ensures value.hour == 23 ==> HourWheel(value, false, -1).value.hour == 0
    ensures value.hour == 0 ==> HourWheel(value, false, 1).value.hour == 23
    ensures value.minute == 59 ==> MinuteWheel(value, false, -1).value.minute == 0
    ensures value.minute == 0 ==> MinuteWheel(value, false, 1).value.minute == 59
  {
  }

  /** One notch up then one notch down gives back a valid hour. */
  lemma HourWheelUpThenDown(value: TimeOfDay)
    requires ValidTime(value)
    ensures HourWheel(HourWheel(value, false, -1).value, false, 1) == Some(value)
  {
    var up := SetHour(value, value.hour + 1);
    assert HourWheel(value, false, -1) == Some(up);
    assert HourWheel(up, false, 1) == Some(SetHour(up, up.hour - 1));
    UpThenDown(value.hour, 24);
  }

  /** One notch up then one notch down gives back a valid minute. */
  lemma MinuteWheelUpThenDown(value: TimeOfDay)
    requires ValidTime(value)
    ensures MinuteWheel(MinuteWheel(value, false, -1).value, false, 1) == Some(value)
  {
    var up := SetMinute(value, value.minute + 1);
    assert MinuteWheel(value, false, -1) == Some(up);
    assert MinuteWheel(up, false, 1) == Some(SetMinute(up, up.minute - 1));
    UpThenDown(value.minute, 60);
  }

  /** Wrapping one step up and then one step down returns to the start. */
  lemma UpThenDown(x: int, m: int)
    requires 0 <= x < m
    ensures Mod(Mod(x + 1, m) - 1, m) == x
  {
    if x + 1 == m {
      EuclidUnique(x + 1, m, 1, 0);
      EuclidUnique(-1, m, -1, m - 1);
    } else {
      EuclidUnique(x + 1, m, 0, x + 1);
      EuclidUnique(x, m, 0, x);
    }
  }
}

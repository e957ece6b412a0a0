/** The field-condition map of a battle and the volatile-condition map of a
    creature, as the bot rewrites them from what the condition screen shows. */
module Conditions {

  /** One entry of a condition map. A Python int n is Int(n); the complex
      number re + im*1j that a countdown entry holds once it has been counted
      down is Complex(re, im); the per-side list [a, b] is PerSide(a, b). */
  datatype CondValue =
    | Int(n: int)
    | Complex(re: int, im: int)
    | PerSide(side0: int, side1: int)

  /** The outcome of a rewrite that Python may abandon with a TypeError. */
  datatype Outcome<T> = Done(value: T) | RaisesTypeError

  /** What the condition screen shows: condition name to remaining turns or count. */
  type Observation = map<string, int>

  const AuroraVeil := "auroraveil"
  const Reflector := "reflector"
  const LightWall := "lightwall"
  const Wish := "wish"
  const BadPoison := "badpoison"
  const Confusion := "confusion"
  const Bind := "bind"

  function Max(a: int, b: int): int { if a >= b then a else b }

  /** The real part of a number entry (`.real`, which an int also has). */
  function Re(v: CondValue): int
    requires !v.PerSide?
  {
    if v.Int? then v.n else v.re
  }

  /** The imaginary part of a number entry (`.imag`, 0 for an int). */
  function Im(v: CondValue): int
    requires !v.PerSide?
  {
    if v.Int? then 0 else v.im
  }

  /** Slot `player` of a per-side entry. */
  function Side(v: CondValue, player: nat): int
    requires v.PerSide? && player < 2
  {
    if player == 0 then v.side0 else v.side1
  }

  /** The per-side entry with slot `player` replaced by x. */
  function SetSide(v: CondValue, player: nat, x: int): (r: CondValue)
    requires v.PerSide? && player < 2
    ensures r.PerSide?
    ensures Side(r, player) == x && Side(r, 1 - player) == Side(v, 1 - player)
  {
    if player == 0 then PerSide(x, v.side1) else PerSide(v.side0, x)
  }

  /** The value an entry missing from the observation falls back to:
      [0, 0] for a per-side list, the int 0 for anything else. */
  function Reset(v: CondValue): (r: CondValue)
    ensures r.PerSide? <==> v.PerSide?
    ensures r.PerSide? ==> r.side0 == 0 && r.side1 == 0
    ensures !r.PerSide? ==> r == Int(0)
  {
    if v.PerSide? then PerSide(0, 0) else Int(0)
  }

  /** One turn off a countdown, max(1, v.real - 1) + 1j * v.imag: the count
      drops by one but never below 1, the imaginary part is kept, and the
      result is a complex number whatever v was. */
  function Countdown(v: CondValue): (r: CondValue)
    requires !v.PerSide?
    ensures r.Complex? && r.im == Im(v) && r.re >= 1
    ensures Re(v) > 1 ==> r.re == Re(v) - 1
    ensures Re(v) <= 1 ==> r.re == 1
  {
    Complex(Max(1, Re(v) - 1), Im(v))
  }

  /** `+= 1` on a number entry: the real part goes up by one, the imaginary
      part is kept, and an int stays an int. */
  function Incremented(v: CondValue): (r: CondValue)
    requires !v.PerSide?
    ensures r.Int? <==> v.Int?
    ensures !r.PerSide? && Re(r) == Re(v) + 1 && Im(r) == Im(v)
  {
    if v.Int? then Int(v.n + 1) else Complex(v.re + 1, v.im)
  }

  /** An aurora veil is shown as one entry but recorded as both screens:
      reflector and light wall take its value and the veil entry goes away. */
  function WithScreens(obs: Observation): (r: Observation)
    ensures AuroraVeil !in obs ==> r == obs
    ensures AuroraVeil in obs ==>
              && r.Keys == obs.Keys - {AuroraVeil} + {Reflector, LightWall}
              && r[Reflector] == obs[AuroraVeil]
              && r[LightWall] == obs[AuroraVeil]
    ensures forall k :: k in obs && k != AuroraVeil && k != Reflector && k != LightWall
                        ==> k in r && r[k] == obs[k]
  {
    if AuroraVeil in obs then
      var v := obs[AuroraVeil];
      obs[Reflector := v][LightWall := v] - {AuroraVeil}
    else
      obs
  }

  /** What the field map must look like for the rewrite not to raise: outside
      the global keys, the wish entry is a number and every other entry is a
      per-side list. */
  ghost predicate FieldLayout(field: map<string, CondValue>, globals: set<string>)
  {
    forall k :: k in field && k !in globals ==> (field[k].PerSide? <==> k != Wish)
  }

  /** A creature's volatile conditions are numbers, never per-side lists. */
  ghost predicate VolatileLayout(vol: map<string, CondValue>)
  {
    forall k :: k in vol ==> !vol[k].PerSide?
  }

  /** The new value of a field entry that the observation mentions: a global
      entry takes the shown int, a wish counts down, any other entry is a
      per-side list whose player slot takes the shown value. */
  function FieldEntry(key: string, v: CondValue, x: int, player: nat, globals: set<string>): (r: CondValue)
    requires player < 2
    requires key !in globals ==> (v.PerSide? <==> key != Wish)
    ensures key in globals ==> r == Int(x)
    ensures key !in globals && key == Wish ==>
              r.Complex? && r.re == Max(1, Re(v) - 1) && r.im == Im(v)
    ensures key !in globals && key != Wish ==>
              && r.PerSide?
              && Side(r, player) == x
              && Side(r, 1 - player) == Side(v, 1 - player)
  {
    if key in globals then Int(x)
    else if key == Wish then Countdown(v)
    else SetSide(v, player, x)
  }

  /** The field map after the rewrite, given the observation with the aurora
      veil already split into both screens. */
  function FieldAfter(field: map<string, CondValue>, globals: set<string>, player: nat,
                      obs: Observation): (r: map<string, CondValue>)
    requires player < 2
    requires FieldLayout(field, globals)
    ensures r.Keys == field.Keys
    ensures FieldLayout(r, globals)
    // an entry the screen does not show is reset
    ensures forall k :: k in field && k !in obs ==> r[k] == Reset(field[k])
    // a global entry the screen shows is overwritten verbatim
    ensures forall k :: k in field && k in obs && k in globals ==> r[k] == Int(obs[k])
    // a per-side entry changes only in the player's slot
    ensures forall k :: k in field && k in obs && k !in globals && k != Wish ==>
              && r[k].PerSide?
              && Side(r[k], player) == obs[k]
              && Side(r[k], 1 - player) == Side(field[k], 1 - player)
    // a wish the screen shows counts down, keeping its imaginary part
    ensures Wish in field && Wish in obs && Wish !in globals ==>
              r[Wish].Complex? && r[Wish].im == Im(field[Wish])
              && r[Wish].re == Max(1, Re(field[Wish]) - 1)
  {
    map k | k in field ::
      if k in obs then FieldEntry(k, field[k], obs[k], player, globals) else Reset(field[k])
  }

  /** The new value of a volatile entry that the observation mentions. The bad
      poison counter goes up by one whatever the screen shows; confusion and
      binding count down, reading the count through its real part as the wish
      countdown does; everything else takes the shown int. */
  function VolatileEntry(key: string, v: CondValue, x: int): (r: CondValue)
    requires !v.PerSide?
    ensures !r.PerSide?
    ensures key == BadPoison ==> r == Incremented(v)
    ensures (key == Confusion || key == Bind) ==>
              r.Complex? && r.re == Max(1, Re(v) - 1) && r.im == Im(v)
    ensures key != BadPoison && key != Confusion && key != Bind ==> r == Int(x)
  {
    if key == BadPoison then Incremented(v)
    else if key == Confusion || key == Bind then Countdown(v)
    else Int(x)
  }

  /** The creature's volatile map after the rewrite. A key that is both a field
      key and a volatile key is handled as a field key only, so a shown value
      leaves its volatile entry alone; an absent key is still reset to 0. */
  function VolatileAfter(field: map<string, CondValue>, vol: map<string, CondValue>,
                         obs: Observation): (r: map<string, CondValue>)
    requires VolatileLayout(vol)
    ensures r.Keys == vol.Keys
    ensures VolatileLayout(r)
    ensures forall k :: k in vol && k !in obs ==> r[k] == Int(0)
    ensures forall k :: k in vol && k in obs && k in field ==> r[k] == vol[k]
    ensures BadPoison in vol && BadPoison in obs && BadPoison !in field ==>
              && (r[BadPoison].Int? <==> vol[BadPoison].Int?)
              && Re(r[BadPoison]) == Re(vol[BadPoison]) + 1
              && Im(r[BadPoison]) == Im(vol[BadPoison])
    ensures forall k :: k in vol && k in obs && k !in field && (k == Confusion || k == Bind) ==>
              r[k].Complex? && r[k].im == Im(vol[k]) && r[k].re == Max(1, Re(vol[k]) - 1)
    ensures forall k :: (k in vol && k in obs && k !in field
                         && k != BadPoison && k != Confusion && k != Bind) ==> r[k] == Int(obs[k])
  {
    map k | k in vol ::
      if k !in obs then Int(0)
      else if k in field then vol[k]
      else VolatileEntry(k, vol[k], obs[k])
  }

  /** A confusion or bind entry that the rewrite itself would reach: shown,
      held by the creature and not a field key. */
  predicate CountedDown(field: map<string, CondValue>, vol: map<string, CondValue>,
                        obs: Observation, k: string)
  {
    k in vol && k in obs && k !in field && (k == Confusion || k == Bind)
  }

  /** `v - 1` on a number entry: an int stays an int and a complex number
      stays complex, with its imaginary part kept. */
  function Decremented(v: CondValue): (r: CondValue)
    requires !v.PerSide?
    ensures r.Int? <==> v.Int?
    ensures !r.PerSide? && Re(r) == Re(v) - 1 && Im(r) == Im(v)
  {
    if v.Int? then Int(v.n - 1) else Complex(v.re - 1, v.im)
  }

  /** `max(1, x)`: Python orders an int against 1 but refuses to order a
      complex number, even one whose imaginary part is 0. */
  function MaxWithOne(x: CondValue): (r: Outcome<int>)
    requires !x.PerSide?
    ensures r.RaisesTypeError? <==> x.Complex?
    ensures r.Done? ==> r.value >= 1 && r.value >= x.n && (r.value == 1 || r.value == x.n)
  {
    if x.Int? then Done(Max(1, x.n)) else RaisesTypeError
  }

  /** The countdown of pokepy/pokebot.py:332 as written,
      `max(1, v - 1) + 1j * v.imag`: the whole entry, not its real part, is
      compared with 1, and adding `1j * v.imag` makes the result complex. */
  function CountdownAsWritten(v: CondValue): (r: Outcome<CondValue>)
    requires !v.PerSide?
    ensures r.Done? ==> r.value.Complex? && r.value.im == Im(v)
  {
    match MaxWithOne(Decremented(v))
    case Done(m) => Done(Complex(m, Im(v)))
    case RaisesTypeError => RaisesTypeError
  }

  /** The as-written countdown agrees with the corrected one on an int and
      raises on a complex number. */
  lemma CountdownAsWrittenOnlyForInts(v: CondValue)
    requires !v.PerSide?
    ensures v.Int? ==> CountdownAsWritten(v) == Done(Countdown(v))
    ensures v.Complex? ==> CountdownAsWritten(v) == RaisesTypeError
  {
  }

  /** One shown volatile entry rewritten as lines 329-334 are written. */
  function VolatileEntryAsWritten(key: string, v: CondValue, x: int): (r: Outcome<CondValue>)
    requires !v.PerSide?
    ensures r.Done? ==> !r.value.PerSide?
    ensures key != Confusion && key != Bind ==> r.Done?
  {
    if key == BadPoison then Done(Incremented(v))
    else if key == Confusion || key == Bind then CountdownAsWritten(v)
    else Done(Int(x))
  }

  /** The creature's volatile map after the rewrite as written: each shown
      key of the creature that is not a field key goes through
      `VolatileEntryAsWritten`, and the rewrite raises if any of them does. */
  function VolatileAfterAsWritten(field: map<string, CondValue>, vol: map<string, CondValue>,
                                  obs: Observation): (r: Outcome<map<string, CondValue>>)
    requires VolatileLayout(vol)
    ensures r.Done? ==> r.value.Keys == vol.Keys && VolatileLayout(r.value)
  {
    if exists k :: k in vol && k in obs && k !in field
                   && VolatileEntryAsWritten(k, vol[k], obs[k]).RaisesTypeError?
    then RaisesTypeError
    else
      Done(map k | k in vol ::
             if k !in obs then Int(0)
             else if k in field then vol[k]
             else VolatileEntryAsWritten(k, vol[k], obs[k]).value)
  }

  /** The rewrite as written raises exactly when a counted-down confusion or
      bind entry is already complex, and otherwise it equals the corrected
      rewrite. */
  lemma AsWrittenRaisesExactlyOnComplex(field: map<string, CondValue>, vol: map<string, CondValue>,
                                        obs: Observation)
    requires VolatileLayout(vol)
    ensures VolatileAfterAsWritten(field, vol, obs).RaisesTypeError? <==>
              exists k :: k in vol && CountedDown(field, vol, obs, k) && vol[k].Complex?
    ensures VolatileAfterAsWritten(field, vol, obs).Done? ==>
              VolatileAfterAsWritten(field, vol, obs).value == VolatileAfter(field, vol, obs)
  {
  }

  /** The as-written rewrite cannot be repeated: whenever it succeeds and a
      confusion or bind entry was counted down, that entry is now complex, so
      the same screen shown on the next turn raises. */
  lemma AsWrittenFailsOnSecondCountdown(field: map<string, CondValue>, vol: map<string, CondValue>,
                                        obs: Observation, k: string)
    requires VolatileLayout(vol)
    requires VolatileAfterAsWritten(field, vol, obs).Done?
    requires CountedDown(field, vol, obs, k)
    ensures var once := VolatileAfterAsWritten(field, vol, obs).value;
            VolatileAfterAsWritten(field, once, obs).RaisesTypeError?
  {
  }

  /** The input that shows the fault: confusion held as the int 3 and shown on
      two screens running is stored as 2+0j the first time, and the second
      rewrite raises. */
  lemma ConfusionShownTwiceRaises()
    ensures VolatileAfterAsWritten(map[], map[Confusion := Int(3)], map[Confusion := 2])
            == Done(map[Confusion := Complex(2, 0)])
    ensures VolatileAfterAsWritten(map[], map[Confusion := Complex(2, 0)], map[Confusion := 2])
            .RaisesTypeError?
  {
    var field: map<string, CondValue> := map[];
    var vol, obs := map[Confusion := Int(3)], map[Confusion := 2];
    assert VolatileEntryAsWritten(Confusion, vol[Confusion], 2) == Done(Complex(2, 0));
    assert !exists k :: k in vol && k in obs && k !in field
                        && VolatileEntryAsWritten(k, vol[k], obs[k]).RaisesTypeError?;
    var once := VolatileAfterAsWritten(field, vol, obs);
    assert once.value.Keys == {Confusion} && once.value[Confusion] == Complex(2, 0);
    assert once.value == map[Confusion := Complex(2, 0)];
  }

  /** The volatile map after the same screen has been shown t turns running,
      under the corrected rewrite. */
  ghost function Turns(field: map<string, CondValue>, vol: map<string, CondValue>,
                       obs: Observation, t: nat): (r: map<string, CondValue>)
    requires VolatileLayout(vol)
    ensures VolatileLayout(r) && r.Keys == vol.Keys
  {
    if t == 0 then vol else VolatileAfter(field, Turns(field, vol, obs, t - 1), obs)
  }

  /** Under the corrected rewrite a confusion or bind countdown shown for t
      turns running has dropped by t, never below 1, and keeps its imaginary
      part: every turn succeeds. */
  lemma {:induction false} CountdownOverTurns(field: map<string, CondValue>,
                                              vol: map<string, CondValue>,
                                              obs: Observation, k: string, t: nat)
    requires VolatileLayout(vol)
    requires CountedDown(field, vol, obs, k) && t >= 1
    ensures Turns(field, vol, obs, t)[k] == Complex(Max(1, Re(vol[k]) - t), Im(vol[k]))
  {
    if t > 1 {
      CountdownOverTurns(field, vol, obs, k, t - 1);
    }
  }

  /** A shown aurora veil lands on the player's slot of both screens (when they
      are per-side entries) and the other side's screens are kept. */
  lemma AuroraVeilSetsBothScreens(field: map<string, CondValue>, globals: set<string>,
                                  player: nat, observed: Observation)
    requires player < 2
    requires FieldLayout(field, globals)
    requires AuroraVeil in observed
    requires Reflector in field && Reflector !in globals
    requires LightWall in field && LightWall !in globals
    ensures var r := FieldAfter(field, globals, player, WithScreens(observed));
            && Side(r[Reflector], player) == observed[AuroraVeil]
            && Side(r[LightWall], player) == observed[AuroraVeil]
            && Side(r[Reflector], 1 - player) == Side(field[Reflector], 1 - player)
            && Side(r[LightWall], 1 - player) == Side(field[LightWall], 1 - player)
  {
  }

  /** Showing the same screen twice changes nothing more in the global and
      per-side entries: only the wish countdown moves on. */
  lemma RepeatedObservationStable(field: map<string, CondValue>, globals: set<string>,
                                  player: nat, obs: Observation, k: string)
    requires player < 2
    requires FieldLayout(field, globals)
    requires k in field && (k in globals || k != Wish)
    ensures var once := FieldAfter(field, globals, player, obs);
            FieldAfter(once, globals, player, obs)[k] == once[k]
  {
  }
}

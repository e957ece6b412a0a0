/** The parts of a battling creature that the bot's bookkeeping updates:
    move PP, the volatile-condition map, and for an opponent the bracket
    [min, max] its speed is known to lie in. */
module Creatures {
  import opened Commands
  import opened Conditions

  datatype Option<T> = None | Some(value: T)

  /** The ability that makes every move of the other side cost two PP. */
  const Pressure := "プレッシャー"

  /** The bracket a newly seen opponent starts from. */
  const SlowestSpeed := 0
  const FastestSpeed := 999

  /** Position of the first occurrence, as Python's list.index. */
  function FirstIndex(s: seq<string>, x: string): (i: nat)
    requires x in s
    ensures i < |s| && s[i] == x
    ensures forall j :: 0 <= j < i ==> s[j] != x
  {
    if s[0] == x then 0 else 1 + FirstIndex(s[1..], x)
  }

  /** PP one use costs: 2 when the other active creature has Pressure. */
  function PpCost(otherAbility: string): (cost: nat)
    ensures otherAbility == Pressure ==> cost == 2
    ensures otherAbility != Pressure ==> cost == 1
  {
    if otherAbility == Pressure then 2 else 1
  }

  datatype SpeedRange = SpeedRange(lo: int, hi: int)

  /** One turn-order observation between two moves of equal priority: whether
      the opponent moved first, and the speed (own speed divided by the
      opponent's speed multiplier) that it must then be at least, or else at
      most. */
  datatype SpeedObservation = SpeedObservation(opponentFirst: bool, bound: int)

  predicate Consistent(speed: int, o: SpeedObservation)
  {
    if o.opponentFirst then speed >= o.bound else speed <= o.bound
  }

  /** The bracket after one observation: the lower end rises to the bound when
      the opponent moved first, otherwise the upper end falls to it. */
  function Narrowed(r: SpeedRange, o: SpeedObservation): (r': SpeedRange)
    ensures r'.lo >= r.lo && r'.hi <= r.hi
    ensures o.opponentFirst ==> r'.hi == r.hi && r'.lo >= o.bound && (r'.lo == r.lo || r'.lo == o.bound)
    ensures !o.opponentFirst ==> r'.lo == r.lo && r'.hi <= o.bound && (r'.hi == r.hi || r'.hi == o.bound)
  {
    if o.opponentFirst then SpeedRange(Max(r.lo, o.bound), r.hi)
    else SpeedRange(r.lo, if r.hi <= o.bound then r.hi else o.bound)
  }

  /** The bracket after a sequence of observations, one per turn. */
  function NarrowedAll(r: SpeedRange, obs: seq<SpeedObservation>): SpeedRange
    decreases |obs|
  {
    if obs == [] then r else NarrowedAll(Narrowed(r, obs[0]), obs[1..])
  }

  /** A speed that was in the bracket and agrees with every observation is
      still in the bracket: narrowing never excludes the true speed. */
  lemma {:induction false} NarrowingSound(r: SpeedRange, obs: seq<SpeedObservation>, speed: int)
    requires r.lo <= speed <= r.hi
    requires forall i :: 0 <= i < |obs| ==> Consistent(speed, obs[i])
    ensures NarrowedAll(r, obs).lo <= speed <= NarrowedAll(r, obs).hi
    decreases |obs|
  {
    if obs != [] {
      assert Consistent(speed, obs[0]);
      forall i | 0 <= i < |obs[1..]| ensures Consistent(speed, obs[1..][i]) {
        assert obs[1..][i] == obs[i + 1];
      }
      NarrowingSound(Narrowed(r, obs[0]), obs[1..], speed);
    }
  }

  /** However many turns are observed, the bracket only ever shrinks. */
  lemma {:induction false} NarrowingNeverWidens(r: SpeedRange, obs: seq<SpeedObservation>)
    ensures NarrowedAll(r, obs).lo >= r.lo && NarrowedAll(r, obs).hi <= r.hi
    decreases |obs|
  {
    if obs != [] {
      NarrowingNeverWidens(Narrowed(r, obs[0]), obs[1..]);
    }
  }

  /** Two observations give the same bracket in either order. */
  lemma NarrowingCommutes(r: SpeedRange, a: SpeedObservation, b: SpeedObservation)
    ensures Narrowed(Narrowed(r, a), b) == Narrowed(Narrowed(r, b), a)
  {
  }

  /** A creature as far as the bot's bookkeeping touches it. */
  class Creature {
    var moves: seq<string>
    var pp: seq<int>
    var terastal: bool
    var ability: string
    var condition: map<string, CondValue>
    var speedRange: SpeedRange

    ghost predicate Valid()
      reads this
    {
      && |pp| == |moves| <= MaxMoves
      && VolatileLayout(condition)
    }

    /** A creature the bot has just seen: its speed is only known to lie in
        the widest bracket. */
    constructor (moves: seq<string>, pp: seq<int>, ability: string, condition: map<string, CondValue>)
      requires |pp| == |moves| <= MaxMoves && VolatileLayout(condition)
      ensures Valid()
      ensures this.moves == moves && this.pp == pp && this.ability == ability
      ensures this.condition == condition && !terastal
      ensures speedRange == SpeedRange(SlowestSpeed, FastestSpeed)
    {
      this.moves := moves;
      this.pp := pp;
      this.terastal := false;
      this.ability := ability;
      this.condition := condition;
      this.speedRange := SpeedRange(SlowestSpeed, FastestSpeed);
    }

    /** One use of a move this creature is known to have: its PP goes down by
        one, or by two against Pressure, no other entry changes, and the slot's
        command code (with the terastal flag) is returned. For a move not in
        the list nothing changes and no code is returned. */
    method SpendPp(move: string, otherAbility: string) returns (code: Option<int>)
      requires Valid()
      modifies this`pp
      ensures Valid()
      ensures move !in moves ==> pp == old(pp) && code == None
      ensures move in moves ==>
                var ind := FirstIndex(moves, move);
                && |pp| == |old(pp)|
                && pp[ind] == old(pp)[ind] - PpCost(otherAbility)
                && (forall j :: 0 <= j < |pp| && j != ind ==> pp[j] == old(pp)[j])
                && code == Some(EncodeMove(ind, terastal))
    {
      if move in moves {
        var ind := FirstIndex(moves, move);
        pp := pp[ind := pp[ind] - (if otherAbility == Pressure then 2 else 1)];
        code := Some(ind + 10 * (if terastal then 1 else 0));
      } else {
        code := None;
      }
    }

    /** The bracket update of one observed turn order. */
    method NarrowSpeed(o: SpeedObservation)
      modifies this`speedRange
      ensures speedRange == Narrowed(old(speedRange), o)
    {
      if o.opponentFirst {
        speedRange := speedRange.(lo := Max(speedRange.lo, o.bound));
      } else {
        speedRange := speedRange.(hi := if speedRange.hi <= o.bound then speedRange.hi else o.bound);
      }
    }
  }
}

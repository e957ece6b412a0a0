/** The bot's own state between screen readings: the battle's field
    conditions, the two recorded commands and the buffer of entries read from
    battle text. The active creatures are passed to the operations that touch
    them. */
module Bot {
  import opened Commands
  import opened Conditions
  import opened Creatures
  import opened Events

  class Pokebot {
    /** The field keys whose value is one number for the whole field rather
        than one per side: the first ten keys of the battle's condition map. */
    const globals: set<string>
    var condition: map<string, CondValue>
    var command: seq<int>
    var processBuffer: seq<Event>

    ghost predicate Valid()
      reads this
    {
      FieldLayout(condition, globals) && |command| == 2
    }

    constructor (globals: set<string>, condition: map<string, CondValue>, command: seq<int>)
      requires FieldLayout(condition, globals) && |command| == 2
      ensures Valid()
      ensures this.globals == globals && this.condition == condition && this.command == command
      ensures processBuffer == []
    {
      this.globals := globals;
      this.condition := condition;
      this.command := command;
      this.processBuffer := [];
    }

    /** Overwrite the field conditions and those of player's active creature p
        with what the condition screen shows. */
    method OverwriteCondition(player: nat, p: Creature, observed: Observation)
      requires player < 2
      requires Valid() && p.Valid()
      modifies this`condition, p`condition
      ensures Valid() && p.Valid()
      ensures condition == FieldAfter(old(condition), globals, player, WithScreens(observed))
      ensures p.condition == VolatileAfter(old(condition), old(p.condition), WithScreens(observed))
    {
      var obs := WithScreens(observed);
      ResetUnshown(p, obs);
      ApplyShown(player, p, obs);
    }

    /** The first two loops of the overwrite: every field entry and every
        volatile entry the screen does not show is reset. */
    method ResetUnshown(p: Creature, obs: Observation)
      modifies this`condition, p`condition
      ensures condition.Keys == old(condition).Keys && p.condition.Keys == old(p.condition).Keys
      ensures forall k :: k in old(condition) ==>
                condition[k] == if k in obs then old(condition)[k] else Reset(old(condition)[k])
      ensures forall k :: k in old(p.condition) ==>
                p.condition[k] == if k in obs then old(p.condition)[k] else Int(0)
    {
      ghost var field0, vol0 := condition, p.condition;
      var todo := condition.Keys;
      while todo != {}
        invariant todo <= field0.Keys && condition.Keys == field0.Keys && p.condition == vol0
        invariant forall k :: k in field0 ==>
                    condition[k] == if k in todo || k in obs then field0[k] else Reset(field0[k])
        decreases todo
      {
        var s :| s in todo;
        if s !in obs {
          condition := condition[s := Reset(condition[s])];
        }
        todo := todo - {s};
      }
      ghost var reset := condition;
      todo := p.condition.Keys;
      while todo != {}
        invariant condition == reset
        invariant todo <= vol0.Keys && p.condition.Keys == vol0.Keys
        invariant forall k :: k in vol0 ==>
                    p.condition[k] == if k in todo || k in obs then vol0[k] else Int(0)
        decreases todo
      {
        var s :| s in todo;
        if s !in obs {
          p.condition := p.condition[s := Int(0)];
        }
        todo := todo - {s};
      }
    }

    /** The last loop of the overwrite: every entry the screen shows is
        updated, on the field if it is a field key, else on the creature. */
    method ApplyShown(player: nat, p: Creature, obs: Observation)
      requires player < 2
      requires Valid() && p.Valid()
      modifies this`condition, p`condition
      ensures Valid() && p.Valid()
      ensures condition.Keys == old(condition).Keys && p.condition.Keys == old(p.condition).Keys
      ensures forall k :: k in old(condition) ==>
                condition[k] == if k in obs then FieldEntry(k, old(condition)[k], obs[k], player, globals)
                                else old(condition)[k]
      ensures forall k :: k in old(p.condition) ==>
                p.condition[k] == if k in obs && k !in old(condition)
                                  then VolatileEntry(k, old(p.condition)[k], obs[k])
                                  else old(p.condition)[k]
    {
      ghost var field0, vol0 := condition, p.condition;
      var todo := obs.Keys;
      while todo != {}
        invariant todo <= obs.Keys
        invariant condition.Keys == field0.Keys && p.condition.Keys == vol0.Keys
        invariant forall k :: k in field0 ==>
                    condition[k] == if k in obs && k !in todo
                                    then FieldEntry(k, field0[k], obs[k], player, globals)
                                    else field0[k]
        invariant forall k :: k in vol0 ==>
                    p.condition[k] == if k in obs && k !in todo && k !in field0
                                      then VolatileEntry(k, vol0[k], obs[k])
                                      else vol0[k]
        decreases todo
      {
        var s :| s in todo;
        if s in condition {
          if s in globals {
            condition := condition[s := Int(obs[s])];
          } else if s == Wish {
            var w := condition[s];
            condition := condition[s := Complex(Max(1, Re(w) - 1), Im(w))];
          } else {
            condition := condition[s := SetSide(condition[s], player, obs[s])];
          }
        } else if s in p.condition {
          var c := p.condition[s];
          if s == BadPoison {
            p.condition := p.condition[s := if c.Int? then Int(c.n + 1) else Complex(c.re + 1, c.im)];
          } else if s == Confusion || s == Bind {
            // read through the real part, as the wish countdown does; see
            // the Findings section of README.md for the code as written
            p.condition := p.condition[s := Complex(Max(1, Re(c) - 1), Im(c))];
          } else {
            p.condition := p.condition[s := Int(obs[s])];
          }
        }
        todo := todo - {s};
      }
    }

    /** read_ability_text's final step: append the entry unless an equal one
        is already buffered, and say whether it was appended. */
    method RecordAbilityText(e: Event) returns (appended: bool)
      modifies this`processBuffer
      ensures appended <==> e !in old(processBuffer)
      ensures processBuffer == WithEvent(old(processBuffer), e)
    {
      if e !in processBuffer {
        processBuffer := processBuffer + [e];
        appended := true;
      } else {
        appended := false;
      }
    }

    /** read_bottom_text's final step: as above, but an entry with nothing
        beyond the player and display name is never appended. */
    method RecordBottomText(e: Event) returns (appended: bool)
      modifies this`processBuffer
      ensures appended <==> (!e.info.NoDetail? && e !in old(processBuffer))
      ensures processBuffer == if e.info.NoDetail? then old(processBuffer) else WithEvent(old(processBuffer), e)
    {
      if !e.info.NoDetail? && e !in processBuffer {
        processBuffer := processBuffer + [e];
        appended := true;
      } else {
        appended := false;
      }
    }

    /** A failure, miss or critical-hit message attaches to the last buffered
        entry when that entry is a move; otherwise nothing changes. */
    method MarkLastMove(mark: Mark) returns (marked: bool)
      modifies this`processBuffer
      ensures marked <==> (old(processBuffer) != [] && Last(old(processBuffer)).info.Move?)
      ensures |processBuffer| == |old(processBuffer)|
      ensures !marked ==> processBuffer == old(processBuffer)
      ensures marked ==>
                var n := |processBuffer| - 1;
                && processBuffer[..n] == old(processBuffer)[..n]
                && processBuffer[n] == old(processBuffer)[n].(info := Marked(old(processBuffer)[n].info, mark))
    {
      if processBuffer != [] && processBuffer[|processBuffer| - 1].info.Move? {
        var n := |processBuffer| - 1;
        var last := processBuffer[n];
        var info := match mark
          case Failed => last.info.(wasValid := false)
          case Missed => last.info.(hit := false)
          case CriticalHit => last.info.(critical := true);
        processBuffer := processBuffer[n := last.(info := info)];
        marked := true;
      } else {
        marked := false;
      }
    }

    /** One plain use of a move by player's creature p: PP bookkeeping, and for
        the opponent the move's command code is recorded. */
    method RecordMoveUse(player: nat, p: Creature, move: string, otherAbility: string)
      requires player < 2 && Valid() && p.Valid()
      modifies p`pp, this`command
      ensures Valid() && p.Valid()
      ensures move !in p.moves ==> p.pp == old(p.pp) && command == old(command)
      ensures move in p.moves ==>
                var ind := FirstIndex(p.moves, move);
                && |p.pp| == |old(p.pp)|
                && p.pp[ind] == old(p.pp)[ind] - PpCost(otherAbility)
                && (forall j :: 0 <= j < |p.pp| && j != ind ==> p.pp[j] == old(p.pp)[j])
                && command == if player == 1 then old(command)[1 := EncodeMove(ind, p.terastal)]
                              else old(command)
    {
      var code := p.SpendPp(move, otherAbility);
      if player == 1 && code.Some? {
        command := command[1 := code.value];
      }
    }

    /** The tail of read_buffer: when exactly two equal-priority moves were
        seen, the opponent's speed bracket is narrowed by the bound derived
        from the other side's speed. */
    method BracketOpponentSpeed(order: seq<Event>, opponent: Creature, bound: int)
      requires forall e :: e in order ==> e.info.Move?
      requires |order| == 2 ==> order[0].player == 1 || order[1].player == 1
      modifies opponent`speedRange
      ensures |order| == 2 && order[0].info.moveSpeed == order[1].info.moveSpeed ==>
                opponent.speedRange
                == Narrowed(old(opponent.speedRange), SpeedObservation(order[0].player == 1, bound))
      ensures !(|order| == 2 && order[0].info.moveSpeed == order[1].info.moveSpeed) ==>
                opponent.speedRange == old(opponent.speedRange)
    {
      if |order| == 2 && order[0].info.moveSpeed == order[1].info.moveSpeed {
        var e := if order[0].player == 1 then 0 else 1;
        opponent.NarrowSpeed(SpeedObservation(e == 0, bound));
      }
    }
  }

  function Last(s: seq<Event>): Event
    requires s != []
  {
    s[|s| - 1]
  }
}

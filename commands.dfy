/** Battle command codes exchanged between the decision policy and the bot.
    A code 0..9 selects a move, 10..19 selects a move while terastallizing,
    20..25 switches to a selected creature; the move branch also takes 30. */
module Commands {

  /** What the bot does with a command code before any button is pressed. */
  datatype BattleCommand =
    | UseMove(index: nat, terastal: bool)
    | SwitchTo(target: nat)
    | Invalid

  const MaxMoves: nat := 10
  const SwitchBase: int := 20
  const SwitchLimit: int := 26
  const ExtraMoveCode: int := 30

  /** Classification of a code as done by the branches of input_battle_command:
      a move when the code is below 20 or is 30, a switch for 20..25, otherwise
      rejected. The move slot is the code modulo 10 (Python's modulo agrees with
      Dafny's here because the divisor is positive) and the terastal button is
      pressed whenever the code is at least 10, which includes 30. */
  function Decode(cmd: int): (c: BattleCommand)
    ensures c.UseMove? <==> cmd < SwitchBase || cmd == ExtraMoveCode
    ensures c.SwitchTo? <==> SwitchBase <= cmd < SwitchLimit
    ensures c.Invalid? <==> (SwitchLimit <= cmd && cmd != ExtraMoveCode)
    ensures c.UseMove? ==> c.index < MaxMoves && c.index == cmd % 10
                           && (c.terastal <==> cmd >= 10)
    ensures c.SwitchTo? ==> c.target as int + SwitchBase == cmd
  {
    if cmd < SwitchBase || cmd == ExtraMoveCode then
      UseMove(cmd % 10, cmd >= 10)
    else if SwitchBase <= cmd < SwitchLimit then
      SwitchTo(cmd - SwitchBase)
    else
      Invalid
  }

  /** The code the bot records for an opponent's move in slot ind,
      ind + 10 * terastal with the flag read as 0 or 1. */
  function EncodeMove(ind: nat, terastal: bool): (cmd: int)
    requires ind < MaxMoves
    ensures 0 <= cmd < SwitchBase
    ensures cmd % 10 == ind && (cmd >= 10 <==> terastal)
  {
    ind + 10 * (if terastal then 1 else 0)
  }

  /** Encoding a move then decoding it gives back the slot and the flag. */
  lemma MoveRoundTrip(ind: nat, terastal: bool)
    requires ind < MaxMoves
    ensures Decode(EncodeMove(ind, terastal)) == UseMove(ind, terastal)
  {
  }

  /** Every code below 20 that is not negative is the encoding of what it decodes to. */
  lemma MoveCodeRoundTrip(cmd: int)
    requires 0 <= cmd < SwitchBase
    ensures Decode(cmd).UseMove?
    ensures EncodeMove(Decode(cmd).index, Decode(cmd).terastal) == cmd
  {
  }

  /** Code 30 is taken as a move in slot 0 with the terastal flag set, since
      it passes both the "below 20 or 30" test and the "at least 10" test. */
  lemma ExtraMoveCodeDecodesAsTerastalMove()
    ensures Decode(ExtraMoveCode) == UseMove(0, true)
  {
  }

  /** How input_battle_command ends up before it moves the move cursor or
      the switch cursor. */
  datatype InputCheck = Proceeds | Refused | RaisesIndexError

  /** The checks input_battle_command makes up to the point where it moves
      the move cursor (for a move) or names the switch target (for a switch).
      pp is the PP list as re-read from the screen just before the PP test and
      selected is the number of creatures selected for the battle. A move whose
      slot is past the PP list and a switch whose target is past the selected
      list raise IndexError; a move whose slot shows 0 PP and an out-of-range
      code are refused; anything else goes on. */
  function CheckBeforeCursor(cmd: int, pp: seq<int>, selected: nat): (r: InputCheck)
    ensures Decode(cmd).Invalid? ==> r == Refused
    ensures Decode(cmd).UseMove? ==> (r == RaisesIndexError <==> cmd % 10 >= |pp|)
    ensures Decode(cmd).UseMove? && cmd % 10 < |pp| ==> (r == Refused <==> pp[cmd % 10] == 0)
    ensures Decode(cmd).SwitchTo? ==> r != Refused
    ensures Decode(cmd).SwitchTo? ==> (r == RaisesIndexError <==> cmd - SwitchBase >= selected)
  {
    match Decode(cmd)
    case UseMove(i, _) =>
      if i >= |pp| then RaisesIndexError else if pp[i] == 0 then Refused else Proceeds
    case SwitchTo(t) => if t >= selected then RaisesIndexError else Proceeds
    case Invalid => Refused
  }
}

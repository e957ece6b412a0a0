/** The entries the bot reads from on-screen battle text and keeps in its
    process buffer until the next turn's bookkeeping uses them. */
module Events {

  /** What an entry says besides whose creature it is about. Each constructor
      stands for the extra keys of the source's dictionary; NoDetail is a
      dictionary with only the player and display name. */
  datatype Info =
    | Ability(ability: string)
    | Item(item: string)
    | LostItem(lostItem: string)
    | SubstituteBroken
    | TypeChange(typeName: string)
    | Boost(stat: int)
    | Flinch
    | Move(move: string, hit: bool, critical: bool, wasValid: bool,
           speed: int, effSpeed: int, moveSpeed: int)
    | NoDetail

  datatype Event = Event(player: nat, displayName: string, info: Info)

  /** The three notes read_bottom_text attaches to the move entry just read. */
  datatype Mark = Failed | Missed | CriticalHit

  /** The source's dedup rule: an entry joins the buffer only when an equal
      entry is not already there. */
  function WithEvent(buffer: seq<Event>, e: Event): (r: seq<Event>)
    ensures e in r
    ensures e in buffer ==> r == buffer
    ensures e !in buffer ==> r == buffer + [e]
  {
    if e in buffer then buffer else buffer + [e]
  }

  ghost predicate Distinct(buffer: seq<Event>)
  {
    forall i, j :: 0 <= i < j < |buffer| ==> buffer[i] != buffer[j]
  }

  /** Recording an entry twice is the same as recording it once. */
  lemma WithEventIdempotent(buffer: seq<Event>, e: Event)
    ensures WithEvent(WithEvent(buffer, e), e) == WithEvent(buffer, e)
  {
  }

  /** A buffer filled only through the dedup rule never holds two equal entries. */
  lemma WithEventKeepsDistinct(buffer: seq<Event>, e: Event)
    requires Distinct(buffer)
    ensures Distinct(WithEvent(buffer, e))
  {
  }

  /** The move entry with one of the three notes applied. */
  function Marked(info: Info, mark: Mark): (r: Info)
    requires info.Move?
    ensures r.Move? && r.move == info.move && r.speed == info.speed
    ensures r.effSpeed == info.effSpeed && r.moveSpeed == info.moveSpeed
    ensures r.wasValid == (info.wasValid && mark != Failed)
    ensures r.hit == (info.hit && mark != Missed)
    ensures r.critical == (info.critical || mark == CriticalHit)
  {
    match mark
    case Failed => info.(wasValid := false)
    case Missed => info.(hit := false)
    case CriticalHit => info.(critical := true)
  }

  /** Entry i of the buffer is a move shown as the creature's own action. The
      exception is the second animation of a move that calls another move:
      the entry right before it is a move of the same player from the
      "other move" category. The source tests this only from the third entry
      on (index above 1), which is kept here as written. */
  function PlainMove(buffer: seq<Event>, i: nat, otherMoves: set<string>): (plain: bool)
    requires i < |buffer|
    ensures plain ==> buffer[i].info.Move?
    ensures i <= 1 ==> (plain <==> buffer[i].info.Move?)
    ensures i > 1 ==>
              (plain <==> buffer[i].info.Move?
                          && !(buffer[i - 1].info.Move? && buffer[i - 1].player == buffer[i].player
                               && buffer[i - 1].info.move in otherMoves))
  {
    && buffer[i].info.Move?
    && !(i > 1 && buffer[i - 1].info.Move? && buffer[i - 1].player == buffer[i].player
         && buffer[i - 1].info.move in otherMoves)
  }

  /** The turn's action order collected from the first n entries: a plain move
      is recorded unless the last recorded one is by the same player. */
  function OrderUpTo(buffer: seq<Event>, n: nat, otherMoves: set<string>): (r: seq<Event>)
    requires n <= |buffer|
    ensures |r| <= n
    ensures forall e :: e in r ==> e.info.Move?
  {
    if n == 0 then []
    else
      var order := OrderUpTo(buffer, n - 1, otherMoves);
      if PlainMove(buffer, n - 1, otherMoves)
         && (order == [] || order[|order| - 1].player != buffer[n - 1].player)
      then order + [buffer[n - 1]]
      else order
  }

  /** Neighbours in an action order belong to different players. */
  ghost predicate Alternating(order: seq<Event>)
  {
    forall i :: 0 < i < |order| ==> order[i - 1].player != order[i].player
  }

  /** Every recorded action is taken from the buffer and no two neighbours
      share a player. */
  lemma {:induction false} OrderWellFormed(buffer: seq<Event>, n: nat, otherMoves: set<string>)
    requires n <= |buffer|
    ensures var order := OrderUpTo(buffer, n, otherMoves);
            && Alternating(order)
            && (forall e :: e in order ==> e in buffer[..n])
  {
    if n > 0 {
      OrderWellFormed(buffer, n - 1, otherMoves);
      assert buffer[..n - 1] <= buffer[..n];
    }
  }

  /** The order collected from a shorter prefix of the buffer is a prefix of
      the order collected from a longer one: what is recorded stays recorded,
      in the same place. */
  lemma {:induction false} OrderGrows(buffer: seq<Event>, m: nat, n: nat, otherMoves: set<string>)
    requires m <= n <= |buffer|
    ensures OrderUpTo(buffer, m, otherMoves) <= OrderUpTo(buffer, n, otherMoves)
  {
    if m < n {
      OrderGrows(buffer, m, n - 1, otherMoves);
    }
  }

  /** order lists the plain moves of buffer at the strictly increasing
      positions pos, all below n. */
  ghost predicate AtPositions(buffer: seq<Event>, order: seq<Event>, pos: seq<nat>, n: nat,
                              otherMoves: set<string>)
  {
    && |pos| == |order|
    && (forall j :: 0 <= j < |pos| ==>
          && pos[j] < n <= |buffer|
          && PlainMove(buffer, pos[j], otherMoves)
          && order[j] == buffer[pos[j]])
    && (forall j, k :: 0 <= j < k < |pos| ==> pos[j] < pos[k])
  }

  /** Recording the plain move at position n - 1 extends the positions. */
  lemma PositionsExtend(buffer: seq<Event>, order: seq<Event>, pos: seq<nat>, n: nat,
                        otherMoves: set<string>)
    requires 0 < n <= |buffer|
    requires AtPositions(buffer, order, pos, n - 1, otherMoves)
    requires PlainMove(buffer, n - 1, otherMoves)
    ensures AtPositions(buffer, order + [buffer[n - 1]], pos + [n - 1], n, otherMoves)
  {
  }

  /** The action order is an in-order subsequence of the buffer: each
      recorded action is the plain move at some position, and the positions
      strictly increase, so the order lists the actions as the battle text
      showed them, first mover first. */
  lemma {:induction false} OrderFollowsBuffer(buffer: seq<Event>, n: nat, otherMoves: set<string>)
      returns (pos: seq<nat>)
    requires n <= |buffer|
    ensures AtPositions(buffer, OrderUpTo(buffer, n, otherMoves), pos, n, otherMoves)
  {
    if n == 0 {
      pos := [];
    } else {
      var before := OrderUpTo(buffer, n - 1, otherMoves);
      pos := OrderFollowsBuffer(buffer, n - 1, otherMoves);
      if OrderUpTo(buffer, n, otherMoves) != before {
        PositionsExtend(buffer, before, pos, n, otherMoves);
        pos := pos + [n - 1];
      }
    }
  }

  /** A plain move whose player differs from the last recorded action's is
      recorded, right after the actions recorded before it. */
  lemma RecordedWhenPlayerChanges(buffer: seq<Event>, i: nat, n: nat, otherMoves: set<string>)
    requires i < n <= |buffer|
    requires PlainMove(buffer, i, otherMoves)
    requires var before := OrderUpTo(buffer, i, otherMoves);
             before == [] || before[|before| - 1].player != buffer[i].player
    ensures OrderUpTo(buffer, i, otherMoves) + [buffer[i]] <= OrderUpTo(buffer, n, otherMoves)
  {
    OrderGrows(buffer, i + 1, n, otherMoves);
  }

  /** The order is empty exactly when the first n entries hold no plain move. */
  lemma {:induction false} OrderEmptyIffNoPlainMove(buffer: seq<Event>, n: nat, otherMoves: set<string>)
    requires n <= |buffer|
    ensures OrderUpTo(buffer, n, otherMoves) == [] <==>
              forall j :: 0 <= j < n ==> !PlainMove(buffer, j, otherMoves)
  {
    if n > 0 {
      OrderEmptyIffNoPlainMove(buffer, n - 1, otherMoves);
    }
  }

  /** The first recorded action is the first plain move of the buffer. */
  lemma FirstPlainMoveLeads(buffer: seq<Event>, i: nat, n: nat, otherMoves: set<string>)
    requires i < n <= |buffer|
    requires PlainMove(buffer, i, otherMoves)
    requires forall j :: 0 <= j < i ==> !PlainMove(buffer, j, otherMoves)
    ensures OrderUpTo(buffer, n, otherMoves) != []
    ensures OrderUpTo(buffer, n, otherMoves)[0] == buffer[i]
  {
    OrderEmptyIffNoPlainMove(buffer, i, otherMoves);
    OrderGrows(buffer, i + 1, n, otherMoves);
  }

  /** With two players 0 and 1, an action order of two entries holds one
      action of each, so looking up the opponent's position cannot fail. */
  lemma TwoActionsBothPlayers(order: seq<Event>)
    requires Alternating(order) && |order| == 2
    requires forall e :: e in order ==> e.player < 2
    ensures order[0].player == 1 || order[1].player == 1
    ensures order[0].player == 0 || order[1].player == 0
  {
    assert order[0] in order && order[1] in order;
  }

  /** The loop of read_buffer that collects move_order, over entries whose
      creature is found. */
  method CollectMoveOrder(buffer: seq<Event>, otherMoves: set<string>) returns (order: seq<Event>)
    ensures order == OrderUpTo(buffer, |buffer|, otherMoves)
    ensures Alternating(order)
    ensures forall e :: e in order ==> e.info.Move? && e in buffer
  {
    order := [];
    var i := 0;
    while i < |buffer|
      invariant 0 <= i <= |buffer|
      invariant order == OrderUpTo(buffer, i, otherMoves)
    {
      var e := buffer[i];
      if e.info.Move? {
        var doubled := i > 1 && buffer[i - 1].info.Move? && buffer[i - 1].player == e.player
                       && buffer[i - 1].info.move in otherMoves;
        if !doubled && (order == [] || order[|order| - 1].player != e.player) {
          order := order + [e];
        }
      }
      i := i + 1;
    }
    OrderWellFormed(buffer, |buffer|, otherMoves);
    assert buffer[..|buffer|] == buffer;
  }
}

/** The outcome rules engine: a move list and the N-by-N table of
    outcomes built from it once, when the engine is created. */
module RulesEngine {
  import opened Wrappers
  import opened Outcomes

  /** Allocates a size-by-size table filled with draws and overwrites it,
      row by row and column by column, with the rule's entries. */
  method GenerateTable(size: nat) returns (table: array2<Outcome>)
    ensures fresh(table)
    ensures table.Length0 == size && table.Length1 == size
    ensures forall i, j :: 0 <= i < size && 0 <= j < size ==> table[i, j] == TableEntry(size, i, j)
    ensures forall i :: 0 <= i < size ==> table[i, i] == Draw
  {
    table := new Outcome[size, size]((_, _) => Draw);
    var i := 0;
    while i < size
      invariant 0 <= i <= size
      invariant forall a, b :: 0 <= a < i && 0 <= b < size ==> table[a, b] == TableEntry(size, a, b)
    {
      var j := 0;
      while j < size
        invariant 0 <= j <= size
        invariant forall a, b :: 0 <= a < i && 0 <= b < size ==> table[a, b] == TableEntry(size, a, b)
        invariant forall b :: 0 <= b < j ==> table[i, b] == TableEntry(size, i, b)
      {
        if i == j {
          table[i, j] := Draw;
        } else if (i + 1) % size == j || (i + 3) % size == j {
          table[i, j] := Win;
        } else {
          table[i, j] := Lose;
        }
        j := j + 1;
      }
      i := i + 1;
    }
  }

  class Rules {
    const moves: seq<string>
    const size: nat
    const table: array2<Outcome>

    /** The table has one row and one column per move and holds the rule's entries. */
    ghost predicate Valid()
      reads table
    {
      size == |moves| &&
      table.Length0 == size && table.Length1 == size &&
      forall i, j :: 0 <= i < size && 0 <= j < size ==> table[i, j] == TableEntry(size, i, j)
    }

    constructor (moves: seq<string>)
      ensures this.moves == moves && size == |moves|
      ensures fresh(table) && Valid()
    {
      var t := GenerateTable(|moves|);
      this.moves := moves;
      size := |moves|;
      table := t;
    }

    /** The name of the move at 1-based position moveIndex; missing when
        the position is outside the move list. */
    function GetMoveName(moveIndex: int): (name: Option<string>)
      ensures name.Some? <==> 1 <= moveIndex <= |moves|
      ensures name.Some? ==> name.value in moves && name.value == moves[moveIndex - 1]
    {
      if 1 <= moveIndex <= |moves| then Some(moves[moveIndex - 1]) else None
    }

    /** The outcome for the player when the player plays the move at
        1-based position playerMoveIndex and the computer the one at
        computerMoveIndex; missing when either is out of range. */
    function GetOutcome(playerMoveIndex: int, computerMoveIndex: int): (outcome: Option<Outcome>)
      requires Valid()
      reads table
      ensures outcome.Some? <==> 1 <= playerMoveIndex <= size && 1 <= computerMoveIndex <= size
      ensures outcome.Some? ==> outcome.value == TableEntry(size, playerMoveIndex - 1, computerMoveIndex - 1)
      ensures outcome == Some(Draw) ==> playerMoveIndex == computerMoveIndex
    {
      if 1 <= playerMoveIndex <= size && 1 <= computerMoveIndex <= size
      then Some(table[playerMoveIndex - 1, computerMoveIndex - 1])
      else None
    }
  }
}

/** The game: the startup check on the move list, the two score counters
    and one resolved round of the play loop, with the key, the MAC, the
    random choice of the computer and all terminal I/O lifted out. */
module GameLoop {
  import opened Outcomes
  import opened RulesEngine
  import opened UserInput
  import opened HelpTable

  /** The distinct names of a move list, as `new Set(moves)` holds them. */
  function MoveSet(moves: seq<string>): (names: set<string>)
    ensures forall m :: m in names <==> m in moves
  {
    set m | m in moves
  }

  /** No name occurs twice. */
  predicate Distinct(moves: seq<string>)
  {
    forall i, j :: 0 <= i < j < |moves| ==> moves[i] != moves[j]
  }

  /** The startup check on the command-line arguments: at least three
      moves, an odd number of them, and a set of names as large as the list. */
  function ArgumentsAccepted(moves: seq<string>): bool
  {
    !(|moves| < 3 || |moves| % 2 != 1 || |MoveSet(moves)| != |moves|)
  }

  /** The set of names is never larger than the list, and exactly as large
      when no name is repeated. */
  lemma {:induction false} SetSizeIffDistinct(moves: seq<string>)
    ensures |MoveSet(moves)| <= |moves|
    ensures |MoveSet(moves)| == |moves| <==> Distinct(moves)
  {
    if moves != [] {
      var rest := moves[1..];
      SetSizeIffDistinct(rest);
      assert MoveSet(moves) == {moves[0]} + MoveSet(rest);
      if moves[0] in rest {
        var k :| 0 <= k < |rest| && rest[k] == moves[0];
        assert moves[0] == moves[k + 1];
        assert MoveSet(moves) == MoveSet(rest);
      } else {
        assert Distinct(moves) <==> Distinct(rest) by {
          if Distinct(rest) {
            forall i, j | 0 <= i < j < |moves| ensures moves[i] != moves[j] {
              if i > 0 {
                assert moves[i] == rest[i - 1] && moves[j] == rest[j - 1];
              } else {
                assert moves[j] == rest[j - 1];
              }
            }
          }
          if Distinct(moves) {
            forall i, j | 0 <= i < j < |rest| ensures rest[i] != rest[j] {
              assert rest[i] == moves[i + 1] && rest[j] == moves[j + 1];
            }
          }
        }
      }
    }
  }

  /** The startup check accepts a move list iff it has at least three
      moves, an odd number of them, and no repeated name. */
  lemma ArgumentsAcceptedIff(moves: seq<string>)
    ensures ArgumentsAccepted(moves) <==> |moves| >= 3 && |moves| % 2 == 1 && Distinct(moves)
  {
    SetSizeIffDistinct(moves);
  }

  /** With an accepted move list, a move name identifies its menu number. */
  lemma MoveNamesIdentifyMoves(moves: seq<string>, p: int, q: int)
    requires ArgumentsAccepted(moves)
    requires 1 <= p <= |moves| && 1 <= q <= |moves|
    ensures moves[p - 1] == moves[q - 1] <==> p == q
  {
    ArgumentsAcceptedIff(moves);
    if p < q {
      assert moves[p - 1] != moves[q - 1];
    } else if q < p {
      assert moves[q - 1] != moves[p - 1];
    }
  }

  /** Among the move lists the startup check accepts, the outcome table is
      fair (balanced rows, antisymmetric) exactly for three and five moves. */
  lemma AcceptedListFairIffThreeOrFive(moves: seq<string>)
    requires ArgumentsAccepted(moves)
    ensures RowsBalanced(|moves|) <==> |moves| == 3 || |moves| == 5
    ensures Antisymmetric(|moves|) <==> |moves| == 3 || |moves| == 5
  {
    BalancedExactlyForThreeAndFive(|moves|);
    AntisymmetricExactlyForThreeAndFive(|moves|);
  }

  /** What one pass of the play loop produces once the input is valid. */
  datatype Step =
    | Exit(playerWins: nat, computerWins: nat)
    | Help(table: seq<seq<string>>, text: string)
    | Played(playerMove: string, computerMove: string, outcome: Outcome)

  class Game {
    const moves: seq<string>
    const rules: Rules
    var playerWins: nat
    var computerWins: nat
    /** The outcomes of the rounds resolved so far, oldest first. */
    ghost var rounds: seq<Outcome>

    /** The engine works on the game's moves, and each counter is the
        number of resolved rounds that went its side's way. */
    ghost predicate Valid()
      reads this, rules.table
    {
      rules.moves == moves && rules.Valid() &&
      playerWins == Count(rounds, Win) && computerWins == Count(rounds, Lose)
    }

    constructor (moves: seq<string>)
      ensures this.moves == moves && fresh(rules) && fresh(rules.table) && Valid()
      ensures playerWins == 0 && computerWins == 0 && rounds == []
    {
      this.moves := moves;
      rules := new Rules(moves);
      playerWins, computerWins := 0, 0;
      rounds := [];
    }

    /** The wins of both sides and the draws account for every resolved round. */
    lemma ScoreAccountsForRounds()
      requires Valid()
      ensures playerWins + computerWins + Count(rounds, Draw) == |rounds|
    {
      CountPartition(rounds);
    }

    /** The help grid, built row by row from the engine's outcomes. */
    method BuildHelpTable() returns (table: seq<seq<string>>)
      requires Valid()
      ensures IsHelpTable(moves, table)
    {
      var n := |moves|;
      var headerRow := ["Moves"] + moves;
      table := [headerRow];
      var i := 0;
      while i < n
        invariant 0 <= i <= n
        invariant |table| == i + 1 && table[0] == headerRow
        invariant forall r :: 1 <= r <= i ==> IsHelpRow(moves, r, table[r])
      {
        var row := [moves[i]];
        var j := 0;
        while j < n
          invariant 0 <= j <= n
          invariant |row| == j + 1 && row[0] == moves[i]
          invariant forall c :: 1 <= c <= j ==> row[c] == OutcomeName(TableEntry(n, i, c - 1))
        {
          var outcome := rules.GetOutcome(i + 1, j + 1);
          row := row + [OutcomeName(outcome.value)];
          j := j + 1;
        }
        table := table + [row];
        i := i + 1;
      }
    }

    /** One pass of the play loop after the prompt has returned a valid
        token: "0" ends the game with the final score, "?" produces the
        help display, and a move number is played against the computer's
        move and scored. */
    method Play(input: string, computerMoveIndex: int) returns (step: Step)
      requires Valid()
      requires ValidateUserInput(input, |moves|)
      requires 1 <= computerMoveIndex <= |moves|
      modifies this
      ensures Valid()
      ensures input == "0" ==>
        step == Exit(old(playerWins), old(computerWins)) &&
        playerWins == old(playerWins) && computerWins == old(computerWins) && rounds == old(rounds)
      ensures input == "?" ==>
        step.Help? && IsHelpTable(moves, step.table) && step.text == RenderHelp(step.table) &&
        playerWins == old(playerWins) && computerWins == old(computerWins) && rounds == old(rounds)
      ensures input != "0" && input != "?" ==>
        ParseInt(input).Int? &&
        var p := ParseInt(input).value;
        var o := TableEntry(|moves|, p - 1, computerMoveIndex - 1);
        1 <= p <= |moves| &&
        step == Played(moves[p - 1], moves[computerMoveIndex - 1], o) &&
        rounds == old(rounds) + [o] &&
        playerWins == old(playerWins) + (if o == Win then 1 else 0) &&
        computerWins == old(computerWins) + (if o == Lose then 1 else 0)
      ensures old(playerWins) <= playerWins && old(computerWins) <= computerWins
      ensures playerWins + computerWins <= old(playerWins) + old(computerWins) + 1
    {
      if input == "0" {
        return Exit(playerWins, computerWins);
      }
      if input == "?" {
        var table := BuildHelpTable();
        HelpCellsFitHeader(moves, table);
        return Help(table, RenderHelp(table));
      }
      AcceptedMoveIndex(input, |moves|);
      var playerMoveIndex := ParseInt(input).value;
      var playerMoveName := rules.GetMoveName(playerMoveIndex).value;
      var computerMoveName := moves[computerMoveIndex - 1];
      var outcome := rules.GetOutcome(playerMoveIndex, computerMoveIndex).value;
      if outcome == Win {
        playerWins := playerWins + 1;
      } else if outcome == Lose {
        computerWins := computerWins + 1;
      }
      rounds := rounds + [outcome];
      assert rounds[..|rounds| - 1] == old(rounds);
      step := Played(playerMoveName, computerMoveName, outcome);
    }
  }
}

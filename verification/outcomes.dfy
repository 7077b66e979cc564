/** The outcome rule of the game: which of two moves wins, as a pure
    function of the number of moves and two 0-based move positions, and
    what that rule implies for the balance of the outcome table. */
module Outcomes {

  /** One entry of the outcome table, seen from the player's side. */
  datatype Outcome = Win | Lose | Draw

  /** The text the table stores for an outcome. */
  function OutcomeName(o: Outcome): (name: string)
    ensures 3 <= |name| <= 4
  {
    match o
    case Win => "Win"
    case Lose => "Lose"
    case Draw => "Draw"
  }

  /** The entry the table generator writes at row i (player move) and
      column j (computer move), 0-based: the diagonal is a draw, the
      moves one and three places further round the cycle are wins, and
      everything else is a loss. */
  function TableEntry(size: nat, i: nat, j: nat): Outcome
    requires i < size && j < size
  {
    if i == j then Draw
    else if (i + 1) % size == j || (i + 3) % size == j then Win
    else Lose
  }

  /** How many places j lies after i going round the cycle of moves. */
  function Offset(size: nat, i: nat, j: nat): (d: nat)
    requires i < size && j < size
    ensures d < size
    ensures d == 0 <==> i == j
  {
    if i <= j then j - i else j - i + size
  }

  lemma ModOnce(x: nat, n: nat)
    requires 0 < n && x < 2 * n
    ensures x % n == if x < n then x else x - n
  {
    if x >= n {
      assert x == n + (x - n);
      assert (x - n) % n == x - n;
    }
  }

  /** The entry depends only on the offset of the computer's move from the
      player's: offset 0 draws, offsets 1 and 3 win, the rest lose. */
  lemma {:induction false} EntryByOffset(size: nat, i: nat, j: nat)
    requires 3 <= size && i < size && j < size
    ensures TableEntry(size, i, j) ==
      (var d := Offset(size, i, j); if d == 0 then Draw else if d == 1 || d == 3 then Win else Lose)
  {
    ModOnce(i + 1, size);
    ModOnce(i + 3, size);
  }

  /** The outcomes of one row of the table, player move i against every move. */
  function Row(size: nat, i: nat): (row: seq<Outcome>)
    requires i < size
    ensures |row| == size
    ensures forall j :: 0 <= j < size ==> row[j] == TableEntry(size, i, j)
  {
    seq(size, j requires 0 <= j < size => TableEntry(size, i, j))
  }

  /** The number of occurrences of o in s. */
  function Count(s: seq<Outcome>, o: Outcome): (c: nat)
    ensures c <= |s|
  {
    if s == [] then 0 else Count(s[..|s| - 1], o) + (if s[|s| - 1] == o then 1 else 0)
  }

  lemma {:induction false} CountAppend(a: seq<Outcome>, b: seq<Outcome>, o: Outcome)
    ensures Count(a + b, o) == Count(a, o) + Count(b, o)
  {
    if b != [] {
      assert (a + b)[..|a + b| - 1] == a + b[..|b| - 1];
      CountAppend(a, b[..|b| - 1], o);
    } else {
      assert a + b == a;
    }
  }

  lemma {:induction false} CountAbsent(s: seq<Outcome>, o: Outcome)
    requires forall k :: 0 <= k < |s| ==> s[k] != o
    ensures Count(s, o) == 0
  {
    if s != [] {
      CountAbsent(s[..|s| - 1], o);
    }
  }

  /** Every element is one of the three outcomes, so the three counts
      add up to the length. */
  lemma {:induction false} CountPartition(s: seq<Outcome>)
    ensures Count(s, Win) + Count(s, Lose) + Count(s, Draw) == |s|
  {
    if s != [] {
      CountPartition(s[..|s| - 1]);
    }
  }

  /** An outcome that occurs at exactly one position is counted once. */
  lemma CountOnce(s: seq<Outcome>, o: Outcome, p: nat)
    requires p < |s| && s[p] == o
    requires forall k :: 0 <= k < |s| && k != p ==> s[k] != o
    ensures Count(s, o) == 1
  {
    assert s == s[..p] + [s[p]] + s[p + 1..];
    CountAbsent(s[..p], o);
    CountAbsent(s[p + 1..], o);
    CountAppend(s[..p] + [s[p]], s[p + 1..], o);
    CountAppend(s[..p], [s[p]], o);
    assert Count([s[p]], o) == 1 by { assert [s[p]][..0] == []; }
  }

  /** An outcome that occurs at exactly two positions is counted twice. */
  lemma CountTwice(s: seq<Outcome>, o: Outcome, p: nat, q: nat)
    requires p < q < |s| && s[p] == o && s[q] == o
    requires forall k :: 0 <= k < |s| && k != p && k != q ==> s[k] != o
    ensures Count(s, o) == 2
  {
    assert s == s[..q] + s[q..];
    CountOnce(s[..q], o, p);
    CountOnce(s[q..], o, 0);
    CountAppend(s[..q], s[q..], o);
  }

  /** Each row has one draw (the diagonal); with three moves one win, and
      with four or more moves exactly two wins, whatever the size; the
      remaining entries are losses. */
  lemma RowCounts(size: nat, i: nat)
    requires 3 <= size && i < size
    ensures Count(Row(size, i), Draw) == 1
    ensures Count(Row(size, i), Win) == if size == 3 then 1 else 2
    ensures Count(Row(size, i), Lose) == size - 1 - Count(Row(size, i), Win)
  {
    var row := Row(size, i);
    forall k | 0 <= k < size
      ensures row[k] == (var d := Offset(size, i, k); if d == 0 then Draw else if d == 1 || d == 3 then Win else Lose)
    {
      EntryByOffset(size, i, k);
    }
    CountOnce(row, Draw, i);
    var p1 := if i + 1 < size then i + 1 else i + 1 - size;
    assert Offset(size, i, p1) == 1;
    if size == 3 {
      CountOnce(row, Win, p1);
    } else {
      var p3 := if i + 3 < size then i + 3 else i + 3 - size;
      assert Offset(size, i, p3) == 3;
      if p1 < p3 {
        CountTwice(row, Win, p1, p3);
      } else {
        CountTwice(row, Win, p3, p1);
      }
    }
    CountPartition(row);
  }

  /** Every row holds (size-1)/2 wins and (size-1)/2 losses. */
  ghost predicate RowsBalanced(size: nat)
  {
    forall i :: 0 <= i < size ==>
      Count(Row(size, i), Win) == (size - 1) / 2 && Count(Row(size, i), Lose) == (size - 1) / 2
  }

  /** Off the diagonal, a win for one side is a loss for the other. */
  ghost predicate Antisymmetric(size: nat)
  {
    forall i, j :: 0 <= i < size && 0 <= j < size && i != j ==>
      (TableEntry(size, i, j) == Win <==> TableEntry(size, j, i) == Lose)
  }

  /** For an odd number of moves (three or more), the rows are balanced
      exactly when there are three or five moves. */
  lemma BalancedExactlyForThreeAndFive(size: nat)
    requires 3 <= size && size % 2 == 1
    ensures RowsBalanced(size) <==> size == 3 || size == 5
  {
    if size == 3 || size == 5 {
      forall i | 0 <= i < size
        ensures Count(Row(size, i), Win) == (size - 1) / 2 && Count(Row(size, i), Lose) == (size - 1) / 2
      {
        RowCounts(size, i);
      }
    } else {
      RowCounts(size, 0);
    }
  }

  /** For an odd number of moves (three or more), the table is
      antisymmetric exactly when there are three or five moves; from seven
      moves on, the moves two places apart lose against each other. */
  lemma AntisymmetricExactlyForThreeAndFive(size: nat)
    requires 3 <= size && size % 2 == 1
    ensures Antisymmetric(size) <==> size == 3 || size == 5
  {
    if size == 3 || size == 5 {
      forall i, j | 0 <= i < size && 0 <= j < size && i != j
        ensures TableEntry(size, i, j) == Win <==> TableEntry(size, j, i) == Lose
      {
        EntryByOffset(size, i, j);
        EntryByOffset(size, j, i);
      }
    } else {
      EntryByOffset(size, 0, 2);
      EntryByOffset(size, 2, 0);
      assert TableEntry(size, 0, 2) == Lose && TableEntry(size, 2, 0) == Lose;
    }
  }

  /** With seven moves the generated table is unfair: the first move loses
      against the third and the third against the first, and the first
      move wins against only two of the six others. */
  lemma SevenMovesUnbalanced()
    ensures TableEntry(7, 0, 2) == Lose && TableEntry(7, 2, 0) == Lose
    ensures Count(Row(7, 0), Win) == 2 && Count(Row(7, 0), Lose) == 4
  {
    RowCounts(7, 0);
  }

  /** With three moves in the order rock, paper, scissors, the player's
      first move wins against the second and loses against the third. */
  lemma ThreeMoveRows()
    ensures Row(3, 0) == [Draw, Win, Lose]
    ensures Row(3, 1) == [Lose, Draw, Win]
    ensures Row(3, 2) == [Win, Lose, Draw]
  {
    ModOnce(1, 3); ModOnce(2, 3); ModOnce(3, 3); ModOnce(4, 3); ModOnce(5, 3);
  }
}

/** The help display: a grid whose header row lists the moves and whose
    other rows give, for each move of the player, the outcome against each
    move of the computer; every cell is padded to a common width and the
    rows are joined into one text. */
module HelpTable {
  import opened Outcomes

  /** The cells of the help grid for a move list: the header row
      "Moves", m1, ..., mN, then for each move its row. */
  ghost predicate IsHelpTable(moves: seq<string>, table: seq<seq<string>>)
  {
    |table| == |moves| + 1 &&
    table[0] == ["Moves"] + moves &&
    forall r {:trigger IsHelpRow(moves, r, table[r])} :: 1 <= r < |table| ==> IsHelpRow(moves, r, table[r])
  }

  /** Row r (1-based) of the help grid: the name of move r followed by
      the outcome names of that move against every move. */
  ghost predicate IsHelpRow(moves: seq<string>, r: nat, row: seq<string>)
  {
    var n := |moves|;
    1 <= r <= n && |row| == n + 1 && row[0] == moves[r - 1] &&
    forall c :: 1 <= c <= n ==> row[c] == OutcomeName(TableEntry(n, r - 1, c - 1))
  }

  function Spaces(n: nat): (s: string)
    ensures |s| == n && forall k :: 0 <= k < n ==> s[k] == ' '
  {
    seq(n, _ => ' ')
  }

  /** String.prototype.padEnd with the default filler: s followed by
      spaces up to width characters; s itself when it is already that long. */
  function PadEnd(s: string, width: nat): (r: string)
    ensures |r| == if |s| >= width then |s| else width
    ensures r[..|s|] == s
    ensures forall k :: |s| <= k < |r| ==> r[k] == ' '
  {
    if |s| >= width then s else s + Spaces(width - |s|)
  }

  /** Math.max over the lengths of a non-empty list of cells. */
  function MaxLength(cells: seq<string>): (m: nat)
    requires |cells| > 0
    ensures forall k :: 0 <= k < |cells| ==> |cells[k]| <= m
    ensures exists k :: 0 <= k < |cells| && |cells[k]| == m
  {
    if |cells| == 1 then |cells[0]|
    else
      var m := MaxLength(cells[..|cells| - 1]);
      var last := |cells[|cells| - 1]|;
      if m >= last then m else last
  }

  /** Every cell of a row padded to maxLength + 2 characters. */
  function FormatRow(row: seq<string>, maxLength: nat): (cells: seq<string>)
    ensures |cells| == |row|
    ensures forall k :: 0 <= k < |row| ==> cells[k] == PadEnd(row[k], maxLength + 2)
  {
    seq(|row|, k requires 0 <= k < |row| => PadEnd(row[k], maxLength + 2))
  }

  /** Array.prototype.join with the empty separator. */
  function Concat(cells: seq<string>): string
  {
    if cells == [] then "" else Concat(cells[..|cells| - 1]) + cells[|cells| - 1]
  }

  /** Array.prototype.join with a line break as separator. */
  function JoinLines(lines: seq<string>): string
  {
    if lines == [] then ""
    else if |lines| == 1 then lines[0]
    else JoinLines(lines[..|lines| - 1]) + "\n" + lines[|lines| - 1]
  }

  /** The help text of a grid: the width is the longest cell of the header
      row, every cell is padded to that width plus two, cells are
      concatenated and rows joined with line breaks. */
  function RenderHelp(table: seq<seq<string>>): string
    requires |table| > 0 && |table[0]| > 0
  {
    JoinLines(FormatLines(table, MaxLength(table[0])))
  }

  /** Each row of the grid formatted and concatenated into one line. */
  function FormatLines(table: seq<seq<string>>, maxLength: nat): (lines: seq<string>)
    ensures |lines| == |table|
    ensures forall r :: 0 <= r < |table| ==> lines[r] == Concat(FormatRow(table[r], maxLength))
  {
    seq(|table|, r requires 0 <= r < |table| => Concat(FormatRow(table[r], maxLength)))
  }

  /** Every cell of the help grid fits in the width of its header row:
      the move names of the first column appear in the header, and the
      outcome names are shorter than "Moves". */
  lemma HelpCellsFitHeader(moves: seq<string>, table: seq<seq<string>>)
    requires IsHelpTable(moves, table)
    ensures forall r, c :: 0 <= r < |table| && 0 <= c < |table[r]| ==> |table[r][c]| <= MaxLength(table[0])
  {
    var n := |moves|;
    var m := MaxLength(table[0]);
    assert |table[0][0]| == 5;
    forall r, c | 0 <= r < |table| && 0 <= c < |table[r]|
      ensures |table[r][c]| <= m
    {
      if r > 0 && c == 0 {
        assert IsHelpRow(moves, r, table[r]);
        assert table[r][0] == table[0][r];
      } else if r > 0 {
        assert IsHelpRow(moves, r, table[r]);
        assert |table[r][c]| <= 4;
      }
    }
  }

  /** A row whose cells all fit in maxLength formats into cells of exactly
      maxLength + 2 characters, each starting with the original cell. */
  lemma FormattedCellsUniform(row: seq<string>, maxLength: nat)
    requires forall k :: 0 <= k < |row| ==> |row[k]| <= maxLength
    ensures forall k :: 0 <= k < |row| ==>
      |FormatRow(row, maxLength)[k]| == maxLength + 2 &&
      FormatRow(row, maxLength)[k][..|row[k]|] == row[k]
  {
  }

  lemma {:induction false} ConcatUniform(cells: seq<string>, width: nat)
    requires forall k :: 0 <= k < |cells| ==> |cells[k]| == width
    ensures |Concat(cells)| == |cells| * width
  {
    if cells != [] {
      var init := cells[..|cells| - 1];
      ConcatUniform(init, width);
      assert |Concat(cells)| == |init| * width + width;
      assert |init| * width + width == (|init| + 1) * width;
    }
  }

  lemma {:induction false} JoinLinesUniform(lines: seq<string>, width: nat)
    requires |lines| > 0
    requires forall k :: 0 <= k < |lines| ==> |lines[k]| == width
    ensures |JoinLines(lines)| == |lines| * width + |lines| - 1
  {
    if |lines| > 1 {
      var init := lines[..|lines| - 1];
      JoinLinesUniform(init, width);
      assert |JoinLines(lines)| == |init| * width + |init| - 1 + 1 + width;
      assert |init| * width + width == (|init| + 1) * width;
    }
  }

  /** Every line of the help text is as wide as the grid has columns
      times the padded cell width. */
  lemma HelpLineWidth(moves: seq<string>, table: seq<seq<string>>, r: nat)
    requires IsHelpTable(moves, table) && r < |table|
    ensures |Concat(FormatRow(table[r], MaxLength(table[0])))| == |table| * (MaxLength(table[0]) + 2)
  {
    var m := MaxLength(table[0]);
    HelpCellsFitHeader(moves, table);
    assert r == 0 || IsHelpRow(moves, r, table[r]);
    assert |table[r]| == |table|;
    FormattedCellsUniform(table[r], m);
    var cells := FormatRow(table[r], m);
    assert |cells| == |table|;
    ConcatUniform(cells, m + 2);
  }

  /** A grid of rows lines, each formatted to lineWidth characters,
      renders to rows * lineWidth characters plus rows - 1 line breaks. */
  lemma RenderedLength(table: seq<seq<string>>, lineWidth: nat)
    requires |table| > 0 && |table[0]| > 0
    requires forall r :: 0 <= r < |table| ==> |FormatLines(table, MaxLength(table[0]))[r]| == lineWidth
    ensures |RenderHelp(table)| == |table| * lineWidth + |table| - 1
  {
    JoinLinesUniform(FormatLines(table, MaxLength(table[0])), lineWidth);
  }

  /** Every line of the formatted grid has the same width. */
  lemma HelpLinesWidth(moves: seq<string>, table: seq<seq<string>>)
    requires IsHelpTable(moves, table)
    ensures |table| == |moves| + 1
    ensures forall r :: 0 <= r < |table| ==>
      |FormatLines(table, MaxLength(table[0]))[r]| == |table| * (MaxLength(table[0]) + 2)
  {
    forall r | 0 <= r < |table|
      ensures |FormatLines(table, MaxLength(table[0]))[r]| == |table| * (MaxLength(table[0]) + 2)
    {
      HelpLineWidth(moves, table, r);
    }
  }

  /** The help text for N moves is N + 1 lines of N + 1 cells, each cell
      maxLength + 2 characters wide, separated by N line breaks. */
  lemma HelpTextLength(moves: seq<string>, table: seq<seq<string>>)
    requires IsHelpTable(moves, table)
    ensures |table| == |moves| + 1
    ensures |RenderHelp(table)| == |table| * (|table| * (MaxLength(table[0]) + 2)) + |table| - 1
  {
    var w := |table| * (MaxLength(table[0]) + 2);
    HelpLinesWidth(moves, table);
    RenderedLength(table, w);
  }
}

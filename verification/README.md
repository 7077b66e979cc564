# Generalised rock-paper-scissors: a verified model of the game logic

The program is a command-line game of rock-paper-scissors over any odd
number (three or more) of distinct moves given on the command line. Each
round it builds a MAC over a move, lets the player pick a move from a
numbered menu, picks the computer's move at random, scores the round from
an N-by-N outcome table, and reveals the key. This project models in Dafny
the deterministic logic of that game, all of it in `game.js`:

- `Outcomes` (`outcomes.dfy`): the rule that fills the outcome table,
  defined by `Outcomes.TableEntry`. Row i (player move) against column j (computer move), 0-based: the diagonal
  is a draw. The moves one place and three places further round the cycle,
  `(i+1) % N` and `(i+3) % N`, are wins. Everything else is a loss. The
  module proves what this rule gives for every table size. Each row has one
  draw, and two wins once there are four or more moves (one with three
  moves). So among odd sizes the table is balanced and antisymmetric exactly
  for three and five moves. With seven moves, the first and third moves each
  lose against the other.
- `RulesEngine` (`rules.dfy`): the `Rules` class. Its constructor fills a
  freshly allocated two-dimensional array with nested loops, and it has
  1-based accessors for move names and outcomes.
- `UserInput` (`user_input.dfy`): the prompt's token check,
  `UserInput.ValidateUserInput`. It accepts
  `"?"`, `"0"`, or a token whose `parseInt` value is a move number. It comes
  with `UserInput.ParseInt`, a model of JavaScript's one-argument `parseInt`:
  - leading white space and line terminators are skipped;
  - an optional sign is taken;
  - a `0x`/`0X` prefix switches to radix 16;
  - the longest run of digits is read; no digits gives NaN.
- `HelpTable` (`help_table.dfy`): the help grid's cells, described by
  `HelpTable.IsHelpTable`, and its text, defined by `HelpTable.RenderHelp`.
  Cells are padded with `padEnd(maxLength + 2)`, where `maxLength` is the longest
  header cell. Cells are joined with `''` and rows with `'\n'`.
- `GameLoop` (`game.dfy`): the startup check on the move list
  (`GameLoop.ArgumentsAccepted`) and the
  `Game` class. The class holds the two score counters, builds the help
  grid with nested loops, and runs one pass of the play loop on a valid
  token.
- `Wrappers` (`wrappers.dfy`): `Option`, for the lookups that give
  `undefined` in JavaScript.

Randomness is lifted out. The computer's move number is a parameter of
`Game.Play`. The token is a parameter too: it stands for a line read from
the terminal that the re-prompt loop has already validated.

The outcome rule the code implements differs from the familiar game:

- In classic rock-paper-scissors Paper beats Rock. The usual generalisation
  to N moves has each move beat the next (N-1)/2 moves round the cycle. The
  code instead wins at offsets 1 and 3 only. With three moves in the order
  Rock, Paper, Scissors, the player's Rock against the computer's Paper is
  a `Win` (`ThreeMoveRows`).
- With five moves the code's wins are offsets 1 and 3, not 1 and 2. With
  seven or more moves the code's table is unbalanced
  (`BalancedExactlyForThreeAndFive`, `AntisymmetricExactlyForThreeAndFive`,
  `SevenMovesUnbalanced`).

## Model

| member | source | states |
|---|---|---|
| `Outcomes.OutcomeName` | game.js:32-38 | the stored outcome texts are "Win", "Lose", "Draw", of 3 to 4 characters, so never longer than "Moves" |
| `Outcomes.EntryByOffset` | game.js:32-38 | for three or more moves, an entry depends only on how far the computer's move lies after the player's round the cycle: offset 0 draws, offsets 1 and 3 win, all others lose |
| `Outcomes.RowCounts` | game.js:30-40 | every row of the table holds exactly one Draw (on the diagonal); it holds 1 Win with three moves and exactly 2 Wins with any larger number; all other entries are Lose |
| `Outcomes.BalancedExactlyForThreeAndFive` | game.js:30-40 | for an odd number N >= 3 of moves, every row has (N-1)/2 Wins and (N-1)/2 Loses if and only if N is 3 or 5 |
| `Outcomes.AntisymmetricExactlyForThreeAndFive` | game.js:32-38 | for an odd number N >= 3 of moves, "i wins against j iff j loses against i" holds for all i != j if and only if N is 3 or 5 |
| `Outcomes.SevenMovesUnbalanced` | game.js:34 | with seven moves the first and third moves each lose against the other, and the first move wins against only 2 of the other 6 |
| `Outcomes.ThreeMoveRows` | game.js:32-38 | the three-move table, rows [Draw, Win, Lose], [Lose, Draw, Win], [Win, Lose, Draw]: each move wins against the next one in the list |
| `RulesEngine.GenerateTable` | game.js:27-43 | the nested loops return a fresh size-by-size array whose entry (i, j) is the rule's entry for i and j; in particular the whole diagonal is Draw |
| `RulesEngine.Rules.constructor` | game.js:21-25 | the engine keeps the move list, its length as size, and a fresh table satisfying the rule |
| `RulesEngine.Rules.GetMoveName` | game.js:45-47 | the name is present exactly for 1 <= k <= N, and it is then the k-th move of the list |
| `RulesEngine.Rules.GetOutcome` | game.js:49-51 | the outcome is present exactly when both 1-based indices are in 1..N; it is then the rule's entry for (p-1, c-1), and a Draw only when p == c |
| `UserInput.TrimStartDropsWhiteSpace` | game.js:85 | parseInt's first step drops exactly the leading white space: the rest is a suffix that does not start with white space |
| `UserInput.DigitRunIsLongestPrefix` | game.js:85 | the digits parseInt reads are the longest prefix of digits of the radix |
| `UserInput.NatToString` | game.js:64 | the menu's numeral for k is non-empty, all decimal digits, without a leading zero when k > 0 |
| `UserInput.NumeralValue` | game.js:64 | reading back the menu's numeral for k gives k |
| `UserInput.ParseNumeral` | game.js:85 | parseInt of a positive numeral followed by anything not starting with a digit is that number, so parseInt("2x") is 2 |
| `UserInput.AcceptsMenuNumbers` | game.js:83-87 | the numeral of k, alone or (for k > 0) followed by a non-digit tail, is accepted iff k <= N; "0" is always accepted |
| `UserInput.ParseWithoutDigits` | game.js:85 | a string without a decimal digit parses to NaN, because a hex prefix needs its leading zero |
| `UserInput.RejectsWithoutDigits` | game.js:83-87 | a token without a decimal digit, the empty line included, is rejected unless it is "?" |
| `UserInput.HexPrefixAccepted` | game.js:85-86 | "0x2" parses to 2 and is accepted as a move with three moves |
| `UserInput.LeadingZeros` | game.js:84-86 | "02" parses to 2 and is accepted; "00" parses to 0 and is rejected, since only the exact token "0" exits |
| `HelpTable.PadEnd` | game.js:156 | the padded cell keeps the cell as its prefix, is followed only by spaces, and is as long as the width (or the cell, when longer) |
| `HelpTable.MaxLength` | game.js:155 | the maximum is at least every cell's length and equals the length of some cell |
| `HelpTable.HelpCellsFitHeader` | game.js:143-155 | no cell of the help grid is longer than the longest header cell: first-column names appear in the header, and outcome texts are shorter than "Moves" |
| `HelpTable.FormattedCellsUniform` | game.js:155-157 | when every cell fits in maxLength, every formatted cell is exactly maxLength + 2 long and starts with the original cell |
| `HelpTable.ConcatUniform` | game.js:158 | joining cells of equal width w with '' gives a line of (number of cells) * w characters |
| `HelpTable.JoinLinesUniform` | game.js:158 | joining k lines of equal width w with '\n' gives k*w + k - 1 characters |
| `HelpTable.HelpLineWidth` | game.js:155-158 | every line of the help text is (N+1) * (maxLength + 2) characters long, maxLength being the longest header cell |
| `HelpTable.HelpLinesWidth` | game.js:142-158 | the help grid has N+1 rows, and all its formatted lines have the same width (N+1) * (maxLength + 2) |
| `HelpTable.RenderedLength` | game.js:158 | a grid whose formatted lines all have width w renders to (rows * w) characters plus (rows - 1) line breaks |
| `HelpTable.HelpTextLength` | game.js:142-158 | the help grid for N moves has N+1 rows, and its text is N+1 lines of N+1 cells of maxLength + 2 characters, plus N line breaks |
| `GameLoop.SetSizeIffDistinct` | game.js:170 | the set of names is never larger than the list, and as large exactly when no name repeats |
| `GameLoop.ArgumentsAcceptedIff` | game.js:170 | the startup check accepts a move list iff it has at least 3 moves, an odd number of them, and pairwise distinct names |
| `GameLoop.MoveNamesIdentifyMoves` | game.js:170 | for an accepted move list, two menu numbers name the same move iff they are equal |
| `GameLoop.AcceptedListFairIffThreeOrFive` | game.js:170 | among accepted move lists, the outcome table is balanced, and antisymmetric, exactly when there are 3 or 5 moves |
| `GameLoop.Game.constructor` | game.js:55-60 | a new game starts with both counters at 0, no resolved rounds, and an engine over its moves |
| `GameLoop.Game.ScoreAccountsForRounds` | game.js:122-130 | player wins, computer wins and draws add up to the number of resolved rounds |
| `GameLoop.Game.BuildHelpTable` | game.js:142-153 | the nested loops build the grid: header "Moves" then the moves; row i is move i followed by the outcome texts of table row i; N+1 rows of N+1 cells |
| `GameLoop.Game.Play` | game.js:105-133 | "0" yields the final score and changes nothing. "?" yields the help grid and its text and changes nothing. A move number p is played against computer move c: the step reports both names and the outcome of table entry (p-1, c-1). A Win adds one to playerWins only, a Lose adds one to computerWins only, a Draw changes neither. The counters never decrease, their sum grows by at most one, and each counter stays equal to its side's number of won rounds |

## Left out

- `KeyGenerator.generateKey` and `HMACGenerator.generateHMAC` (game.js:6-18) only call Node's crypto module (random bytes, HMAC-SHA-256), so they are not modelled. The key and the MAC do not appear in the model.
- The MAC printed at game.js:93 is computed over a move drawn independently of the computer's move drawn at game.js:118. The model makes no claim that this commitment binds the move actually played.
- `Math.random` (game.js:93, game.js:118) is not modelled: the computer's move number is a parameter of `Game.Play`, required to be in 1..N as `Math.floor(Math.random() * N) + 1` guarantees.
- `getUserInput` (game.js:69-81) is left out because it is blocking terminal input through readline and a promise. The re-prompt `do…while` (game.js:98-103) is left out because it need not terminate; it is represented by `UserInput.ValidateUserInput` and by `Game.Play` requiring a token that passes it.
- The endless `while (true)` round loop (game.js:90) is left out because it does not terminate; `Game.Play` models one pass of it.
- Text output is left out: `displayMenu`, the `console.log`/`console.error` lines, `printFinalResult` and `process.exit`. The data they print is kept: `Game.Play` returns the final score on "0", the help text on "?", and the two move names and the outcome on a move. The invalid-input message hard-codes "1-5" whatever N is; this is output only and not modelled.
- The startup check at game.js:170-173 is modelled as `ArgumentsAccepted`. Printing the error and exiting with status 1 is not modelled.
- `Rules.getOutcome`: JavaScript throws a TypeError for an out-of-range row index and returns `undefined` for an out-of-range column. The model returns `None` for both. The program never calls it out of range.
- The outcome table is an `array2` rather than an array of row arrays. The aliasing of row arrays plays no part in the program.
- `HelpTable` lengths count Unicode scalar values. JavaScript counts UTF-16 code units, so padding differs for move names with characters outside the Basic Multilingual Plane.
- `UserInput.ParseInt` returns exact integers. JavaScript rounds numerals beyond 2^53 to doubles and gives -0 for "-0". Neither changes the comparison with 1..N.
- Column balance of the outcome table is not proved; only rows are.

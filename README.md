# Board games: tic-tac-toe reducer and memory game, in Dafny

This project models the two game engines of a small React application and
proves properties of them.

- **Tic-tac-toe** (`tictactoe.dfy`, module `TicTacToe`). The engine is a reducer
  from `{grid, turn, status}` and an action (`RESET`, `CLICK{x, y}`, or any other
  type) to the next state. The grid is 3×3 and addressed as `grid[y][x]`, so `x`
  is the column and `y` the row. A click on an empty cell of a game in progress
  writes the mark of `turn` there. Then one of three things happens:
  - the board wins: the game ends and `turn` still names the winner;
  - the board is full with no win: the game restarts;
  - otherwise: the turn passes to the other player.

  A finished game ignores everything except `RESET`. The win test is modelled
  as the source has it (`CheckForWin`) and with the eight lines of the game
  (`CheckForWinIntended`). The reducer `ReduceWith` takes the rule as a
  parameter. `Reduce` is the source's reducer. The general lemmas about the
  reducer, from `ResetRestarts` to `WinnerIsTurn`, are proved for both rules.
  Each concrete game (`TopRowGameIntended`, `TopRowGameAsWritten`,
  `MiddleColumnGameAsWritten`) is proved for one rule.
- **Dealing** (`deal.dfy`, module `Deal`). `shuffleArray` is an in-place
  Fisher–Yates loop over an `array`. The draws of `Math.random` come in as
  `picks`, where `picks[i]` is the `j` drawn at step `i`, so `0 <= j <= i`. The
  method is proved to leave `Shuffled(old(a[..]), picks)` in the array.
  `Shuffled` is proved to be a permutation. `generateGame` doubles each symbol
  it gets from the emoji library and shuffles the result.
- **Memory game** (`memory_game.dfy`, module `MemoryGame`). The class `Game`
  holds the component's three pieces of state: `cards`, `shownCards` (where ""
  means face down) and `latest` (where -1 means no card is waiting).
  - `Click(i)` is the synchronous part of `handleClick`.
  - Clicking a face-down card returns the scheduled timer callback as a
    `Pending` value. That value holds the index and the `cards`, `shownCards`
    and `latest` which the callback's closure captured before the flip.
  - `Resolve(p)` is the body of that callback.
  - `ClickAndSettle` is a click whose callback fires before the next click.
  - `Reset` is `resetGame`, and `IsWon` is the win test.
- `counting.dfy` (module `Counting`) holds the `filter(...).length` count. Both
  games use it to decide that every entry is set.

The model follows the code, which behaves as follows:
- Only six distinct triples are tested for a win (see Findings).
- The click coordinates are (column, row), not (row, column).
- A draw restarts the game. There is no draw status.
- A mismatch puts back the `shownCards` captured at click time, with both
  cards cleared.
- Each symbol appears exactly twice only when the emoji library returns
  distinct symbols. The code does not check this.

The source's `Turn` type spells the second mark `"0"`, but `nextTurn`
produces the letter `"O"`. The model uses the marks `X` and `O`.

## Model

| member | source | states |
|---|---|---|
| `Counting.CountWhere` | src/TicTacToe.tsx:50 | the length of `filter(keep)`, used here and for `shownCards.filter(Boolean).length` at src/MemoryGame.tsx:120; never more than the input's length. Its meaning is given by `Counting.CountWhereAll` |
| `Counting.CountWhereAll` | src/TicTacToe.tsx:50 | the filtered array is as long as the array exactly when every entry is truthy (both directions) |
| `TicTacToe.GenerateGrid` | src/TicTacToe.tsx:13-19 | `rows` rows of `columns` cells each, every cell the mapper's value |
| `TicTacToe.GenerateTicTacToeGrid` | src/TicTacToe.tsx:21 | a 3×3 grid of empty cells |
| `TicTacToe.InitialState` | src/TicTacToe.tsx:59-63 | empty 3×3 grid, X to move, game in progress |
| `TicTacToe.NextTurn` | src/TicTacToe.tsx:23-25 | the next turn always differs from the current one |
| `TicTacToe.NextTurnInvolution` | src/TicTacToe.tsx:23-25 | swapping the turn twice gives the turn back |
| `TicTacToe.Flatten` | src/TicTacToe.tsx:88 | `grid.flat()`: the rows joined in order, three times as long as the grid has rows. Its meaning is given by `TicTacToe.FlattenAt` |
| `TicTacToe.FlattenAt` | src/TicTacToe.tsx:88 | `grid.flat()` of a 3×3 grid has 9 entries, and cell (x, y) is entry 3y+x (order nw, n, ne, w, c, e, sw, s, se) |
| `TicTacToe.FlattenUpdate` | src/TicTacToe.tsx:84-88 | writing cell (x, y) and then flattening writes entry 3y+x of the flattened grid and nothing else |
| `TicTacToe.CheckForThree` | src/TicTacToe.tsx:27-31 | true exactly when all three cells are non-empty and equal |
| `TicTacToe.CheckForWin` | src/TicTacToe.tsx:33-46 | `checkForWin` with its eight calls as written, (nw, n, nw) and the repeated lines included. Its meaning is given by `TicTacToe.CheckForWinTests` |
| `TicTacToe.CheckForWinIntended` | src/TicTacToe.tsx:33-46 | the same routine with the eight lines of the game. Its meaning is given by `TicTacToe.CheckForWinIntendedTests` and `TicTacToe.CheckForWinIntendedIffLine` |
| `TicTacToe.CheckForWinTests` | src/TicTacToe.tsx:33-46 | `checkForWin` as written holds exactly when one of its six distinct triples (nw,n,nw), (w,c,e), (sw,s,se), (nw,w,sw), (nw,c,se), (ne,c,sw) is a line of three |
| `TicTacToe.TopRowFalsePositive` | src/TicTacToe.tsx:37 | as written, X on nw and n alone is a win, though the board has no three in a row |
| `TicTacToe.MiddleColumnMissed` | src/TicTacToe.tsx:38-42 | as written, X down the whole middle column is not a win |
| `TicTacToe.CheckForWinIntendedTests` | src/TicTacToe.tsx:33-46 | the corrected test holds exactly when one of the eight lines is a line of three |
| `TicTacToe.CheckForWinIntendedIffLine` | src/TicTacToe.tsx:33-46 | the corrected test on the flattened grid holds exactly when the board has a full row, column or diagonal of one mark |
| `TicTacToe.WinsTests` | src/TicTacToe.tsx:90 | for either rule, the win test holds exactly when one of that rule's lines holds |
| `TicTacToe.CheckForDraw` | src/TicTacToe.tsx:48-51 | true exactly when every entry of the flattened grid is non-empty |
| `TicTacToe.Placed` | src/TicTacToe.tsx:84-85 | the copied grid with `turn` written at row y, column x. Its meaning is given by `TicTacToe.ClickWritesOnlyThatCell` and `TicTacToe.FlattenUpdate` |
| `TicTacToe.ReduceWith` | src/TicTacToe.tsx:67-107 | the next state of a 3×3 game is again 3×3 |
| `TicTacToe.Reduce` | src/TicTacToe.tsx:67-107 | the source's reducer keeps the grid 3×3 |
| `TicTacToe.Run` | src/TicTacToe.tsx:112-119 | dispatching a sequence of valid actions keeps the grid 3×3 |
| `TicTacToe.ResetRestarts` | src/TicTacToe.tsx:72-74 | `RESET` gives the initial state, whatever the prior state |
| `TicTacToe.FinishedGameIgnoresActions` | src/TicTacToe.tsx:68-70 | in a won game, every action other than `RESET` returns the state unchanged |
| `TicTacToe.OtherIgnored` | src/TicTacToe.tsx:104-105 | an action that is neither `RESET` nor `CLICK` returns the state unchanged, in progress or not |
| `TicTacToe.OccupiedCellIgnored` | src/TicTacToe.tsx:79-82 | a click on a marked cell returns the state unchanged |
| `TicTacToe.ClickWritesOnlyThatCell` | src/TicTacToe.tsx:84-85 | a click on an empty cell in progress puts the mover's mark there and leaves all eight other cells alone, unless the draw branch restarts the game |
| `TicTacToe.WinKeepsTurn` | src/TicTacToe.tsx:90-93 | a click whose board wins gives that board with status success and the same turn |
| `TicTacToe.DrawRestarts` | src/TicTacToe.tsx:95-98 | a click that fills the board without a win gives the initial state |
| `TicTacToe.OtherwiseTurnPasses` | src/TicTacToe.tsx:100-102 | any other click on an empty cell gives the new board, the other player's turn and status in progress |
| `TicTacToe.MarksNeverOverwritten` | src/TicTacToe.tsx:79-98 | after any action, a marked cell keeps its mark unless the game restarted |
| `TicTacToe.InitialConsistent` | src/TicTacToe.tsx:59-63 | the initial state satisfies the game invariant: equal mark counts with X to move, and no line |
| `TicTacToe.ReduceKeepsConsistent` | src/TicTacToe.tsx:67-107 | every dispatch keeps the invariant. In progress, X has as many marks as O when X is to move and one more otherwise, and there is no line. A won game has a line, every line belongs to `turn`, and `turn` made the last move |
| `TicTacToe.RunKeepsConsistent` | src/TicTacToe.tsx:67-107 | any sequence of valid actions keeps the invariant |
| `TicTacToe.WinnerIsTurn` | src/TicTacToe.tsx:124 | in a won game reached by play, a line holds and every line that holds is made of `turn`'s mark, so "`turn` won" is right |
| `TicTacToe.TopRowGameIntended` | src/TicTacToe.tsx:67-107 | with the eight-line test, X at (0,0), (1,0), (2,0) against O at (0,1), (1,1) goes through the listed states and ends won with `turn` X |
| `TicTacToe.TopRowGameAsWritten` | src/TicTacToe.tsx:37 | with the source's test, the same game ends after X's second mark, with `turn` X and no three in a row |
| `TicTacToe.MiddleColumnGameAsWritten` | src/TicTacToe.tsx:41-42 | with the source's test, X at (1,0), (1,1), (1,2) against O at (0,1), (2,1) goes through the listed states and ends in progress with O to move, although the middle column is full |
| `Deal.Swap` | src/MemoryGame.tsx:22-24 | positions i and j exchange their values and every other position is kept |
| `Deal.ShuffleFrom` | src/MemoryGame.tsx:20-25 | the loop's steps from i down to 1 applied to a sequence, keeping its length. Its meaning is given by `Deal.ShuffleFromPermutes` and `Deal.ShuffleFromKeepsAbove` |
| `Deal.Shuffled` | src/MemoryGame.tsx:19-27 | what `shuffleArray` leaves in the array: all the steps from the last index down. Its meaning is given by `Deal.ShuffledIsPermutation` and `Deal.ShuffleArray` |
| `Deal.ShuffleFromPermutes` | src/MemoryGame.tsx:20-25 | the loop steps from i down to 1 permute the sequence |
| `Deal.ShuffleFromKeepsAbove` | src/MemoryGame.tsx:20-25 | the loop steps from i down touch no position above i, so those positions are final |
| `Deal.ShuffledIsPermutation` | src/MemoryGame.tsx:19-27 | for every choice of draws, the shuffle has the same length and the same multiset as its input |
| `Deal.ShuffleArray` | src/MemoryGame.tsx:19-27 | the array is shuffled in place: it ends holding `Shuffled` of its old contents, a permutation of them, and the same array is returned |
| `Deal.Doubled` | src/MemoryGame.tsx:31-33 | 2n entries, with entries 2k and 2k+1 both equal to symbol k |
| `Deal.DoubledCounts` | src/MemoryGame.tsx:31-33 | every symbol occurs twice as often in the doubled list as in the input |
| `Deal.DistinctOccursOnce` | src/MemoryGame.tsx:30 | in a list without repeats, each member occurs once and nothing else occurs |
| `Deal.EachSymbolTwice` | src/MemoryGame.tsx:29-35 | from distinct symbols, each symbol is on exactly two cards, both before and after the shuffle, and no other value is on any card |
| `Deal.GenerateGame` | src/MemoryGame.tsx:29-35 | a new array holding the shuffled doubled symbols, each symbol twice as often as in the input |
| `MemoryGame.CheckIfMatch` | src/MemoryGame.tsx:67 | truthy exactly when both symbols are non-empty and equal |
| `MemoryGame.AllHidden` | src/MemoryGame.tsx:71-73 | n entries, all face down |
| `MemoryGame.Game.constructor` | src/MemoryGame.tsx:70-74 | the initial component state: a fresh deal, 2·N_CARDS face-down entries, no waiting card, and play's invariant holds |
| `MemoryGame.Game.Reset` | src/MemoryGame.tsx:111-115 | `resetGame`: the shuffled doubled deal, 2·N_CARDS face-down entries, `latest = -1` |
| `MemoryGame.Game.Click` | src/MemoryGame.tsx:86-90 | a face-up card changes nothing and schedules nothing. A face-down card gets `shownCards[i] = cards[i]` with every other entry kept, and schedules the callback with the state from before the flip |
| `MemoryGame.Game.Resolve` | src/MemoryGame.tsx:93-107 | three cases. No card waiting: `latest = i` and `shownCards` unchanged. Mismatch: the captured `shownCards` with positions i and `latest` cleared, and `latest = -1`. Match: `shownCards` unchanged and `latest = -1` |
| `MemoryGame.Game.ClickAndSettle` | src/MemoryGame.tsx:76-109 | when the callback runs before the next click: a mismatched second card leaves both cards face down, a matching one leaves both face up, and every face-up card other than the waiting one stays face up. Play's invariant is kept |
| `MemoryGame.Game.IsWon` | src/MemoryGame.tsx:120 | won exactly when every entry of `shownCards` is face up |
| `MemoryGame.FirstPairMatches` | src/MemoryGame.tsx:93-120 | in a fresh game whose first two cards match, clicking both leaves both face up, and the game is not won |

## Left out

- The React components and their wiring: `TicTacToe`, `Grid`, `Cell`, `Board`, `Card`, the JSX of `MemoryGame`, and `src/App.tsx`. They render state and forward clicks; they hold no logic.
- The 300 ms `setTimeout` and the event loop. A callback is an explicit `Pending` value that `Click` returns and `Resolve` consumes. Interleavings can be written as call sequences. Stale callbacks after a reset can be written too, but no property is proved about them.
- `Math.random` and the uniform distribution of the shuffle, because they are probabilistic. The draws are the parameter `picks`, with each `picks[i]` in `[0, i]`.
- `randomEmoji.random` is a foreign library call. Its symbols are a parameter. `Game.constructor` and `Game.Reset` require the `N_CARDS` symbols the library promises. Distinctness is required only by `Deal.EachSymbolTwice`.
- The `JSON.parse(JSON.stringify(...))` deep copies and `console.log`. Dafny's values already give copy semantics.
- `TicTacToe.ReduceWith`: requires click coordinates in `0..2`. The source has no bounds check, and an out-of-range click would throw or write past a row.
- `MemoryGame.Game.Click`: requires an index of the deck, as the rendered board supplies. Out-of-range indices are not modelled.
- `TicTacToe.GenerateGrid`: the mapper is modelled as taking no arguments. JavaScript's `map` passes it the value and index, which the only mapper ignores.
- `N_CARDS` is fixed at 4, as in the source. The comment about letting the user choose the number of cards describes nothing in the code.

## Findings

| source | as written | input that shows it | evidently intended | confidence | as-written member | corrected member |
|---|---|---|---|---|---|---|
| src/TicTacToe.tsx:37 | the first triple tested is (nw, n, nw), so two equal marks at nw and n win | X plays (0,0), O plays (0,1), X plays (1,0): the game is reported won by X with ne empty | the top row (nw, n, ne) | high, by reading; not executed | `TicTacToe.TopRowGameAsWritten` | `TicTacToe.CheckForWinIntendedIffLine` |
| src/TicTacToe.tsx:41-42 | the fifth and sixth triples repeat lines 38-39, so the middle and right columns are never tested | X plays (1,0), O plays (0,1), X plays (1,1), O plays (2,1), X plays (1,2): the middle column is full, no win is detected and O is to move | the columns (n, c, s) and (ne, e, se) | high, by reading; not executed | `TicTacToe.MiddleColumnGameAsWritten` | `TicTacToe.CheckForWinIntendedIffLine` |

The source's behaviour is `Reduce`, the reducer with the as-written rule.
`ReduceWith(Intended, ...)` is the corrected reducer. The game invariant and
`TicTacToe.WinnerIsTurn` are proved for both rules.

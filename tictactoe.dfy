/**
 * The tic-tac-toe engine of src/TicTacToe.tsx: a reducer from a state and an
 * action to the next state, over a 3x3 grid addressed as `grid[y][x]`
 * (`x` is the column, `y` the row).
 *
 * The win test is modelled twice.  `CheckForWin` is the routine as the
 * source has it: its first triple is (nw, n, nw) and two of its eight lines
 * repeat two others, so only six distinct triples are tested and the middle
 * and right columns never are.  `CheckForWinIntended` tests the eight lines
 * of the game.  The reducer takes the win rule as a parameter; `Reduce` is
 * the source's reducer (rule `AsWritten`).  The general lemmas about the
 * reducer, from `ResetRestarts` to `WinnerIsTurn`, are proved for both rules;
 * the concrete games at the end are proved for one rule each.
 */
module TicTacToe {
  import opened Counting

  /** The two marks.  The source's `Turn` type spells the second one "0",
      but `nextTurn` produces the letter "O", so the marks are X and O. */
  datatype Player = X | O

  /** A cell holds "" (empty) or the mark of a player. */
  datatype Cell = Empty | Mark(player: Player)

  type Grid = seq<seq<Cell>>

  datatype Status = InProgress | Success

  datatype State = State(grid: Grid, turn: Player, status: Status)

  /** `{type: "RESET"}`, `{type: "CLICK", payload: {x, y}}`, or an action of any other type. */
  datatype Action = Reset | Click(x: int, y: int) | Other

  /** A cell string is truthy exactly when it holds a mark. */
  predicate IsFilled(c: Cell) {
    c != Empty
  }

  predicate WellFormed(g: Grid) {
    |g| == 3 && forall y :: 0 <= y < 3 ==> |g[y]| == 3
  }

  /** Clicks come from the cells of the rendered grid. */
  predicate ValidAction(a: Action) {
    a.Click? ==> 0 <= a.x < 3 && 0 <= a.y < 3
  }

  // ---------------------------------------------------------------------
  // Grid construction and the initial state

  /** `rows` arrays of `columns` entries, each produced by `mapper`. */
  function GenerateGrid(rows: nat, columns: nat, mapper: () -> Cell): (g: Grid)
    ensures |g| == rows
    ensures forall y :: 0 <= y < rows ==> |g[y]| == columns
    ensures forall y, x :: 0 <= y < rows && 0 <= x < columns ==> g[y][x] == mapper()
  {
    seq(rows, _ => seq(columns, _ => mapper()))
  }

  function GenerateTicTacToeGrid(): (g: Grid)
    ensures WellFormed(g)
    ensures forall y, x :: 0 <= y < 3 && 0 <= x < 3 ==> g[y][x] == Empty
  {
    GenerateGrid(3, 3, () => Empty)
  }

  /** An empty grid, X to move, game in progress. */
  function InitialState(): (s: State)
    ensures WellFormed(s.grid) && s.turn == X && s.status == InProgress
    ensures forall y, x :: 0 <= y < 3 && 0 <= x < 3 ==> s.grid[y][x] == Empty
  {
    State(GenerateTicTacToeGrid(), X, InProgress)
  }

  function NextTurn(turn: Player): (r: Player)
    ensures r != turn
  {
    if turn == X then O else X
  }

  lemma NextTurnInvolution(turn: Player)
    ensures NextTurn(NextTurn(turn)) == turn
  {
  }

  // ---------------------------------------------------------------------
  // The flattened grid

  /** `grid.flat()`: the rows one after another. */
  function Flatten(g: Grid): (f: seq<Cell>)
    ensures (forall y :: 0 <= y < |g| ==> |g[y]| == 3) ==> |f| == 3 * |g|
  {
    if g == [] then [] else g[0] + Flatten(g[1..])
  }

  lemma FlattenThree(g: Grid)
    requires WellFormed(g)
    ensures Flatten(g) == g[0] + g[1] + g[2]
  {
    assert g[1..][0] == g[1] && g[1..][1..] == g[2..];
    assert g[2..][0] == g[2] && g[2..][1..] == [];
    assert Flatten(g[2..]) == g[2] + Flatten([]);
    assert Flatten(g[1..]) == g[1] + Flatten(g[2..]);
  }

  /** Cell (x, y) of the grid is entry `3 * y + x` of the flattened grid,
      which is the order `nw, n, ne, w, c, e, sw, s, se`. */
  lemma FlattenAt(g: Grid, y: int, x: int)
    requires WellFormed(g) && 0 <= y < 3 && 0 <= x < 3
    ensures |Flatten(g)| == 9 && Flatten(g)[3 * y + x] == g[y][x]
  {
    FlattenThree(g);
  }

  /** Writing cell (x, y) writes entry `3 * y + x` of the flattened grid and no other. */
  lemma FlattenUpdate(g: Grid, y: int, x: int, v: Cell)
    requires WellFormed(g) && 0 <= y < 3 && 0 <= x < 3
    ensures WellFormed(g[y := g[y][x := v]])
    ensures Flatten(g[y := g[y][x := v]]) == Flatten(g)[3 * y + x := v]
  {
    var g' := g[y := g[y][x := v]];
    FlattenThree(g);
    FlattenThree(g');
    var f, f' := Flatten(g), Flatten(g');
    forall k | 0 <= k < 9
      ensures f'[k] == f[3 * y + x := v][k]
    {
      FlattenAt(g, k / 3, k % 3);
      FlattenAt(g', k / 3, k % 3);
    }
  }

  // ---------------------------------------------------------------------
  // Win and draw detection

  /** Three cells are a line of three when all are filled and all are equal. */
  function CheckForThree(a: Cell, b: Cell, c: Cell): (r: bool)
    ensures r <==> IsFilled(a) && a == b && b == c
  {
    if !IsFilled(a) || !IsFilled(b) || !IsFilled(c) then false
    else if a == b && b == c then true
    else false
  }

  /** Three positions of the flattened grid. */
  type Line = (nat, nat, nat)

  predicate LineHolds(f: seq<Cell>, l: Line) {
    l.0 < |f| && l.1 < |f| && l.2 < |f| && CheckForThree(f[l.0], f[l.1], f[l.2])
  }

  predicate AnyLineHolds(f: seq<Cell>, lines: seq<Line>) {
    exists k :: 0 <= k < |lines| && LineHolds(f, lines[k])
  }

  /** The distinct triples `checkForWin` tests, in its order. */
  const TestedLines: seq<Line> := [(0, 1, 0), (3, 4, 5), (6, 7, 8), (0, 3, 6), (0, 4, 8), (2, 4, 6)]

  /** The three rows, three columns and two diagonals of the board. */
  const AllLines: seq<Line> :=
    [(0, 1, 2), (3, 4, 5), (6, 7, 8), (0, 3, 6), (1, 4, 7), (2, 5, 8), (0, 4, 8), (2, 4, 6)]

  /** `checkForWin` as written. */
  function CheckForWin(f: seq<Cell>): bool
    requires |f| == 9
  {
    var nw, n, ne, w, c, e, sw, s, se := f[0], f[1], f[2], f[3], f[4], f[5], f[6], f[7], f[8];
    CheckForThree(nw, n, nw) ||
    CheckForThree(w, c, e) ||
    CheckForThree(sw, s, se) ||
    CheckForThree(nw, w, sw) ||
    CheckForThree(w, c, e) ||
    CheckForThree(sw, s, se) ||
    CheckForThree(nw, c, se) ||
    CheckForThree(ne, c, sw)
  }

  /** `checkForWin` with the eight lines of the game. */
  function CheckForWinIntended(f: seq<Cell>): bool
    requires |f| == 9
  {
    var nw, n, ne, w, c, e, sw, s, se := f[0], f[1], f[2], f[3], f[4], f[5], f[6], f[7], f[8];
    CheckForThree(nw, n, ne) ||
    CheckForThree(w, c, e) ||
    CheckForThree(sw, s, se) ||
    CheckForThree(nw, w, sw) ||
    CheckForThree(n, c, s) ||
    CheckForThree(ne, e, se) ||
    CheckForThree(nw, c, se) ||
    CheckForThree(ne, c, sw)
  }

  /** `checkForWin` holds exactly when one of its six distinct triples is a line of three. */
  lemma CheckForWinTests(f: seq<Cell>)
    requires |f| == 9
    ensures CheckForWin(f) <==> AnyLineHolds(f, TestedLines)
  {
    var L := TestedLines;
    if CheckForWin(f) {
      if CheckForThree(f[0], f[1], f[0]) { assert LineHolds(f, L[0]); }
      else if CheckForThree(f[3], f[4], f[5]) { assert LineHolds(f, L[1]); }
      else if CheckForThree(f[6], f[7], f[8]) { assert LineHolds(f, L[2]); }
      else if CheckForThree(f[0], f[3], f[6]) { assert LineHolds(f, L[3]); }
      else if CheckForThree(f[0], f[4], f[8]) { assert LineHolds(f, L[4]); }
      else { assert LineHolds(f, L[5]); }
    }
  }

  /** The corrected test holds exactly when one of the eight lines is a line of three. */
  lemma CheckForWinIntendedTests(f: seq<Cell>)
    requires |f| == 9
    ensures CheckForWinIntended(f) <==> AnyLineHolds(f, AllLines)
  {
    var L := AllLines;
    if CheckForWinIntended(f) {
      if CheckForThree(f[0], f[1], f[2]) { assert LineHolds(f, L[0]); }
      else if CheckForThree(f[3], f[4], f[5]) { assert LineHolds(f, L[1]); }
      else if CheckForThree(f[6], f[7], f[8]) { assert LineHolds(f, L[2]); }
      else if CheckForThree(f[0], f[3], f[6]) { assert LineHolds(f, L[3]); }
      else if CheckForThree(f[1], f[4], f[7]) { assert LineHolds(f, L[4]); }
      else if CheckForThree(f[2], f[5], f[8]) { assert LineHolds(f, L[5]); }
      else if CheckForThree(f[0], f[4], f[8]) { assert LineHolds(f, L[6]); }
      else { assert LineHolds(f, L[7]); }
    }
  }

  /** Three in a row on the board itself: a row, a column or a diagonal. */
  ghost predicate HasThreeInARow(g: Grid)
    requires WellFormed(g)
  {
    || (exists y :: 0 <= y < 3 && CheckForThree(g[y][0], g[y][1], g[y][2]))
    || (exists x :: 0 <= x < 3 && CheckForThree(g[0][x], g[1][x], g[2][x]))
    || CheckForThree(g[0][0], g[1][1], g[2][2])
    || CheckForThree(g[0][2], g[1][1], g[2][0])
  }

  /** The corrected test on the flattened grid is exactly three in a row on the board. */
  lemma CheckForWinIntendedIffLine(g: Grid)
    requires WellFormed(g)
    ensures |Flatten(g)| == 9
    ensures CheckForWinIntended(Flatten(g)) <==> HasThreeInARow(g)
  {
    FlattenThree(g);
    var f := Flatten(g);
    assert f[0] == g[0][0] && f[1] == g[0][1] && f[2] == g[0][2];
    assert f[3] == g[1][0] && f[4] == g[1][1] && f[5] == g[1][2];
    assert f[6] == g[2][0] && f[7] == g[2][1] && f[8] == g[2][2];
    if CheckForThree(g[0][0], g[0][1], g[0][2]) { assert CheckForWinIntended(f); }
    if CheckForThree(g[1][0], g[1][1], g[1][2]) { assert CheckForWinIntended(f); }
    if CheckForThree(g[2][0], g[2][1], g[2][2]) { assert CheckForWinIntended(f); }
    if CheckForThree(g[0][0], g[1][0], g[2][0]) { assert CheckForWinIntended(f); }
    if CheckForThree(g[0][1], g[1][1], g[2][1]) { assert CheckForWinIntended(f); }
    if CheckForThree(g[0][2], g[1][2], g[2][2]) { assert CheckForWinIntended(f); }
    if CheckForWinIntended(f) {
      if CheckForThree(f[0], f[1], f[2]) { assert CheckForThree(g[0][0], g[0][1], g[0][2]); }
      else if CheckForThree(f[3], f[4], f[5]) { assert CheckForThree(g[1][0], g[1][1], g[1][2]); }
      else if CheckForThree(f[6], f[7], f[8]) { assert CheckForThree(g[2][0], g[2][1], g[2][2]); }
      else if CheckForThree(f[0], f[3], f[6]) { assert CheckForThree(g[0][0], g[1][0], g[2][0]); }
      else if CheckForThree(f[1], f[4], f[7]) { assert CheckForThree(g[0][1], g[1][1], g[2][1]); }
      else if CheckForThree(f[2], f[5], f[8]) { assert CheckForThree(g[0][2], g[1][2], g[2][2]); }
    }
  }

  /** The grid after X has played nw and n, nothing else. */
  const TwoInTopRow: Grid :=
    [[Mark(X), Mark(X), Empty], [Empty, Empty, Empty], [Empty, Empty, Empty]]

  /** The grid with X down the middle column, nothing else. */
  const MiddleColumn: Grid :=
    [[Empty, Mark(X), Empty], [Empty, Mark(X), Empty], [Empty, Mark(X), Empty]]

  /** As written, two equal marks at nw and n already count as a win. */
  lemma TopRowFalsePositive()
    ensures WellFormed(TwoInTopRow) && |Flatten(TwoInTopRow)| == 9
    ensures CheckForWin(Flatten(TwoInTopRow)) && !HasThreeInARow(TwoInTopRow)
  {
    var g := TwoInTopRow;
    FlattenThree(g);
    assert !CheckForThree(g[0][0], g[0][1], g[0][2]);
    assert !CheckForThree(g[1][0], g[1][1], g[1][2]);
    assert !CheckForThree(g[2][0], g[2][1], g[2][2]);
    assert !CheckForThree(g[0][1], g[1][1], g[2][1]);
    assert !CheckForThree(g[0][2], g[1][2], g[2][2]);
  }

  /** As written, a full middle column is not a win. */
  lemma MiddleColumnMissed()
    ensures WellFormed(MiddleColumn) && |Flatten(MiddleColumn)| == 9
    ensures !CheckForWin(Flatten(MiddleColumn)) && HasThreeInARow(MiddleColumn)
  {
    var g := MiddleColumn;
    FlattenThree(g);
    assert CheckForThree(g[0][1], g[1][1], g[2][1]);
  }

  /** `grid.filter((t) => t).length === grid.length`. */
  function CheckForDraw(f: seq<Cell>): (r: bool)
    ensures r <==> forall k :: 0 <= k < |f| ==> IsFilled(f[k])
  {
    CountWhereAll(f, IsFilled);
    CountWhere(f, IsFilled) == |f|
  }

  // ---------------------------------------------------------------------
  // The reducer

  datatype WinRule = AsWritten | Intended

  function Wins(rule: WinRule, f: seq<Cell>): bool
    requires |f| == 9
  {
    match rule
    case AsWritten => CheckForWin(f)
    case Intended => CheckForWinIntended(f)
  }

  function Lines(rule: WinRule): seq<Line> {
    match rule
    case AsWritten => TestedLines
    case Intended => AllLines
  }

  lemma WinsTests(rule: WinRule, f: seq<Cell>)
    requires |f| == 9
    ensures Wins(rule, f) <==> AnyLineHolds(f, Lines(rule))
  {
    match rule
    case AsWritten => CheckForWinTests(f);
    case Intended => CheckForWinIntendedTests(f);
  }

  /** The grid with the mark of the player to move written at (x, y). */
  function Placed(s: State, x: int, y: int): (g: Grid)
    requires WellFormed(s.grid) && 0 <= x < 3 && 0 <= y < 3
  {
    s.grid[y := s.grid[y][x := Mark(s.turn)]]
  }

  /** `reducer`, with the win test chosen by `rule`. */
  function ReduceWith(rule: WinRule, s: State, a: Action): (r: State)
    requires WellFormed(s.grid) && ValidAction(a)
    ensures WellFormed(r.grid)
  {
    if s.status == Success && !a.Reset? then s
    else
      match a
      case Reset => InitialState()
      case Click(x, y) =>
        if IsFilled(s.grid[y][x]) then s
        else
          var grid := Placed(s, x, y);
          FlattenUpdate(s.grid, y, x, Mark(s.turn));
          FlattenAt(s.grid, 0, 0);
          var flat := Flatten(grid);
          if Wins(rule, flat) then State(grid, s.turn, Success)
          else if CheckForDraw(flat) then InitialState()
          else State(grid, NextTurn(s.turn), InProgress)
      case Other => s
  }

  /** The source's reducer. */
  function Reduce(s: State, a: Action): (r: State)
    requires WellFormed(s.grid) && ValidAction(a)
    ensures WellFormed(r.grid)
  {
    ReduceWith(AsWritten, s, a)
  }

  /** The state after dispatching `actions` one after another. */
  function Run(rule: WinRule, s: State, actions: seq<Action>): (r: State)
    requires WellFormed(s.grid)
    requires forall i :: 0 <= i < |actions| ==> ValidAction(actions[i])
    ensures WellFormed(r.grid)
    decreases |actions|
  {
    if actions == [] then s else Run(rule, ReduceWith(rule, s, actions[0]), actions[1..])
  }

  // ---------------------------------------------------------------------
  // What one dispatch does

  lemma ResetRestarts(rule: WinRule, s: State)
    requires WellFormed(s.grid)
    ensures ReduceWith(rule, s, Reset) == InitialState()
  {
  }

  lemma FinishedGameIgnoresActions(rule: WinRule, s: State, a: Action)
    requires WellFormed(s.grid) && ValidAction(a)
    requires s.status == Success && !a.Reset?
    ensures ReduceWith(rule, s, a) == s
  {
  }

  /** Any action other than `RESET` and `CLICK` leaves the state as it is. */
  lemma OtherIgnored(rule: WinRule, s: State)
    requires WellFormed(s.grid)
    ensures ReduceWith(rule, s, Other) == s
  {
  }

  lemma OccupiedCellIgnored(rule: WinRule, s: State, x: int, y: int)
    requires WellFormed(s.grid) && 0 <= x < 3 && 0 <= y < 3
    requires IsFilled(s.grid[y][x])
    ensures ReduceWith(rule, s, Click(x, y)) == s
  {
  }

  /** A click on an empty cell of a game in progress writes the mover's mark there
      and leaves every other cell alone, unless the game restarts on a draw. */
  lemma ClickWritesOnlyThatCell(rule: WinRule, s: State, x: int, y: int)
    requires WellFormed(s.grid) && 0 <= x < 3 && 0 <= y < 3
    requires s.status == InProgress && !IsFilled(s.grid[y][x])
    ensures var r := ReduceWith(rule, s, Click(x, y));
      r == InitialState() ||
      (r.grid[y][x] == Mark(s.turn) &&
       forall y', x' :: 0 <= y' < 3 && 0 <= x' < 3 && (y', x') != (y, x) ==> r.grid[y'][x'] == s.grid[y'][x'])
  {
  }

  /** A winning click ends the game and keeps the winner as `turn`. */
  lemma WinKeepsTurn(rule: WinRule, s: State, x: int, y: int)
    requires WellFormed(s.grid) && 0 <= x < 3 && 0 <= y < 3
    requires s.status == InProgress && !IsFilled(s.grid[y][x])
    requires WellFormed(Placed(s, x, y)) && Wins(rule, Flatten(Placed(s, x, y)))
    ensures ReduceWith(rule, s, Click(x, y)) == State(Placed(s, x, y), s.turn, Success)
  {
  }

  /** A click that fills the board without a win restarts the game. */
  lemma DrawRestarts(rule: WinRule, s: State, x: int, y: int)
    requires WellFormed(s.grid) && 0 <= x < 3 && 0 <= y < 3
    requires s.status == InProgress && !IsFilled(s.grid[y][x])
    requires WellFormed(Placed(s, x, y))
    requires !Wins(rule, Flatten(Placed(s, x, y)))
    requires forall y', x' :: 0 <= y' < 3 && 0 <= x' < 3 ==> IsFilled(Placed(s, x, y)[y'][x'])
    ensures ReduceWith(rule, s, Click(x, y)) == InitialState()
  {
    var g := Placed(s, x, y);
    forall k | 0 <= k < 9
      ensures IsFilled(Flatten(g)[k])
    {
      FlattenAt(g, k / 3, k % 3);
    }
  }

  /** Any other click on an empty cell hands the turn over. */
  lemma OtherwiseTurnPasses(rule: WinRule, s: State, x: int, y: int)
    requires WellFormed(s.grid) && 0 <= x < 3 && 0 <= y < 3
    requires s.status == InProgress && !IsFilled(s.grid[y][x])
    requires WellFormed(Placed(s, x, y)) && !Wins(rule, Flatten(Placed(s, x, y)))
    requires exists y', x' :: 0 <= y' < 3 && 0 <= x' < 3 && !IsFilled(Placed(s, x, y)[y'][x'])
    ensures ReduceWith(rule, s, Click(x, y)) == State(Placed(s, x, y), NextTurn(s.turn), InProgress)
  {
    var g := Placed(s, x, y);
    var y', x' :| 0 <= y' < 3 && 0 <= x' < 3 && !IsFilled(g[y'][x']);
    FlattenAt(g, y', x');
  }

  /** A placed mark stays until the game restarts. */
  lemma MarksNeverOverwritten(rule: WinRule, s: State, a: Action, x: int, y: int)
    requires WellFormed(s.grid) && ValidAction(a) && 0 <= x < 3 && 0 <= y < 3
    requires IsFilled(s.grid[y][x])
    ensures var r := ReduceWith(rule, s, a);
      r == InitialState() || r.grid[y][x] == s.grid[y][x]
  {
  }

  // ---------------------------------------------------------------------
  // What every reachable state satisfies

  function MarkOf(p: Player): Cell -> bool {
    c => c == Mark(p)
  }

  /** The number of marks of `p` on the board. */
  function Marks(g: Grid, p: Player): nat {
    CountWhere(Flatten(g), MarkOf(p))
  }

  /** Every line of `lines` that holds is made of the mark of `p`. */
  ghost predicate LinesOnlyOf(f: seq<Cell>, lines: seq<Line>, p: Player) {
    forall k :: 0 <= k < |lines| && LineHolds(f, lines[k]) ==> f[lines[k].0] == Mark(p)
  }

  /**
   * X moves first and the players alternate, so while the game is in
   * progress X has placed as many marks as O when it is X's turn and one
   * more otherwise; once a player has won, that player (`turn`) has just
   * moved.  A game in progress has no line; a won game has one, and every
   * line it has belongs to `turn`, which is why the winner can be read
   * from `turn`.
   */
  ghost predicate Consistent(rule: WinRule, s: State) {
    && WellFormed(s.grid)
    && |Flatten(s.grid)| == 9
    && var xs, os, f := Marks(s.grid, X), Marks(s.grid, O), Flatten(s.grid);
       match s.status
       case InProgress =>
         && (if s.turn == X then xs == os else xs == os + 1)
         && !Wins(rule, f)
       case Success =>
         && (if s.turn == X then xs == os + 1 else xs == os)
         && Wins(rule, f)
         && LinesOnlyOf(f, Lines(rule), s.turn)
  }

  lemma InitialConsistent(rule: WinRule)
    ensures Consistent(rule, InitialState())
  {
    var s := InitialState();
    FlattenThree(s.grid);
    var f := Flatten(s.grid);
    assert forall k :: 0 <= k < |f| ==> f[k] == Empty;
    CountWhereNone(f, MarkOf(X));
    CountWhereNone(f, MarkOf(O));
    WinsTests(rule, f);
  }

  /** A line that holds after writing `v` at entry `k`, but did not before, runs through `k`. */
  lemma NewLineThroughMove(f: seq<Cell>, k: nat, v: Cell, l: Line)
    requires k < |f|
    requires LineHolds(f[k := v], l) && !LineHolds(f, l)
    ensures f[k := v][l.0] == v
  {
  }

  lemma ReduceKeepsConsistent(rule: WinRule, s: State, a: Action)
    requires Consistent(rule, s) && ValidAction(a)
    ensures Consistent(rule, ReduceWith(rule, s, a))
  {
    if s.status == Success && !a.Reset? {
    } else if a.Reset? {
      InitialConsistent(rule);
    } else if a.Click? {
      var x, y, t := a.x, a.y, s.turn;
      if !IsFilled(s.grid[y][x]) {
        var g := Placed(s, x, y);
        var k := 3 * y + x;
        var f := Flatten(s.grid);
        FlattenUpdate(s.grid, y, x, Mark(t));
        FlattenAt(s.grid, y, x);
        var f' := Flatten(g);
        assert f' == f[k := Mark(t)];
        CountWhereUpdate(f, k, Mark(t), MarkOf(X));
        CountWhereUpdate(f, k, Mark(t), MarkOf(O));
        var r := ReduceWith(rule, s, a);
        if Wins(rule, f') {
          assert r == State(g, t, Success);
          WinsTests(rule, f);
          forall j | 0 <= j < |Lines(rule)| && LineHolds(f', Lines(rule)[j])
            ensures f'[Lines(rule)[j].0] == Mark(t)
          {
            assert !LineHolds(f, Lines(rule)[j]);
            NewLineThroughMove(f, k, Mark(t), Lines(rule)[j]);
          }
        } else if CheckForDraw(f') {
          InitialConsistent(rule);
        } else {
          assert r == State(g, NextTurn(t), InProgress);
        }
      }
    }
  }

  /** Every state reachable from the initial state by valid actions is consistent. */
  lemma {:induction false} RunKeepsConsistent(rule: WinRule, s: State, actions: seq<Action>)
    requires Consistent(rule, s)
    requires forall i :: 0 <= i < |actions| ==> ValidAction(actions[i])
    ensures Consistent(rule, Run(rule, s, actions))
    decreases |actions|
  {
    if actions != [] {
      ReduceKeepsConsistent(rule, s, actions[0]);
      RunKeepsConsistent(rule, ReduceWith(rule, s, actions[0]), actions[1..]);
    }
  }

  /** In a won game reached by playing, `turn` names the player who owns the winning line. */
  lemma WinnerIsTurn(rule: WinRule, actions: seq<Action>)
    requires forall i :: 0 <= i < |actions| ==> ValidAction(actions[i])
    ensures var r := Run(rule, InitialState(), actions);
      r.status == Success ==>
        AnyLineHolds(Flatten(r.grid), Lines(rule)) && LinesOnlyOf(Flatten(r.grid), Lines(rule), r.turn)
  {
    InitialConsistent(rule);
    RunKeepsConsistent(rule, InitialState(), actions);
    var r := Run(rule, InitialState(), actions);
    WinsTests(rule, Flatten(r.grid));
  }

  // ---------------------------------------------------------------------
  // X takes the top row, (0, 0), (1, 0), (2, 0), while O plays (0, 1) and (1, 1)

  // The states of that game, move by move.
  const AfterX1 := State([[Mark(X), Empty, Empty], [Empty, Empty, Empty], [Empty, Empty, Empty]], O, InProgress)
  const AfterO1 := State([[Mark(X), Empty, Empty], [Mark(O), Empty, Empty], [Empty, Empty, Empty]], X, InProgress)
  const AfterX2 := State([[Mark(X), Mark(X), Empty], [Mark(O), Empty, Empty], [Empty, Empty, Empty]], O, InProgress)
  const AfterO2 := State([[Mark(X), Mark(X), Empty], [Mark(O), Mark(O), Empty], [Empty, Empty, Empty]], X, InProgress)
  const AfterX3 := State([[Mark(X), Mark(X), Mark(X)], [Mark(O), Mark(O), Empty], [Empty, Empty, Empty]], X, Success)
  /** As written, X's second mark already ends the game. */
  const AfterX2AsWritten := State(AfterX2.grid, X, Success)

  // One lemma per move keeps each concrete computation small.

  lemma XOpens(rule: WinRule)
    ensures ReduceWith(rule, InitialState(), Click(0, 0)) == AfterX1
  {
    StepIs(rule, InitialState(), Click(0, 0), AfterX1, 2, 2);
  }

  lemma OAnswers(rule: WinRule)
    ensures ReduceWith(rule, AfterX1, Click(0, 1)) == AfterO1
  {
    StepIs(rule, AfterX1, Click(0, 1), AfterO1, 2, 2);
  }

  lemma XSecond()
    ensures ReduceWith(Intended, AfterO1, Click(1, 0)) == AfterX2
  {
    StepIs(Intended, AfterO1, Click(1, 0), AfterX2, 2, 2);
  }

  lemma XSecondAsWritten()
    ensures Reduce(AfterO1, Click(1, 0)) == AfterX2AsWritten
  {
    StepIs(AsWritten, AfterO1, Click(1, 0), AfterX2AsWritten, 2, 2);
  }

  lemma OSecond()
    ensures ReduceWith(Intended, AfterX2, Click(1, 1)) == AfterO2
  {
    StepIs(Intended, AfterX2, Click(1, 1), AfterO2, 2, 2);
  }

  lemma XThird()
    ensures ReduceWith(Intended, AfterO2, Click(2, 0)) == AfterX3
  {
    StepIs(Intended, AfterO2, Click(2, 0), AfterX3, 2, 2);
  }

  /** After X's second mark no row, column or diagonal is full. */
  lemma NoThreeAfterX2()
    ensures WellFormed(AfterX2.grid) && !HasThreeInARow(AfterX2.grid)
  {
    var b := AfterX2.grid;
    assert !CheckForThree(b[0][0], b[0][1], b[0][2]);
    assert !CheckForThree(b[1][0], b[1][1], b[1][2]);
    assert !CheckForThree(b[0][1], b[1][1], b[2][1]);
  }

  /** With the eight lines, X wins on its third mark and `turn` still reads X. */
  lemma TopRowGameIntended()
    ensures ReduceWith(Intended, InitialState(), Click(0, 0)) == AfterX1
    ensures ReduceWith(Intended, AfterX1, Click(0, 1)) == AfterO1
    ensures ReduceWith(Intended, AfterO1, Click(1, 0)) == AfterX2
    ensures ReduceWith(Intended, AfterX2, Click(1, 1)) == AfterO2
    ensures ReduceWith(Intended, AfterO2, Click(2, 0)) == AfterX3
    ensures AfterX3.status == Success && AfterX3.turn == X
  {
    XOpens(Intended);
    OAnswers(Intended);
    XSecond();
    OSecond();
    XThird();
  }

  /** With the source's test, the game already ends after X's second mark, with no three in a row. */
  lemma TopRowGameAsWritten()
    ensures Reduce(InitialState(), Click(0, 0)) == AfterX1
    ensures Reduce(AfterX1, Click(0, 1)) == AfterO1
    ensures Reduce(AfterO1, Click(1, 0)) == AfterX2AsWritten
    ensures AfterX2AsWritten.status == Success && AfterX2AsWritten.turn == X
    ensures WellFormed(AfterX2AsWritten.grid) && !HasThreeInARow(AfterX2AsWritten.grid)
  {
    XOpens(AsWritten);
    OAnswers(AsWritten);
    XSecondAsWritten();
    NoThreeAfterX2();
  }

  // ---------------------------------------------------------------------
  // X takes the middle column, (1, 0), (1, 1), (1, 2), while O plays (0, 1) and (2, 1)

  const MidX1 := State([[Empty, Mark(X), Empty], [Empty, Empty, Empty], [Empty, Empty, Empty]], O, InProgress)
  const MidO1 := State([[Empty, Mark(X), Empty], [Mark(O), Empty, Empty], [Empty, Empty, Empty]], X, InProgress)
  const MidX2 := State([[Empty, Mark(X), Empty], [Mark(O), Mark(X), Empty], [Empty, Empty, Empty]], O, InProgress)
  const MidO2 := State([[Empty, Mark(X), Empty], [Mark(O), Mark(X), Mark(O)], [Empty, Empty, Empty]], X, InProgress)
  /** As written, X's full middle column leaves the game running, with O to move. */
  const MidX3 := State([[Empty, Mark(X), Empty], [Mark(O), Mark(X), Mark(O)], [Empty, Mark(X), Empty]], O, InProgress)

  lemma MidXOpens()
    ensures Reduce(InitialState(), Click(1, 0)) == MidX1
  {
    StepIs(AsWritten, InitialState(), Click(1, 0), MidX1, 0, 0);
  }

  lemma MidOAnswers()
    ensures Reduce(MidX1, Click(0, 1)) == MidO1
  {
    StepIs(AsWritten, MidX1, Click(0, 1), MidO1, 0, 0);
  }

  lemma MidXSecond()
    ensures Reduce(MidO1, Click(1, 1)) == MidX2
  {
    StepIs(AsWritten, MidO1, Click(1, 1), MidX2, 0, 0);
  }

  lemma MidOSecond()
    ensures Reduce(MidX2, Click(2, 1)) == MidO2
  {
    StepIs(AsWritten, MidX2, Click(2, 1), MidO2, 0, 0);
  }

  lemma MidXThird()
    ensures Reduce(MidO2, Click(1, 2)) == MidX3
  {
    StepIs(AsWritten, MidO2, Click(1, 2), MidX3, 0, 0);
  }

  /** With the source's test, a middle column completed in play is not a win: the game goes on with O to move. */
  lemma MiddleColumnGameAsWritten()
    ensures Reduce(InitialState(), Click(1, 0)) == MidX1
    ensures Reduce(MidX1, Click(0, 1)) == MidO1
    ensures Reduce(MidO1, Click(1, 1)) == MidX2
    ensures Reduce(MidX2, Click(2, 1)) == MidO2
    ensures Reduce(MidO2, Click(1, 2)) == MidX3
    ensures MidX3.status == InProgress && MidX3.turn == O
    ensures WellFormed(MidX3.grid) && HasThreeInARow(MidX3.grid)
  {
    MidXOpens();
    MidOAnswers();
    MidXSecond();
    MidOSecond();
    MidXThird();
    assert CheckForThree(MidX3.grid[0][1], MidX3.grid[1][1], MidX3.grid[2][1]);
  }

  /** One dispatch, computed on concrete boards. */
  lemma StepIs(rule: WinRule, s: State, a: Action, r: State, ex: int, ey: int)
    requires WellFormed(s.grid) && ValidAction(a) && WellFormed(r.grid)
    requires a.Click? && s.status == InProgress && !IsFilled(s.grid[a.y][a.x])
    requires forall y, x :: 0 <= y < 3 && 0 <= x < 3 ==> r.grid[y][x] == Placed(s, a.x, a.y)[y][x]
    requires r.turn == (if r.status == Success then s.turn else NextTurn(s.turn))
    requires r.status == Success <==> Wins(rule, r.grid[0] + r.grid[1] + r.grid[2])
    requires 0 <= ey < 3 && 0 <= ex < 3 && !IsFilled(r.grid[ey][ex])
    ensures ReduceWith(rule, s, a) == r
  {
    var g := Placed(s, a.x, a.y);
    forall y | 0 <= y < 3
      ensures g[y] == r.grid[y]
    {
      assert forall x :: 0 <= x < 3 ==> g[y][x] == r.grid[y][x];
    }
    assert g == r.grid;
    FlattenThree(g);
    if r.status == InProgress {
      FlattenAt(g, ey, ex);
      OtherwiseTurnPasses(rule, s, a.x, a.y);
    }
  }
}

/** Minesweeper: numbering the board, the flood reveal, and the game as a whole. The mines are given;
    drawing them at random is not part of the model. */
module Minesweeper {
  type Cell = (int, int)

  const DIRECTIONS: seq<Cell> := [(-1, -1), (-1, 0), (-1, 1), (0, -1), (0, 1), (1, -1), (1, 0), (1, 1)]

  function Step(cell: Cell, d: Cell): Cell {
    (cell.0 + d.0, cell.1 + d.1)
  }

  predicate Adjacent(a: Cell, b: Cell) {
    a != b && -1 <= b.0 - a.0 <= 1 && -1 <= b.1 - a.1 <= 1
  }

  predicate InGrid(rows: nat, cols: nat, cell: Cell) {
    0 <= cell.0 < rows && 0 <= cell.1 < cols
  }

  function Grid(rows: nat, cols: nat): (grid: set<Cell>)
    ensures forall cell :: cell in grid <==> InGrid(rows, cols, cell)
  {
    set r, c | 0 <= r < rows && 0 <= c < cols :: (r, c)
  }

  // ----- Numbers --------------------------------------------------------------------------------

  /** The count after looking in the first k directions. */
  function CountTo(mines: set<Cell>, cell: Cell, k: nat): (n: nat)
    requires k <= |DIRECTIONS|
    ensures n <= k
  {
    if k == 0 then 0 else CountTo(mines, cell, k - 1) + if Step(cell, DIRECTIONS[k - 1]) in mines then 1 else 0
  }

  lemma CountStep(mines: set<Cell>, cell: Cell, k: nat)
    requires k < |DIRECTIONS|
    ensures CountTo(mines, cell, 0) == 0
    ensures CountTo(mines, cell, k + 1) ==
      CountTo(mines, cell, k) + if (cell.0 + DIRECTIONS[k].0, cell.1 + DIRECTIONS[k].1) in mines then 1 else 0
  {
  }

  function Digit(n: nat): char
    requires n <= 8
  {
    ['0', '1', '2', '3', '4', '5', '6', '7', '8'][n]
  }

  function Shown(mines: set<Cell>, cell: Cell): char {
    if cell in mines then '*'
    else
      var n := CountTo(mines, cell, 8);
      if n > 0 then Digit(n) else ' '
  }

  function SeenTo(mines: set<Cell>, cell: Cell, k: nat): (seen: set<Cell>)
    requires k <= |DIRECTIONS|
    ensures forall m :: m in seen <==> m in mines && exists i :: 0 <= i < k && Step(cell, DIRECTIONS[i]) == m
  {
    if k == 0 then {}
    else
      var last := Step(cell, DIRECTIONS[k - 1]);
      SeenTo(mines, cell, k - 1) + if last in mines then {last} else {}
  }

  lemma DirectionsDiffer(cell: Cell, i: nat, j: nat)
    requires i < j < |DIRECTIONS|
    ensures Step(cell, DIRECTIONS[i]) != Step(cell, DIRECTIONS[j])
  {
  }

  lemma {:induction false} CountIsSize(mines: set<Cell>, cell: Cell, k: nat)
    requires k <= |DIRECTIONS|
    ensures |SeenTo(mines, cell, k)| == CountTo(mines, cell, k)
  {
    if k > 0 {
      CountIsSize(mines, cell, k - 1);
      forall i | 0 <= i < k - 1 ensures Step(cell, DIRECTIONS[i]) != Step(cell, DIRECTIONS[k - 1]) {
        DirectionsDiffer(cell, i, k - 1);
      }
    }
  }

  lemma DirectionsAreNeighbours(cell: Cell, other: Cell)
    ensures Adjacent(cell, other) <==> exists i :: 0 <= i < |DIRECTIONS| && Step(cell, DIRECTIONS[i]) == other
  {
    if Adjacent(cell, other) {
      var dr, dc := other.0 - cell.0, other.1 - cell.1;
      var i := if dr == -1 then dc + 1 else if dr == 0 then (if dc == -1 then 3 else 4) else dc + 6;
      assert Step(cell, DIRECTIONS[i]) == other;
    }
  }

  function Around(mines: set<Cell>, cell: Cell): set<Cell> {
    set m | m in mines && Adjacent(cell, m)
  }

  /** A mine shows as an asterisk; a safe cell shows the number of mines around it as a decimal digit, or a
      blank exactly when there is none. */
  lemma NumberIsExact(mines: set<Cell>, cell: Cell)
    ensures Shown(mines, cell) == '*' <==> cell in mines
    ensures cell !in mines ==>
      var n := |Around(mines, cell)|;
      n <= 8 && if n == 0 then Shown(mines, cell) == ' ' else Shown(mines, cell) as int - '0' as int == n
    ensures Blank(mines, cell) <==> cell !in mines && forall m :: Adjacent(cell, m) ==> m !in mines
  {
    CountIsSize(mines, cell, 8);
    forall m ensures m in Around(mines, cell) <==> m in SeenTo(mines, cell, 8) {
      DirectionsAreNeighbours(cell, m);
    }
    assert Around(mines, cell) == SeenTo(mines, cell, 8);
    ShownIs(mines, cell);
    DigitIsDecimal(CountTo(mines, cell, 8));
    hide Shown, Digit, CountTo, SeenTo;
    assert forall m :: m in Around(mines, cell) <==> m in mines && Adjacent(cell, m);
    assert Around(mines, cell) == {} <==> |Around(mines, cell)| == 0;
  }

  lemma DigitIsDecimal(n: nat)
    requires n <= 8
    ensures Digit(n) as int - '0' as int == n
    ensures Digit(n) != '*' && Digit(n) != ' '
  {
    assert '0' as int == 48 && '1' as int == 49 && '2' as int == 50 && '3' as int == 51 && '4' as int == 52;
  }

  // ----- Reachability ---------------------------------------------------------------------------

  predicate Blank(mines: set<Cell>, cell: Cell) {
    Shown(mines, cell) == ' '
  }

  /** A walk through hidden cells that leaves only blank ones. */
  predicate Walk(mines: set<Cell>, hidden: set<Cell>, path: seq<Cell>) {
    && path != []
    && (forall i :: 0 <= i < |path| ==> path[i] in hidden)
    && (forall i :: 0 <= i < |path| - 1 ==> Blank(mines, path[i]) && Adjacent(path[i], path[i + 1]))
  }

  ghost predicate Reachable(mines: set<Cell>, hidden: set<Cell>, start: Cell, cell: Cell) {
    exists path :: Walk(mines, hidden, path) && path[0] == start && path[|path| - 1] == cell
  }

  lemma ReachesItself(mines: set<Cell>, hidden: set<Cell>, start: Cell)
    requires start in hidden
    ensures Reachable(mines, hidden, start, start)
  {
    assert Walk(mines, hidden, [start]);
  }

  lemma ReachesThrough(mines: set<Cell>, hidden: set<Cell>, start: Cell, next: Cell, fewer: set<Cell>, cell: Cell)
    requires start in hidden && Blank(mines, start) && Adjacent(start, next) && fewer <= hidden
    requires Reachable(mines, fewer, next, cell)
    ensures Reachable(mines, hidden, start, cell)
  {
    var path :| Walk(mines, fewer, path) && path[0] == next && path[|path| - 1] == cell;
    var longer := [start] + path;
    assert forall i :: 0 < i < |longer| ==> longer[i] == path[i - 1];
    assert Walk(mines, hidden, longer);
  }

  lemma WalkOn(mines: set<Cell>, hidden: set<Cell>, path: seq<Cell>, next: Cell)
    requires Walk(mines, hidden, path) && next in hidden
    requires Blank(mines, path[|path| - 1]) && Adjacent(path[|path| - 1], next)
    ensures Reachable(mines, hidden, path[0], next)
  {
    var longer := path + [next];
    assert forall i :: 0 <= i < |path| ==> longer[i] == path[i];
    assert Walk(mines, hidden, longer) && longer[|longer| - 1] == next;
  }

  /** A set that contains the start and every neighbour of its blank members contains every cell reached. */
  lemma {:induction false} ClosedContainsWalk(mines: set<Cell>, hidden: set<Cell>, closed: set<Cell>, path: seq<Cell>)
    requires Walk(mines, hidden, path) && path[0] in closed
    requires forall n, m ::
      n in closed && n in hidden && Blank(mines, n) && Adjacent(n, m) && m in hidden ==> m in closed
    ensures path[|path| - 1] in closed
    decreases |path|
  {
    if |path| > 1 {
      assert path[1] in closed;
      assert forall i :: 0 <= i < |path[1..]| ==> path[1..][i] == path[i + 1];
      ClosedContainsWalk(mines, hidden, closed, path[1..]);
    }
  }

  /** No mine is reached from a safe cell. */
  lemma {:induction false} WalkIsSafe(mines: set<Cell>, hidden: set<Cell>, path: seq<Cell>)
    requires Walk(mines, hidden, path) && path[0] !in mines
    ensures path[|path| - 1] !in mines
    decreases |path|
  {
    if |path| > 1 {
      NumberIsExact(mines, path[0]);
      assert forall i :: 0 <= i < |path[1..]| ==> path[1..][i] == path[i + 1];
      WalkIsSafe(mines, hidden, path[1..]);
    }
  }

  // ----- The flood reveal on sets of visible cells ----------------------------------------------

  /** What dfs_reveal from `start` may turn `before` into. */
  ghost predicate Explored(grid: set<Cell>, mines: set<Cell>, before: set<Cell>, start: Cell, after: set<Cell>) {
    && before <= after <= grid && (start in grid ==> start in after)
    && (forall n :: n in after && n !in before ==> Reachable(mines, grid - before, start, n))
    && (forall n, m :: n in after && n !in before && Blank(mines, n) && Adjacent(n, m) && m in grid ==> m in after)
  }

  /** The same in the middle of a blank cell's loop: `start` has been handled towards `done` only. */
  ghost predicate Exploring(grid: set<Cell>, mines: set<Cell>, before: set<Cell>, start: Cell, now: set<Cell>,
                            done: set<Cell>) {
    && before <= now <= grid && start in now && start !in before
    && (forall n :: n in now && n !in before ==> Reachable(mines, grid - before, start, n))
    && (forall n, m :: n in now && n !in before && n != start && Blank(mines, n) && Adjacent(n, m) && m in grid ==>
          m in now)
    && (forall m :: m in done && m in grid ==> m in now)
  }

  lemma ExploreNothing(grid: set<Cell>, mines: set<Cell>, before: set<Cell>, start: Cell)
    requires before <= grid && (start in grid ==> start in before)
    ensures Explored(grid, mines, before, start, before)
  {
  }

  lemma ExploreStart(grid: set<Cell>, mines: set<Cell>, before: set<Cell>, start: Cell)
    requires before <= grid && start in grid && start !in before
    ensures Exploring(grid, mines, before, start, before + {start}, {})
    ensures !Blank(mines, start) ==> Explored(grid, mines, before, start, before + {start})
  {
    ReachesItself(mines, grid - before, start);
  }

  lemma ExploreEnd(grid: set<Cell>, mines: set<Cell>, before: set<Cell>, start: Cell, now: set<Cell>, done: set<Cell>)
    requires Exploring(grid, mines, before, start, now, done) && forall m :: Adjacent(start, m) ==> m in done
    ensures Explored(grid, mines, before, start, now)
  {
  }

  lemma ExploreGrows(grid: set<Cell>, mines: set<Cell>, before: set<Cell>, start: Cell, now: set<Cell>, done: set<Cell>)
    requires Exploring(grid, mines, before, start, now, done)
    ensures before < now && now <= grid
  {
    assert start in now && start !in before;
  }

  lemma ExploreNeighbour(grid: set<Cell>, mines: set<Cell>, before: set<Cell>, start: Cell, now: set<Cell>,
                         done: set<Cell>, next: Cell, after: set<Cell>)
    requires Exploring(grid, mines, before, start, now, done) && Blank(mines, start) && Adjacent(start, next)
    requires Explored(grid, mines, now, next, after)
    ensures Exploring(grid, mines, before, start, after, done + {next})
  {
    forall n | n in after && n !in before ensures Reachable(mines, grid - before, start, n) {
      if n !in now {
        ReachesThrough(mines, grid - before, start, next, grid - now, n);
      }
    }
  }

  /** The flood is exact: newly visible are precisely the cells reached through hidden blank ones. */
  lemma ExploredIsExact(grid: set<Cell>, mines: set<Cell>, before: set<Cell>, start: Cell, after: set<Cell>)
    requires Explored(grid, mines, before, start, after)
    ensures forall n :: n in after <==> n in before || Reachable(mines, grid - before, start, n)
    ensures start !in mines ==> forall n :: n in after && n !in before ==> n !in mines
  {
    forall n | Reachable(mines, grid - before, start, n) ensures n in after && (start !in mines ==> n !in mines) {
      var path :| Walk(mines, grid - before, path) && path[0] == start && path[|path| - 1] == n;
      ClosedContainsWalk(mines, grid - before, after, path);
      if start !in mines { WalkIsSafe(mines, grid - before, path); }
    }
  }

  // ----- The game as a whole --------------------------------------------------------------------

  /** The visible cells are those reached from the cells revealed, over the whole board. */
  ghost predicate Shows(grid: set<Cell>, mines: set<Cell>, revealed: set<Cell>, visible: set<Cell>) {
    visible <= grid && forall n :: n in visible <==> exists s :: s in revealed && Reachable(mines, grid, s, n)
  }

  lemma ShowsReached(grid: set<Cell>, mines: set<Cell>, revealed: set<Cell>, visible: set<Cell>, s: Cell, n: Cell)
    requires Shows(grid, mines, revealed, visible) && s in revealed && Reachable(mines, grid, s, n)
    ensures n in visible
  {
  }

  /** A visible blank cell has all its neighbours visible. */
  lemma VisibleBlanksAreOpen(grid: set<Cell>, mines: set<Cell>, revealed: set<Cell>, visible: set<Cell>, n: Cell,
                             m: Cell)
    requires Shows(grid, mines, revealed, visible) && n in visible && Blank(mines, n) && Adjacent(n, m) && m in grid
    ensures m in visible
  {
    var s :| s in revealed && Reachable(mines, grid, s, n);
    var path :| Walk(mines, grid, path) && path[0] == s && path[|path| - 1] == n;
    WalkOn(mines, grid, path, m);
    ShowsReached(grid, mines, revealed, visible, s, m);
  }

  lemma VisibleIsSafe(grid: set<Cell>, mines: set<Cell>, revealed: set<Cell>, visible: set<Cell>)
    requires Shows(grid, mines, revealed, visible) && revealed !! mines
    ensures visible !! mines
  {
    forall n | n in visible ensures n !in mines {
      var s :| s in revealed && Reachable(mines, grid, s, n);
      var path :| Walk(mines, grid, path) && path[0] == s && path[|path| - 1] == n;
      WalkIsSafe(mines, grid, path);
    }
  }

  /** Order does not matter: a reveal adds exactly what its cell reaches on the whole board, although the
      flood stops at cells that are visible already. */
  lemma RevealExtends(grid: set<Cell>, mines: set<Cell>, revealed: set<Cell>, before: set<Cell>, start: Cell,
                      after: set<Cell>)
    requires Shows(grid, mines, revealed, before) && start in grid && Explored(grid, mines, before, start, after)
    ensures Shows(grid, mines, revealed + {start}, after)
  {
    ExploredIsExact(grid, mines, before, start, after);
    forall n | n in after ensures exists s :: s in revealed + {start} && Reachable(mines, grid, s, n) {
      if n in before {
        var s :| s in revealed && Reachable(mines, grid, s, n);
        assert s in revealed + {start};
      } else {
        WiderReach(mines, grid - before, grid, start, n);
        assert start in revealed + {start};
      }
    }
    forall s, n | s in revealed + {start} && Reachable(mines, grid, s, n) ensures n in after {
      if s in revealed {
        ShowsReached(grid, mines, revealed, before, s, n);
      } else {
        var path :| Walk(mines, grid, path) && path[0] == s && path[|path| - 1] == n;
        forall a, b | a in after && a in grid && Blank(mines, a) && Adjacent(a, b) && b in grid ensures b in after {
          if a in before { VisibleBlanksAreOpen(grid, mines, revealed, before, a, b); }
        }
        ClosedContainsWalk(mines, grid, after, path);
      }
    }
  }

  lemma WiderReach(mines: set<Cell>, fewer: set<Cell>, hidden: set<Cell>, start: Cell, cell: Cell)
    requires fewer <= hidden && Reachable(mines, fewer, start, cell)
    ensures Reachable(mines, hidden, start, cell)
  {
    var path :| Walk(mines, fewer, path) && path[0] == start && path[|path| - 1] == cell;
    assert Walk(mines, hidden, path);
  }

  // ----- The game itself ------------------------------------------------------------------------

  class Minesweeper {
    const rows: nat
    const cols: nat
    const mines: set<Cell>
    const board: array2<char>
    const visible: array2<bool>
    /** The visible cells as a set, and the safe cells revealed so far. */
    ghost var shown: set<Cell>
    ghost var revealed: set<Cell>

    ghost predicate Sized() {
      && board.Length0 == visible.Length0 == rows && board.Length1 == visible.Length1 == cols
      && mines <= Grid(rows, cols)
    }

    ghost predicate Valid()
      reads this, board, visible
    {
      && Sized() && shown <= Grid(rows, cols)
      && (forall r, c :: 0 <= r < rows && 0 <= c < cols ==> board[r, c] == Shown(mines, (r, c)))
      && (forall r, c :: 0 <= r < rows && 0 <= c < cols ==> (visible[r, c] <==> (r, c) in shown))
    }

    /** A game that has not hit a mine. */
    ghost predicate InPlay()
      reads this, board, visible
    {
      Valid() && revealed !! mines && Shows(Grid(rows, cols), mines, revealed, shown)
    }

    constructor (rows: nat, cols: nat, mines: set<Cell>)
      requires mines <= Grid(rows, cols)
      ensures InPlay() && shown == {} && revealed == {} && fresh(board) && fresh(visible)
      ensures this.rows == rows && this.cols == cols && this.mines == mines
    {
      this.rows := rows;
      this.cols := cols;
      this.mines := mines;
      board := new char[rows, cols]((r, c) => if (r, c) in mines then '*' else ' ');
      visible := new bool[rows, cols]((r, c) => false);
      shown := {};
      revealed := {};
      new;
      PopulateNumbers();
    }

    /** Overwrites every safe cell while later cells still read the mines around them. */
    method PopulateNumbers()
      requires Sized()
      requires forall r, c :: 0 <= r < rows && 0 <= c < cols ==> (board[r, c] == '*' <==> (r, c) in mines)
      modifies board
      ensures forall r, c :: 0 <= r < rows && 0 <= c < cols ==> board[r, c] == Shown(mines, (r, c))
    {
      hide Shown;
      for r := 0 to rows
        invariant forall i, j :: 0 <= i < rows && 0 <= j < cols ==> (board[i, j] == '*' <==> (i, j) in mines)
        invariant forall i, j :: 0 <= i < r && 0 <= j < cols ==> board[i, j] == Shown(mines, (i, j))
      {
        for c := 0 to cols
          invariant forall i, j :: 0 <= i < rows && 0 <= j < cols ==> (board[i, j] == '*' <==> (i, j) in mines)
          invariant forall i, j :: 0 <= i < r && 0 <= j < cols ==> board[i, j] == Shown(mines, (i, j))
          invariant forall j :: 0 <= j < c ==> board[r, j] == Shown(mines, (r, j))
        {
          ShownIs(mines, (r, c));
          if board[r, c] == '*' {
            continue;
          }
          var count := CountMines(r, c);
          board[r, c] := if count > 0 then Digit(count) else ' ';
        }
      }
    }

    method CountMines(r: nat, c: nat) returns (count: nat)
      requires Sized() && r < rows && c < cols
      requires forall r, c :: 0 <= r < rows && 0 <= c < cols ==> (board[r, c] == '*' <==> (r, c) in mines)
      ensures count == CountTo(mines, (r, c), 8)
    {
      count := 0;
      CountStep(mines, (r, c), 0);
      hide CountTo, Step;
      for k := 0 to |DIRECTIONS|
        invariant count == CountTo(mines, (r, c), k)
      {
        var nr, nc := r + DIRECTIONS[k].0, c + DIRECTIONS[k].1;
        CountStep(mines, (r, c), k);
        assert (nr, nc) in mines ==> (nr, nc) in Grid(rows, cols);
        if 0 <= nr < rows && 0 <= nc < cols {
          if board[nr, nc] == '*' {
            count := count + 1;
          }
        }
      }
    }

    /** False means a mine was hit. */
    method Reveal(r: nat, c: nat) returns (safe: bool)
      requires InPlay() && r < rows && c < cols
      modifies this, visible
      ensures Valid() && (safe <==> (r, c) !in mines)
      ensures safe ==> InPlay() && revealed == old(revealed) + {(r, c)}
      ensures safe ==> forall n ::
        n in shown <==> n in old(shown) || Reachable(mines, Grid(rows, cols) - old(shown), (r, c), n)
      ensures !safe ==> shown == old(shown) + {(r, c)}
    {
      ShownIs(mines, (r, c));
      if board[r, c] == '*' {
        visible[r, c] := true;
        shown := shown + {(r, c)};
        return false;
      }
      DfsReveal(r, c);
      ExploredIsExact(Grid(rows, cols), mines, old(shown), (r, c), shown);
      RevealExtends(Grid(rows, cols), mines, revealed, old(shown), (r, c), shown);
      revealed := revealed + {(r, c)};
      return true;
    }

    method DfsReveal(r: int, c: int)
      requires Valid()
      modifies this`shown, visible
      ensures Valid() && Explored(Grid(rows, cols), mines, old(shown), (r, c), shown)
      decreases Grid(rows, cols) - shown
    {
      ghost var grid, before := Grid(rows, cols), shown;
      hide Explored, Exploring, Shown, Reachable;
      if !(0 <= r < rows && 0 <= c < cols) {
        ExploreNothing(grid, mines, before, (r, c));
        return;
      }
      if visible[r, c] {
        ExploreNothing(grid, mines, before, (r, c));
        return;
      }
      visible[r, c] := true;
      shown := shown + {(r, c)};
      ExploreStart(grid, mines, before, (r, c));
      if board[r, c] == ' ' {
        ghost var done: set<Cell> := {};
        for dr := -1 to 2
          invariant Valid() && Exploring(grid, mines, before, (r, c), shown, done)
          invariant forall m :: Adjacent((r, c), m) && m.0 < r + dr ==> m in done
        {
          for dc := -1 to 2
            invariant Valid() && Exploring(grid, mines, before, (r, c), shown, done)
            invariant forall m :: Adjacent((r, c), m) && m.0 < r + dr ==> m in done
            invariant forall m :: Adjacent((r, c), m) && m.0 == r + dr && m.1 < c + dc ==> m in done
          {
            if dr != 0 || dc != 0 {
              ghost var now := shown;
              ExploreGrows(grid, mines, before, (r, c), now, done);
              DfsReveal(r + dr, c + dc);
              ExploreNeighbour(grid, mines, before, (r, c), now, done, (r + dr, c + dc), shown);
              done := done + {(r + dr, c + dc)};
            }
          }
        }
        ExploreEnd(grid, mines, before, (r, c), shown, done);
      }
    }

    method CheckWin() returns (won: bool)
      requires Valid()
      ensures won <==> forall cell :: cell in Grid(rows, cols) && cell !in mines ==> cell in shown
      ensures InPlay() ==> (won <==> shown == Grid(rows, cols) - mines)
    {
      if InPlay() { VisibleIsSafe(Grid(rows, cols), mines, revealed, shown); }
      for r := 0 to rows
        invariant forall cell :: cell in Grid(rows, cols) && cell !in mines && cell.0 < r ==> cell in shown
      {
        for c := 0 to cols
          invariant forall cell :: cell in Grid(rows, cols) && cell !in mines && cell.0 < r ==> cell in shown
          invariant forall cell ::
            cell in Grid(rows, cols) && cell !in mines && cell.0 == r && cell.1 < c ==> cell in shown
        {
          ShownIs(mines, (r, c));
          if !visible[r, c] && board[r, c] != '*' {
            assert (r, c) in Grid(rows, cols);
            return false;
          }
        }
      }
      return true;
    }
  }

  lemma ShownIs(mines: set<Cell>, cell: Cell)
    ensures Shown(mines, cell) == '*' <==> cell in mines
    ensures cell !in mines ==>
      Shown(mines, cell) == if CountTo(mines, cell, 8) > 0 then Digit(CountTo(mines, cell, 8)) else ' '
  {
  }
}

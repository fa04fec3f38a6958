/**
  The maze generator of the game (`generateMaze` / `carve`), present in the
  same form on the server and in the browser client.

  The generator fills an r-by-c grid of 0/1 flags: `carve(x, y)` opens cell
  (x, y), then tries the four axis directions in a random order and, for
  each neighbour two cells away that is inside the grid and not yet
  visited, opens the cell in between and recurses into the neighbour.
  Cells never opened become the walls, listed in row-major order.

  The random order is an input here: `order(cell)` is the shuffle drawn when
  `carve` runs at `cell`. Every cell is carved at most once, so one shuffle
  per cell covers every run the random source can produce.

  The generator in this module gives each `carve` call its own shuffled
  copy of the four directions. The code as written shares one array
  between all calls; see module SharedDirs for that version and for an
  input on which it leaves a lattice cell walled.
*/
module Maze {

  /** A point as the game exchanges it: x is the column, y the row.
      Wall entries and player positions both have this shape. */
  datatype Pos = Pos(x: int, y: int)

  const Origin: Pos := Pos(0, 0)

  /** A cell as the generator indexes its grids, `grid[x][y]`:
      here x is the ROW and y the column. */
  datatype Cell = Cell(x: int, y: int)

  datatype Dir = Dir(dx: int, dy: int)

  /** The four axis directions, in the order the source lists them. */
  const Dirs: seq<Dir> := [Dir(1, 0), Dir(-1, 0), Dir(0, 1), Dir(0, -1)]

  /** What a shuffle of the direction list can yield: four entries that
      are exactly the four directions, i.e. a permutation of the list. */
  predicate IsShuffle(ds: seq<Dir>) {
    |ds| == 4 && (forall d :: d in Dirs ==> d in ds) && (forall d :: d in ds ==> d in Dirs)
  }

  /** A shuffled copy of the direction list. */
  type Shuffle = ds: seq<Dir> | IsShuffle(ds) witness Dirs

  predicate Even(n: int) { n % 2 == 0 }

  predicate InGrid(r: int, c: int, cell: Cell) {
    0 <= cell.x < r && 0 <= cell.y < c
  }

  /** The cells `carve` is called on: both indices even. */
  predicate OnLattice(cell: Cell) { Even(cell.x) && Even(cell.y) }

  /** The cells between four lattice cells: both indices odd. */
  predicate IsPillar(cell: Cell) { !Even(cell.x) && !Even(cell.y) }

  /** The neighbour two steps away in direction d, and the cell in between. */
  function Jump(cell: Cell, d: Dir): Cell { Cell(cell.x + 2 * d.dx, cell.y + 2 * d.dy) }
  function Between(cell: Cell, d: Dir): Cell { Cell(cell.x + d.dx, cell.y + d.dy) }

  ghost function AllCells(r: int, c: int): set<Cell> {
    set i, j | 0 <= i < r && 0 <= j < c :: Cell(i, j)
  }

  /** What carving keeps true of the opened and the visited cells: visited
      cells are opened lattice cells, opened cells are in the grid and never
      pillars, and an opened lattice cell has been visited. */
  ghost predicate Carved(r: int, c: int, open: set<Cell>, vis: set<Cell>) {
    && (forall cell :: cell in vis ==> InGrid(r, c, cell) && OnLattice(cell) && cell in open)
    && (forall cell :: cell in open ==> InGrid(r, c, cell) && !IsPillar(cell))
    && (forall cell :: cell in open && OnLattice(cell) ==> cell in vis)
  }

  /** Every in-grid neighbour two steps from `cell` has been visited. */
  ghost predicate Closed(r: int, c: int, vis: set<Cell>, cell: Cell) {
    && (InGrid(r, c, Jump(cell, Dirs[0])) ==> Jump(cell, Dirs[0]) in vis)
    && (InGrid(r, c, Jump(cell, Dirs[1])) ==> Jump(cell, Dirs[1]) in vis)
    && (InGrid(r, c, Jump(cell, Dirs[2])) ==> Jump(cell, Dirs[2]) in vis)
    && (InGrid(r, c, Jump(cell, Dirs[3])) ==> Jump(cell, Dirs[3]) in vis)
  }

  /** The neighbour two steps from `cell` in direction d is visited
      whenever it is in the grid. */
  ghost predicate Tried(r: int, c: int, vis: set<Cell>, cell: Cell, d: Dir) {
    InGrid(r, c, Jump(cell, d)) ==> Jump(cell, d) in vis
  }

  /** Row-major order on wall entries: by row, then by column. */
  predicate Before(p: Pos, q: Pos) {
    p.y < q.y || (p.y == q.y && p.x < q.x)
  }

  /** The walls the inner loop lists for row i among columns 0 .. j-1. */
  function RowWalls(open: set<Cell>, i: int, j: nat): seq<Pos> {
    if j == 0 then []
    else RowWalls(open, i, j - 1) + (if Cell(i, j - 1) in open then [] else [Pos(j - 1, i)])
  }

  /** The walls listed for rows 0 .. rows-1 of a grid with c columns. */
  function WallsOf(open: set<Cell>, rows: nat, c: nat): seq<Pos> {
    if rows == 0 then [] else WallsOf(open, rows - 1, c) + RowWalls(open, rows - 1, c)
  }

  lemma {:induction false} RowWallsListsUnopened(open: set<Cell>, i: int, j: nat)
    ensures forall p {:trigger p in RowWalls(open, i, j)} :: p in RowWalls(open, i, j) <==> p.y == i && 0 <= p.x < j && Cell(i, p.x) !in open
  {
    if j > 0 {
      RowWallsListsUnopened(open, i, j - 1);
    }
  }

  lemma {:induction false} RowWallsIncreasing(open: set<Cell>, i: int, j: nat)
    ensures forall a, b :: 0 <= a < b < |RowWalls(open, i, j)| ==> RowWalls(open, i, j)[a].x < RowWalls(open, i, j)[b].x
  {
    if j > 0 {
      RowWallsIncreasing(open, i, j - 1);
      RowWallsListsUnopened(open, i, j - 1);
      var prefix := RowWalls(open, i, j - 1);
      assert forall a :: 0 <= a < |prefix| ==> prefix[a] in prefix;
    }
  }

  /** The wall list holds exactly the cells of the grid never opened. */
  lemma {:induction false} WallsListUnopened(open: set<Cell>, rows: nat, c: nat)
    ensures forall p {:trigger p in WallsOf(open, rows, c)} :: p in WallsOf(open, rows, c) <==> 0 <= p.y < rows && 0 <= p.x < c && Cell(p.y, p.x) !in open
  {
    if rows > 0 {
      WallsListUnopened(open, rows - 1, c);
      RowWallsListsUnopened(open, rows - 1, c);
      var prefix, row := WallsOf(open, rows - 1, c), RowWalls(open, rows - 1, c);
      assert WallsOf(open, rows, c) == prefix + row;
      forall p: Pos
        ensures p in prefix + row <==> 0 <= p.y < rows && 0 <= p.x < c && Cell(p.y, p.x) !in open
      {
        assert p in prefix + row <==> p in prefix || p in row;
      }
    }
  }

  /** The wall list is in strict row-major order, so it lists each wall once. */
  lemma {:induction false} WallsInRowMajorOrder(open: set<Cell>, rows: nat, c: nat)
    ensures forall a, b :: 0 <= a < b < |WallsOf(open, rows, c)| ==> Before(WallsOf(open, rows, c)[a], WallsOf(open, rows, c)[b])
  {
    if rows > 0 {
      WallsInRowMajorOrder(open, rows - 1, c);
      WallsListUnopened(open, rows - 1, c);
      RowWallsListsUnopened(open, rows - 1, c);
      RowWallsIncreasing(open, rows - 1, c);
      var prefix, row := WallsOf(open, rows - 1, c), RowWalls(open, rows - 1, c);
      var all := prefix + row;
      forall a, b | 0 <= a < b < |all|
        ensures Before(all[a], all[b])
      {
        if b < |prefix| {
          assert all[a] == prefix[a] && all[b] == prefix[b];
        } else if a >= |prefix| {
          assert all[a] == row[a - |prefix|] && all[b] == row[b - |prefix|];
          assert row[a - |prefix|] in row && row[b - |prefix|] in row;
        } else {
          assert all[a] == prefix[a] && prefix[a] in prefix;
          assert all[b] == row[b - |prefix|] && row[b - |prefix|] in row;
        }
      }
    }
  }

  /** A shuffle holds each of the four directions. */
  lemma ShuffleHoldsAll(ds: seq<Dir>, d: Dir)
    requires IsShuffle(ds) && d in Dirs
    ensures d in ds
  {
  }

  /** Each direction of a shuffle is one of the four axis directions. */
  lemma ShuffleHoldsOnlyAxes(ds: seq<Dir>, k: int)
    requires IsShuffle(ds) && 0 <= k < 4
    ensures ds[k] in Dirs
  {
  }

  /** Opening the cell between a lattice cell and its in-grid jump target
      keeps `Carved`: that cell is in the grid and has exactly one odd index. */
  lemma OpenBetween(r: int, c: int, open: set<Cell>, vis: set<Cell>, cell: Cell, d: Dir)
    requires Carved(r, c, open, vis)
    requires d in Dirs && InGrid(r, c, cell) && OnLattice(cell) && InGrid(r, c, Jump(cell, d))
    ensures Carved(r, c, open + {Between(cell, d)}, vis)
    ensures !OnLattice(Between(cell, d))
  {
    var mid := Between(cell, d);
    if d == Dir(1, 0) || d == Dir(-1, 0) {
      assert mid.y == cell.y && (mid.x == cell.x + 1 || mid.x == cell.x - 1);
      assert !Even(mid.x) && Even(mid.y);
    } else {
      assert mid.x == cell.x && (mid.y == cell.y + 1 || mid.y == cell.y - 1);
      assert Even(mid.x) && !Even(mid.y);
    }
  }

  /** Once every direction of a shuffle has been tried from `here`, `here`
      is closed. */
  lemma AllDirectionsTried(r: int, c: int, vis: set<Cell>, here: Cell, ds: seq<Dir>)
    requires IsShuffle(ds)
    requires forall m :: 0 <= m < 4 ==> Tried(r, c, vis, here, ds[m])
    ensures Closed(r, c, vis, here)
  {
    forall i | 0 <= i < 4
      ensures Tried(r, c, vis, here, Dirs[i])
    {
      ShuffleHoldsAll(ds, Dirs[i]);
      var m :| 0 <= m < 4 && ds[m] == Dirs[i];
    }
  }

  /** A direction tried stays tried as more cells are visited. */
  lemma TriedStaysTried(r: int, c: int, seen: set<Cell>, now: set<Cell>, here: Cell, ds: seq<Dir>, k: int)
    requires seen <= now && 0 <= k <= |ds|
    requires forall m :: 0 <= m < k ==> Tried(r, c, seen, here, ds[m])
    ensures forall m :: 0 <= m < k ==> Tried(r, c, now, here, ds[m])
  {
  }

  /** Closedness survives visiting more cells. */
  lemma ClosedStaysClosed(r: int, c: int, base: set<Cell>, seen: set<Cell>, now: set<Cell>, here: Cell)
    requires seen <= now
    requires forall v {:trigger Closed(r, c, seen, v)} :: v in seen && v !in base && v != here ==> Closed(r, c, seen, v)
    requires forall v {:trigger Closed(r, c, now, v)} :: v in now && v !in seen ==> Closed(r, c, now, v)
    ensures forall v {:trigger Closed(r, c, now, v)} :: v in now && v !in base && v != here ==> Closed(r, c, now, v)
  {
    forall v | v in now && v !in base && v != here
      ensures Closed(r, c, now, v)
    {
      if v in seen {
        assert Closed(r, c, seen, v);
      }
    }
  }

  /** A jump from a lattice cell lands on the lattice. */
  lemma JumpStaysOnLattice(cell: Cell, d: Dir)
    requires d in Dirs && OnLattice(cell)
    ensures OnLattice(Jump(cell, d))
  {
    if d == Dir(1, 0) {
      assert Jump(cell, d) == Cell(cell.x + 2, cell.y);
    } else if d == Dir(-1, 0) {
      assert Jump(cell, d) == Cell(cell.x - 2, cell.y);
    } else if d == Dir(0, 1) {
      assert Jump(cell, d) == Cell(cell.x, cell.y + 2);
    } else {
      assert Jump(cell, d) == Cell(cell.x, cell.y - 2);
    }
  }

  /** The depth-first carve reaches the whole lattice: if the origin is
      visited and every visited cell is closed, every lattice cell of the
      grid is visited. */
  lemma {:induction false} LatticeReached(r: int, c: int, vis: set<Cell>, cell: Cell)
    requires Cell(0, 0) in vis
    requires forall v {:trigger Closed(r, c, vis, v)} :: v in vis ==> Closed(r, c, vis, v)
    requires InGrid(r, c, cell) && OnLattice(cell)
    ensures cell in vis
    decreases cell.x + cell.y
  {
    if cell.x >= 2 {
      var prev := Cell(cell.x - 2, cell.y);
      LatticeReached(r, c, vis, prev);
      assert Closed(r, c, vis, prev);
      assert Jump(prev, Dirs[0]) == cell;
    } else if cell.y >= 2 {
      var prev := Cell(cell.x, cell.y - 2);
      LatticeReached(r, c, vis, prev);
      assert Closed(r, c, vis, prev);
      assert Jump(prev, Dirs[2]) == cell;
    }
  }

  /** The state `generateMaze` shares with its nested `carve`: the grid of
      opened cells, the grid of visited cells, and the shuffle source. The
      ghost sets `open` and `visited` hold the cells whose flag is set. */
  class Carver {
    const rows: int
    const cols: int
    const grid: array2<bool>
    const vis: array2<bool>
    const order: Cell -> Shuffle
    ghost var open: set<Cell>
    ghost var visited: set<Cell>

    ghost predicate Valid()
      reads this, grid, vis
    {
      && grid != vis
      && grid.Length0 == rows && vis.Length0 == rows
      && grid.Length1 == cols && vis.Length1 == cols
      && (forall i, j :: 0 <= i < rows && 0 <= j < cols ==> (grid[i, j] <==> Cell(i, j) in open))
      && (forall i, j :: 0 <= i < rows && 0 <= j < cols ==> (vis[i, j] <==> Cell(i, j) in visited))
      && Carved(rows, cols, open, visited)
    }

    /** Both grids filled with 0: nothing opened, nothing visited. */
    constructor (r: nat, c: nat, order: Cell -> Shuffle)
      ensures Valid() && fresh(grid) && fresh(vis)
      ensures rows == r && cols == c && this.order == order
      ensures open == {} && visited == {}
    {
      rows, cols, this.order := r, c, order;
      grid := new bool[r, c]((i, j) => false);
      vis := new bool[r, c]((i, j) => false);
      open, visited := {}, {};
    }

    /** `carve(x, y)`, each call walking its own shuffle of the directions.
        On return (x, y) is visited, nothing visited or opened before is
        undone, and every cell this call visited is closed: its in-grid
        neighbours two steps away are all visited. */
    method Carve(x: int, y: int)
      requires Valid()
      requires InGrid(rows, cols, Cell(x, y)) && OnLattice(Cell(x, y))
      requires Cell(x, y) !in visited
      modifies this, grid, vis
      ensures Valid()
      ensures old(visited) + {Cell(x, y)} <= visited
      ensures old(open) <= open
      ensures forall v {:trigger Closed(rows, cols, visited, v)} :: v in visited && v !in old(visited) ==> Closed(rows, cols, visited, v)
      decreases AllCells(rows, cols) - visited, 0
    {
      var here := Cell(x, y);
      ghost var before := visited;
      Visit(here);
      var ds := order(here);
      for k := 0 to 4
        invariant Valid()
        invariant before + {here} <= visited
        invariant old(open) <= open
        invariant forall v {:trigger Closed(rows, cols, visited, v)} :: v in visited && v !in before && v != here ==> Closed(rows, cols, visited, v)
        invariant forall m :: 0 <= m < k ==> Tried(rows, cols, visited, here, ds[m])
      {
        assert here in AllCells(rows, cols) - before && here !in AllCells(rows, cols) - visited;
        TryDirection(here, ds, k, before);
      }
      AllDirectionsTried(rows, cols, visited, here, ds);
    }

    /** The first two statements of `carve`: mark the cell visited and opened. */
    method Visit(here: Cell)
      requires Valid()
      requires InGrid(rows, cols, here) && OnLattice(here)
      modifies this, grid, vis
      ensures Valid()
      ensures visited == old(visited) + {here} && open == old(open) + {here}
    {
      vis[here.x, here.y] := true;
      grid[here.x, here.y] := true;
      visited, open := visited + {here}, open + {here};
    }

    /** `grid[x+dx][y+dy] = 1`: open the cell between `here` and its
        in-grid neighbour two steps away in direction d. */
    method OpenBetweenCell(here: Cell, d: Dir)
      requires Valid()
      requires d in Dirs && InGrid(rows, cols, here) && OnLattice(here) && InGrid(rows, cols, Jump(here, d))
      modifies this, grid
      ensures Valid()
      ensures open == old(open) + {Between(here, d)} && visited == old(visited)
    {
      OpenBetween(rows, cols, open, visited, here, d);
      grid[here.x + d.dx, here.y + d.dy] := true;
      open := open + {Between(here, d)};
    }

    /** The body `carve` runs for direction ds[k] of its shuffle: if the
        cell two steps away is in the grid and unvisited, open the cell in
        between and carve from there. Afterwards directions ds[0] .. ds[k]
        all lead to visited cells (or out of the grid), and every cell
        visited since the enclosing `carve` began, other than `here`, is
        closed. */
    method TryDirection(here: Cell, ds: Shuffle, k: int, ghost base: set<Cell>)
      requires Valid()
      requires 0 <= k < 4
      requires InGrid(rows, cols, here) && OnLattice(here) && here in visited
      requires forall v {:trigger Closed(rows, cols, visited, v)} :: v in visited && v !in base && v != here ==> Closed(rows, cols, visited, v)
      requires forall m :: 0 <= m < k ==> Tried(rows, cols, visited, here, ds[m])
      modifies this, grid, vis
      ensures Valid()
      ensures old(visited) <= visited
      ensures old(open) <= open
      ensures forall v {:trigger Closed(rows, cols, visited, v)} :: v in visited && v !in base && v != here ==> Closed(rows, cols, visited, v)
      ensures forall m :: 0 <= m < k + 1 ==> Tried(rows, cols, visited, here, ds[m])
      decreases AllCells(rows, cols) - visited, 1
    {
      var d := ds[k];
      ShuffleHoldsOnlyAxes(ds, k);
      var x, y := here.x, here.y;
      var nx, ny := x + d.dx * 2, y + d.dy * 2;
      assert Cell(nx, ny) == Jump(here, d);
      if 0 <= nx < rows && 0 <= ny < cols && !vis[nx, ny] {
        JumpStaysOnLattice(here, d);
        OpenBetweenCell(here, d);
        ghost var seen := visited;
        Carve(nx, ny);
        ClosedStaysClosed(rows, cols, base, seen, visited, here);
        TriedStaysTried(rows, cols, seen, visited, here, ds, k);
        assert Cell(nx, ny) in visited;
      } else if 0 <= nx < rows && 0 <= ny < cols {
        assert vis[nx, ny];
        assert Cell(nx, ny) in visited;
      }
    }

    /** The loops that list, row by row, every cell never opened. */
    method ListWalls() returns (walls: seq<Pos>)
      requires Valid()
      ensures walls == WallsOf(open, rows, cols)
    {
      walls := [];
      for i := 0 to rows
        invariant walls == WallsOf(open, i, cols)
      {
        for j := 0 to cols
          invariant walls == WallsOf(open, i, cols) + RowWalls(open, i, j)
        {
          if !grid[i, j] {
            walls := walls + [Pos(j, i)];
          }
        }
      }
    }
  }

  /** The wall list of a carved grid whose lattice is fully visited is a
      maze layout: walls in the grid, in strict row-major order, every
      pillar a wall, and no lattice cell (the origin among them) a wall. */
  lemma CarvedLayout(r: nat, c: nat, open: set<Cell>, vis: set<Cell>)
    requires Carved(r, c, open, vis)
    requires forall cell :: InGrid(r, c, cell) && OnLattice(cell) ==> cell in vis
    ensures forall a, b :: 0 <= a < b < |WallsOf(open, r, c)| ==> Before(WallsOf(open, r, c)[a], WallsOf(open, r, c)[b])
    ensures forall w :: w in WallsOf(open, r, c) ==> 0 <= w.x < c && 0 <= w.y < r
    ensures forall px, py :: 0 <= px < c && 0 <= py < r && !Even(px) && !Even(py) ==> Pos(px, py) in WallsOf(open, r, c)
    ensures forall px, py :: 0 <= px < c && 0 <= py < r && Even(px) && Even(py) ==> Pos(px, py) !in WallsOf(open, r, c)
  {
    WallsListUnopened(open, r, c);
    WallsInRowMajorOrder(open, r, c);
    forall px, py | 0 <= px < c && 0 <= py < r && !Even(px) && !Even(py)
      ensures Pos(px, py) in WallsOf(open, r, c)
    {
      assert IsPillar(Cell(py, px));
    }
    forall px, py | 0 <= px < c && 0 <= py < r && Even(px) && Even(py)
      ensures Pos(px, py) !in WallsOf(open, r, c)
    {
      assert Cell(py, px) in vis;
    }
  }

  /** Everything a generated wall list is known to satisfy on an r-by-c
      grid, bundled for the callers that keep whole lists of layouts. */
  predicate MazeLayout(walls: seq<Pos>, r: int, c: int) {
    && (forall a, b :: 0 <= a < b < |walls| ==> Before(walls[a], walls[b]))
    && (forall w :: w in walls ==> 0 <= w.x < c && 0 <= w.y < r)
    && Origin !in walls
    && (forall px, py :: 0 <= px < c && 0 <= py < r && !Even(px) && !Even(py) ==> Pos(px, py) in walls)
    && (forall px, py :: 0 <= px < c && 0 <= py < r && Even(px) && Even(py) ==> Pos(px, py) !in walls)
  }

  /** `generateMaze(r, c)`: carve from the origin, then list every cell
      never opened, row by row. The result is a valid maze layout: its walls
      are in the grid, in strict row-major order, every pillar is a wall,
      and no lattice cell (the origin among them) is. */
  method Generate(r: int, c: int, order: Cell -> Shuffle) returns (walls: seq<Pos>)
    requires 0 < r && 0 < c
    ensures forall a, b :: 0 <= a < b < |walls| ==> Before(walls[a], walls[b])
    ensures forall w :: w in walls ==> 0 <= w.x < c && 0 <= w.y < r
    ensures Origin !in walls
    ensures forall px, py :: 0 <= px < c && 0 <= py < r && !Even(px) && !Even(py) ==> Pos(px, py) in walls
    ensures forall px, py :: 0 <= px < c && 0 <= py < r && Even(px) && Even(py) ==> Pos(px, py) !in walls
    ensures MazeLayout(walls, r, c)
  {
    var carver := new Carver(r, c, order);
    carver.Carve(0, 0);
    forall cell | InGrid(r, c, cell) && OnLattice(cell)
      ensures cell in carver.visited
    {
      LatticeReached(r, c, carver.visited, cell);
    }
    walls := carver.ListWalls();
    CarvedLayout(r, c, carver.open, carver.visited);
  }
}

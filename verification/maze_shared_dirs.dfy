/**
  The maze generator exactly as written: one `dirs` array shared by every
  nested `carve` call.

  Each `carve` shuffles the shared array in place and then walks it with
  `forEach`, which reads the element at index 0, 1, 2, 3 at the moment it
  gets there. A nested `carve` reshuffles the same array in between, so
  the outer walk can read one direction twice and skip another. If the
  skipped direction led to a lattice cell that nothing else reaches, that
  cell stays a wall. `SharedDirsLeavesCellWalled` exhibits such a grid;
  module Maze gives each call its own shuffle and proves the lattice is
  always fully carved.
*/
module SharedDirs {
  import opened Maze

  /** What the nested calls share: the opened grid, the visited grid and
      the current contents of `dirs`. */
  datatype CarveState = CarveState(open: set<Cell>, vis: set<Cell>, dirs: Shuffle)

  /** No cell with two odd indices is open. */
  predicate NoPillarOpen(open: set<Cell>) {
    forall cell :: cell in open ==> !IsPillar(cell)
  }

  /** `carve(x, y)` over the shared state: mark the cell, shuffle `dirs`
      (the permutation drawn here is `order(here)`), then walk it. */
  function CarveShared(r: int, c: int, order: Cell -> Shuffle, s: CarveState, here: Cell): (t: CarveState)
    requires InGrid(r, c, here) && here !in s.vis
    ensures s.vis + {here} <= t.vis
    ensures s.open + {here} <= t.open
    decreases AllCells(r, c) - s.vis, 0
  {
    assert here in AllCells(r, c);
    Tries(r, c, order, CarveState(s.open + {here}, s.vis + {here}, order(here)), here, 0)
  }

  /** The `forEach` walk from index k on: read the direction now stored at
      index k, carve through it if it leads to an unvisited in-grid cell,
      and go on with index k + 1 on whatever state that left behind. */
  function Tries(r: int, c: int, order: Cell -> Shuffle, s: CarveState, here: Cell, k: nat): (t: CarveState)
    requires k <= 4
    ensures s.vis <= t.vis
    ensures s.open <= t.open
    decreases AllCells(r, c) - s.vis, 5 - k
  {
    if k == 4 then s
    else
      var d := s.dirs[k];
      var next := Jump(here, d);
      var s' := if InGrid(r, c, next) && next !in s.vis
                then CarveShared(r, c, order, s.(open := s.open + {Between(here, d)}), next)
                else s;
      Tries(r, c, order, s', here, k + 1)
  }

  /** Carving from a lattice cell opens no cell with two odd indices: it
      opens lattice cells and the cells between two of them. */
  lemma {:induction false} CarveOpensNoPillar(r: int, c: int, order: Cell -> Shuffle, s: CarveState, here: Cell)
    requires InGrid(r, c, here) && here !in s.vis
    requires OnLattice(here) && NoPillarOpen(s.open)
    ensures NoPillarOpen(CarveShared(r, c, order, s, here).open)
    decreases AllCells(r, c) - s.vis, 0
  {
    assert here in AllCells(r, c);
    TriesOpenNoPillar(r, c, order, CarveState(s.open + {here}, s.vis + {here}, order(here)), here, 0);
  }

  /** The same for the walk from index k on. */
  lemma {:induction false} TriesOpenNoPillar(r: int, c: int, order: Cell -> Shuffle, s: CarveState, here: Cell, k: nat)
    requires k <= 4
    requires OnLattice(here) && NoPillarOpen(s.open)
    ensures NoPillarOpen(Tries(r, c, order, s, here, k).open)
    decreases AllCells(r, c) - s.vis, 5 - k
  {
    if k < 4 {
      var d := s.dirs[k];
      var next := Jump(here, d);
      ShuffleHoldsOnlyAxes(s.dirs, k);
      if InGrid(r, c, next) && next !in s.vis {
        var p := s.(open := s.open + {Between(here, d)});
        assert !OnLattice(Between(here, d)) && !IsPillar(Between(here, d));
        JumpStaysOnLattice(here, d);
        CarveOpensNoPillar(r, c, order, p, next);
        TriesOpenNoPillar(r, c, order, CarveShared(r, c, order, p, next), here, k + 1);
      } else {
        TriesOpenNoPillar(r, c, order, s, here, k + 1);
      }
    }
  }

  /** `generateMaze(r, c)` as written: carve from the origin with the
      shared array, then list the cells never opened, row by row. */
  function GenerateShared(r: int, c: int, order: Cell -> Shuffle): (walls: seq<Pos>)
    requires 0 < r && 0 < c
    ensures forall a, b :: 0 <= a < b < |walls| ==> Before(walls[a], walls[b])
    ensures forall w :: w in walls ==> 0 <= w.x < c && 0 <= w.y < r
    ensures Origin !in walls
    ensures forall px, py :: 0 <= px < c && 0 <= py < r && !Even(px) && !Even(py) ==> Pos(px, py) in walls
  {
    var s := CarveShared(r, c, order, CarveState({}, {}, Dirs), Cell(0, 0));
    WallsListUnopened(s.open, r, c);
    WallsInRowMajorOrder(s.open, r, c);
    CarveOpensNoPillar(r, c, order, CarveState({}, {}, Dirs), Cell(0, 0));
    assert forall px, py :: !Even(px) && !Even(py) ==> IsPillar(Cell(py, px));
    WallsOf(s.open, r, c)
  }

  /** The shuffles drawn in the run below, one for each of the five
      cells it carves; what `order` draws anywhere else does not matter. */
  predicate Drawn(order: Cell -> Shuffle) {
    && order(Cell(0, 0)) == [Dir(0, 1), Dir(-1, 0), Dir(1, 0), Dir(0, -1)]
    && order(Cell(0, 2)) == [Dir(-1, 0), Dir(1, 0), Dir(0, 1), Dir(0, -1)]
    && order(Cell(2, 2)) == [Dir(1, 0), Dir(0, 1), Dir(-1, 0), Dir(0, -1)]
    && order(Cell(2, 4)) == [Dir(0, 1), Dir(0, -1), Dir(-1, 0), Dir(1, 0)]
    && order(Cell(0, 4)) == [Dir(1, 0), Dir(0, -1), Dir(0, 1), Dir(-1, 0)]
  }

  /** A walk from index k on changes nothing when every direction still to
      be read leads out of the grid or to a visited cell. */
  lemma {:induction false} WalkFindsNothing(r: int, c: int, order: Cell -> Shuffle, s: CarveState, here: Cell, k: nat)
    requires k <= 4
    requires forall m :: k <= m < 4 ==> !InGrid(r, c, Jump(here, s.dirs[m])) || Jump(here, s.dirs[m]) in s.vis
    ensures Tries(r, c, order, s, here, k) == s
    decreases 4 - k
  {
    if k < 4 {
      WalkFindsNothing(r, c, order, s, here, k + 1);
    }
  }

  /** What every nested call of the run below leaves behind: `dirs` holds
      the shuffle drawn at (0, 4), the five carved lattice cells are
      visited, and (2, 0) is still closed. */
  predicate Settled(t: CarveState) {
    && t.dirs == [Dir(1, 0), Dir(0, -1), Dir(0, 1), Dir(-1, 0)]
    && Cell(0, 0) in t.vis && Cell(0, 2) in t.vis && Cell(2, 2) in t.vis
    && Cell(2, 4) in t.vis && Cell(0, 4) in t.vis
    && Cell(2, 0) !in t.open
  }

  /** (0, 4), carved last: every direction of its shuffle leads out of the
      grid or back to a visited cell. */
  lemma CarveAt04(order: Cell -> Shuffle, s: CarveState)
    requires Drawn(order)
    requires Cell(0, 0) in s.vis && Cell(0, 2) in s.vis && Cell(2, 2) in s.vis && Cell(2, 4) in s.vis
    requires Cell(0, 4) !in s.vis && Cell(2, 0) !in s.open
    ensures Settled(CarveShared(3, 5, order, s, Cell(0, 4)))
  {
    var e := CarveState(s.open + {Cell(0, 4)}, s.vis + {Cell(0, 4)}, order(Cell(0, 4)));
    assert CarveShared(3, 5, order, s, Cell(0, 4)) == Tries(3, 5, order, e, Cell(0, 4), 0);
    forall m | 0 <= m < 4
      ensures !InGrid(3, 5, Jump(Cell(0, 4), e.dirs[m])) || Jump(Cell(0, 4), e.dirs[m]) in e.vis
    {
      assert m == 0 || m == 1 || m == 2 || m == 3;
    }
    WalkFindsNothing(3, 5, order, e, Cell(0, 4), 0);
  }

  /** (2, 4): right leaves the grid, left finds (2, 2) visited, up carves
      (0, 4); index 3 then reads "up" from the shuffle drawn at (0, 4). */
  lemma CarveAt24(order: Cell -> Shuffle, s: CarveState)
    requires Drawn(order)
    requires Cell(0, 0) in s.vis && Cell(0, 2) in s.vis && Cell(2, 2) in s.vis
    requires Cell(2, 4) !in s.vis && Cell(0, 4) !in s.vis && Cell(2, 0) !in s.open
    ensures Settled(CarveShared(3, 5, order, s, Cell(2, 4)))
  {
    var e := CarveState(s.open + {Cell(2, 4)}, s.vis + {Cell(2, 4)}, order(Cell(2, 4)));
    assert CarveShared(3, 5, order, s, Cell(2, 4)) == Tries(3, 5, order, e, Cell(2, 4), 0);
    assert Tries(3, 5, order, e, Cell(2, 4), 0) == Tries(3, 5, order, e, Cell(2, 4), 1);
    assert Tries(3, 5, order, e, Cell(2, 4), 1) == Tries(3, 5, order, e, Cell(2, 4), 2);
    var p := e.(open := e.open + {Cell(1, 4)});
    var t := CarveShared(3, 5, order, p, Cell(0, 4));
    assert Tries(3, 5, order, e, Cell(2, 4), 2) == Tries(3, 5, order, t, Cell(2, 4), 3);
    CarveAt04(order, p);
    WalkFindsNothing(3, 5, order, t, Cell(2, 4), 3);
  }

  /** (2, 2): down leaves the grid, right carves (2, 4); indices 2 and 3
      then read "right" and "up", both to visited cells. */
  lemma CarveAt22(order: Cell -> Shuffle, s: CarveState)
    requires Drawn(order)
    requires Cell(0, 0) in s.vis && Cell(0, 2) in s.vis
    requires Cell(2, 2) !in s.vis && Cell(2, 4) !in s.vis && Cell(0, 4) !in s.vis && Cell(2, 0) !in s.open
    ensures Settled(CarveShared(3, 5, order, s, Cell(2, 2)))
  {
    var e := CarveState(s.open + {Cell(2, 2)}, s.vis + {Cell(2, 2)}, order(Cell(2, 2)));
    assert CarveShared(3, 5, order, s, Cell(2, 2)) == Tries(3, 5, order, e, Cell(2, 2), 0);
    assert Tries(3, 5, order, e, Cell(2, 2), 0) == Tries(3, 5, order, e, Cell(2, 2), 1);
    var p := e.(open := e.open + {Cell(2, 3)});
    var t := CarveShared(3, 5, order, p, Cell(2, 4));
    assert Tries(3, 5, order, e, Cell(2, 2), 1) == Tries(3, 5, order, t, Cell(2, 2), 2);
    CarveAt24(order, p);
    forall m | 2 <= m < 4
      ensures !InGrid(3, 5, Jump(Cell(2, 2), t.dirs[m])) || Jump(Cell(2, 2), t.dirs[m]) in t.vis
    {
      assert m == 2 || m == 3;
    }
    WalkFindsNothing(3, 5, order, t, Cell(2, 2), 2);
  }

  /** (0, 2): up leaves the grid, down carves (2, 2); indices 2 and 3 then
      read "right" (visited) and "up" (out of the grid). */
  lemma CarveAt02(order: Cell -> Shuffle, s: CarveState)
    requires Drawn(order)
    requires Cell(0, 0) in s.vis
    requires Cell(0, 2) !in s.vis && Cell(2, 2) !in s.vis && Cell(2, 4) !in s.vis && Cell(0, 4) !in s.vis
    requires Cell(2, 0) !in s.open
    ensures Settled(CarveShared(3, 5, order, s, Cell(0, 2)))
  {
    var e := CarveState(s.open + {Cell(0, 2)}, s.vis + {Cell(0, 2)}, order(Cell(0, 2)));
    assert CarveShared(3, 5, order, s, Cell(0, 2)) == Tries(3, 5, order, e, Cell(0, 2), 0);
    assert Tries(3, 5, order, e, Cell(0, 2), 0) == Tries(3, 5, order, e, Cell(0, 2), 1);
    var p := e.(open := e.open + {Cell(1, 2)});
    var t := CarveShared(3, 5, order, p, Cell(2, 2));
    assert Tries(3, 5, order, e, Cell(0, 2), 1) == Tries(3, 5, order, t, Cell(0, 2), 2);
    CarveAt22(order, p);
    forall m | 2 <= m < 4
      ensures !InGrid(3, 5, Jump(Cell(0, 2), t.dirs[m])) || Jump(Cell(0, 2), t.dirs[m]) in t.vis
    {
      assert m == 2 || m == 3;
    }
    WalkFindsNothing(3, 5, order, t, Cell(0, 2), 2);
  }

  /** The origin: right carves (0, 2); indices 1 .. 3 then read "left",
      "right" and "up" from the shuffle drawn at (0, 4), so "down", the only
      way to (2, 0), is never read. */
  lemma CarveAtOrigin(order: Cell -> Shuffle)
    requires Drawn(order)
    ensures Settled(CarveShared(3, 5, order, CarveState({}, {}, Dirs), Cell(0, 0)))
  {
    var s := CarveState({}, {}, Dirs);
    var e := CarveState(s.open + {Cell(0, 0)}, s.vis + {Cell(0, 0)}, order(Cell(0, 0)));
    assert CarveShared(3, 5, order, s, Cell(0, 0)) == Tries(3, 5, order, e, Cell(0, 0), 0);
    var p := e.(open := e.open + {Cell(0, 1)});
    var t := CarveShared(3, 5, order, p, Cell(0, 2));
    assert Tries(3, 5, order, e, Cell(0, 0), 0) == Tries(3, 5, order, t, Cell(0, 0), 1);
    CarveAt02(order, p);
    forall m | 1 <= m < 4
      ensures !InGrid(3, 5, Jump(Cell(0, 0), t.dirs[m])) || Jump(Cell(0, 0), t.dirs[m]) in t.vis
    {
      assert m == 1 || m == 2 || m == 3;
    }
    WalkFindsNothing(3, 5, order, t, Cell(0, 0), 1);
  }

  /** On a 3-by-5 grid the shared array can leave lattice cell (2, 0)
      walled: the origin first jumps right; by the time its walk comes
      back, the nested calls have left `dirs` as [down, left, right, up], so
      index 1 reads "left" and the origin never tries "down". No other
      lattice cell jumps to (2, 0), so the wall list holds Pos(0, 2). */
  lemma SharedDirsLeavesCellWalled(order: Cell -> Shuffle)
    requires Drawn(order)
    ensures Pos(0, 2) in GenerateShared(3, 5, order)
  {
    CarveAtOrigin(order);
    var t := CarveShared(3, 5, order, CarveState({}, {}, Dirs), Cell(0, 0));
    WallsListUnopened(t.open, 3, 5);
  }
}

/** The recursive maze search, which drops a crumb on every cell it enters. */
module Maze {

  type Cell = (int, int)

  predicate Adjacent(a: Cell, b: Cell) {
    || b == (a.0 - 1, a.1)
    || b == (a.0 + 1, a.1)
    || b == (a.0, a.1 + 1)
    || b == (a.0, a.1 - 1)
  }

  /** A walk from cell to neighbouring cell that only enters open cells; where it starts does not matter. */
  ghost predicate IsPath(open: set<Cell>, path: seq<Cell>, from: Cell, to: Cell) {
    && |path| > 0 && path[0] == from && path[|path| - 1] == to
    && forall i :: 1 <= i < |path| ==> Adjacent(path[i - 1], path[i]) && path[i] in open
  }

  ghost predicate Joined(open: set<Cell>, from: Cell, to: Cell) {
    exists path :: IsPath(open, path, from, to)
  }

  /** No step leads out of `cells` into an open cell. */
  ghost predicate Closed(open: set<Cell>, cells: set<Cell>) {
    forall a, b :: a in cells && b in open && Adjacent(a, b) ==> b in cells
  }

  lemma {:induction false} ClosedHolds(open: set<Cell>, cells: set<Cell>, path: seq<Cell>, from: Cell, to: Cell)
    requires Closed(open, cells) && from in cells && IsPath(open, path, from, to)
    ensures to in cells
  {
    if |path| > 1 {
      var last := |path| - 1;
      assert path[..last][last - 1] == path[last - 1];
      assert Adjacent(path[last - 1], path[last]) && path[last] in open;
      ClosedHolds(open, cells, path[..last], from, path[last - 1]);
    }
  }

  lemma JoinedSelf(open: set<Cell>, a: Cell)
    ensures Joined(open, a, a)
  {
    assert IsPath(open, [a], a, a);
  }

  lemma JoinedThrough(open: set<Cell>, less: set<Cell>, a: Cell, b: Cell, c: Cell)
    requires less <= open && Adjacent(a, b) && b in open && Joined(less, b, c)
    ensures Joined(open, a, c)
  {
    var path :| IsPath(less, path, b, c);
    assert IsPath(open, [a] + path, a, c);
  }

  type Grid = map<Cell, char>

  ghost function GridOf(maze: array2<char>): (g: Grid)
    reads maze
  {
    map r, c | 0 <= r < maze.Length0 && 0 <= c < maze.Length1 :: (r, c) := maze[r, c]
  }

  ghost function OpenCells(g: Grid): set<Cell> {
    set p | p in g && g[p] == '.'
  }

  /** All four neighbours of the cell can be looked at. */
  ghost predicate Inner(g: Grid, p: Cell) {
    && (p.0 - 1, p.1) in g && (p.0 + 1, p.1) in g
    && (p.0, p.1 + 1) in g && (p.0, p.1 - 1) in g
  }

  /** No open cell on the border. */
  ghost predicate Walled(g: Grid) {
    forall p :: p in OpenCells(g) ==> Inner(g, p)
  }

  /** Crumbs only: a cell keeps its character unless it was open or the start, and then may hold '#'. */
  ghost predicate OnlyCrumbs(g: Grid, g': Grid, start: Cell) {
    && g'.Keys == g.Keys
    && forall p :: p in g ==> g'[p] == g[p] || (g'[p] == '#' && (g[p] == '.' || p == start))
  }

  lemma CrumbFacts(g: Grid, g': Grid, start: Cell)
    requires OnlyCrumbs(g, g', start)
    ensures OpenCells(g') <= OpenCells(g)
    ensures Walled(g) ==> Walled(g')
    ensures g'.Keys == g.Keys && forall p :: Inner(g, p) ==> Inner(g', p)
  {
  }

  lemma CrumbsCompose(g0: Grid, g1: Grid, g2: Grid, start: Cell, n: Cell)
    requires OnlyCrumbs(g0, g1, start) && OnlyCrumbs(g1, g2, n) && n in OpenCells(g1)
    ensures OnlyCrumbs(g0, g2, start)
  {
  }

  /** What a search from `start` that did not find `end` has left: `open` before, `now` after. */
  ghost predicate Exhausted(open: set<Cell>, now: set<Cell>, start: Cell, end: Cell) {
    && now <= open && start !in now
    && Closed(open, (open - now) + {start})
    && end !in open - now && end != start
    && forall x :: x in open - now ==> Joined(open, start, x)
  }

  /** The search in progress at `start`, whose crumb is already dropped: some neighbours are done with. */
  ghost predicate Partly(open: set<Cell>, now: set<Cell>, start: Cell, end: Cell) {
    && now <= open && start !in open
    && Closed(open, open - now)
    && end !in open - now && end != start
    && forall x :: x in open - now ==> Joined(open, start, x)
  }

  lemma OneMore(open: set<Cell>, now: set<Cell>, later: set<Cell>, start: Cell, n: Cell, end: Cell)
    requires Partly(open, now, start, end) && Adjacent(start, n) && n in now && Exhausted(now, later, n, end)
    ensures Partly(open, later, start, end)
  {
    forall x | x in open - later ensures Joined(open, start, x) {
      if x in now {
        JoinedThrough(open, now, start, n, x);
      }
    }
  }

  lemma AllDone(open: set<Cell>, now: set<Cell>, start: Cell, end: Cell)
    requires Partly(open - {start}, now, start, end)
    requires (start.0 - 1, start.1) !in now && (start.0 + 1, start.1) !in now
    requires (start.0, start.1 + 1) !in now && (start.0, start.1 - 1) !in now
    ensures Exhausted(open, now, start, end)
  {
    JoinedSelf(open, start);
    forall x | x in open - now && x != start ensures Joined(open, start, x) {
      assert x in (open - {start}) - now;
      var path :| IsPath(open - {start}, path, start, x);
      assert IsPath(open, path, start, x);
    }
  }

  /** A finished search without success means that there is no path, and has crumbed exactly what can be reached. */
  lemma NoPath(open: set<Cell>, now: set<Cell>, start: Cell, end: Cell)
    requires Exhausted(open, now, start, end)
    ensures !Joined(open, start, end)
    ensures forall x :: x in open - now <==> x in open && Joined(open, start, x)
  {
    var cells := (open - now) + {start};
    forall x | Joined(open, start, x) ensures x in cells {
      var path :| IsPath(open, path, start, x);
      ClosedHolds(open, cells, path, start, x);
    }
    if start in open {
      assert start !in now;
    }
  }

  lemma FirstCrumb(g: Grid, start: Cell, end: Cell)
    requires start in g
    ensures var g' := g[start := '#'];
            && OnlyCrumbs(g, g', start)
            && OpenCells(g') == OpenCells(g) - {start}
            && (start != end ==> Partly(OpenCells(g'), OpenCells(g'), start, end))
  {
  }

  method DropCrumb(maze: array2<char>, r: int, c: int)
    requires (r, c) in GridOf(maze)
    modifies maze
    ensures GridOf(maze) == old(GridOf(maze))[(r, c) := '#']
  {
    maze[r, c] := '#';
  }

  method IsOpen(maze: array2<char>, r: int, c: int) returns (open: bool)
    requires (r, c) in GridOf(maze)
    ensures open <==> (r, c) in OpenCells(GridOf(maze))
  {
    open := maze[r, c] == '.';
  }

  /** True exactly if open cells lead from the start to the end; without success, exactly the reachable cells are crumbed. */
  method CanWeFinish(maze: array2<char>, sr: int, sc: int, er: int, ec: int) returns (found: bool)
    requires Walled(GridOf(maze)) && (sr, sc) in GridOf(maze) && Inner(GridOf(maze), (sr, sc))
    modifies maze
    ensures found <==> Joined(OpenCells(old(GridOf(maze))), (sr, sc), (er, ec))
    ensures !found ==> Exhausted(OpenCells(old(GridOf(maze))), OpenCells(GridOf(maze)), (sr, sc), (er, ec))
    ensures OnlyCrumbs(old(GridOf(maze)), GridOf(maze), (sr, sc))
    ensures (sr, sc) in GridOf(maze) && GridOf(maze)[(sr, sc)] == '#'
    decreases OpenCells(GridOf(maze)) - {(sr, sc)}, 1
  {
    hide Joined, Exhausted, Partly, OnlyCrumbs, Walled, GridOf;
    ghost var start, end, g := (sr, sc), (er, ec), GridOf(maze);
    DropCrumb(maze, sr, sc);
    FirstCrumb(g, start, end);
    if sr == er && sc == ec {
      JoinedSelf(OpenCells(g), start);
      return true;
    }
    CrumbFacts(g, GridOf(maze), start);
    found := IsOpen(maze, sr - 1, sc);
    if found {
      found := Try(maze, sr, sc, sr - 1, sc, er, ec, g);
      if found { return; }
    }
    found := IsOpen(maze, sr + 1, sc);
    if found {
      found := Try(maze, sr, sc, sr + 1, sc, er, ec, g);
      if found { return; }
    }
    found := IsOpen(maze, sr, sc + 1);
    if found {
      found := Try(maze, sr, sc, sr, sc + 1, er, ec, g);
      if found { return; }
    }
    found := IsOpen(maze, sr, sc - 1);
    if found {
      found := Try(maze, sr, sc, sr, sc - 1, er, ec, g);
      if found { return; }
    }
    found := false;
    AllDone(OpenCells(g), OpenCells(GridOf(maze)), start, end);
    NoPath(OpenCells(g), OpenCells(GridOf(maze)), start, end);
  }

  /** One of the four recursive calls, for the neighbour (r, c) of (sr, sc), in a search that began with `g`. */
  method Try(maze: array2<char>, sr: int, sc: int, r: int, c: int, er: int, ec: int, ghost g: Grid) returns (found: bool)
    requires Walled(GridOf(maze)) && (sr, sc) in GridOf(maze)
    requires Adjacent((sr, sc), (r, c)) && (r, c) in OpenCells(GridOf(maze))
    requires GridOf(maze)[(sr, sc)] == '#' && OnlyCrumbs(g, GridOf(maze), (sr, sc))
    requires Partly(OpenCells(g) - {(sr, sc)}, OpenCells(GridOf(maze)), (sr, sc), (er, ec))
    modifies maze
    ensures GridOf(maze).Keys == old(GridOf(maze)).Keys
    ensures OpenCells(GridOf(maze)) <= old(OpenCells(GridOf(maze))) - {(r, c)}
    ensures Walled(GridOf(maze)) && (sr, sc) in GridOf(maze) && GridOf(maze)[(sr, sc)] == '#' && OnlyCrumbs(g, GridOf(maze), (sr, sc))
    ensures found ==> Joined(OpenCells(g), (sr, sc), (er, ec))
    ensures !found ==> Partly(OpenCells(g) - {(sr, sc)}, OpenCells(GridOf(maze)), (sr, sc), (er, ec))
    decreases OpenCells(GridOf(maze)), 0
  {
    ghost var start, n, end := (sr, sc), (r, c), (er, ec);
    ghost var g1 := GridOf(maze);
    found := CanWeFinish(maze, r, c, er, ec);
    CrumbFacts(g1, GridOf(maze), n);
    CrumbsCompose(g, g1, GridOf(maze), start, n);
    assert GridOf(maze)[start] == '#';
    if found {
      JoinedThrough(OpenCells(g), OpenCells(g1), start, n, end);
    } else {
      OneMore(OpenCells(g) - {start}, OpenCells(g1), OpenCells(GridOf(maze)), start, n, end);
    }
  }
}

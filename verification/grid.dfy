/** A value the game may or may not have: a start tile, a found cell, a parsed number. */
module Optional {

  datatype Option<+T> = None | Some(value: T) {

    /** The held value, or `fallback` when there is none. */
    function ValueOr(fallback: T): T {
      if Some? then value else fallback
    }
  }
}

/**
 The level grid of the game world: a rectangle of integer cell codes indexed
 `map[x][y]` (x is the column, y the row), the four slide directions and the
 counting of cells of one code.
 */
module Grid {

  /** Impassable cell: blocks a slide and is never drawn. */
  const EMPTY: int := 0
  /** Walkable floor. */
  const FLOOR: int := 1
  /** Collectable dot (an orb). */
  const DOT: int := 2
  /** Collectable puzzle piece. */
  const PIECE: int := 3
  /** The player's start cell; walkable, and never rewritten to floor. */
  const START: int := -1

  datatype Pos = Pos(x: int, y: int)

  datatype Direction = Up | Down | Left | Right

  type Grid = seq<seq<int>>

  /** A grid is a non-empty rectangle: every column has the height of the first. */
  predicate IsGrid(g: Grid) {
    && |g| > 0
    && |g[0]| > 0
    && forall x :: 0 <= x < |g| ==> |g[x]| == |g[0]|
  }

  function Width(g: Grid): nat {
    |g|
  }

  function Height(g: Grid): nat
    requires IsGrid(g)
  {
    |g[0]|
  }

  predicate SameShape(g: Grid, h: Grid)
    requires IsGrid(g) && IsGrid(h)
  {
    Width(g) == Width(h) && Height(g) == Height(h)
  }

  predicate InBounds(g: Grid, p: Pos)
    requires IsGrid(g)
  {
    0 <= p.x < Width(g) && 0 <= p.y < Height(g)
  }

  function Cell(g: Grid, p: Pos): int
    requires IsGrid(g) && InBounds(g, p)
  {
    g[p.x][p.y]
  }

  /** A grid of width `w` and height `h` whose every cell holds `v`. */
  function Filled(w: nat, h: nat, v: int): (g: Grid)
    requires w > 0 && h > 0
    ensures IsGrid(g) && Width(g) == w && Height(g) == h
    ensures forall p :: InBounds(g, p) ==> Cell(g, p) == v
  {
    seq(w, _ => seq(h, _ => v))
  }

  /** Writes `v` into the cell at `p`; every other cell keeps its value. */
  function SetCell(g: Grid, p: Pos, v: int): (r: Grid)
    requires IsGrid(g) && InBounds(g, p)
    ensures IsGrid(r) && SameShape(g, r)
    ensures Cell(r, p) == v
    ensures forall q :: InBounds(g, q) && q != p ==> Cell(r, q) == Cell(g, q)
  {
    g[p.x := g[p.x][p.y := v]]
  }

  /** The neighbouring position one step in direction `d`; up is +y, right is +x. */
  function Step(p: Pos, d: Direction): Pos {
    match d
    case Up => Pos(p.x, p.y + 1)
    case Down => Pos(p.x, p.y - 1)
    case Left => Pos(p.x - 1, p.y)
    case Right => Pos(p.x + 1, p.y)
  }

  /** The position `k` steps from `p` in direction `d`. */
  function Advance(p: Pos, d: Direction, k: int): Pos {
    match d
    case Up => Pos(p.x, p.y + k)
    case Down => Pos(p.x, p.y - k)
    case Left => Pos(p.x - k, p.y)
    case Right => Pos(p.x + k, p.y)
  }

  lemma AdvanceStep(p: Pos, d: Direction, k: int)
    ensures Advance(Step(p, d), d, k) == Advance(p, d, k + 1)
    ensures Step(Advance(p, d, k), d) == Advance(p, d, k + 1)
    ensures Advance(p, d, 0) == p
  {
  }

  predicate NoRepeats(ps: seq<Pos>) {
    forall i, j :: 0 <= i < j < |ps| ==> ps[i] != ps[j]
  }

  /** None of the listed positions holds a piece on the grid. */
  predicate NoPieceAt(g: Grid, pieces: seq<Pos>)
    requires IsGrid(g)
  {
    forall i :: 0 <= i < |pieces| && InBounds(g, pieces[i]) ==> Cell(g, pieces[i]) != PIECE
  }

  /** A piece list that behaves as a set: no position twice, and none of its positions still holds a piece. */
  predicate PieceListAsSet(g: Grid, pieces: seq<Pos>)
    requires IsGrid(g)
  {
    NoRepeats(pieces) && NoPieceAt(g, pieces)
  }

  /** Number of entries of `col` equal to `v`. */
  function Occurrences(col: seq<int>, v: int): nat {
    if |col| == 0 then 0 else (if col[0] == v then 1 else 0) + Occurrences(col[1..], v)
  }

  /** Number of cells of `g` holding the code `v`. */
  function CountCells(g: Grid, v: int): nat {
    if |g| == 0 then 0 else Occurrences(g[0], v) + CountCells(g[1..], v)
  }

  function Indicator(b: bool): nat {
    if b then 1 else 0
  }

  /** Overwriting one entry of a column changes its count of `v` by at most one, as the old and new values say. */
  lemma {:induction false} OccurrencesUpdate(col: seq<int>, i: int, w: int, v: int)
    requires 0 <= i < |col|
    ensures Occurrences(col[i := w], v) + Indicator(col[i] == v) == Occurrences(col, v) + Indicator(w == v)
  {
    if i == 0 {
      assert col[i := w][1..] == col[1..];
    } else {
      assert col[i := w][1..] == col[1..][i - 1 := w];
      OccurrencesUpdate(col[1..], i - 1, w, v);
    }
  }

  /** Replacing one column changes the grid count by the difference of the two column counts. */
  lemma {:induction false} CountCellsUpdate(g: Grid, x: int, col: seq<int>, v: int)
    requires 0 <= x < |g|
    ensures CountCells(g[x := col], v) + Occurrences(g[x], v) == CountCells(g, v) + Occurrences(col, v)
  {
    if x == 0 {
      assert g[x := col][1..] == g[1..];
    } else {
      assert g[x := col][1..] == g[1..][x - 1 := col];
      CountCellsUpdate(g[1..], x - 1, col, v);
    }
  }

  /** Writing one cell changes the number of `v` cells exactly as the overwritten and written codes say. */
  lemma CountAfterSet(g: Grid, p: Pos, w: int, v: int)
    requires IsGrid(g) && InBounds(g, p)
    ensures CountCells(SetCell(g, p, w), v) + Indicator(Cell(g, p) == v) == CountCells(g, v) + Indicator(w == v)
  {
    OccurrencesUpdate(g[p.x], p.y, w, v);
    CountCellsUpdate(g, p.x, g[p.x][p.y := w], v);
  }

  /** A column without `v` has no occurrences of it. */
  lemma {:induction false} OccurrencesNone(col: seq<int>, v: int)
    requires forall i :: 0 <= i < |col| ==> col[i] != v
    ensures Occurrences(col, v) == 0
  {
    if |col| > 0 {
      OccurrencesNone(col[1..], v);
    }
  }

  /** A grid without `v` counts no `v` cells. */
  lemma {:induction false} CountCellsNone(g: Grid, v: int)
    requires forall x, y :: 0 <= x < |g| && 0 <= y < |g[x]| ==> g[x][y] != v
    ensures CountCells(g, v) == 0
  {
    if |g| > 0 {
      OccurrencesNone(g[0], v);
      CountCellsNone(g[1..], v);
    }
  }
}

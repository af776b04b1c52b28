/**
 The slide resolver: from the player's cell, count the consecutive non-empty
 cells in one direction, stopping before an empty cell or the grid edge; the
 destination lies that many cells away. The player's own cell is never looked at.
 */
module Slide {
  import opened Grid

  /** A cell the player can slide onto: inside the grid and not empty. */
  predicate Open(g: Grid, p: Pos)
    requires IsGrid(g)
  {
    InBounds(g, p) && Cell(g, p) != EMPTY
  }

  /** Number of cells between `p` and the grid edge in direction `d`. */
  function Room(g: Grid, p: Pos, d: Direction): nat
    requires IsGrid(g) && InBounds(g, p)
  {
    match d
    case Up => Height(g) - 1 - p.y
    case Down => p.y
    case Left => p.x
    case Right => Width(g) - 1 - p.x
  }

  lemma RoomBounds(g: Grid, p: Pos, d: Direction, k: int)
    requires IsGrid(g) && InBounds(g, p) && 0 <= k
    ensures InBounds(g, Advance(p, d, k)) <==> k <= Room(g, p, d)
  {
  }

  /**
   The slide length (the game's `counter`): the cells one to `k` steps away
   are all open, and the cell `k + 1` steps away is not.
   */
  function Distance(g: Grid, p: Pos, d: Direction): (k: nat)
    requires IsGrid(g) && InBounds(g, p)
    ensures k <= Room(g, p, d)
    ensures forall i :: 1 <= i <= k ==> Open(g, Advance(p, d, i))
    ensures !Open(g, Advance(p, d, k + 1))
    decreases Room(g, p, d)
  {
    var next := Step(p, d);
    AdvanceStep(p, d, 0);
    if Open(g, next) then
      var rest := Distance(g, next, d);
      OpenRunShift(g, p, d, rest);
      1 + rest
    else 0
  }

  /** A run of open cells after the neighbour of `p`, together with that neighbour, is a run after `p`. */
  lemma OpenRunShift(g: Grid, p: Pos, d: Direction, n: nat)
    requires IsGrid(g) && Open(g, Step(p, d))
    requires forall i :: 1 <= i <= n ==> Open(g, Advance(Step(p, d), d, i))
    requires !Open(g, Advance(Step(p, d), d, n + 1))
    ensures forall i :: 1 <= i <= n + 1 ==> Open(g, Advance(p, d, i))
    ensures !Open(g, Advance(p, d, n + 2))
  {
    forall i | 1 <= i <= n + 1
      ensures Open(g, Advance(p, d, i))
    {
      AdvanceStep(p, d, i - 1);
    }
    AdvanceStep(p, d, n + 1);
  }

  /** Where a slide from `p` in direction `d` ends. */
  function Destination(g: Grid, p: Pos, d: Direction): Pos
    requires IsGrid(g) && InBounds(g, p)
  {
    Advance(p, d, Distance(g, p, d))
  }

  /**
   The destination lies inside the grid, on the ray from `p` in direction `d`
   (only the coordinate of that axis changes, and only forwards), every cell from
   the one next to `p` through the destination is non-empty, and the cell one
   step beyond the destination is off the grid or empty.
   */
  lemma DestinationSound(g: Grid, p: Pos, d: Direction)
    requires IsGrid(g) && InBounds(g, p)
    ensures var q := Destination(g, p, d);
            && InBounds(g, q)
            && (d == Up ==> q.x == p.x && q.y >= p.y)
            && (d == Down ==> q.x == p.x && q.y <= p.y)
            && (d == Left ==> q.y == p.y && q.x <= p.x)
            && (d == Right ==> q.y == p.y && q.x >= p.x)
            && (forall i :: 1 <= i <= Distance(g, p, d) ==> Open(g, Advance(p, d, i)))
            && !Open(g, Step(q, d))
  {
    RoomBounds(g, p, d, Distance(g, p, d));
    AdvanceStep(p, d, Distance(g, p, d));
  }

  /** Sliding again from the destination in the same direction goes nowhere. */
  lemma DestinationStable(g: Grid, p: Pos, d: Direction)
    requires IsGrid(g) && InBounds(g, p)
    ensures InBounds(g, Destination(g, p, d))
    ensures Destination(g, Destination(g, p, d), d) == Destination(g, p, d)
  {
    var q := Destination(g, p, d);
    DestinationSound(g, p, d);
    AdvanceStep(q, d, 0);
    assert !Open(g, Advance(q, d, 1));
  }

  /** The slide stays put exactly when the neighbouring cell is off the grid or empty. */
  lemma DestinationStays(g: Grid, p: Pos, d: Direction)
    requires IsGrid(g) && InBounds(g, p)
    ensures Destination(g, p, d) == p <==> !Open(g, Step(p, d))
  {
    AdvanceStep(p, d, 0);
    var k := Distance(g, p, d);
    if k > 0 {
      assert Open(g, Advance(p, d, 1));
      assert Advance(p, d, k) != p;
    }
  }

  /** When the next cell is open, one more step along the ray leaves one step less to go. */
  lemma CountOneMore(g: Grid, p: Pos, d: Direction, counter: nat)
    requires IsGrid(g) && InBounds(g, p) && InBounds(g, Advance(p, d, counter))
    requires counter + Distance(g, Advance(p, d, counter), d) == Distance(g, p, d)
    requires Open(g, Advance(p, d, counter + 1))
    ensures InBounds(g, Advance(p, d, counter + 1))
    ensures counter + 1 + Distance(g, Advance(p, d, counter + 1), d) == Distance(g, p, d)
  {
    AdvanceStep(p, d, counter);
    var here := Advance(p, d, counter);
    assert Step(here, d) == Advance(p, d, counter + 1);
    assert Distance(g, here, d) == 1 + Distance(g, Step(here, d), d);
  }

  /** When the next cell is not open, the count so far is the whole distance. */
  lemma CountDone(g: Grid, p: Pos, d: Direction, counter: nat)
    requires IsGrid(g) && InBounds(g, p) && InBounds(g, Advance(p, d, counter))
    requires counter + Distance(g, Advance(p, d, counter), d) == Distance(g, p, d)
    requires !Open(g, Advance(p, d, counter + 1))
    ensures counter == Distance(g, p, d)
  {
    AdvanceStep(p, d, counter);
  }

  /**
   The game's loop: count the non-empty cells after `p` in direction `d` and
   break at the first empty cell or at the edge; the destination is `counter`
   cells away.
   */
  method FindDestination(g: Grid, p: Pos, d: Direction) returns (q: Pos)
    requires IsGrid(g) && InBounds(g, p)
    ensures q == Destination(g, p, d)
  {
    var counter := 0;
    AdvanceStep(p, d, 0);
    while true
      invariant 0 <= counter <= Distance(g, p, d)
      invariant InBounds(g, Advance(p, d, counter))
      invariant counter + Distance(g, Advance(p, d, counter), d) == Distance(g, p, d)
      decreases Distance(g, p, d) - counter
    {
      var next := Advance(p, d, counter + 1);
      if !InBounds(g, next) || Cell(g, next) == EMPTY {
        break;
      }
      CountOneMore(g, p, d, counter);
      counter := counter + 1;
    }
    CountDone(g, p, d, counter);
    q := Advance(p, d, counter);
  }
}

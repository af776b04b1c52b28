/**
 Collection and scoring: after a slide the player eats along the walked cells,
 from the old position to the new one with both ends included. A dot becomes
 floor and raises the dot counter and the score; a piece becomes floor and is
 credited to the level's persistent record. Afterwards the level counts as
 cleared once every dot is eaten and the record holds three pieces.
 */
module Scoring {
  import opened Grid
  import opened Progress

  /**
   The play state of one session: grid, player cell, dots eaten, dots the
   level started with, and the score in percent.
   */
  datatype Board = Board(grid: Grid, player: Pos, dotCollected: int, maxDotCount: int, score: int)

  /**
   The score after `dots` of `maxDots` dots: the percentage, cut down to a whole
   number as the summary shows it.
   */
  function ScoreOf(dots: int, maxDots: int): int
    requires maxDots > 0
  {
    (100 * dots) / maxDots
  }

  lemma {:induction false} NatTimesPositive(x: nat, m: int)
    requires m > 0
    ensures x * m >= 0 && (x > 0 ==> x * m >= m)
  {
    if x > 0 {
      NatTimesPositive(x - 1, m);
      assert x * m == (x - 1) * m + m;
    }
  }

  /** Multiplying by a positive number keeps the sign. */
  lemma ProductSign(x: int, m: int)
    requires m > 0
    ensures x * m > 0 <==> x > 0
    ensures x * m < 0 <==> x < 0
  {
    if x >= 0 {
      NatTimesPositive(x, m);
    } else {
      NatTimesPositive(-x, m);
      assert x * m == -((-x) * m);
    }
  }

  /** The score is a percentage, and it is 100 exactly when every dot is eaten. */
  lemma ScoreBounds(dots: int, maxDots: int)
    requires 0 <= dots <= maxDots && maxDots > 0
    ensures 0 <= ScoreOf(dots, maxDots) <= 100
    ensures ScoreOf(dots, maxDots) == 100 <==> dots == maxDots
  {
    var a := 100 * dots;
    var q := a / maxDots;
    assert q * maxDots <= a < q * maxDots + maxDots;
    assert (q + 1) * maxDots == q * maxDots + maxDots;
    assert (q - 100) * maxDots == q * maxDots - 100 * maxDots;
    assert (q - 99) * maxDots == q * maxDots + maxDots - 100 * maxDots;
    ProductSign(q + 1, maxDots);
    ProductSign(q - 100, maxDots);
    ProductSign(q - 99, maxDots);
  }

  /**
   The dot balance a session keeps: no counter is negative, and dots eaten plus
   dots still on the grid never exceed the level's dot total. The score is a
   percentage.
   */
  predicate Balanced(b: Board) {
    && IsGrid(b.grid)
    && InBounds(b.grid, b.player)
    && 0 <= b.dotCollected
    && b.dotCollected + CountCells(b.grid, DOT) <= b.maxDotCount
    && 0 <= b.score <= 100
  }

  /** The quantity every move preserves: dots eaten plus dots left on the grid. */
  function DotTotal(b: Board): int {
    b.dotCollected + CountCells(b.grid, DOT)
  }

  /** The cells a move from `from` to `to` walks, in the order the eating visits them. */
  function Path(from: Pos, to: Pos): seq<Pos> {
    if from.x > to.x then seq(from.x - to.x + 1, k => Pos(from.x - k, to.y))
    else if from.x < to.x then seq(to.x - from.x + 1, k => Pos(from.x + k, to.y))
    else if from.y > to.y then seq(from.y - to.y + 1, k => Pos(to.x, from.y - k))
    else seq(to.y - from.y + 1, k => Pos(to.x, from.y + k))
  }

  /** For a straight move the path starts at `from`, ends at `to`, steps one cell at a time, and never repeats a cell. */
  lemma PathShape(from: Pos, to: Pos)
    requires from.x == to.x || from.y == to.y
    ensures var path := Path(from, to);
            && |path| > 0
            && path[0] == from
            && path[|path| - 1] == to
            && |path| == (if from.x == to.x then Abs(from.y - to.y) else Abs(from.x - to.x)) + 1
            && NoRepeats(path)
  {
  }

  /** Every walked cell lies in the rectangle spanned by the two ends, so inside the grid when both ends are. */
  lemma PathInBounds(g: Grid, from: Pos, to: Pos)
    requires IsGrid(g) && InBounds(g, from) && InBounds(g, to)
    ensures forall i :: 0 <= i < |Path(from, to)| ==> InBounds(g, Path(from, to)[i])
  {
  }

  function Abs(v: int): nat {
    if v < 0 then -v else v
  }

  predicate OnGrid(g: Grid, path: seq<Pos>)
    requires IsGrid(g)
  {
    forall i :: 0 <= i < |path| ==> InBounds(g, path[i])
  }

  /** A dot on the grid means the grid's dot count is at least one. */
  lemma DotCounted(g: Grid, p: Pos)
    requires IsGrid(g) && InBounds(g, p) && Cell(g, p) == DOT
    ensures CountCells(g, DOT) >= 1
  {
    CountAfterSet(g, p, FLOOR, DOT);
  }

  /** Eats one cell: a dot or a piece turns into floor and is credited; any other cell is left alone. */
  function EatCell(b: Board, rec: LevelData, p: Pos): (r: (Board, LevelData))
    requires Balanced(b) && InBounds(b.grid, p)
    ensures Balanced(r.0) && SameShape(b.grid, r.0.grid)
    ensures r.0.player == b.player && r.0.maxDotCount == b.maxDotCount
    ensures DotTotal(r.0) == DotTotal(b)
  {
    var v := Cell(b.grid, p);
    var g := SetCell(b.grid, p, FLOOR);
    CountAfterSet(b.grid, p, FLOOR, DOT);
    if v == DOT then
      var dots := b.dotCollected + 1;
      DotCounted(b.grid, p);
      ScoreBounds(dots, b.maxDotCount);
      (b.(grid := g, dotCollected := dots, score := ScoreOf(dots, b.maxDotCount)), rec)
    else if v == PIECE then
      (b.(grid := g), rec.(pieceCount := rec.pieceCount + 1, collectedPieces := rec.collectedPieces + [p]))
    else
      (b, rec)
  }

  /** Eating one cell credits at most that cell: a dot to the counter, a piece to the record. */
  lemma EatCellCredits(b: Board, rec: LevelData, p: Pos)
    requires Balanced(b) && InBounds(b.grid, p)
    ensures var r := EatCell(b, rec, p);
            && r.0.dotCollected == b.dotCollected + Indicator(Cell(b.grid, p) == DOT)
            && r.1.pieceCount == rec.pieceCount + Indicator(Cell(b.grid, p) == PIECE)
            && r.1.collectedPieces == rec.collectedPieces + (if Cell(b.grid, p) == PIECE then [p] else [])
            && r.1.highScore == rec.highScore
  {
  }

  /** Eating one cell leaves every other cell as it was. */
  lemma EatCellElsewhere(b: Board, rec: LevelData, p: Pos, q: Pos)
    requires Balanced(b) && InBounds(b.grid, p) && InBounds(b.grid, q) && q != p
    ensures Cell(EatCell(b, rec, p).0.grid, q) == Cell(b.grid, q)
  {
  }

  /** On a path without repeats, eating the first cell leaves the rest of the path looking as before. */
  lemma FirstEatenRestSeen(b: Board, rec: LevelData, path: seq<Pos>)
    requires Balanced(b) && OnGrid(b.grid, path) && NoRepeats(path) && |path| > 0
    ensures NoRepeats(path[1..]) && OnGrid(EatCell(b, rec, path[0]).0.grid, path[1..])
    ensures var g := EatCell(b, rec, path[0]).0.grid;
            && CountOnPath(g, path[1..], DOT) == CountOnPath(b.grid, path[1..], DOT)
            && CountOnPath(g, path[1..], PIECE) == CountOnPath(b.grid, path[1..], PIECE)
            && PiecesOnPath(g, path[1..]) == PiecesOnPath(b.grid, path[1..])
  {
    var first := EatCell(b, rec, path[0]);
    var rest := path[1..];
    forall i | 0 <= i < |rest|
      ensures Cell(first.0.grid, rest[i]) == Cell(b.grid, rest[i])
    {
      assert rest[i] == path[i + 1];
      EatCellElsewhere(b, rec, path[0], rest[i]);
    }
    PathViewAgrees(first.0.grid, b.grid, rest);
  }

  /** Eats along a path, first cell first. */
  function EatPath(b: Board, rec: LevelData, path: seq<Pos>): (r: (Board, LevelData))
    requires Balanced(b) && OnGrid(b.grid, path)
    ensures Balanced(r.0) && SameShape(b.grid, r.0.grid)
    ensures r.0.player == b.player && r.0.maxDotCount == b.maxDotCount
    ensures DotTotal(r.0) == DotTotal(b)
    decreases |path|
  {
    if |path| == 0 then (b, rec)
    else
      var first := EatCell(b, rec, path[0]);
      EatPath(first.0, first.1, path[1..])
  }

  /** Number of path cells holding code `v` in grid `g`. */
  function CountOnPath(g: Grid, path: seq<Pos>, v: int): nat
    requires IsGrid(g) && OnGrid(g, path)
  {
    if |path| == 0 then 0
    else (if Cell(g, path[0]) == v then 1 else 0) + CountOnPath(g, path[1..], v)
  }

  /** The path cells holding a piece in grid `g`, in path order. */
  function PiecesOnPath(g: Grid, path: seq<Pos>): seq<Pos>
    requires IsGrid(g) && OnGrid(g, path)
  {
    if |path| == 0 then []
    else (if Cell(g, path[0]) == PIECE then [path[0]] else []) + PiecesOnPath(g, path[1..])
  }

  /** The walked pieces are path cells holding a piece, one per piece counted, and never the same cell twice on a path without repeats. */
  lemma {:induction false} PiecesOnPathFacts(g: Grid, path: seq<Pos>)
    requires IsGrid(g) && OnGrid(g, path)
    decreases |path|
    ensures |PiecesOnPath(g, path)| == CountOnPath(g, path, PIECE)
    ensures forall i :: 0 <= i < |PiecesOnPath(g, path)| ==>
              PiecesOnPath(g, path)[i] in path && InBounds(g, PiecesOnPath(g, path)[i]) && Cell(g, PiecesOnPath(g, path)[i]) == PIECE
    ensures NoRepeats(path) ==> NoRepeats(PiecesOnPath(g, path))
  {
    if |path| > 0 {
      var rest := path[1..];
      PiecesOnPathFacts(g, rest);
      var tail := PiecesOnPath(g, rest);
      forall i | 0 <= i < |tail|
        ensures tail[i] in path
      {
        assert tail[i] in rest;
      }
      if NoRepeats(path) {
        assert NoRepeats(rest);
        assert path[0] !in rest;
        forall i | 0 <= i < |tail|
          ensures tail[i] != path[0]
        {
          assert tail[i] in rest;
        }
      }
    }
  }

  /** Two grids that agree on every path cell see the same dots and pieces along it. */
  lemma {:induction false} PathViewAgrees(g: Grid, h: Grid, path: seq<Pos>)
    requires IsGrid(g) && IsGrid(h) && SameShape(g, h) && OnGrid(g, path)
    requires forall i :: 0 <= i < |path| ==> Cell(g, path[i]) == Cell(h, path[i])
    ensures CountOnPath(g, path, DOT) == CountOnPath(h, path, DOT)
    ensures CountOnPath(g, path, PIECE) == CountOnPath(h, path, PIECE)
    ensures PiecesOnPath(g, path) == PiecesOnPath(h, path)
  {
    if |path| > 0 {
      PathViewAgrees(g, h, path[1..]);
    }
  }

  /**
   After eating, every walked cell that held a dot or a piece is floor; every
   other cell, on the path or off it, keeps its code (the start cell stays -1).
   */
  lemma {:induction false} EatPathCells(b: Board, rec: LevelData, path: seq<Pos>, q: Pos)
    requires Balanced(b) && OnGrid(b.grid, path) && InBounds(b.grid, q)
    decreases |path|
    ensures var g := EatPath(b, rec, path).0.grid;
            Cell(g, q) == if q in path && (Cell(b.grid, q) == DOT || Cell(b.grid, q) == PIECE) then FLOOR else Cell(b.grid, q)
  {
    if |path| > 0 {
      var first := EatCell(b, rec, path[0]);
      EatPathCells(first.0, first.1, path[1..], q);
      assert q in path <==> q == path[0] || q in path[1..];
    }
  }

  /**
   Along a path without repeated cells, eating raises the dot counter by the
   number of walked dots and the piece count by the number of walked pieces,
   and appends the walked pieces' positions to the record in walking order.
   */
  lemma EatPathCredits(b: Board, rec: LevelData, path: seq<Pos>)
    requires Balanced(b) && OnGrid(b.grid, path) && NoRepeats(path)
    ensures var r := EatPath(b, rec, path);
            && r.0.dotCollected == b.dotCollected + CountOnPath(b.grid, path, DOT)
            && r.1.pieceCount == rec.pieceCount + CountOnPath(b.grid, path, PIECE)
            && r.1.collectedPieces == rec.collectedPieces + PiecesOnPath(b.grid, path)
            && r.1.highScore == rec.highScore
  {
    EatPathDots(b, rec, path);
    EatPathPieces(b, rec, path);
    EatPathPieceList(b, rec, path);
  }

  lemma {:induction false} EatPathDots(b: Board, rec: LevelData, path: seq<Pos>)
    requires Balanced(b) && OnGrid(b.grid, path) && NoRepeats(path)
    decreases |path|
    ensures EatPath(b, rec, path).0.dotCollected == b.dotCollected + CountOnPath(b.grid, path, DOT)
  {
    if |path| > 0 {
      var first := EatCell(b, rec, path[0]);
      FirstEatenRestSeen(b, rec, path);
      EatPathDots(first.0, first.1, path[1..]);
    }
  }

  lemma {:induction false} EatPathPieces(b: Board, rec: LevelData, path: seq<Pos>)
    requires Balanced(b) && OnGrid(b.grid, path) && NoRepeats(path)
    decreases |path|
    ensures var r := EatPath(b, rec, path).1;
            r.pieceCount == rec.pieceCount + CountOnPath(b.grid, path, PIECE) && r.highScore == rec.highScore
  {
    if |path| > 0 {
      var first := EatCell(b, rec, path[0]);
      FirstEatenRestSeen(b, rec, path);
      EatPathPieces(first.0, first.1, path[1..]);
    }
  }

  lemma {:induction false} EatPathPieceList(b: Board, rec: LevelData, path: seq<Pos>)
    requires Balanced(b) && OnGrid(b.grid, path) && NoRepeats(path)
    decreases |path|
    ensures EatPath(b, rec, path).1.collectedPieces == rec.collectedPieces + PiecesOnPath(b.grid, path)
  {
    if |path| > 0 {
      var first := EatCell(b, rec, path[0]);
      var rest := path[1..];
      FirstEatenRestSeen(b, rec, path);
      EatPathPieceList(first.0, first.1, rest);
      EatCellCredits(b, rec, path[0]);
      var own := if Cell(b.grid, path[0]) == PIECE then [path[0]] else [];
      AppendAssoc(rec.collectedPieces, own, PiecesOnPath(b.grid, rest));
    }
  }

  lemma AppendAssoc(a: seq<Pos>, b: seq<Pos>, c: seq<Pos>)
    ensures a + b + c == a + (b + c)
  {
  }

  /** The score changes only when a dot is eaten, and then becomes the new dot counter's percentage. */
  lemma {:induction false} EatPathScore(b: Board, rec: LevelData, path: seq<Pos>)
    requires Balanced(b) && OnGrid(b.grid, path) && NoRepeats(path)
    decreases |path|
    ensures var r := EatPath(b, rec, path).0;
            && (CountOnPath(b.grid, path, DOT) == 0 ==> r.score == b.score)
            && (CountOnPath(b.grid, path, DOT) > 0 ==> b.maxDotCount > 0 && r.score == ScoreOf(r.dotCollected, b.maxDotCount))
  {
    if |path| > 0 {
      var first := EatCell(b, rec, path[0]);
      var rest := path[1..];
      FirstEatenRestSeen(b, rec, path);
      EatPathScore(first.0, first.1, rest);
      EatPathCredits(first.0, first.1, rest);
      if Cell(b.grid, path[0]) == DOT {
        DotCounted(b.grid, path[0]);
      }
    }
  }

  /**
   Eating keeps the record's piece list a set, and the piece count moves in step
   with the list's length.
   */
  lemma {:induction false} EatPathKeepsPieceList(b: Board, rec: LevelData, path: seq<Pos>)
    requires Balanced(b) && OnGrid(b.grid, path) && PieceListAsSet(b.grid, rec.collectedPieces)
    decreases |path|
    ensures var r := EatPath(b, rec, path);
            && PieceListAsSet(r.0.grid, r.1.collectedPieces)
            && r.1.pieceCount - |r.1.collectedPieces| == rec.pieceCount - |rec.collectedPieces|
  {
    if |path| > 0 {
      var p := path[0];
      var first := EatCell(b, rec, p);
      var pieces := first.1.collectedPieces;
      if Cell(b.grid, p) == PIECE {
        assert p !in rec.collectedPieces;
        assert pieces == rec.collectedPieces + [p];
      }
      assert forall i :: 0 <= i < |pieces| && InBounds(first.0.grid, pieces[i]) ==> Cell(first.0.grid, pieces[i]) != PIECE;
      EatPathKeepsPieceList(first.0, first.1, path[1..]);
    }
  }

  /** A path with nothing left to eat leaves board and record exactly as they were. */
  lemma {:induction false} EatPathNothingLeft(b: Board, rec: LevelData, path: seq<Pos>)
    requires Balanced(b) && OnGrid(b.grid, path)
    requires forall i :: 0 <= i < |path| ==> Cell(b.grid, path[i]) != DOT && Cell(b.grid, path[i]) != PIECE
    ensures EatPath(b, rec, path) == (b, rec)
  {
    if |path| > 0 {
      EatPathNothingLeft(b, rec, path[1..]);
    }
  }

  /** Walking the same path a second time eats nothing more: no dot or piece is counted twice. */
  lemma EatPathTwice(b: Board, rec: LevelData, path: seq<Pos>)
    requires Balanced(b) && OnGrid(b.grid, path)
    ensures var once := EatPath(b, rec, path);
            EatPath(once.0, once.1, path) == once
  {
    var once := EatPath(b, rec, path);
    forall i | 0 <= i < |path|
      ensures Cell(once.0.grid, path[i]) != DOT && Cell(once.0.grid, path[i]) != PIECE
    {
      EatPathCells(b, rec, path, path[i]);
    }
    EatPathNothingLeft(once.0, once.1, path);
  }

  /** The level is cleared once every dot is eaten and the level record holds three pieces. */
  predicate Cleared(b: Board, rec: LevelData) {
    b.dotCollected >= b.maxDotCount && rec.pieceCount >= PIECES_PER_LEVEL
  }
}

/**
 Level decoding: a level file is an unordered list of named tiles at integer
 positions plus a play time. Decoding finds the tiles' bounding box, shifts
 every position into `[0, w) x [0, h)`, and writes the cell code of each tile
 name into a grid that starts out empty. The post-load pass then turns pieces
 the player already owns into floor and places the player on the start cell.
 */
module LevelCodec {
  import opened Optional
  import opened Grid

  const FLOOR_NAME: string := "BLACK"
  const DOT_NAME: string := "GREENWITHBLACKBACKGROUND"
  const PIECE_NAME: string := "PUZZLEPIECE"
  const START_NAME: string := "WHITE"

  /** Play time used when the level file gives none (a value of zero or below). */
  const DEFAULT_PLAY_TIME: real := 15.0

  /** The sentinels the bounding-box scan starts from: int.MaxValue and int.MinValue. */
  const INT32_MIN: int := -0x8000_0000
  const INT32_MAX: int := 0x7fff_ffff

  datatype TileEntry = TileEntry(pos: Pos, name: string)

  /** The contents of one level file. */
  datatype Container = Container(tiles: seq<TileEntry>, playTime: real)

  /** Smallest and largest coordinates over all tiles. */
  datatype Box = Box(minX: int, minY: int, maxX: int, maxY: int)

  /** The decoded level, before pieces already owned are taken off the board. */
  datatype Level = Level(grid: Grid, maxDotCount: nat, playTime: real, start: Option<Pos>)

  /** The level as play begins: grid, player position, dot total and timer. */
  datatype Loaded = Loaded(grid: Grid, player: Pos, maxDotCount: nat, time: real)

  /** The cell code a tile name stands for; None for a name the decoder does not know, which writes nothing. */
  function CodeOf(name: string): Option<int> {
    if name == "" then Some(EMPTY)
    else if name == FLOOR_NAME then Some(FLOOR)
    else if name == DOT_NAME then Some(DOT)
    else if name == PIECE_NAME then Some(PIECE)
    else if name == START_NAME then Some(START)
    else None
  }

  /** The tile name of each cell code, the reverse direction of the same table. */
  function NameOf(code: int): string {
    if code == FLOOR then FLOOR_NAME
    else if code == DOT then DOT_NAME
    else if code == PIECE then PIECE_NAME
    else if code == START then START_NAME
    else ""
  }

  /** The name table is a bijection between the five cell codes and the five known names. */
  lemma NameTableRoundTrip(code: int, name: string)
    ensures code in {EMPTY, FLOOR, DOT, PIECE, START} ==> CodeOf(NameOf(code)) == Some(code)
    ensures CodeOf(name).Some? ==> NameOf(CodeOf(name).value) == name
  {
  }

  /** The 32-bit two's-complement result of an int computation, as unchecked C# arithmetic yields it. */
  function Wrap32(v: int): (r: int)
    ensures INT32_MIN <= r <= INT32_MAX
    ensures (r - v) % 0x1_0000_0000 == 0
  {
    (v - INT32_MIN) % 0x1_0000_0000 + INT32_MIN
  }

  /**
   Side length of the grid decoded from a level file with no tiles: the box
   keeps its sentinels (smallest at the int32 maximum, largest at the int32
   minimum) and `largest - smallest + 1` is computed in 32 bits.
   */
  function EmptyLevelSpan(): int {
    Wrap32(INT32_MIN - INT32_MAX + 1)
  }

  /** The sentinel span wraps around to 2. */
  lemma EmptyLevelSide()
    ensures EmptyLevelSpan() == 2
  {
  }

  function MinOf(xs: seq<int>): (m: int)
    requires |xs| > 0
    ensures forall i :: 0 <= i < |xs| ==> m <= xs[i]
    ensures exists i :: 0 <= i < |xs| && xs[i] == m
  {
    if |xs| == 1 then xs[0]
    else
      var rest := MinOf(xs[1..]);
      if xs[0] < rest then xs[0] else rest
  }

  function MaxOf(xs: seq<int>): (m: int)
    requires |xs| > 0
    ensures forall i :: 0 <= i < |xs| ==> xs[i] <= m
    ensures exists i :: 0 <= i < |xs| && xs[i] == m
  {
    if |xs| == 1 then xs[0]
    else
      var rest := MaxOf(xs[1..]);
      if xs[0] > rest then xs[0] else rest
  }

  function Xs(ts: seq<TileEntry>): (xs: seq<int>)
    ensures |xs| == |ts| && forall i :: 0 <= i < |ts| ==> xs[i] == ts[i].pos.x
  {
    seq(|ts|, i requires 0 <= i < |ts| => ts[i].pos.x)
  }

  function Ys(ts: seq<TileEntry>): (ys: seq<int>)
    ensures |ys| == |ts| && forall i :: 0 <= i < |ts| ==> ys[i] == ts[i].pos.y
  {
    seq(|ts|, i requires 0 <= i < |ts| => ts[i].pos.y)
  }

  predicate Inside(p: Pos, b: Box) {
    b.minX <= p.x <= b.maxX && b.minY <= p.y <= b.maxY
  }

  /** The smallest and largest coordinates over the tiles. */
  function BoundingBox(ts: seq<TileEntry>): (b: Box)
    requires |ts| > 0
    ensures forall i :: 0 <= i < |ts| ==> Inside(ts[i].pos, b)
  {
    var xs := Xs(ts);
    var ys := Ys(ts);
    Box(MinOf(xs), MinOf(ys), MaxOf(xs), MaxOf(ys))
  }

  /** The box is the tightest rectangle holding every tile: each tile lies inside, and each edge touches a tile. */
  lemma BoundingBoxTight(ts: seq<TileEntry>)
    requires |ts| > 0
    ensures var b := BoundingBox(ts);
            && (forall i :: 0 <= i < |ts| ==> Inside(ts[i].pos, b))
            && (exists i :: 0 <= i < |ts| && ts[i].pos.x == b.minX)
            && (exists i :: 0 <= i < |ts| && ts[i].pos.x == b.maxX)
            && (exists i :: 0 <= i < |ts| && ts[i].pos.y == b.minY)
            && (exists i :: 0 <= i < |ts| && ts[i].pos.y == b.maxY)
  {
    var xs := Xs(ts);
    var ys := Ys(ts);
    var i0 :| 0 <= i0 < |xs| && xs[i0] == MinOf(xs);
    var i1 :| 0 <= i1 < |xs| && xs[i1] == MaxOf(xs);
    var i2 :| 0 <= i2 < |ys| && ys[i2] == MinOf(ys);
    var i3 :| 0 <= i3 < |ys| && ys[i3] == MaxOf(ys);
  }

  /** The grid position of a tile: its coordinates minus the box minima. */
  function Normalize(p: Pos, b: Box): Pos {
    Pos(p.x - b.minX, p.y - b.minY)
  }

  /** The empty grid the box calls for: `(maxX - minX + 1)` columns of height `(maxY - minY + 1)`. */
  function BlankFor(b: Box): (g: Grid)
    requires b.minX <= b.maxX && b.minY <= b.maxY
    ensures IsGrid(g) && Width(g) == b.maxX - b.minX + 1 && Height(g) == b.maxY - b.minY + 1
    ensures forall p :: Inside(p, b) ==> InBounds(g, Normalize(p, b))
    ensures forall p :: InBounds(g, p) ==> Cell(g, p) == EMPTY
  {
    Filled(b.maxX - b.minX + 1, b.maxY - b.minY + 1, EMPTY)
  }

  /** Every tile of `ts` lands inside `g` once shifted by the box. */
  predicate Fits(g: Grid, ts: seq<TileEntry>, b: Box)
    requires IsGrid(g)
  {
    forall i :: 0 <= i < |ts| ==> InBounds(g, Normalize(ts[i].pos, b))
  }

  /** Writes the code of one tile; a tile with an unknown name writes nothing. */
  function Paint(g: Grid, t: TileEntry, b: Box): (r: Grid)
    requires IsGrid(g) && InBounds(g, Normalize(t.pos, b))
    ensures IsGrid(r) && SameShape(g, r)
  {
    match CodeOf(t.name)
    case Some(c) => SetCell(g, Normalize(t.pos, b), c)
    case None => g
  }

  /** Writes the tiles in list order, so a later tile at the same position overwrites an earlier one. */
  function Build(g: Grid, ts: seq<TileEntry>, b: Box): (r: Grid)
    requires IsGrid(g) && Fits(g, ts, b)
    ensures IsGrid(r) && SameShape(g, r)
  {
    if |ts| == 0 then g
    else Paint(Build(g, ts[..|ts| - 1], b), ts[|ts| - 1], b)
  }

  /** Number of tiles carrying the dot name: the level's `maxDotCount`. */
  function DotEntries(ts: seq<TileEntry>): nat {
    if |ts| == 0 then 0
    else DotEntries(ts[..|ts| - 1]) + (if ts[|ts| - 1].name == DOT_NAME then 1 else 0)
  }

  /** Index of the last start-named tile among the first `n` tiles. */
  function LastStartTile(ts: seq<TileEntry>, n: nat): (r: Option<nat>)
    requires n <= |ts|
    ensures r.None? <==> forall i :: 0 <= i < n ==> ts[i].name != START_NAME
    ensures r.Some? ==> r.value < n && ts[r.value].name == START_NAME
                        && forall j :: r.value < j < n ==> ts[j].name != START_NAME
  {
    if n == 0 then None
    else if ts[n - 1].name == START_NAME then Some(n - 1)
    else LastStartTile(ts, n - 1)
  }

  /** The shifted position of the last start-named tile in list order; the decoder keeps overwriting the player location. */
  function StartOf(ts: seq<TileEntry>, b: Box): (s: Option<Pos>)
    ensures s.None? <==> forall i :: 0 <= i < |ts| ==> ts[i].name != START_NAME
    ensures s.Some? ==> var i := LastStartTile(ts, |ts|).value; s.value == Normalize(ts[i].pos, b)
  {
    match LastStartTile(ts, |ts|)
    case Some(i) => Some(Normalize(ts[i].pos, b))
    case None => None
  }

  predicate DistinctPositions(ts: seq<TileEntry>) {
    forall i, j :: 0 <= i < j < |ts| ==> ts[i].pos != ts[j].pos
  }

  /** Decodes a level file. With no tiles at all the sentinel arithmetic wraps, giving a 2 x 2 empty grid. */
  function Decode(c: Container): (lv: Level)
    ensures IsGrid(lv.grid)
    ensures lv.maxDotCount == DotEntries(c.tiles)
    ensures lv.playTime == if c.playTime <= 0.0 then DEFAULT_PLAY_TIME else c.playTime
    ensures |c.tiles| == 0 ==> Width(lv.grid) == 2 && Height(lv.grid) == 2 && lv.start == None
    ensures |c.tiles| == 0 ==> forall p :: InBounds(lv.grid, p) ==> Cell(lv.grid, p) == EMPTY
    ensures |c.tiles| > 0 ==>
              var b := BoundingBox(c.tiles);
              && Width(lv.grid) == b.maxX - b.minX + 1
              && Height(lv.grid) == b.maxY - b.minY + 1
              && Fits(lv.grid, c.tiles, b)
    ensures lv.start.Some? ==> InBounds(lv.grid, lv.start.value)
  {
    var time := if c.playTime <= 0.0 then DEFAULT_PLAY_TIME else c.playTime;
    if |c.tiles| == 0 then
      EmptyLevelSide();
      Level(Filled(EmptyLevelSpan(), EmptyLevelSpan(), EMPTY), 0, time, None)
    else
      DecodeTiles(c.tiles, time)
  }

  /** Decoding a non-empty tile list: an empty grid spanning the bounding box, with every tile written in. */
  function DecodeTiles(ts: seq<TileEntry>, time: real): (lv: Level)
    requires |ts| > 0
    ensures IsGrid(lv.grid) && lv.maxDotCount == DotEntries(ts) && lv.playTime == time
    ensures var b := BoundingBox(ts);
            && Width(lv.grid) == b.maxX - b.minX + 1
            && Height(lv.grid) == b.maxY - b.minY + 1
            && Fits(lv.grid, ts, b)
    ensures lv.start.Some? ==> InBounds(lv.grid, lv.start.value)
  {
    var b := BoundingBox(ts);
    var blank := BlankFor(b);
    TilesFit(ts, b, blank);
    var g := Build(blank, ts, b);
    var start := StartOf(ts, b);
    Level(g, DotEntries(ts), time, start)
  }

  /** The decoder's start position is the shifted position of a start tile that no later start tile follows. */
  lemma StartOfIsLast(ts: seq<TileEntry>, b: Box)
    ensures StartOf(ts, b).None? <==> forall i :: 0 <= i < |ts| ==> ts[i].name != START_NAME
    ensures StartOf(ts, b).Some? ==>
              exists i :: 0 <= i < |ts| && ts[i].name == START_NAME && Normalize(ts[i].pos, b) == StartOf(ts, b).value
                          && forall j :: i < j < |ts| ==> ts[j].name != START_NAME
  {
    if StartOf(ts, b).Some? {
      var i := LastStartTile(ts, |ts|).value;
      assert ts[i].name == START_NAME && Normalize(ts[i].pos, b) == StartOf(ts, b).value;
    }
  }

  /** Every tile, shifted by the box, lands inside the box's blank grid. */
  lemma TilesFit(ts: seq<TileEntry>, b: Box, blank: Grid)
    requires |ts| > 0 && b == BoundingBox(ts) && blank == BlankFor(b)
    ensures Fits(blank, ts, b)
  {
    forall i | 0 <= i < |ts|
      ensures InBounds(blank, Normalize(ts[i].pos, b))
    {
      assert Inside(ts[i].pos, b);
    }
  }

  lemma BlankHasNoDots(b: Box, blank: Grid)
    requires b.minX <= b.maxX && b.minY <= b.maxY && blank == BlankFor(b)
    ensures CountCells(blank, DOT) == 0
  {
    forall x, y | 0 <= x < |blank| && 0 <= y < |blank[x]|
      ensures blank[x][y] != DOT
    {
      assert Cell(blank, Pos(x, y)) == EMPTY;
    }
    CountCellsNone(blank, DOT);
  }

  /** A grid cell no tile lands on keeps the value it had before decoding. */
  lemma {:induction false} BuildUntouched(g: Grid, ts: seq<TileEntry>, b: Box, q: Pos)
    requires IsGrid(g) && Fits(g, ts, b) && InBounds(g, q)
    requires forall i :: 0 <= i < |ts| ==> Normalize(ts[i].pos, b) != q || CodeOf(ts[i].name).None?
    ensures Cell(Build(g, ts, b), q) == Cell(g, q)
  {
    if |ts| > 0 {
      BuildUntouched(g, ts[..|ts| - 1], b, q);
    }
  }

  /** The last known-name tile at a position decides its cell: later tiles overwrite earlier ones. */
  lemma {:induction false} BuildLastWins(g: Grid, ts: seq<TileEntry>, b: Box, i: int)
    requires IsGrid(g) && Fits(g, ts, b) && 0 <= i < |ts|
    requires CodeOf(ts[i].name).Some?
    requires forall j :: i < j < |ts| ==> Normalize(ts[j].pos, b) != Normalize(ts[i].pos, b) || CodeOf(ts[j].name).None?
    ensures Cell(Build(g, ts, b), Normalize(ts[i].pos, b)) == CodeOf(ts[i].name).value
  {
    if i < |ts| - 1 {
      BuildLastWins(g, ts[..|ts| - 1], b, i);
    }
  }

  /** Each tile can add at most one dot cell, so the decoded dot cells never outnumber the dot tiles. */
  lemma {:induction false} BuildDotsAtMost(g: Grid, ts: seq<TileEntry>, b: Box)
    requires IsGrid(g) && Fits(g, ts, b)
    ensures CountCells(Build(g, ts, b), DOT) <= CountCells(g, DOT) + DotEntries(ts)
  {
    if |ts| > 0 {
      var prev := Build(g, ts[..|ts| - 1], b);
      BuildDotsAtMost(g, ts[..|ts| - 1], b);
      var t := ts[|ts| - 1];
      if CodeOf(t.name).Some? {
        CountAfterSet(prev, Normalize(t.pos, b), CodeOf(t.name).value, DOT);
      }
    }
  }

  /** With distinct tile positions over an empty grid, the dot cells are exactly the dot tiles. */
  lemma {:induction false} BuildDotsExact(g: Grid, ts: seq<TileEntry>, b: Box)
    requires IsGrid(g) && Fits(g, ts, b) && DistinctPositions(ts)
    requires forall p :: InBounds(g, p) ==> Cell(g, p) == EMPTY
    ensures CountCells(Build(g, ts, b), DOT) == CountCells(g, DOT) + DotEntries(ts)
  {
    if |ts| > 0 {
      var init := ts[..|ts| - 1];
      var prev := Build(g, init, b);
      BuildDotsExact(g, init, b);
      var t := ts[|ts| - 1];
      var q := Normalize(t.pos, b);
      forall i | 0 <= i < |init|
        ensures Normalize(init[i].pos, b) != q
      {
        assert init[i].pos != t.pos;
      }
      BuildUntouched(g, init, b, q);
      if CodeOf(t.name).Some? {
        CountAfterSet(prev, q, CodeOf(t.name).value, DOT);
      }
    }
  }

  /** Decoding places each tile of a level with distinct positions: its known code at its shifted position. */
  lemma DecodePlacesTiles(c: Container, i: int)
    requires DistinctPositions(c.tiles) && 0 <= i < |c.tiles|
    ensures var b := BoundingBox(c.tiles);
            var q := Normalize(c.tiles[i].pos, b);
            && InBounds(Decode(c).grid, q)
            && Cell(Decode(c).grid, q) == CodeOf(c.tiles[i].name).ValueOr(EMPTY)
  {
    var b := BoundingBox(c.tiles);
    var blank := BlankFor(b);
    TilesFit(c.tiles, b, blank);
    BuildPlacesTile(blank, c.tiles, b, i);
  }

  /** Over an empty grid and with distinct tile positions, each tile's cell holds its code. */
  lemma BuildPlacesTile(g: Grid, ts: seq<TileEntry>, b: Box, i: int)
    requires IsGrid(g) && Fits(g, ts, b) && DistinctPositions(ts) && 0 <= i < |ts|
    requires forall p :: InBounds(g, p) ==> Cell(g, p) == EMPTY
    ensures Cell(Build(g, ts, b), Normalize(ts[i].pos, b)) == CodeOf(ts[i].name).ValueOr(EMPTY)
  {
    var q := Normalize(ts[i].pos, b);
    forall j | 0 <= j < |ts| && j != i
      ensures Normalize(ts[j].pos, b) != q
    {
      if j < i { assert ts[j].pos != ts[i].pos; } else { assert ts[i].pos != ts[j].pos; }
    }
    if CodeOf(ts[i].name).Some? {
      BuildLastWins(g, ts, b, i);
    } else {
      BuildUntouched(g, ts, b, q);
    }
  }

  /** A grid cell that no tile lands on decodes as empty. */
  lemma DecodeUntouchedEmpty(c: Container, q: Pos)
    requires |c.tiles| > 0
    requires InBounds(Decode(c).grid, q)
    requires forall i :: 0 <= i < |c.tiles| ==> Normalize(c.tiles[i].pos, BoundingBox(c.tiles)) != q
    ensures Cell(Decode(c).grid, q) == EMPTY
  {
    var b := BoundingBox(c.tiles);
    TilesFit(c.tiles, b, BlankFor(b));
    BuildUntouched(BlankFor(b), c.tiles, b, q);
  }

  /** Decoded dot cells never exceed `maxDotCount`, and match it exactly when tile positions are distinct. */
  lemma DecodeDotCount(c: Container)
    ensures CountCells(Decode(c).grid, DOT) <= Decode(c).maxDotCount
    ensures DistinctPositions(c.tiles) ==> CountCells(Decode(c).grid, DOT) == Decode(c).maxDotCount
  {
    if |c.tiles| == 0 {
      CountCellsNone(Decode(c).grid, DOT);
    } else {
      var time := if c.playTime <= 0.0 then DEFAULT_PLAY_TIME else c.playTime;
      TilesDotCount(c.tiles, time);
    }
  }

  lemma TilesDotCount(ts: seq<TileEntry>, time: real)
    requires |ts| > 0
    ensures CountCells(DecodeTiles(ts, time).grid, DOT) <= DotEntries(ts)
    ensures DistinctPositions(ts) ==> CountCells(DecodeTiles(ts, time).grid, DOT) == DotEntries(ts)
  {
    var b := BoundingBox(ts);
    var blank := BlankFor(b);
    TilesFit(ts, b, blank);
    BlankHasNoDots(b, blank);
    BuildDotsAtMost(blank, ts, b);
    if DistinctPositions(ts) {
      BuildDotsExact(blank, ts, b);
    }
  }

  /** Pieces whose position the level record already holds are drawn, and stored, as floor. */
  function Restored(g: Grid, collected: seq<Pos>): (r: Grid)
    requires IsGrid(g)
    ensures IsGrid(r) && SameShape(g, r)
  {
    seq(|g|, x requires 0 <= x < |g| =>
      seq(|g[x]|, y requires 0 <= y < |g[x]| =>
        if g[x][y] == PIECE && Pos(x, y) in collected then FLOOR else g[x][y]))
  }

  /** `p` comes no later than `q` in the column-major scan of the post-load pass. */
  predicate ScanNoLater(p: Pos, q: Pos) {
    p.x < q.x || (p.x == q.x && p.y <= q.y)
  }

  /** The last start cell among the first `n` entries of a column. */
  function LastStartInColumn(col: seq<int>, n: nat): (r: Option<int>)
    requires n <= |col|
    ensures r.None? ==> forall y :: 0 <= y < n ==> col[y] != START
    ensures r.Some? ==> 0 <= r.value < n && col[r.value] == START
                        && forall y :: r.value < y < n ==> col[y] != START
  {
    if n == 0 then None
    else if col[n - 1] == START then Some(n - 1)
    else LastStartInColumn(col, n - 1)
  }

  /** The last start cell among the first `n` columns, in the scan order of the post-load pass. */
  function LastStart(g: Grid, n: nat): (r: Option<Pos>)
    requires IsGrid(g) && n <= Width(g)
    ensures r.None? ==> forall p :: InBounds(g, p) && p.x < n ==> Cell(g, p) != START
    ensures r.Some? ==> InBounds(g, r.value) && r.value.x < n && Cell(g, r.value) == START
                        && forall p :: InBounds(g, p) && p.x < n && Cell(g, p) == START ==> ScanNoLater(p, r.value)
  {
    if n == 0 then None
    else
      match LastStartInColumn(g[n - 1], |g[n - 1]|)
      case Some(y) => Some(Pos(n - 1, y))
      case None => LastStart(g, n - 1)
  }

  /**
   The post-load pass, as the game writes it: a column-major scan that turns
   owned pieces into floor and moves the player to every start cell it meets,
   so the last one wins; with no start cell the player stays at `prior`.
   */
  method DrawMap(g: Grid, collected: seq<Pos>, prior: Pos) returns (r: Grid, player: Pos)
    requires IsGrid(g)
    ensures IsGrid(r) && SameShape(g, r)
    ensures forall p :: InBounds(g, p) ==>
              Cell(r, p) == (if Cell(g, p) == PIECE && p in collected then FLOOR else Cell(g, p))
    ensures (forall p :: InBounds(g, p) ==> Cell(g, p) != START) ==> player == prior
    ensures (exists p :: InBounds(g, p) && Cell(g, p) == START) ==>
              && InBounds(g, player) && Cell(g, player) == START
              && forall p :: InBounds(g, p) && Cell(g, p) == START ==> ScanNoLater(p, player)
    ensures r == Restored(g, collected)
    ensures player == LastStart(g, Width(g)).ValueOr(prior)
  {
    r := [];
    player := prior;
    var i := 0;
    while i < |g|
      invariant 0 <= i <= |g|
      invariant |r| == i
      invariant forall x :: 0 <= x < i ==> r[x] == Restored(g, collected)[x]
      invariant player == LastStart(g, i).ValueOr(prior)
    {
      var col, last := DrawColumn(g, i, collected);
      if last.Some? {
        player := Pos(i, last.value);
      }
      r := r + [col];
      i := i + 1;
    }
    assert r == Restored(g, collected);
  }

  /**
   One column of the post-load pass: owned pieces become floor, and the scan
   reports the last start cell it met in the column.
   */
  method DrawColumn(g: Grid, x: int, collected: seq<Pos>) returns (col: seq<int>, last: Option<int>)
    requires IsGrid(g) && 0 <= x < |g|
    ensures col == Restored(g, collected)[x]
    ensures last == LastStartInColumn(g[x], |g[x]|)
  {
    var h := |g[x]|;
    col := [];
    last := None;
    var y := 0;
    while y < h
      invariant 0 <= y <= h
      invariant |col| == y
      invariant forall k :: 0 <= k < y ==> col[k] == Restored(g, collected)[x][k]
      invariant last == LastStartInColumn(g[x], y)
    {
      var v := g[x][y];
      if v == START {
        last := Some(y);
      }
      if v == PIECE && Pos(x, y) in collected {
        col := col + [FLOOR];
      } else {
        col := col + [v];
      }
      y := y + 1;
    }
  }


  /**
   Level start: decode the file, then run the post-load pass with the pieces the
   level record already holds. The player ends on the last start cell of the scan;
   failing that, on the decoder's last start tile; failing that, at the origin,
   where a freshly created game world's location field begins.
   */
  function Load(c: Container, collected: seq<Pos>): (l: Loaded)
    ensures IsGrid(l.grid) && InBounds(l.grid, l.player)
    ensures l.time > 0.0 && l.maxDotCount == DotEntries(c.tiles)
    ensures NoPieceAt(l.grid, collected)
    ensures CountCells(l.grid, DOT) <= l.maxDotCount
    ensures DistinctPositions(c.tiles) ==> CountCells(l.grid, DOT) == l.maxDotCount
  {
    DecodeDotCount(c);
    Place(Decode(c), collected)
  }

  /** The post-load pass over a decoded level: owned pieces become floor and the player is placed. */
  function Place(lv: Level, collected: seq<Pos>): (l: Loaded)
    requires IsGrid(lv.grid) && (lv.start.Some? ==> InBounds(lv.grid, lv.start.value))
    ensures IsGrid(l.grid) && SameShape(lv.grid, l.grid) && InBounds(l.grid, l.player)
    ensures l.time == lv.playTime && l.maxDotCount == lv.maxDotCount
    ensures forall p :: InBounds(lv.grid, p) ==>
              Cell(l.grid, p) == (if Cell(lv.grid, p) == PIECE && p in collected then FLOOR else Cell(lv.grid, p))
    ensures l.player == LastStart(lv.grid, Width(lv.grid)).ValueOr(lv.start.ValueOr(Pos(0, 0)))
    ensures NoPieceAt(l.grid, collected)
    ensures CountCells(l.grid, DOT) == CountCells(lv.grid, DOT)
  {
    var r := Restored(lv.grid, collected);
    RestoredClears(lv.grid, collected);
    RestoredSameDots(lv.grid, collected);
    var origin := Pos(0, 0);
    Loaded(r, LastStart(lv.grid, Width(lv.grid)).ValueOr(lv.start.ValueOr(origin)), lv.maxDotCount, lv.playTime)
  }

  /** The post-load pass keeps the number of dot cells. */
  lemma RestoredSameDots(g: Grid, collected: seq<Pos>)
    requires IsGrid(g)
    ensures CountCells(Restored(g, collected), DOT) == CountCells(g, DOT)
  {
    var r := Restored(g, collected);
    forall x, y | 0 <= x < |g| && 0 <= y < |g[x]|
      ensures g[x][y] == DOT <==> r[x][y] == DOT
    {
    }
    RestoredKeepsDots(g, r, |g|);
    WholeSuffix(g);
    WholeSuffix(r);
  }

  lemma WholeSuffix(g: Grid)
    ensures g[|g| - |g|..] == g
  {
  }

  /** Restoring owned pieces swaps pieces for floor and so leaves the dot cells as they were. */
  lemma {:induction false} RestoredKeepsDots(g: Grid, r: Grid, n: nat)
    requires IsGrid(g) && IsGrid(r) && SameShape(g, r) && n <= |g|
    requires forall x, y :: 0 <= x < |g| && 0 <= y < |g[x]| ==> (g[x][y] == DOT <==> r[x][y] == DOT)
    ensures CountCells(g[|g| - n..], DOT) == CountCells(r[|r| - n..], DOT)
  {
    if n > 0 {
      RestoredKeepsDots(g, r, n - 1);
      var k := |g| - n;
      assert g[k..][1..] == g[k + 1..];
      assert r[k..][1..] == r[k + 1..];
      ColumnsKeepDots(g[k], r[k], |g[k]|);
    }
  }

  lemma {:induction false} ColumnsKeepDots(a: seq<int>, b: seq<int>, n: nat)
    requires |a| == |b| && n <= |a|
    requires forall y :: 0 <= y < |a| ==> (a[y] == DOT <==> b[y] == DOT)
    ensures Occurrences(a[|a| - n..], DOT) == Occurrences(b[|b| - n..], DOT)
  {
    if n > 0 {
      ColumnsKeepDots(a, b, n - 1);
      var k := |a| - n;
      assert a[k..][1..] == a[k + 1..];
      assert b[k..][1..] == b[k + 1..];
    }
  }

  /** After the post-load pass no owned position holds a piece. */
  lemma RestoredClears(g: Grid, collected: seq<Pos>)
    requires IsGrid(g)
    ensures NoPieceAt(Restored(g, collected), collected)
  {
    var r := Restored(g, collected);
    forall i | 0 <= i < |collected| && InBounds(r, collected[i])
      ensures Cell(r, collected[i]) != PIECE
    {
      assert collected[i] in collected;
    }
  }

  /** Whenever the loaded grid has a start cell the player stands on one: the last in scan order. */
  lemma LoadPlayerOnStart(c: Container, collected: seq<Pos>, p: Pos)
    requires InBounds(Load(c, collected).grid, p) && Cell(Load(c, collected).grid, p) == START
    ensures Cell(Load(c, collected).grid, Load(c, collected).player) == START
    ensures ScanNoLater(p, Load(c, collected).player)
  {
    PlacePlayerOnStart(Decode(c), collected, p);
  }

  lemma PlacePlayerOnStart(lv: Level, collected: seq<Pos>, p: Pos)
    requires IsGrid(lv.grid) && (lv.start.Some? ==> InBounds(lv.grid, lv.start.value))
    requires InBounds(Place(lv, collected).grid, p) && Cell(Place(lv, collected).grid, p) == START
    ensures Cell(Place(lv, collected).grid, Place(lv, collected).player) == START
    ensures ScanNoLater(p, Place(lv, collected).player)
  {
    var r := Restored(lv.grid, collected);
    assert r[p.x][p.y] == lv.grid[p.x][p.y];
    var q := LastStart(lv.grid, Width(lv.grid));
    assert q.Some?;
    assert r[q.value.x][q.value.y] == lv.grid[q.value.x][q.value.y];
  }
}

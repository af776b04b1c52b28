/**
 One play of a level, as the game world runs it: the level is loaded, a
 four-second countdown runs, then the timer ticks down while direction inputs
 slide the player and eat along the way. The session ends in the game-over
 step when the timer runs out or the level is cleared. Each coroutine of the
 game world (countdown, timer, move-and-eat) is one atomic step here.
 */
module Session {
  import opened Optional
  import opened Grid
  import opened LevelCodec
  import opened Slide
  import opened Progress
  import opened Scoring

  /** Length of the pre-game countdown in seconds. */
  const COUNTDOWN_SECONDS: real := 4.0

  /**
   The progress manager that outlives scenes: all level records, the level
   being played (counted from 1), and what the summary screen is to show.
   */
  datatype PlayerData = PlayerData(levels: seq<LevelData>, currentLevel: int, gameOver: bool, currentScore: int)

  /** What one countdown tick does to the countdown label. */
  datatype Cue = Finished | Show(text: string) | NoChange

  /** The game world's state. `countDownText` is None while the label still shows the scene's own text. */
  datatype World = World(
    board: Board,
    time: real,
    infiniteTime: bool,
    inCountdown: bool,
    countDownTime: real,
    countDownText: Option<string>,
    countDownShown: bool,
    timerActive: bool,
    ended: bool,
    data: PlayerData,
    file: ProgressFile)

  /** One frame's player input: a key press, a finished swipe with its displacement, or nothing. */
  datatype Input = Key(dir: Direction) | Swipe(dx: real, dy: real) | NoInput

  predicate LevelIndexed(d: PlayerData) {
    1 <= d.currentLevel <= |d.levels|
  }

  /** The record of the level being played. */
  function Record(d: PlayerData): LevelData
    requires LevelIndexed(d)
  {
    d.levels[d.currentLevel - 1]
  }

  /** The invariant of a running session: the board keeps its dot balance and the level has a record. */
  predicate Valid(w: World) {
    Balanced(w.board) && LevelIndexed(w.data)
  }

  /**
   Level start: the game-over flag is cleared, score and dot counter start at
   zero, the level file is loaded with the pieces the record already holds, the
   countdown starts at four seconds and the timer is switched on.
   */
  function Begin(c: Container, data: PlayerData, file: ProgressFile, infiniteTime: bool): (w: World)
    requires LevelIndexed(data)
    ensures Valid(w)
    ensures w.board.dotCollected == 0 && w.board.score == 0
    ensures w.board.maxDotCount == DotEntries(c.tiles)
    ensures w.time > 0.0 && w.inCountdown && w.timerActive && !w.ended
    ensures w.data == data.(gameOver := false) && w.file == file
    ensures DistinctPositions(c.tiles) ==> DotTotal(w.board) == w.board.maxDotCount
    ensures NoPieceAt(w.board.grid, Record(w.data).collectedPieces)
    ensures var l := Load(c, Record(data).collectedPieces);
            w.board.grid == l.grid && w.board.player == l.player && w.time == l.time
    ensures w.countDownTime == COUNTDOWN_SECONDS && w.countDownShown && w.countDownText == None
    ensures w.infiniteTime == infiniteTime
  {
    var collected := Record(data).collectedPieces;
    Start(Load(c, collected), data, file, infiniteTime)
  }

  /** The session state right after loading `l` for the level record of `data`. */
  function Start(l: Loaded, data: PlayerData, file: ProgressFile, infiniteTime: bool): (w: World)
    requires LevelIndexed(data) && IsGrid(l.grid) && InBounds(l.grid, l.player)
    requires CountCells(l.grid, DOT) <= l.maxDotCount
    ensures Valid(w) && w.board.grid == l.grid && w.board.player == l.player
    ensures w.board.maxDotCount == l.maxDotCount && w.time == l.time
    ensures w.countDownTime == COUNTDOWN_SECONDS && w.countDownShown && w.countDownText == None
    ensures w.infiniteTime == infiniteTime
    ensures w.board.dotCollected == 0 && w.board.score == 0
    ensures w.inCountdown && w.timerActive && !w.ended
    ensures w.data == data.(gameOver := false) && w.file == file
    ensures Record(w.data) == Record(data)
    ensures NoPieceAt(l.grid, Record(data).collectedPieces) ==> NoPieceAt(w.board.grid, Record(w.data).collectedPieces)
    ensures CountCells(l.grid, DOT) == l.maxDotCount ==> DotTotal(w.board) == w.board.maxDotCount
  {
    World(Board(l.grid, l.player, 0, l.maxDotCount, 0),
          l.time, infiniteTime, true, COUNTDOWN_SECONDS, None, true, true, false, data.(gameOver := false), file)
  }

  /**
   Game over: a score above the level's best becomes the new best and the whole
   progress list is written out; the summary is told the level ended with this
   score, and the session ends.
   */
  function GameOver(w: World): (r: World)
    requires LevelIndexed(w.data)
    ensures LevelIndexed(r.data) && r.data.currentLevel == w.data.currentLevel && |r.data.levels| == |w.data.levels|
    ensures Record(r.data).highScore == if w.board.score > Record(w.data).highScore then w.board.score else Record(w.data).highScore
    ensures Record(r.data).pieceCount == Record(w.data).pieceCount
    ensures Record(r.data).collectedPieces == Record(w.data).collectedPieces
    ensures forall i :: 0 <= i < |w.data.levels| && i != w.data.currentLevel - 1 ==> r.data.levels[i] == w.data.levels[i]
    ensures r.data.gameOver && r.data.currentScore == w.board.score && r.ended
    ensures r.file == if w.board.score > Record(w.data).highScore then Stored(r.data.levels) else w.file
    ensures r.(data := w.data, file := w.file, ended := w.ended) == w
  {
    var rec := Record(w.data);
    var s := w.board.score;
    if s > rec.highScore then
      var levels := w.data.levels[w.data.currentLevel - 1 := rec.(highScore := s)];
      w.(data := w.data.(levels := levels, gameOver := true, currentScore := s), file := SaveProgress(levels), ended := true)
    else
      w.(data := w.data.(gameOver := true, currentScore := s), ended := true)
  }

  /** The best score never goes down, and after game over it is at least the final score. */
  lemma GameOverKeepsBest(w: World)
    requires LevelIndexed(w.data)
    ensures Record(GameOver(w).data).highScore >= Record(w.data).highScore
    ensures Record(GameOver(w).data).highScore >= GameOver(w).data.currentScore
  {
  }

  /**
   Back in the menu the records are reloaded from the progress file. After a
   game over that beats the best, the file holds the records exactly as the
   game left them, pieces included. Otherwise the file was not written, so a
   stored file brings back the records from before the play: the pieces and
   piece count that play gained are dropped.
   */
  lemma ReloadAfterGameOver(w: World)
    requires LevelIndexed(w.data)
    ensures var g := GameOver(w);
            var reloaded := LoadProgress(g.data.levels, g.file).0;
            && (w.board.score > Record(w.data).highScore ==> reloaded == g.data.levels)
            && (w.file.Stored? && w.board.score <= Record(w.data).highScore ==> reloaded == w.file.records)
  {
  }

  /**
   A slide in direction `d`: the destination is resolved; when it is the
   player's own cell nothing happens. Otherwise the player eats along the path,
   moves to the destination, and the level-clear check runs once at the end.
   */
  function Move(w: World, d: Direction): (r: World)
    requires Valid(w)
    ensures Valid(r)
    ensures DotTotal(r.board) == DotTotal(w.board)
    ensures r.board.player == Destination(w.board.grid, w.board.player, d)
    ensures r.data.currentLevel == w.data.currentLevel && |r.data.levels| == |w.data.levels|
    ensures r.board.maxDotCount == w.board.maxDotCount
    ensures r.(board := w.board, data := w.data, file := w.file, ended := w.ended) == w
  {
    var b := w.board;
    var q := Destination(b.grid, b.player, d);
    DestinationSound(b.grid, b.player, d);
    if q == b.player then w
    else
      var path := Path(b.player, q);
      PathInBounds(b.grid, b.player, q);
      AfterSlide(w, q, EatPath(b, Record(w.data), path))
  }

  /**
   The end of a slide that went somewhere: the player stands on `q`, the
   eaten board and record are kept, and the level-clear check ends the session
   through game over when every dot is eaten and the record holds three pieces.
   */
  function AfterSlide(w: World, q: Pos, eaten: (Board, LevelData)): (r: World)
    requires LevelIndexed(w.data) && Balanced(eaten.0) && InBounds(eaten.0.grid, q)
    ensures r.board == eaten.0.(player := q)
    ensures r.(board := w.board, data := w.data, file := w.file, ended := w.ended) == w
    ensures LevelIndexed(r.data) && r.data.currentLevel == w.data.currentLevel && |r.data.levels| == |w.data.levels|
    ensures Record(r.data).pieceCount == eaten.1.pieceCount && Record(r.data).collectedPieces == eaten.1.collectedPieces
    ensures forall i :: 0 <= i < |w.data.levels| && i != w.data.currentLevel - 1 ==> r.data.levels[i] == w.data.levels[i]
    ensures r.ended <==> w.ended || Cleared(eaten.0, eaten.1)
    ensures Cleared(eaten.0, eaten.1) ==>
              && Record(r.data).highScore == (if eaten.0.score > eaten.1.highScore then eaten.0.score else eaten.1.highScore)
              && r.data.gameOver && r.data.currentScore == eaten.0.score
              && r.file == (if eaten.0.score > eaten.1.highScore then Stored(r.data.levels) else w.file)
    ensures !Cleared(eaten.0, eaten.1) ==>
              && Record(r.data) == eaten.1
              && r.data.gameOver == w.data.gameOver && r.data.currentScore == w.data.currentScore
              && r.file == w.file
  {
    var moved := w.(board := eaten.0.(player := q), data := WithRecord(w.data, eaten.1));
    if Cleared(eaten.0, eaten.1) then GameOver(moved) else moved
  }

  /** The player data with the record of the level being played replaced by `rec`; every other record and field is kept. */
  function WithRecord(d: PlayerData, rec: LevelData): (r: PlayerData)
    requires LevelIndexed(d)
    ensures LevelIndexed(r) && Record(r) == rec && |r.levels| == |d.levels|
    ensures forall i :: 0 <= i < |d.levels| && i != d.currentLevel - 1 ==> r.levels[i] == d.levels[i]
    ensures r.(levels := d.levels) == d
  {
    d.(levels := d.levels[d.currentLevel - 1 := rec])
  }

  /** A slide whose neighbouring cell is off the grid or empty changes nothing at all. */
  lemma MoveBlocked(w: World, d: Direction)
    requires Valid(w) && !Open(w.board.grid, Step(w.board.player, d))
    ensures Move(w, d) == w
  {
    DestinationStays(w.board.grid, w.board.player, d);
  }

  /**
   A slide that goes somewhere walks the cells from the old position through
   the destination: each dot or piece on them becomes floor, every other cell
   keeps its code, the dot counter and the record's piece count grow by the dots
   and pieces walked, the pieces' positions are appended in walking order, and
   the records of other levels are untouched.
   */
  lemma MoveEats(w: World, d: Direction, q: Pos)
    requires Valid(w) && Open(w.board.grid, Step(w.board.player, d)) && InBounds(w.board.grid, q)
    ensures var g := w.board.grid;
            var path := Path(w.board.player, Destination(g, w.board.player, d));
            var r := Move(w, d);
            && OnGrid(g, path)
            && Cell(r.board.grid, q) == (if q in path && (Cell(g, q) == DOT || Cell(g, q) == PIECE) then FLOOR else Cell(g, q))
            && r.board.dotCollected == w.board.dotCollected + CountOnPath(g, path, DOT)
            && Record(r.data).pieceCount == Record(w.data).pieceCount + CountOnPath(g, path, PIECE)
            && Record(r.data).collectedPieces == Record(w.data).collectedPieces + PiecesOnPath(g, path)
            && (forall i :: 0 <= i < |w.data.levels| && i != w.data.currentLevel - 1 ==> r.data.levels[i] == w.data.levels[i])
  {
    var b := w.board;
    var path := Path(b.player, Destination(b.grid, b.player, d));
    MoveIsEat(w, d);
    EatPathCells(b, Record(w.data), path, q);
    EatPathCredits(b, Record(w.data), path);
  }

  /**
   A slide that goes somewhere is eating along its path: the board after it is
   the eaten board (cells, dot counter, score) with the player on the
   destination, and the record's pieces are the eaten ones. The level-clear
   check that follows touches neither.
   */
  lemma MoveIsEat(w: World, d: Direction)
    requires Valid(w) && Open(w.board.grid, Step(w.board.player, d))
    ensures var b := w.board;
            var path := Path(b.player, Destination(b.grid, b.player, d));
            && OnGrid(b.grid, path) && NoRepeats(path)
            && var e := EatPath(b, Record(w.data), path);
               var r := Move(w, d);
               && r.board == e.0.(player := Destination(b.grid, b.player, d))
               && Record(r.data).pieceCount == e.1.pieceCount
               && Record(r.data).collectedPieces == e.1.collectedPieces
               && (forall i :: 0 <= i < |w.data.levels| && i != w.data.currentLevel - 1 ==> r.data.levels[i] == w.data.levels[i])
  {
    var b := w.board;
    var q := Destination(b.grid, b.player, d);
    DestinationSound(b.grid, b.player, d);
    DestinationStays(b.grid, b.player, d);
    PathInBounds(b.grid, b.player, q);
    PathShape(b.player, q);
  }

  /**
   The level-clear check: a slide that goes somewhere ends the session exactly
   when, after eating, every dot is eaten and the level's record holds at least
   three pieces; a session already ended stays ended. A clear runs game over:
   the best score becomes the larger of the old best and the final score, the
   progress list is written only when the best is beaten, and the summary is
   told the final score.
   */
  lemma MoveClears(w: World, d: Direction)
    requires Valid(w) && Open(w.board.grid, Step(w.board.player, d))
    ensures Move(w, d).ended <==> w.ended || (Move(w, d).board.dotCollected >= w.board.maxDotCount && Record(Move(w, d).data).pieceCount >= PIECES_PER_LEVEL)
    ensures var r := Move(w, d);
            var best := Record(w.data).highScore;
            r.board.dotCollected >= w.board.maxDotCount && Record(r.data).pieceCount >= PIECES_PER_LEVEL ==>
              && Record(r.data).highScore == (if r.board.score > best then r.board.score else best)
              && r.data.gameOver && r.data.currentScore == r.board.score
              && r.file == (if r.board.score > best then Stored(r.data.levels) else w.file)
  {
    var b := w.board;
    var q := Destination(b.grid, b.player, d);
    DestinationSound(b.grid, b.player, d);
    DestinationStays(b.grid, b.player, d);
    var path := Path(b.player, q);
    PathInBounds(b.grid, b.player, q);
    PathShape(b.player, q);
    EatPathPieces(b, Record(w.data), path);
  }

  /**
   Every slide keeps the level record's piece list a set (no position twice,
   none still holding a piece on the board), and grows the piece count by exactly
   as many entries as it appends: a piece is never credited twice.
   */
  lemma MoveKeepsPiecesAsSet(w: World, d: Direction)
    requires Valid(w) && PieceListAsSet(w.board.grid, Record(w.data).collectedPieces)
    ensures PieceListAsSet(Move(w, d).board.grid, Record(Move(w, d).data).collectedPieces)
    ensures Record(Move(w, d).data).pieceCount - |Record(Move(w, d).data).collectedPieces|
            == Record(w.data).pieceCount - |Record(w.data).collectedPieces|
  {
    var b := w.board;
    var q := Destination(b.grid, b.player, d);
    DestinationSound(b.grid, b.player, d);
    if q != b.player {
      var path := Path(b.player, q);
      PathInBounds(b.grid, b.player, q);
      EatPathKeepsPieceList(b, Record(w.data), path);
    }
  }

  /** Sliding twice in the same direction: the second slide changes nothing. */
  lemma MoveTwice(w: World, d: Direction)
    requires Valid(w)
    ensures Move(Move(w, d), d) == Move(w, d)
  {
    var r := Move(w, d);
    DestinationStable(w.board.grid, w.board.player, d);
    DestinationSound(w.board.grid, w.board.player, d);
    DestinationStays(r.board.grid, r.board.player, d);
    var q := r.board.player;
    var next := Step(q, d);
    if InBounds(w.board.grid, next) {
      if q != w.board.player {
        var path := Path(w.board.player, q);
        PathInBounds(w.board.grid, w.board.player, q);
        EatPathCells(w.board, Record(w.data), path, next);
      }
    }
    MoveBlocked(r, d);
  }

  /** A swipe picks the axis of larger movement, a tie counting as horizontal; a non-negative displacement means right or up. */
  function SwipeDirection(dx: real, dy: real): (d: Direction)
    ensures (d == Left || d == Right) <==> RealAbs(dx) >= RealAbs(dy)
    ensures d == Right ==> dx >= 0.0
    ensures d == Left ==> dx < 0.0
    ensures d == Up ==> dy >= 0.0
    ensures d == Down ==> dy < 0.0
  {
    if RealAbs(dx) >= RealAbs(dy) then
      if dx >= 0.0 then Right else Left
    else
      if dy >= 0.0 then Up else Down
  }

  function RealAbs(v: real): real {
    if v < 0.0 then -v else v
  }

  /** The unit displacement of each direction. */
  function Unit(d: Direction): (real, real) {
    match d
    case Up => (0.0, 1.0)
    case Down => (0.0, -1.0)
    case Left => (-1.0, 0.0)
    case Right => (1.0, 0.0)
  }

  /** A swipe along a direction, of any positive length, is read back as that direction. */
  lemma SwipeAlongDirection(d: Direction, len: real)
    requires len > 0.0
    ensures SwipeDirection(len * Unit(d).0, len * Unit(d).1) == d
  {
  }

  /** Ties between the axes go to the horizontal one. */
  lemma SwipeTieIsHorizontal(dx: real, dy: real)
    requires RealAbs(dx) == RealAbs(dy)
    ensures SwipeDirection(dx, dy) == Left || SwipeDirection(dx, dy) == Right
  {
  }

  /** Which direction, if any, one frame's input asks for: key presses wait for a running move, swipes do not. */
  function Dispatch(input: Input, isMoving: bool): (r: Option<Direction>)
    ensures input.Key? ==> (r.Some? <==> !isMoving) && (r.Some? ==> r.value == input.dir)
    ensures input.Swipe? ==> r == Some(SwipeDirection(input.dx, input.dy))
    ensures input.NoInput? ==> r.None?
  {
    match input
    case Key(d) => if isMoving then None else Some(d)
    case Swipe(dx, dy) => Some(SwipeDirection(dx, dy))
    case NoInput => None
  }

  /** One frame of input handling: ignored during the countdown and after the session ended; otherwise a dispatched direction slides the player. */
  function HandleInput(w: World, input: Input, isMoving: bool): (r: World)
    requires Valid(w)
    ensures Valid(r)
    ensures w.inCountdown || w.ended || Dispatch(input, isMoving).None? ==> r == w
    ensures !w.inCountdown && !w.ended && Dispatch(input, isMoving).Some? ==>
              && r == Move(w, Dispatch(input, isMoving).value)
              && r.board.player == Destination(w.board.grid, w.board.player, Dispatch(input, isMoving).value)
    ensures DotTotal(r.board) == DotTotal(w.board)
  {
    if w.inCountdown || w.ended then w
    else
      match Dispatch(input, isMoving)
      case Some(d) => Move(w, d)
      case None => w
  }

  /**
   The countdown label for `remaining` seconds: nothing new above four seconds,
   "3", "2", "1" and "GO!" on the way down, and the end at zero or below.
   */
  function CountdownCue(remaining: real): (c: Cue)
    ensures c == Finished <==> remaining <= 0.0
    ensures c == NoChange <==> remaining > 4.0
    ensures c == Show("3") <==> 3.0 < remaining <= 4.0
    ensures c == Show("2") <==> 2.0 < remaining <= 3.0
    ensures c == Show("1") <==> 1.0 < remaining <= 2.0
    ensures c == Show("GO!") <==> 0.0 < remaining <= 1.0
  {
    if remaining <= 0.0 then Finished
    else if remaining <= 1.0 then Show("GO!")
    else if remaining <= 2.0 then Show("1")
    else if remaining <= 3.0 then Show("2")
    else if remaining <= 4.0 then Show("3")
    else NoChange
  }

  /** How far along the countdown a cue is. */
  function CueRank(c: Cue): int {
    match c
    case NoChange => 0
    case Show(t) => if t == "3" then 1 else if t == "2" then 2 else if t == "1" then 3 else 4
    case Finished => 5
  }

  /** As the remaining time falls the cues only move forward: 3, 2, 1, GO!, end. */
  lemma CountdownMovesForward(t1: real, t2: real)
    requires t2 <= t1
    ensures CueRank(CountdownCue(t1)) <= CueRank(CountdownCue(t2))
  {
  }

  /** One countdown tick of `dt` seconds: the label follows the cue, and at zero the countdown hides and play begins. */
  function CountdownTick(w: World, dt: real): (r: World)
    ensures !w.inCountdown ==> r == w
    ensures w.inCountdown ==> r.countDownTime == w.countDownTime - dt
    ensures w.inCountdown ==> (r.inCountdown <==> r.countDownTime > 0.0)
    ensures w.inCountdown && !r.inCountdown ==> !r.countDownShown
    ensures w.inCountdown && CountdownCue(w.countDownTime - dt).Show? ==>
              r.countDownText == Some(CountdownCue(w.countDownTime - dt).text)
    ensures !(w.inCountdown && CountdownCue(w.countDownTime - dt).Show?) ==> r.countDownText == w.countDownText
    ensures w.inCountdown && r.inCountdown ==> r.countDownShown == w.countDownShown
    ensures r.(countDownTime := w.countDownTime, countDownText := w.countDownText,
               countDownShown := w.countDownShown, inCountdown := w.inCountdown) == w
    ensures r.board == w.board && r.data == w.data && r.time == w.time && r.ended == w.ended
  {
    if !w.inCountdown then w
    else
      var left := w.countDownTime - dt;
      match CountdownCue(left)
      case Finished => w.(countDownTime := left, countDownShown := false, inCountdown := false)
      case Show(text) => w.(countDownTime := left, countDownText := Some(text))
      case NoChange => w.(countDownTime := left)
  }

  /**
   One timer tick of `dt` seconds: time runs only outside the countdown and
   without infinite time; at zero or below the timer stops and the game is over.
   */
  function TimerTick(w: World, dt: real): (r: World)
    requires LevelIndexed(w.data)
    ensures !w.timerActive || w.ended ==> r == w
    ensures w.timerActive && !w.ended ==>
              && r.time == (if !w.infiniteTime && !w.inCountdown then w.time - dt else w.time)
              && (r.ended <==> r.time <= 0.0)
              && (r.timerActive <==> r.time > 0.0)
    ensures w.timerActive && !w.ended && r.time <= 0.0 ==> r.data == GameOver(w).data && r.file == GameOver(w).file
    ensures r.time > 0.0 ==> r.data == w.data && r.file == w.file
    ensures r.(time := w.time, timerActive := w.timerActive, ended := w.ended, data := w.data, file := w.file) == w
    ensures r.board == w.board
  {
    if !w.timerActive || w.ended then w
    else
      var t := if !w.infiniteTime && !w.inCountdown then w.time - dt else w.time;
      if t <= 0.0 then GameOver(w.(time := t, timerActive := false))
      else w.(time := t)
  }

  /** With infinite time the clock never moves, so the timer alone never ends a session that started with time left. */
  lemma InfiniteTimeNeverExpires(w: World, dt: real)
    requires LevelIndexed(w.data) && w.infiniteTime && w.time > 0.0 && w.timerActive && !w.ended
    ensures TimerTick(w, dt) == w
  {
  }
}

/**
 The menu scene: the level-select labels showing each level's best score and
 pieces, and the summary page shown after a game, with its star rating.
 */
module Menu {
  import opened Optional
  import opened Text
  import opened Progress
  import Session

  /** The per-level labels of the level-select pages. */
  datatype LevelLabels = LevelLabels(best: seq<string>, pieces: seq<string>)

  /** The summary page after a game. */
  datatype Summary = Summary(levelText: string, scoreText: string, pieceText: string, stars: seq<bool>)

  const LEVEL_PREFIX: string := "LEVEL "
  const PIECE_SUFFIX: string := " / 3"
  const SCORE_PREFIX: string := " "
  const SCORE_SUFFIX: string := "<size=70%>%"
  const BEST_PREFIX: string := "BEST: "
  const BEST_SUFFIX: string := "%"
  const PIECE_PREFIX: string := "PIECE: "
  const PIECE_LABEL_SUFFIX: string := "/3"

  /** The three summary stars, in order: above 50, above 75, and 100 or more. */
  function StarsLit(score: int): (lit: seq<bool>)
    ensures |lit| == 3
  {
    [score > 50, score > 75, score >= 100]
  }

  function CountLit(lit: seq<bool>): nat {
    if |lit| == 0 then 0 else (if lit[0] then 1 else 0) + CountLit(lit[1..])
  }

  /** The number of stars lit for a score. */
  function StarCount(score: int): nat {
    CountLit(StarsLit(score))
  }

  /** One star per threshold passed, so between none and three. */
  lemma StarCountThresholds(score: int)
    ensures StarCount(score) == (if score > 50 then 1 else 0) + (if score > 75 then 1 else 0) + (if score >= 100 then 1 else 0)
    ensures 0 <= StarCount(score) <= 3
  {
    var lit := StarsLit(score);
    assert lit[1..] == [score > 75, score >= 100];
    assert lit[1..][1..] == [score >= 100];
    assert lit[1..][1..][1..] == [];
    assert CountLit(lit[1..][1..]) == (if score >= 100 then 1 else 0);
    assert CountLit(lit[1..]) == (if score > 75 then 1 else 0) + (if score >= 100 then 1 else 0);
  }

  /** Lit stars form a prefix: a star is lit only if every star before it is. */
  lemma StarsArePrefix(score: int, i: int, j: int)
    requires 0 <= i < j < 3 && StarsLit(score)[j]
    ensures StarsLit(score)[i]
  {
  }

  /** A higher score never lights fewer stars. */
  lemma StarsMonotone(s1: int, s2: int)
    requires s1 <= s2
    ensures StarCount(s1) <= StarCount(s2)
  {
    StarCountThresholds(s1);
    StarCountThresholds(s2);
  }

  /** The rating at the edges of each threshold. */
  lemma StarBoundaries()
    ensures StarCount(50) == 0 && StarCount(51) == 1
    ensures StarCount(75) == 1 && StarCount(76) == 2
    ensures StarCount(99) == 2 && StarCount(100) == 3
  {
    StarCountThresholds(50);
    StarCountThresholds(51);
    StarCountThresholds(75);
    StarCountThresholds(76);
    StarCountThresholds(99);
    StarCountThresholds(100);
  }

  /** The summary for `level` (counted from 1) and the final score: the level name, the score, that level's pieces and the stars. */
  function AfterGameSummary(level: int, score: int, levels: seq<LevelData>): (s: Summary)
    requires 1 <= level <= |levels|
    ensures s.stars == StarsLit(score)
  {
    Summary(LEVEL_PREFIX + IntToString(level),
            SCORE_PREFIX + IntToString(score) + SCORE_SUFFIX,
            IntToString(levels[level - 1].pieceCount) + PIECE_SUFFIX,
            StarsLit(score))
  }

  /** Reading the summary back: its texts carry the level number, the score and the piece count of record `level - 1`. */
  lemma SummaryReadsBack(level: int, score: int, levels: seq<LevelData>)
    requires 1 <= level <= |levels|
    ensures var s := AfterGameSummary(level, score, levels);
            && s.levelText[..|LEVEL_PREFIX|] == LEVEL_PREFIX
            && ParseInt(s.levelText[|LEVEL_PREFIX|..]) == Some(level)
            && s.scoreText[..|SCORE_PREFIX|] == SCORE_PREFIX
            && s.scoreText[|s.scoreText| - |SCORE_SUFFIX|..] == SCORE_SUFFIX
            && ParseInt(s.scoreText[|SCORE_PREFIX|..|s.scoreText| - |SCORE_SUFFIX|]) == Some(score)
            && s.pieceText[|s.pieceText| - |PIECE_SUFFIX|..] == PIECE_SUFFIX
            && ParseInt(s.pieceText[..|s.pieceText| - |PIECE_SUFFIX|]) == Some(levels[level - 1].pieceCount)
  {
    var s := AfterGameSummary(level, score, levels);
    assert s.levelText[|LEVEL_PREFIX|..] == IntToString(level);
    assert s.scoreText[|SCORE_PREFIX|..|s.scoreText| - |SCORE_SUFFIX|] == IntToString(score);
    assert s.pieceText[..|s.pieceText| - |PIECE_SUFFIX|] == IntToString(levels[level - 1].pieceCount);
    IntRoundTrip(level);
    IntRoundTrip(score);
    IntRoundTrip(levels[level - 1].pieceCount);
  }

  function BestLabel(best: int): string {
    BEST_PREFIX + IntToString(best) + BEST_SUFFIX
  }

  function PieceLabel(piece: int): string {
    PIECE_PREFIX + IntToString(piece) + PIECE_LABEL_SUFFIX
  }

  /** Rewrites the two labels of one level slot (counted from 0); every other slot keeps its text. */
  function UpdateUI(labels: LevelLabels, level: int, best: int, piece: int): (r: LevelLabels)
    requires 0 <= level < |labels.best| && 0 <= level < |labels.pieces|
    ensures |r.best| == |labels.best| && |r.pieces| == |labels.pieces|
    ensures r.best[level] == BestLabel(best) && r.pieces[level] == PieceLabel(piece)
    ensures forall i :: 0 <= i < |labels.best| && i != level ==> r.best[i] == labels.best[i]
    ensures forall i :: 0 <= i < |labels.pieces| && i != level ==> r.pieces[i] == labels.pieces[i]
  {
    LevelLabels(labels.best[level := BestLabel(best)], labels.pieces[level := PieceLabel(piece)])
  }

  /** A best label reads back as its score and a piece label as its piece count. */
  lemma LabelsReadBack(best: int, piece: int)
    ensures var b := BestLabel(best);
            && b[..|BEST_PREFIX|] == BEST_PREFIX && b[|b| - 1] == '%'
            && ParseInt(b[|BEST_PREFIX|..|b| - 1]) == Some(best)
    ensures var p := PieceLabel(piece);
            && p[..|PIECE_PREFIX|] == PIECE_PREFIX && p[|p| - 2..] == PIECE_LABEL_SUFFIX
            && ParseInt(p[|PIECE_PREFIX|..|p| - 2]) == Some(piece)
  {
    var b := BestLabel(best);
    var p := PieceLabel(piece);
    assert b[|BEST_PREFIX|..|b| - 1] == IntToString(best);
    assert p[|PIECE_PREFIX|..|p| - 2] == IntToString(piece);
    IntRoundTrip(best);
    IntRoundTrip(piece);
  }

  /**
   The loader's last step: the labels of the first `LEVEL_COUNT` slots are
   rewritten from the records, one slot at a time; later slots keep their text.
   */
  method RefreshLevelMenu(levels: seq<LevelData>, labels: LevelLabels) returns (r: LevelLabels)
    requires |levels| >= LEVEL_COUNT && |labels.best| >= LEVEL_COUNT && |labels.pieces| >= LEVEL_COUNT
    ensures |r.best| == |labels.best| && |r.pieces| == |labels.pieces|
    ensures forall i :: 0 <= i < LEVEL_COUNT ==>
              r.best[i] == BestLabel(levels[i].highScore) && r.pieces[i] == PieceLabel(levels[i].pieceCount)
    ensures forall i :: LEVEL_COUNT <= i < |labels.best| ==> r.best[i] == labels.best[i]
    ensures forall i :: LEVEL_COUNT <= i < |labels.pieces| ==> r.pieces[i] == labels.pieces[i]
  {
    r := labels;
    var i := 0;
    while i < LEVEL_COUNT
      invariant 0 <= i <= LEVEL_COUNT
      invariant |r.best| == |labels.best| && |r.pieces| == |labels.pieces|
      invariant forall k :: 0 <= k < i ==>
                  r.best[k] == BestLabel(levels[k].highScore) && r.pieces[k] == PieceLabel(levels[k].pieceCount)
      invariant forall k :: i <= k < |labels.best| ==> r.best[k] == labels.best[k]
      invariant forall k :: i <= k < |labels.pieces| ==> r.pieces[k] == labels.pieces[k]
    {
      r := UpdateUI(r, i, levels[i].highScore, levels[i].pieceCount);
      i := i + 1;
    }
  }

  /**
   From game over to summary: the summary shows the level just played, its
   final score, the pieces its record now holds, and one star per threshold
   the final score passed.
   */
  lemma SummaryAfterGameOver(w: Session.World)
    requires Session.LevelIndexed(w.data)
    ensures var d := Session.GameOver(w).data;
            var s := AfterGameSummary(d.currentLevel, d.currentScore, d.levels);
            && s == AfterGameSummary(w.data.currentLevel, w.board.score, d.levels)
            && ParseInt(s.pieceText[..|s.pieceText| - |PIECE_SUFFIX|]) == Some(Session.Record(w.data).pieceCount)
            && CountLit(s.stars) == StarCount(w.board.score)
  {
    var d := Session.GameOver(w).data;
    SummaryReadsBack(d.currentLevel, d.currentScore, d.levels);
  }
}

/**
 The player's saved progress: one record per level holding the best score,
 the number of pieces collected so far and the positions of those pieces.
 Loading reads the progress file; on a fresh install it creates zeroed records
 for every level and writes them out at once.
 */
module Progress {
  import opened Grid

  /** Number of levels the game ships with. */
  const LEVEL_COUNT: nat := 15

  /** Pieces a level holds; collecting this many (over any number of plays) is part of clearing it. */
  const PIECES_PER_LEVEL: int := 3

  /**
   One level's record. `pieceCount` grows by one per piece picked up and
   `collectedPieces` is a list that each picked-up piece is appended to.
   */
  datatype LevelData = LevelData(highScore: int, pieceCount: int, collectedPieces: seq<Pos>)

  /** The progress file as the loader finds it: absent, present but yielding no text, or holding records. */
  datatype ProgressFile = Missing | Unreadable | Stored(records: seq<LevelData>)

  /** The record a level starts with on a fresh install. */
  const FRESH_RECORD: LevelData := LevelData(0, 0, [])

  /** The loader's default branch: `count` fresh records appended one by one after the existing ones. */
  method AddDefaultRecords(levels: seq<LevelData>, count: nat) returns (r: seq<LevelData>)
    ensures |r| == |levels| + count
    ensures r[..|levels|] == levels
    ensures forall i :: |levels| <= i < |r| ==> r[i] == FRESH_RECORD
  {
    r := levels;
    var i := 0;
    while i < count
      invariant 0 <= i <= count
      invariant |r| == |levels| + i
      invariant r[..|levels|] == levels
      invariant forall k :: |levels| <= k < |r| ==> r[k] == FRESH_RECORD
    {
      r := r + [FRESH_RECORD];
      i := i + 1;
    }
  }

  /** The records the default branch produces: the existing ones followed by `LEVEL_COUNT` fresh ones. */
  function WithDefaults(levels: seq<LevelData>): seq<LevelData> {
    levels + seq(LEVEL_COUNT, _ => FRESH_RECORD)
  }

  /**
   Loads progress into the in-memory list `levels` and returns it with the file
   as it stands afterwards. A stored file replaces the list wholesale; a missing
   file makes the loader append fresh records and write the result out; a file
   that yields no text changes nothing.
   */
  function LoadProgress(levels: seq<LevelData>, file: ProgressFile): (r: (seq<LevelData>, ProgressFile))
    ensures file.Stored? ==> r == (file.records, file)
    ensures file.Unreadable? ==> r == (levels, file)
    ensures file.Missing? ==>
              && |r.0| == |levels| + LEVEL_COUNT
              && r.0[..|levels|] == levels
              && (forall i :: |levels| <= i < |r.0| ==> r.0[i] == FRESH_RECORD)
              && r.1 == Stored(r.0)
  {
    match file
    case Stored(records) => (records, file)
    case Unreadable => (levels, file)
    case Missing =>
      var all := WithDefaults(levels);
      (all, Stored(all))
  }

  /** Writing progress replaces the whole file with the current records. */
  function SaveProgress(levels: seq<LevelData>): ProgressFile {
    Stored(levels)
  }

  /** Loading a second time, from the file the first load left, yields the same records and file. */
  lemma LoadTwiceSame(levels: seq<LevelData>, file: ProgressFile)
    ensures var once := LoadProgress(levels, file);
            LoadProgress(once.0, once.1) == once
  {
  }

  /** Saving then loading gives back exactly the records saved, whatever was in memory. */
  lemma SaveThenLoad(saved: seq<LevelData>, inMemory: seq<LevelData>)
    ensures LoadProgress(inMemory, SaveProgress(saved)).0 == saved
  {
  }

  /** A fresh install with no records in memory ends with fifteen zeroed records, all written out. */
  lemma FreshInstall()
    ensures var r := LoadProgress([], Missing);
            && |r.0| == 15
            && (forall i :: 0 <= i < 15 ==> r.0[i].highScore == 0 && r.0[i].pieceCount == 0 && r.0[i].collectedPieces == [])
            && r.1 == Stored(r.0)
  {
  }
}

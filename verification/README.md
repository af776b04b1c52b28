# Orb-Rush game core in Dafny

Orb-Rush is a Unity puzzle game. A level is a grid of cells: empty cells, floor, dots (orbs), puzzle pieces and the player's start cell. The player slides in one of four directions until the next cell is empty or off the grid. The slide eats every dot and piece on the cells it crosses. Dots raise the score, a percentage of the level's dots. Pieces are credited to the level's persistent record. The level ends when the timer runs out, or when every dot is eaten and the record holds three pieces. The best score and the collected pieces are kept per level, and the menu shows them, together with a star rating after each game.

This project models that logic as pure functions over immutable data:

- `grid.dfy`: module `Grid` holds the grid (`map[x][y]`), the cell codes (0 empty, 1 floor, 2 dot, 3 piece, -1 start), the directions and cell counting. Module `Optional` holds `Option`.
- `codec.dfy`: module `LevelCodec` covers level loading. It finds the tile list's bounding box, shifts the tiles into the grid and maps tile names to codes. Then the post-load pass turns pieces the record already holds into floor and places the player.
- `slide.dfy`: module `Slide` resolves a slide's destination.
- `scoring.dfy`: module `Scoring` covers eating along the walked path, the dot counter, the score and the piece record.
- `progress.dfy`: module `Progress` holds the per-level records, the default records of a fresh install, and loading and saving the progress file.
- `session.dfy`: module `Session` models one play of a level: start, input dispatch (keys and swipes), moves, the countdown, the timer and game over.
- `text.dfy`: module `Text` covers the decimal text of integers, as C# string concatenation writes it, and parsing that text back.
- `menu.dfy`: module `Menu` covers the level-select labels and the after-game summary with its stars.

Each coroutine of the game world is collapsed into one atomic step: the countdown tick, the timer tick, and move-and-eat. The frame time `dt`, the input of a frame, the `isMoving` flag of the move animation, the contents of a level file and the state of the progress file are all parameters.

## Model

| member | source | states |
|---|---|---|
| LevelCodec.NameTableRoundTrip | Assets/_Scripts/GameWorld.cs:609-626 | The five known tile names and the five cell codes correspond one to one, in both directions |
| LevelCodec.EmptyLevelSide | Assets/_Scripts/GameWorld.cs:582-602 | With no tiles the box keeps its sentinels, and `largerX - smallerX + 1` computed in 32 bits is 2. `Decode` builds the empty level with this wrapped side |
| LevelCodec.BoundingBoxTight | Assets/_Scripts/GameWorld.cs:582-600 | The box holds every tile, and each of its four edges touches some tile |
| LevelCodec.BlankFor | Assets/_Scripts/GameWorld.cs:602 | The fresh grid is (maxX-minX+1) by (maxY-minY+1), every cell is empty, and every position in the box lands inside it after shifting |
| LevelCodec.StartOfIsLast | Assets/_Scripts/GameWorld.cs:622-625 | The decoder's player location is the shifted position of the last start tile in list order; it is None exactly when no tile is a start tile |
| LevelCodec.Decode | Assets/_Scripts/GameWorld.cs:567-628 | Play time of 0 or less becomes 15. maxDotCount is the number of dot tiles. The grid spans the bounding box and every tile fits in it. No tiles gives a 2x2 grid of empty cells with no start tile |
| LevelCodec.BuildLastWins | Assets/_Scripts/GameWorld.cs:605-627 | A tile with a known name decides its cell unless a later known-name tile lands on the same cell |
| LevelCodec.BuildUntouched | Assets/_Scripts/GameWorld.cs:605-627 | A cell that no known-name tile lands on keeps its previous value; an unknown name writes nothing |
| LevelCodec.DecodePlacesTiles | Assets/_Scripts/GameWorld.cs:605-627 | With distinct tile positions, each tile's cell holds its name's code, or empty for an unknown name |
| LevelCodec.DecodeUntouchedEmpty | Assets/_Scripts/GameWorld.cs:602-627 | A cell that no tile lands on decodes as empty |
| LevelCodec.DecodeDotCount | Assets/_Scripts/GameWorld.cs:580-618 | Decoded dot cells are at most maxDotCount, and equal to it when tile positions are distinct |
| LevelCodec.LastStart | Assets/_Scripts/GameWorld.cs:224-231 | Finds the start cell that comes last in the column-major scan, or None when the scanned columns have no start cell |
| LevelCodec.DrawMap | Assets/_Scripts/GameWorld.cs:223-261 | The loop turns owned pieces into floor and leaves every other cell, start cells included, unchanged. The player ends on the last start cell scanned, or stays put when there is none. The result equals the functional definitions `Restored` and `LastStart` |
| LevelCodec.DrawColumn | Assets/_Scripts/GameWorld.cs:225-258 | One column of the scan: owned pieces become floor and every other cell is kept. It reports the last start cell of the column, or none |
| LevelCodec.RestoredClears | Assets/_Scripts/GameWorld.cs:241-258 | After the post-load pass, no position in the record's piece list holds a piece |
| LevelCodec.Place | Assets/_Scripts/GameWorld.cs:223-261 | The post-load pass keeps the grid shape. An owned piece becomes floor and every other cell keeps its code, so the dot count is kept and no owned piece remains. The player takes the last start cell of the column-major scan, else the decoder's start tile, else the origin |
| LevelCodec.Load | Assets/_Scripts/GameWorld.cs:124-132 | A loaded level has a positive time and the player inside the grid. maxDotCount is the number of dot tiles. No owned piece is on the board. Dot cells are at most maxDotCount, and exactly that many when tile positions are distinct |
| LevelCodec.LoadPlayerOnStart | Assets/_Scripts/GameWorld.cs:224-231 | If the loaded grid has any start cell, the player stands on one, and it is the last in scan order |
| Slide.Distance | Assets/_Scripts/GameWorld.cs:313-363 | The counter stays within the room to the edge. The cells 1..counter away are non-empty, and the cell counter+1 away is off the grid or empty |
| Slide.FindDestination | Assets/_Scripts/GameWorld.cs:309-365 | The counting loop with its break computes the destination `Destination` defines |
| Slide.DestinationSound | Assets/_Scripts/GameWorld.cs:309-365 | The destination is on the grid and on the ray in the slide direction. Every crossed cell is non-empty, and the cell one step beyond is off the grid or empty |
| Slide.DestinationStable | Assets/_Scripts/GameWorld.cs:309-365 | Sliding again in the same direction from the destination goes nowhere |
| Slide.DestinationStays | Assets/_Scripts/GameWorld.cs:373-376 | The slide stays put exactly when the neighbouring cell is off the grid or empty |
| Scoring.ScoreBounds | Assets/_Scripts/GameWorld.cs:429 | The score is between 0 and 100, and it is 100 exactly when all dots are eaten |
| Scoring.PathShape | Assets/_Scripts/GameWorld.cs:422-494 | The eaten path runs from the old position to the new one, both included, one cell per step, with no cell repeated |
| Scoring.PathInBounds | Assets/_Scripts/GameWorld.cs:422-494 | Every path cell is on the grid when both ends are |
| Scoring.EatCell | Assets/_Scripts/GameWorld.cs:426-436 | Eating one cell keeps the dot balance, the grid shape, the player and maxDotCount, and preserves dots eaten plus dots left |
| Scoring.EatPath | Assets/_Scripts/GameWorld.cs:422-494 | Eating along a path keeps the dot balance and preserves dots eaten plus dots left |
| Scoring.PiecesOnPathFacts | Assets/_Scripts/GameWorld.cs:432-435 | The appended pieces are path cells that held a piece, one per piece counted, and none is repeated on a path without repeats |
| Scoring.EatPathCells | Assets/_Scripts/GameWorld.cs:422-494 | After eating, each path cell that held a dot or piece is floor, and every other cell keeps its code |
| Scoring.EatPathCredits | Assets/_Scripts/GameWorld.cs:422-494 | The dot counter and piece count grow by the dots and pieces walked. The walked pieces are appended in walking order. The best score is untouched |
| Scoring.EatPathScore | Assets/_Scripts/GameWorld.cs:426-430 | The score changes only when a dot is eaten, and then it is the new counter's percentage |
| Scoring.EatPathKeepsPieceList | Assets/_Scripts/GameWorld.cs:432-435 | Eating keeps the piece list a set, with no repeats and no listed position still holding a piece. The piece count moves in step with the list length |
| Scoring.EatPathNothingLeft | Assets/_Scripts/GameWorld.cs:422-494 | A path with no dot or piece leaves board and record unchanged |
| Scoring.EatPathTwice | Assets/_Scripts/GameWorld.cs:422-494 | Walking the same path again eats nothing, so nothing is counted twice |
| Progress.AddDefaultRecords | Assets/_Scripts/PlayerDataManager.cs:53-61 | The loop appends exactly `count` zeroed records after the existing ones |
| Progress.LoadProgress | Assets/_Scripts/PlayerDataManager.cs:43-64 | A stored file replaces the records, and an unreadable file changes nothing. A missing file appends 15 zeroed records and writes them out |
| Progress.LoadTwiceSame | Assets/_Scripts/PlayerDataManager.cs:43-64 | Loading again from the file the first load left changes nothing |
| Progress.SaveThenLoad | Assets/_Scripts/PlayerDataManager.cs:43-84 | Loading after a save gives back exactly the saved records |
| Progress.FreshInstall | Assets/_Scripts/PlayerDataManager.cs:53-64 | A fresh install ends with 15 zeroed records, all written to the file |
| Session.Begin | Assets/_Scripts/GameWorld.cs:61-137 | Level start plays exactly the loaded level: grid, player and play time are those of `Load` with the pieces the record holds. Counter and score are 0, the game-over flag is cleared, the countdown starts at 4 seconds with its label shown, the timer is running and the infinite-time setting is kept. The dot total equals maxDotCount with distinct tiles. No owned piece is on the board |
| Session.GameOver | Assets/_Scripts/GameWorld.cs:197-206 | The best score becomes the final score exactly when that is higher, and only then is the file written. Other records are unchanged. The final score is handed to the summary. Nothing but the player data, the file and the end flag changes |
| Session.GameOverKeepsBest | Assets/_Scripts/GameWorld.cs:197-202 | The best score never decreases, and is at least the final score |
| Session.ReloadAfterGameOver | Assets/_Scripts/PlayerDataManager.cs:43-51 | Reloading the records after game over: a beaten best brings back the records as the game left them, pieces included. Otherwise a stored file brings back the records from before the play, dropping the pieces and piece count the play gained |
| Session.Move | Assets/_Scripts/GameWorld.cs:373-383 | A move keeps the session invariant, the dot total and maxDotCount, and puts the player on the slide destination. It changes only the board, the player data, the progress file and the end flag: time, timer, countdown and infinite time are untouched |
| Session.AfterSlide | Assets/_Scripts/GameWorld.cs:496-499 | After eating, the player stands on the destination, the eaten board and pieces are kept, and other records are unchanged. The session ends exactly when all dots are eaten and the record holds 3 pieces, or it had already ended. A clear runs game over: the best becomes the larger of old best and score, gameOver and currentScore are set, and the file is written only when the best is beaten. Without a clear the record is the eaten one and the file and summary fields are untouched. Time, timer, countdown and infinite time are untouched |
| Session.MoveIsEat | Assets/_Scripts/GameWorld.cs:373-383 | A slide that goes somewhere eats along the straight, repeat-free path from the old position to the destination. The resulting board is the eaten board (cells, dot counter, score, maxDotCount) with the player on the destination, and the record's pieces are the eaten ones |
| Session.MoveBlocked | Assets/_Scripts/GameWorld.cs:373-376 | A slide into an empty or off-grid neighbour changes nothing |
| Session.MoveEats | Assets/_Scripts/GameWorld.cs:373-500 | A real slide floors the dots and pieces walked and leaves every other cell alone. It credits the counters and appends the pieces. Other levels' records are untouched |
| Session.MoveClears | Assets/_Scripts/GameWorld.cs:496-499 | After a real slide the session ends exactly when all dots are eaten and the record holds at least 3 pieces, or it had already ended. On a clear the best score becomes the larger of the old best and the final score, gameOver and currentScore are set, and the file is written only when the best is beaten |
| Session.MoveKeepsPiecesAsSet | Assets/_Scripts/GameWorld.cs:432-435 | A move keeps the piece list a set, and the piece count in step with it |
| Session.MoveTwice | Assets/_Scripts/GameWorld.cs:309-383 | Repeating a slide in the same direction changes nothing |
| Session.SwipeDirection | Assets/_Scripts/GameWorld.cs:81-97 | The horizontal axis wins when its displacement is at least the vertical one. Zero displacement counts as right or up |
| Session.SwipeAlongDirection | Assets/_Scripts/GameWorld.cs:81-97 | A swipe of any positive length along a direction is read as that direction |
| Session.SwipeTieIsHorizontal | Assets/_Scripts/GameWorld.cs:85 | Equal displacements on both axes give a horizontal move |
| Session.Dispatch | Assets/_Scripts/GameWorld.cs:73-108 | A key gives its direction only when no move is animating. A swipe always gives its direction |
| Session.HandleInput | Assets/_Scripts/GameWorld.cs:70-116 | Input is ignored during the countdown and after the end. Otherwise a dispatched direction performs exactly `Move` in that direction, so the player lands on its slide destination. The invariant and dot total are kept |
| Session.CountdownCue | Assets/_Scripts/GameWorld.cs:149-161 | For each interval of the remaining time, exactly one of end, "GO!", "1", "2", "3" or no change |
| Session.CountdownMovesForward | Assets/_Scripts/GameWorld.cs:149-161 | As the time falls, the cues only move forward |
| Session.CountdownTick | Assets/_Scripts/GameWorld.cs:142-163 | Time falls by dt. The countdown ends and its label hides exactly when the time reaches 0. The label text becomes "3", "2", "1" or "GO!" when the remaining time falls in that cue's interval and is untouched otherwise. Only the countdown time, label, label visibility and countdown flag can change |
| Session.TimerTick | Assets/_Scripts/GameWorld.cs:178-192 | Time runs only outside the countdown and without infinite time. At 0 or below the timer stops and the session ends through game over: data and file are exactly what `GameOver` leaves. While time is left, data and file are unchanged. Only time, the timer flag, the end flag, data and file can change |
| Session.InfiniteTimeNeverExpires | Assets/_Scripts/GameWorld.cs:180-182 | With infinite time the timer tick changes nothing |
| Text.IntRoundTrip | Assets/_Scripts/MenuUIManager.cs:60-61 | The decimal text of an integer reads back as that integer |
| Menu.StarCountThresholds | Assets/_Scripts/MenuUIManager.cs:96-108 | One star per threshold passed (above 50, above 75, 100 or more), so 0 to 3 stars |
| Menu.StarsArePrefix | Assets/_Scripts/MenuUIManager.cs:100-108 | A star is lit only if every star before it is lit |
| Menu.StarsMonotone | Assets/_Scripts/MenuUIManager.cs:100-108 | A higher score never lights fewer stars |
| Menu.StarBoundaries | Assets/_Scripts/MenuUIManager.cs:100-108 | Scores 50/51, 75/76 and 99/100 sit on either side of the thresholds |
| Menu.AfterGameSummary | Assets/_Scripts/MenuUIManager.cs:87-109 | The summary's stars are exactly the thresholds the score passed |
| Menu.SummaryReadsBack | Assets/_Scripts/MenuUIManager.cs:87-92 | The summary texts read back as the level number, the score and that level's piece count, with their fixed prefixes and suffixes |
| Menu.UpdateUI | Assets/_Scripts/MenuUIManager.cs:59-62 | The two labels of one slot are rewritten, and every other slot keeps its text |
| Menu.LabelsReadBack | Assets/_Scripts/MenuUIManager.cs:59-62 | The best label reads back as the score and the piece label as the piece count |
| Menu.RefreshLevelMenu | Assets/_Scripts/PlayerDataManager.cs:72-75 | The first 15 slots show their records' best score and piece count, and later slots are unchanged |
| Menu.SummaryAfterGameOver | Assets/_Scripts/MenuUIManager.cs:87-109 | The summary after game over shows the level played, its final score and its record's piece count. The stars match the final score |

## Game behaviour worth noting

- The start cell keeps the code -1 after drawing. The game only paints it as floor, so eating walks over it and leaves it as -1.
- A tile with an unknown name writes nothing. The cell stays empty, or keeps what an earlier tile wrote.
- The player's position after loading is the last start cell in the column-major scan. With no start cell it is the decoder's last start tile, and failing that the origin, where the game world's location field begins.
- A level file with no tiles decodes to a 2x2 empty grid, because the sentinel arithmetic wraps in 32 bits.
- `collectedPieces` is a list that pieces are appended to, and during a play `pieceCount` grows with it. The model proves that the list stays a set as long as it starts as one.
- The progress file is written only on a fresh install and at a game over that beats the best score. Every return to the menu reloads the records from that file (MenuUIManager.cs:56), and a stored file replaces them wholesale. So the pieces a play collects, and its piece count increments, are kept only when that play sets a new best; otherwise the reload drops them (`Session.ReloadAfterGameOver`). The summary page still shows them, because it is filled before the reload.

## Left out

- Rendering: tiles, highlights, camera follow and the move animation (`FillTile`, `CameraFollow`, `MovePlayer`). They change nothing the logic reads. The animation's `isMoving` flag is an input parameter.
- Coroutine interleaving: a move eats its whole path at once, and the countdown and timer advance in whole ticks.
- JSON parsing, streaming-asset reads and file writes. A level file is its decoded `Container`. The progress file is the record list it holds, or missing, or unreadable.
- `LoadTilemapFromJsonFile` when the level file yields no text (GameWorld.cs:557-564). The game logs an error and never assigns `map`, which is still null on the freshly created game world. `BeginLevel` then calls `DrawMap`, whose `map.GetLength(0)` throws, so neither the countdown nor the timer starts. The model has no null grid: every level is a decoded `Container`.
- The level editor: `GetTileDataList`, `SaveTilemapToJson` and `mapCreationMode`. There is no encoder, so there is no encode/decode round trip.
- The debug lines. One of them (PlayerDataManager.cs:70) indexes the records by `currentLevel` without subtracting 1. After level 15 is played, with the usual 15 records, that index is out of range and throws. The label refresh loop after it (PlayerDataManager.cs:72-75, modelled by `Menu.RefreshLevelMenu`) then never runs, so the level labels keep the text the freshly loaded menu scene was authored with instead of showing the records.
- Menu.RefreshLevelMenu: requires at least 15 records. A stored progress file with fewer records makes `levelData[i]` in the refresh loop throw, and the model excludes that case instead of modelling the exception.
- Scene loading after game over, which is modelled as the `ended` flag. Menu navigation is also left out.
- Scoring.ScoreOf: the score is the integer `100 * dots / maxDots`. The game computes a float quotient times 100 and casts it to int, so float rounding can differ by one at some values.
- Time is a real number. Float precision of the countdown and timer is not modelled.
- LevelCodec.Decode: tile coordinates and box spans are unbounded integers. Overflow is modelled only for the empty level; spans of 2^31 or more, which would wrap, are not.
- Slide.FindDestination: a direction string other than the four names, which the game ignores, cannot arise because directions are an enumeration.
- The label and star objects of the menu are sequences of strings and booleans.

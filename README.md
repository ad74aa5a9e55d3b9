# bblock in Dafny

A model of the falling-block reflex game bblock, in its two versions: the Go port
(`bblock.go`) and the original pygame program (`orig/bblock.py`). Blocks fall through four
50-pixel lanes of a 203 x 300 window, and the player clicks them before they reach the
bottom. Each click on a block scores a point. A missed block ends the run.

The model covers, for both versions:

- the difficulty presets (block height and fall rate);
- the spawn timer and the spawn batch, which builds one to four random lane picks and
  drops the repeated lanes;
- falling, the miss rule and hit-testing;
- the score and the best score;
- the Go title screen: its state machine, the blink counter and the best-score file.

Positions are measured upwards from the bottom of the window. Every fall rate is a
multiple of 0.5 and blocks start at the integer height 300, so `real` holds every
position exactly. Randomness is an input: the lane picks are a sequence of 1 to 4 lanes.

Modules:

- `Rules` (`rules.dfy`): the constants, the difficulty table, the spawn threshold, the
  de-duplication of a batch's lanes, and the blink counter.
- `Blocks` (`blocks.dfy`): the block value and the pure specifications that both
  versions share: falling, the miss rule, the first missed block, the first block hit.
- `Bblock` (`bblock_game.dfy`): the Go `Game` as a class whose methods update its fields.
  It includes the click loop as written and the fixed click loop.
- `BblockApp` (`bblock_app.dfy`): the Go `Title` and an `App` class. `App` holds what the
  Go code keeps in globals: the current screen, `highscore`, `conf.invincible` and the
  best-score file.
- `Original` (`bblock_py.dfy`): the pygame `Game` class and the title screen's blink
  counter.

Points of the code worth knowing before reading the model:

- The Go click loop does not stop after a removal; the pygame loop does (`break`). The
  model keeps the Go loop as written in `Game.ClickedAsWritten` (see Findings). The
  application runs the first-hit rule, `Game.Clicked`.
- A block starts at the window height, 300. At difficulty 1 an unclicked block is missed
  on frame 149 of its fall (`Blocks.EasiestMissFrame`).
- The Go code saves the best score after every miss that ends the run, not only on a new
  best. In invincible mode a miss neither ends the run nor saves. It reloads
  `hs.txt` before saving (see Findings), so what it writes depends on the file. A file
  holding a number gives back that number, clamped to MaxScore, and the run's best is
  lost. A missing file leaves the run's best in place, and that is what is written. A
  file that does not scan as a number gives 0, and 0 is written. The application runs
  the corrected order, `App.EndRun`.
- On the Go title screen, Quit and Escape exit, and both Alt keys do nothing. Every other
  key, and every mouse button, starts a session.

Two differences between the versions are proved, not just noted:

- The original compares its integer frame counter with `H/rate` exactly. The model reads
  `/` as Python 3's true division. At difficulties 2 (100/3) and 5 (80/6) the two are
  never equal, so no block ever spawns (`Original.NoSpawnAtFractionalPresets`). Under
  Python 2's integer division these presets would spawn every 33 and 13 frames. The Go
  port truncates `int(height/rate)`, so it spawns at every preset.
- Both versions remove the same block on a hit, but in a different order
  (`Original.SameBlockRemoved`).

## Model

| member | source | states |
|---|---|---|
| `Rules.DifficultySettings` | bblock.go:306-323 | Every preset has a block height from 80 to 100 and a fall rate from 2 to 6 that is a multiple of one half, so block positions stay exact. The pygame constructor (orig/bblock.py:67-81) uses the same table. |
| `Rules.SpawnPeriod` | bblock.go:396 | The threshold is the whole part p of height/rate: p <= height/rate < p + 1, and p >= 0 for a non-negative height, where Go's truncating conversion agrees with it. |
| `Rules.SpawnPeriods` | bblock.go:396 | The spawn threshold `int(height/rate)` is 50, 33, 25, 20 and 13 frames for difficulties 1 to 5. |
| `Rules.DifficultyOrdered` | bblock.go:306-323 | Going from an easier preset to a harder one, the fall rate strictly increases, the block height never increases, and the spawn threshold strictly decreases. |
| `Rules.WholePeriodPresets` | orig/bblock.py:42 | `H/rate`, in exact division, is a whole number exactly for presets 1, 3 and 4. |
| `Rules.FirstOccurrences` | bblock.go:409-419 | The lanes of a batch have no repeats, are exactly the picked lanes, and are no more than the picks. |
| `Rules.FirstOccurrencesOrder` | bblock.go:409-419 | The batch keeps lanes in the order of their first pick. |
| `Rules.NextBlink` | bblock.go:282-284 | One blink update keeps the counter in [-30, 30). It wraps back exactly from 29. |
| `Rules.BlinkPeriodic` | bblock.go:282-284 | After k title frames since a reset to -30, the counter is -30 + k mod 60. |
| `Rules.PromptShown` | bblock.go:279-284 | "PRESS ANY KEY" is shown in the first 30 frames of every 60. |
| `Blocks.Block.Moved` | bblock.go:449-451 | One frame of falling lowers the block by exactly the rate and keeps its x and its lane. The pygame `move` (orig/bblock.py:55-56) is the same. |
| `Blocks.NewBlock` | bblock.go:441-447 | A new block in lane p is at x = 51p, fits inside the window width, and has its lower edge at the window top, 300. The pygame `Block(column)` (orig/bblock.py:35-38) is the same value. |
| `Blocks.SpawnBatchShape` | bblock.go:401-419 | A batch from 1 to 4 valid picks has 1 to 4 blocks. They are all at the top, in pairwise distinct lanes, with a block in each picked lane and in no other. |
| `Blocks.FallAfter` | bblock.go:449-451 | After k frames of `Move`, a block is k times the rate lower and still in its lane. |
| `Blocks.MissedAfter` | bblock.go:379-380 | A block spawned at the top is missed on its k-th frame exactly when (k+1) times the rate is at least 300. |
| `Blocks.Missed` | bblock.go:380 | A moved block is missed exactly when its next move would take its lower edge to the bottom or below. The pygame test (orig/bblock.py:108) is the same. |
| `Blocks.EasiestMissFrame` | bblock.go:379-386 | At rate 2, an unclicked block is missed on frame 149 and on no earlier frame. |
| `Blocks.FirstMiss` | bblock.go:377-386 | The result is the least index whose block is missed once moved, or None when no block is missed. |
| `Blocks.FirstMissAt` | bblock.go:377-386 | Conversely, a miss at i with no miss before it makes i the first miss. |
| `Blocks.AfterMiss` | bblock.go:377-386 | At a miss at index i, the blocks up to and including i have moved and the later blocks have not. |
| `Blocks.NeighbourHitBoxesShareColumn` | bblock.go:355 | The hit boxes of neighbouring lanes overlap in exactly one column, the right lane's left edge. |
| `Blocks.Hits` | bblock.go:355-358 | A click that hits a block lies in that block's lane, or on the column just right of it, which the next lane's left edge shares. The pygame test (orig/bblock.py:94-95) is the same. |
| `Blocks.FirstHit` | orig/bblock.py:93-101 | The result is the least index of a block the click hits, or None when the click hits no block. |
| `Blocks.FirstHitAt` | orig/bblock.py:93-101 | Conversely, a hit at i with no hit before it makes i the first hit. |
| `Bblock.Bump` | bblock.go:362-366 | A hit adds one point while the score is below MaxScore and never takes the score above MaxScore. The best score is raised to the new score when the new score reaches it, and is otherwise unchanged; it never drops. At MaxScore nothing changes. |
| `Bblock.SwapRemove` | bblock.go:368-369 | Swap-removal shortens the blocks by exactly one. |
| `Bblock.SwapRemovePermutes` | bblock.go:368-369 | Swap-removal takes out exactly the block at i (multiset). |
| `Bblock.Survivors` | bblock.go:376-392 | The kept blocks are no more than the blocks, and none of them is missed. |
| `Bblock.SurvivorsMembers` | bblock.go:388-392 | A block is kept exactly when it is one of the blocks moved once and is not then missed. This covers the invincible frame, where missed blocks are dropped. |
| `Bblock.SurvivorsIndices` | bblock.go:376-392 | The kept blocks keep their order. Each kept block is the moved block at a source index, the source indices strictly increase, and every block not missed once moved has its index among them. |
| `Bblock.SurvivorsWithoutMiss` | bblock.go:376-392 | When no block is missed, the kept blocks are all blocks moved once, in order. |
| `Bblock.SurvivorsWellFormed` | bblock.go:388-390 | The kept blocks stay in their lanes. |
| `Bblock.Spawned` | bblock.go:396-419 | One frame of the timer keeps every existing block in place and adds at most one block per pick, at the end. Below the threshold it adds nothing. |
| `Bblock.NeighbourPairCrashes` | bblock.go:354-370 | Two same-height blocks in neighbouring lanes, clicked on their shared column, make the loop as written index out of range. |
| `Bblock.NeighbourPairSpawns` | bblock.go:409-419 | Picks of two neighbouring lanes spawn exactly such a pair. |
| `Bblock.ScanAsWritten` | bblock.go:354-370 | The loop as written never lengthens the blocks and never lowers the best score. It keeps the score within MaxScore. When it removes nothing and does not fail, the score is unchanged. |
| `Bblock.ScanSkipsMisses` | bblock.go:354-360 | Iterations of the click loop that hit nothing change nothing. |
| `Bblock.AsWrittenAgreesOnSingleHit` | bblock.go:352-371 | When a click hits at most one block, the loop as written does not fail and agrees with the first-hit rule. |
| `Bblock.Game.constructor` | bblock.go:289-296 | A Go `Game` starts as its zero value. |
| `Bblock.Game.Reset` | bblock.go:298-324 | After a reset: score 0, no blocks, timer 0, width 50, and (height, rate) from the preset table. The difficulty is in 1..5, which the flag check at bblock.go:103-105 guarantees. The session is valid, with the timer below its threshold. |
| `Bblock.Game.UpdateBlocks` | bblock.go:395-420 | The timer counts up and adds nothing below the threshold. At the threshold it restarts at 0 and appends the batch. The existing blocks and the score are untouched, and 0 <= count < threshold holds again. |
| `Blocks.NewBatch` | bblock.go:409-419 | The batch loop appends a new block for each pick whose lane is not yet used, giving exactly the spawn batch of the picks. |
| `Blocks.LaneUsed` | bblock.go:411-415 | The inner loop reports whether a lane is already in the batch. |
| `Bblock.Game.Update` | bblock.go:373-393 | The timer runs, then one of two outcomes. On the first miss, when not invincible, the run ends: the blocks up to the miss have moved, the rest have not, none is dropped. Otherwise the blocks become the moved blocks that are not missed, in order. |
| `Bblock.Game.MoveBlocks` | bblock.go:375-392 | The moving loop. When not invincible, it stops at the first missed block: the blocks up to it have moved, the rest have not. Otherwise the blocks become the moved, not-missed blocks in order. Blocks stay in their lanes. |
| `Bblock.Game.Clicked` | bblock.go:352-371 | The fixed click (first hit wins): the first block hit, with y flipped, is swap-removed and the score bumped. A click that hits nothing changes nothing. |
| `Bblock.Game.ClickedAsWritten` | bblock.go:352-371 | The loop as written: it indexes up to the original length after removals and fails on a hit past the shrunken end. The score has already been bumped when it fails. The timer, rate, height and width are unchanged, and the session stays valid: score within MaxScore, blocks in their lanes. |
| `BblockApp.LoadScore` | bblock.go:181-197 | A missing file keeps the best score. An unreadable file, or a number outside the uint64 range, gives 0. A stored value above MaxScore gives MaxScore; any other value is loaded as it is. |
| `BblockApp.SaveScore` | bblock.go:199-210 | A save leaves the file holding the best score as a readable number. |
| `BblockApp.LoadAfterSave` | bblock.go:199-210 | Saving a best score within MaxScore and loading it gives the same value back. |
| `BblockApp.ReloadThenSaveForgetsRun` | bblock.go:381-385 | As written, once the file holds v, the end of a run leaves best score v on file and in memory, whatever the run reached. |
| `BblockApp.SaveThenReloadKeepsBest` | bblock.go:381-385 | In the fixed order, the run's best score is kept and is on file. |
| `BblockApp.AfterTitleEvents` | bblock.go:250-273 | The frame's events leave the title screen shown only if it was shown before them. Once a session has started, they never bring back the title screen. |
| `BblockApp.TitleEventsOutcome` | bblock.go:250-273 | The title screen exits exactly when a Quit or Escape arrives. It starts a session exactly when a mouse button or a non-Alt key arrives and no exit does. Otherwise it stays. |
| `BblockApp.Title.constructor` | bblock.go:241-243 | A Go `Title` starts with blink 0. |
| `BblockApp.Title.Tick` | bblock.go:282-284 | One title frame advances the blink counter by `NextBlink`. |
| `BblockApp.App.constructor` | bblock.go:71-72 | At start-up the title screen is reset, so blink is -30 and the best score is loaded from the file; the title screen is shown. |
| `BblockApp.App.ResetTitle` | bblock.go:245-248 | Title.Reset sets blink to -30 and loads the best score. |
| `BblockApp.App.TitleEvent` | bblock.go:250-273 | The frame's events are handled in order. The screen is `AfterTitleEvents` of them. A started session is freshly reset at the chosen difficulty, and the best score is unchanged. When the title screen stays, the session is untouched. |
| `BblockApp.App.GameEvent` | bblock.go:326-350 | Quit or Escape exits. The left button is a click with the corrected first-hit rule (`Game.Clicked`). The right button toggles invincibility. Other events change nothing. No event touches the timer, rate or height. |
| `BblockApp.App.EndRunAsWritten` | bblock.go:380-386 | The end of a run as written: the title reset (and reload) comes before the save. |
| `BblockApp.App.EndRun` | bblock.go:380-386 | The fixed end of a run: the best score is saved and then reloaded unchanged. The title screen is shown with blink -30. |
| `BblockApp.App.GameUpdate` | bblock.go:373-393 | A frame of play. The score is unchanged, and the timer counts up or restarts at its threshold. A miss when not invincible returns to the title screen. It uses the corrected end of run (`App.EndRun`), so the best score is saved unchanged. Otherwise play continues with the kept blocks. While play continues, the title screen's blink counter is untouched. |
| `BblockApp.App.TitleDraw` | bblock.go:277-287 | Drawing the title screen advances the blink counter and keeps it in [-30, 30). |
| `Original.RemoveAt` | orig/bblock.py:97 | `list.remove` of the hit block drops exactly index i and keeps the order of the others. |
| `Original.RemoveAtPermutes` | orig/bblock.py:97 | The removal takes out exactly the block at i (multiset). |
| `Original.SameBlockRemoved` | orig/bblock.py:97 | The original's removal and the Go swap-removal leave the same blocks (multiset). |
| `Original.Spawned` | orig/bblock.py:41-54 | One frame of the counter keeps every existing block in place and adds at most one block per pick, at the end. It adds blocks only when H/rate is whole. |
| `Original.NoSpawnAtFractionalPresets` | orig/bblock.py:41-43 | At difficulties 2 and 5 no frame ever spawns a batch. |
| `Original.Game.constructor` | orig/bblock.py:61-81 | `Game()`: score 0, no blocks, counter 0, W 50, and (H, rate) from the same preset table. |
| `Original.Game.SpawnTick` | orig/bblock.py:40-54 | The counter is incremented. When it equals H/rate exactly, it restarts at 0 and the batch of distinct lanes in first-pick order is appended, built by the same loop as the Go port. Otherwise nothing is added. |
| `Original.Game.Update` | orig/bblock.py:103-110 | The counter is incremented, or reset to 0 when it equals H/rate exactly, as in `SpawnTick`. Then the blocks move in list order. The result is False exactly when some block is missed. The blocks end up all moved, or moved up to the first miss and unmoved after it. None is ever removed. |
| `Original.Game.Click` | orig/bblock.py:90-101 | Only the first block hit is removed, in order. The score rises by one with no cap. The best score is raised only when the score strictly passes it. |
| `Original.TitleScreen.constructor` | orig/bblock.py:150 | The blink counter starts at -30. |
| `Original.TitleScreen.Draw` | orig/bblock.py:156-160 | Each title frame advances the counter by `NextBlink`. |

## Left out

- Window, renderer, textures, fonts, the frame limiter and the main loops (`initSDL`, `main`, `Game.run`, `fps.Delay`, `clock.tick`): platform I/O.
- All drawing (`Game.Draw`, `Block.Draw`, `vline`, `printf`, the text of `Title.Draw` and the pygame `draw` methods): rendering. Only the blink counter is modelled.
- Sound (`loadSound`, `playSound` and the pygame `sounds[...]`): fire-and-forget output with no effect on the state.
- Reading and writing `hs.txt` is abstracted. A file is `Missing`, `Unreadable` or `Holds(n)`; a save always succeeds. The pygame `hs.txt` reads and writes are not modelled.
- Flag parsing, apart from the 1..5 difficulty check. `Game.Reset` and the pygame constructor require a valid difficulty. The Go `default:` branch of the switch is therefore unreachable and is not modelled.
- `rand.Seed`, `rand.Intn`, `rand.Float64`, `random.choice`, `random.random`: the lane picks are an input of 1 to 4 lanes. The 0.75 stopping probability, and so the distribution of batch sizes, is not modelled.
- SDL and pygame event polling. Events are the datatype `Event` (Quit, KeyDown, MouseDown).
- `BblockApp.App.GameEvent`: handles one event of `Game.Event`'s poll loop; the loop is the repetition of it. The title screen's whole loop is modelled (`TitleEvent`).
- `App.GameEvent` and `App.GameUpdate` run the corrected click (`Game.Clicked`) and the corrected end of run (`App.EndRun`). The code as written is modelled separately, by `Game.ClickedAsWritten` and `App.EndRunAsWritten` (see Findings). The application state after a panicking click, or after the as-written reload-then-save, is therefore not what `App` describes.
- `os.Exit`, `ck` and `ek`: exit is the terminal screen `Exited`. A failing click in `ClickedAsWritten` is reported as `crashed`.
- `Original.Game.Click`: the pygame mouse position comes from `mouse.get_pos()`, sampled once per frame. It is passed in as (mx, my). Python object identity in `list.remove` is modelled as removal at the hit's index: the list never holds the same block object twice.
- The pygame title loop (the module-level `get_input`) starts a nested `Game.run` on any key press, including the Alt keys but not a mouse click. It is not modelled; its quit and Escape branches only end the program.
- Go's `uint64` score needs no wrap-around, because it never exceeds MaxScore. The pygame score is an unbounded Python integer, and so is the model's.

## Findings

| source | as written | input that shows it | evidently intended | confidence | as-written member | corrected member |
|---|---|---|---|---|---|---|
| bblock.go:354-370 | The `range` loop keeps visiting the original indices after a swap-remove has shortened `c.blocks`. A second hit at an index at or past the new length evaluates `c.blocks[i]` out of range, and Go panics. | Two blocks of one batch in lanes 0 and 1 (same height, say 298 after one frame at difficulty 1), clicked at x = 51, y = 0 | Stop after the first hit, as the pygame original does with `break` | high; not executed | `Bblock.Game.ClickedAsWritten`, `Bblock.NeighbourPairCrashes` | `Bblock.Game.Clicked`, `Bblock.AsWrittenAgreesOnSingleHit` |
| bblock.go:381-385 | On a miss, `title.Reset()` reloads `hs.txt` into `highscore` before `saveScore()` writes it. Once the file holds a number, the run's new best score is overwritten by that number and never saved. A missing file keeps the run's best; a file that does not scan resets it to 0. | `hs.txt` holds 5 and the run reaches 10: afterwards `highscore` is 5 and the file still holds 5 | Save the best score, then reset the title screen | high; not executed | `BblockApp.App.EndRunAsWritten`, `BblockApp.ReloadThenSaveForgetsRun` | `BblockApp.App.EndRun`, `BblockApp.SaveThenReloadKeepsBest` |

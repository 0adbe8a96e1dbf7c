# WhackAnErnst game session engine in Dafny

This project models the session engine of WhackAnErnst, a whack-a-mole game played on the keys of a Stream Deck.
- Each round reveals ten tiles, one at a time, on random keys.
- Seven of them are Ernst tiles. Hitting one earns 1500 points, less one point per millisecond the player took.
- Three of them are holes. Hitting a hole costs 1000 points, and so does hitting an empty key.

The engine is a four-phase machine (Idle, Starting, Active, GameOver) driven by two actors:
- the key handler, which reacts to press events;
- the game loop, which runs the timed steps of each phase.

The model is imperative, like the C# it follows:
- `Game`, `ErnstTile` and `HoleTile` are classes whose methods update their fields in place.
- The bag of tiles is a `seq` field and the key slots a `map` field.
- The round loop is a `while` loop with invariants.

The round loop (`AwaitReveal`, `AwaitPause`, `PlayTurn`, `PlayActiveRound` and `GameLoop`) is proved against value-level reference functions:
- `Bags.Draw` says which tiles the random picks draw, and what they leave in the bag.
- `Rounds.RevealScore`, `Rounds.TurnScore` and `Rounds.RoundScore` say what a sequence of presses earns.

Lemmas then establish what those functions mean:
- drawing is a permutation of the bag;
- a tile is scored at most once;
- silent play scores nothing;
- perfect play scores 10500 whatever the random choices.

Inputs from the outside world become parameters:
- Randomness becomes caller-supplied values under range preconditions: the key index, the bag index and the reveal duration.
- Time becomes a `Tick(ms)` method that advances an Ernst tile's stopwatch while it runs.
- The presses that arrive while the loop waits become a plan. Each turn lists the presses during the tile's reveal, each with its delay, and the presses during the pause after it.
- Each handler call is one atomic step.
- The images a tile shows become an enumeration. The callbacks and `yield return`s are returned as the sequence of images they would see.

Files:
- `bags.dfy`: `List<T>.Remove` and drawing without replacement.
- `ernst_tile.dfy` and `hole_tile.dfy`: the two tile classes.
- `game_tiles.dfy`: the `ITile` dispatch over the two kinds.
- `rounds.dfy`: the game's constants and the value-level scoring rules.
- `game.dfy`: the `Game` class, with its key handler and game loop.
- `sessions.dfy`: whole sessions on a fresh game.

Three facts about the code that the model follows:
- The press on the game-over screen does not reset score and progress. The loop's Idle step does (Game.cs:150-152; see Findings).
- The loop picks any key for the next tile, not only an unoccupied one (Game.cs:125-128). Every tile's key is cleared before the next one is chosen (Game.cs:176-177), so no key is ever occupied at that point.
- The score is a C# 32-bit `int` (Game.cs:34).

## Model

| member | source | states |
|---|---|---|
| Bags.RemoveAtKeeps | WhackAnErnst/WhackAnErnst/Game.cs:137-138 | removing the tile at an index keeps exactly the other tiles (as a multiset) |
| Bags.RemoveFirst | WhackAnErnst/WhackAnErnst/Game.cs:138 | `List.Remove`: an absent item leaves the list as it is; a present one leaves it one shorter |
| Bags.RemoveFirstKeeps | WhackAnErnst/WhackAnErnst/Game.cs:138 | `List.Remove` of a present item removes exactly one copy of it and keeps everything else |
| Bags.RemoveFirstAt | WhackAnErnst/WhackAnErnst/Game.cs:137-138 | removing by value the element read at index `i` removes exactly index `i` when no earlier element equals it |
| Bags.DistinctRemoveAt | WhackAnErnst/WhackAnErnst/Game.cs:136-138 | removing a tile from a bag of distinct tiles leaves distinct tiles, none of them the removed one |
| Bags.DistinctRemoveFirst | WhackAnErnst/WhackAnErnst/Game.cs:136-138 | in a bag of distinct tiles the drawn tile is removed at its index, is no longer in the bag, and the rest stay distinct |
| Bags.Draw | WhackAnErnst/WhackAnErnst/Game.cs:166-169 | a sequence of picks draws one tile per pick and leaves the bag shorter by the number of picks |
| Bags.DrawNext | WhackAnErnst/WhackAnErnst/Game.cs:169 | the pick of iteration `i` takes the tile at that index of what the earlier picks left, and removes it |
| Bags.DrawKeepsBag | WhackAnErnst/WhackAnErnst/Game.cs:134-140 | the tiles drawn and the tiles left are together exactly the bag: no tile is lost or invented |
| Bags.DrawAllIsPermutation | WhackAnErnst/WhackAnErnst/Game.cs:166-169 | drawing as many tiles as the bag holds empties it, and the reveal order is a permutation of the bag |
| ErnstTiles.ErnstTile.constructor | WhackAnErnst/WhackAnErnst/Tiles/ErnstTile.cs:22-25 | a fresh Ernst tile shows the Ernst image and its stopwatch is idle at zero |
| ErnstTiles.ErnstTile.Points | WhackAnErnst/WhackAnErnst/Tiles/ErnstTile.cs:28 | the points are 1500 less the elapsed milliseconds; never above 1500; at least 1 while the press falls within the reveal duration |
| ErnstTiles.ErnstTile.ShowTile | WhackAnErnst/WhackAnErnst/Tiles/ErnstTile.cs:31-37 | the duration becomes the draw from [500, 1500), the stopwatch restarts at zero so the points are 1500, the callback sees the current image once |
| GameTiles.Tick | WhackAnErnst/WhackAnErnst/Tiles/ErnstTile.cs:28 | time passing through `ITile` lowers a running Ernst tile's points by exactly `ms` and leaves a stopped one and a hole as they were |
| ErnstTiles.ErnstTile.Tick | WhackAnErnst/WhackAnErnst/Tiles/ErnstTile.cs:15 | time passing advances a running stopwatch by exactly `ms`, lowering the points by `ms`, and changes nothing when it is stopped |
| ErnstTiles.ErnstTile.TilePressed | WhackAnErnst/WhackAnErnst/Tiles/ErnstTile.cs:39-52 | the stopwatch stops with the points unchanged; the callback sees Hammer, Hit, Hit and the tile ends on Hit; the duration is kept |
| ErnstTiles.ErnstTile.DoTilePressedAsync | WhackAnErnst/WhackAnErnst/Tiles/ErnstTile.cs:54-65 | yields exactly three times, showing Hammer, Hit, Hit; the stopwatch and points are untouched |
| ErnstTiles.FrozenAfterPress | WhackAnErnst/WhackAnErnst/Tiles/ErnstTile.cs:39-41 | after a press, any time that passes leaves the points where they were when the press stopped the stopwatch |
| HoleTiles.HoleTile.constructor | WhackAnErnst/WhackAnErnst/Tiles/HoleTile.cs:19-25 | a fresh hole has a duration drawn from [500, 1500) and shows the hole image |
| HoleTiles.HoleTile.Points | WhackAnErnst/WhackAnErnst/Tiles/HoleTile.cs:28 | a hole always costs 1000, whatever its state or the time |
| HoleTiles.HoleTile.ShowTile | WhackAnErnst/WhackAnErnst/Tiles/HoleTile.cs:31-36 | the duration becomes a fresh draw from [500, 1500); the callback sees the current image once |
| HoleTiles.HoleTile.TilePressed | WhackAnErnst/WhackAnErnst/Tiles/HoleTile.cs:38-47 | the callback sees HoleHit then Hole and the tile ends on Hole; neither the duration nor the points change |
| GameTiles.Tile.Points | WhackAnErnst/WhackAnErnst/Game.cs:95 | the points the game reads are the Ernst tile's decaying reward or the hole's fixed cost, by kind |
| GameTiles.ShowTile | WhackAnErnst/WhackAnErnst/Game.cs:173 | revealing a tile sets its duration; an Ernst tile's stopwatch restarts, so its points are 1500, a hole's stay -1000 |
| GameTiles.TilePressed | WhackAnErnst/WhackAnErnst/Game.cs:91-94 | pressing a tile through `ITile` leaves its points as they were and stops any stopwatch |
| Rounds.EmptyKeyPressesArePenalties | WhackAnErnst/WhackAnErnst/Game.cs:97-104 | once a tile has been scored, every further press during its reveal costs exactly 1000 |
| Rounds.MissedTileScoresOnlyPenalties | WhackAnErnst/WhackAnErnst/Game.cs:171-177 | a tile nobody presses earns nothing (an expired hole is free); presses on other keys cost 1000 each |
| Rounds.FirstHitScoresTileOnce | WhackAnErnst/WhackAnErnst/Game.cs:87-108 | the first press on the tile's key scores the tile at the time of that press; every other press costs 1000, so no tile is scored twice |
| Rounds.SilentRoundScoresZero | WhackAnErnst/WhackAnErnst/Game.cs:166-182 | a round in which nobody presses a key scores nothing |
| Rounds.RoundScoreStep | WhackAnErnst/WhackAnErnst/Game.cs:166-182 | one more iteration adds exactly its own turn's score to the round's |
| Rounds.ErnstCountDraw | WhackAnErnst/WhackAnErnst/Game.cs:134-140 | drawing moves tiles out of the bag without changing how many Ernst tiles there are in all |
| Rounds.KindsDraw | WhackAnErnst/WhackAnErnst/Game.cs:134-140 | which kinds are revealed, and in which order, depends only on the kinds in the bag and on the random picks |
| Rounds.PerfectTurnScore | WhackAnErnst/WhackAnErnst/Game.cs:87-108 | an Ernst tile hit at once earns the full 1500; a hole left alone earns nothing |
| Rounds.PerfectRoundScore | WhackAnErnst/WhackAnErnst/Game.cs:87-108 | hitting every Ernst tile at once and nothing else earns exactly 1500 per Ernst tile revealed |
| Rounds.FreshBagCount | WhackAnErnst/WhackAnErnst/Game.cs:14-16 | a freshly filled bag holds exactly 7 Ernst tiles and 3 holes |
| Rounds.PerfectFullRound | WhackAnErnst/WhackAnErnst/Game.cs:161-187 | from a freshly filled bag of 7 Ernst tiles and 3 holes, in any draw order, perfect play scores 10500 |
| WhackAnErnst.Game.constructor | WhackAnErnst/WhackAnErnst/Game.cs:29-34 | a new game is Idle with score 0, progress 0, an empty bag and no tile on any key |
| WhackAnErnst.Game.KeyStateChanged | WhackAnErnst/WhackAnErnst/Game.cs:71-119 | a release changes nothing. A press goes Idle to Starting and GameOver to Idle, and is ignored in Starting; none of these touches the score. In Active it adds the pressed tile's points, or -1000 for an empty key; that key is then empty and every other slot is kept. The pressed tile's points are frozen |
| WhackAnErnst.Game.GetRandomKeyIndex | WhackAnErnst/WhackAnErnst/Game.cs:125-128 | the key is the random draw, within [0, key count) |
| WhackAnErnst.Game.GetRandomGameTile | WhackAnErnst/WhackAnErnst/Game.cs:134-140 | needs a non-empty bag; returns the tile at the random index and removes exactly that tile, keeping the order of the rest; the bag shrinks by one |
| WhackAnErnst.Game.ShowGameStartingScreen | WhackAnErnst/WhackAnErnst/Game.cs:248-265 | the bag is refilled with 7 fresh Ernst tiles (idle, showing Ernst) then 3 fresh holes with the drawn durations, 10 in all; nothing else changes |
| WhackAnErnst.Game.AwaitReveal | WhackAnErnst/WhackAnErnst/Game.cs:173 | while a tile is shown, the presses raise the score by exactly what `RevealScore` says, and the tile is either still on its key or gone |
| WhackAnErnst.Game.AwaitPause | WhackAnErnst/WhackAnErnst/Game.cs:180 | during a wait with no tile on the board, every press costs exactly 1000 |
| WhackAnErnst.Game.PlayTurn | WhackAnErnst/WhackAnErnst/Game.cs:168-181 | one iteration occupies one key, then clears it; it draws exactly the picked tile out of the bag, adds 1 to progress and adds exactly that turn's score |
| WhackAnErnst.Game.PlayActiveRound | WhackAnErnst/WhackAnErnst/Game.cs:161-187 | the round ends in GameOver with progress 10 and no tile on the board. It reveals the tiles the picks draw, in order, and leaves what they do not draw. The score rises by the opening presses' penalties plus exactly the round score |
| WhackAnErnst.Game.GameLoop | WhackAnErnst/WhackAnErnst/Game.cs:146-193 | Idle resets score and progress to 0. Starting refills the bag with 7 Ernst tiles and 3 holes and moves to Active. Active plays the round to GameOver, and the bag ends empty when it matched the progress. GameOver changes nothing |
| WhackAnErnst.Game.GameLoopResetting | WhackAnErnst/WhackAnErnst/Game.cs:156-159 | the corrected loop: Starting also resets score and progress, so every round starts from zero and ends with progress 10 and the bag empty |
| Sessions.FirstRound | WhackAnErnst/WhackAnErnst/Game.cs:146-187 | with the loop as written, a press on a new game and two loop passes end the first round in GameOver at progress 10 with the bag empty |
| Sessions.SkippedReset | WhackAnErnst/WhackAnErnst/Game.cs:112-114 | two presses on the game-over screen start a round whose progress is already 10 with a full bag: it plays nothing, ends in GameOver with all ten tiles unplayed, and keeps the previous score |
| Sessions.ResetBeforeRound | WhackAnErnst/WhackAnErnst/Game.cs:150-158 | with the corrected loop the same presses start a round at score 0 and progress 0 with 10 tiles, and it ends at progress 10 with the bag empty |
| Sessions.NewRound | WhackAnErnst/WhackAnErnst/Game.cs:146-159 | with the loop as written, power-on, the loop's Idle step, a press and the Starting step leave the game Active at score 0 and progress 0 with a fresh bag of 7 Ernst tiles then 3 holes |
| Sessions.PerfectGame | WhackAnErnst/WhackAnErnst/Game.cs:146-187 | with the loop as written, from power-on, one press and perfect play end in GameOver with 10500 points, whatever keys, durations and draw order the random source picks |

## Left out

- Images, fonts and drawing: `DrawBitmap`, `SuperimposeBitmapOnPlayField`, `CreateTextTileBitmap` and the device's bitmap calls. These are image compositing. The images a tile shows are an enumeration.
- Choreography in `ShowIdleScreen`, `ShowGameOverScreen` and the countdown: the sounds, delays and text tiles, and the idle replay counter. This is cosmetic pacing. The model keeps only the phase changes around it and the bag refill.
- Sounds and `SdlAudioWrapper`: native audio calls.
- Device setup in `StartAsync` and the process handling in `Program.cs`: operating-system and device I/O. The endless `while (true) await GameLoop()` is one `GameLoop` call per pass.
- The `Console.WriteLine` logging (Game.cs:61, 82, 105, 185-186): console output only, with no effect on the game's state.
- The reveal window is not bounded by the drawn duration: the key is cleared only after the device calls that follow the delay (Game.cs:173-177), whose time the model does not know. A plan may press arbitrarily late, and a late hit earns 0 or fewer points.
- `Random` and `Stopwatch`: random draws are parameters under range preconditions, and time is `Tick`.
- The 75 ms and 150 ms delays inside a press animation: only the reveal's presses advance the clock in the model.
- WhackAnErnst.Game.KeyStateChanged: the handler is one atomic step. In the code the tile is removed from its key only after the awaited press animation (Game.cs:91 and 108), so two presses within that animation (225 ms for an Ernst tile, ErnstTile.cs:46-50; 75 ms for a hole, HoleTile.cs:45) could both score the same tile. The model does not capture that interleaving.
- WhackAnErnst.Game.PlayActiveRound: presses arrive only at the points the plan allows: during the opening second, during a reveal, and during the pause after it. A press between a reveal ending and its key being cleared is one of the reveal's presses.
- WhackAnErnst.Game.KeyStateChanged: the score is an unbounded integer. It does not model the wrap-around of the C# 32-bit `int`, which no real round can reach.
- ErnstTiles.ErnstTile.Points: the elapsed time is an unbounded `nat`. It does not model the `(int)` cast of the stopwatch's 64-bit milliseconds, which matters only after about 24 days.
- `ITile.cs` is the `Tile` datatype of `game_tiles.dfy`. `Tile.cs` has no behaviour and is unused.

## Findings

| source | as written | input that shows it | evidently intended | confidence | as-written member | corrected member |
|---|---|---|---|---|---|---|
| WhackAnErnst/WhackAnErnst/Game.cs:112-114 | A press on the game-over screen only sets the phase to Idle. Score and progress are reset later, by the loop's Idle step (Game.cs:150-152). A second press can move Idle to Starting before the loop gets there, for example during the game-over animation (Game.cs:271-303) | finish a round, then press twice during the game-over animation. The next round starts with progress 10 and a refilled bag, so its loop never runs. It ends at once in GameOver with the old score and ten unplayed tiles | every round starts with score 0 and progress 0 and plays all ten tiles | medium; not executed | Sessions.SkippedReset | WhackAnErnst.Game.GameLoopResetting |

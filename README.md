# Spots: a Dafny model of the game engine and the high-score table

Spots is an Android game on a 6 x 6 board of dots. Dots appear at random, stay visible for two
seconds and then disappear; a visible dot that times out counts as missed, and fifteen misses end
the game. The player drags a chain through adjacent visible dots; releasing the touch scores the
chain's length squared and makes its dots disappear. A high-score table keeps the five best scores
in the device's preferences.

This project models, in Dafny, the parts of the game that decide what happens:

- `dots.dfy` (module `Dots`): a dot, its five states, and its state clock (`gameboard/Dot.java`).
- `grid.dfy` (module `Grid`): the board as a two-dimensional array of dots, row-major indexing,
  the eight-direction neighbour scan, the flood fill that measures a cluster, and the row-major
  iterator (`gameboard/DotGrid.java`).
- `rules.dfy` (module `Rules`): the rules of the engine as pure functions on a snapshot `Game` of
  everything the engine holds: the timed state transitions of one frame, the missed count and
  game over, the four kinds of touch, the trailing-line clamp, pause and resume, and the canvas
  geometry. A `Variant` distinguishes the current engine (`engine/GameThread.java`) from the
  older engine nested in `GameSurfaceView.java` where they differ: the older one never sets game
  over, does not mark chained dots selected, does not compensate dots for a pause and handles
  touches while paused.
- `engine.dfy` (module `Engine`): the engine as a class whose fields are the source's fields,
  with one method per handler, each loop over the board written as a loop over the grid's
  iterator. Every method is proved to leave the engine in the state its rule in `Rules` gives.
- `properties.dfy` (module `Properties`): what the rules promise. In the current engine the chain
  stays a list of distinct, selected board positions; it need not be a path of neighbouring dots
  (see Findings). Game over is never cleared. Touch down, move, up and
  outside have exactly their stated effects. The trailing line is clamped proportionally. A
  resume gives visible dots back the paused time. After a resize no touch can hit two dots.
- `highscores.dfy` (module `Highscores`): the five-entry score array with its insert-and-shift
  update, and the key/value store behind it with `Integer.toString` / `Integer.parseInt` written
  out. The table and the store are proved to agree after every operation, and insertion is proved
  to keep the table ordered and to be a permutation of the new score and the old table minus its
  last entry.
- `wrappers.dfy` (module `Wrappers`): `Option` and `Result`.

The clock, the random number generator and the canvas size are parameters: `now` is the time in
milliseconds at which a handler runs, and each frame takes one draw in [0, 1) per dot.
Java exceptions are modelled as `Failure` results.

## Model

| member | source | states |
|---|---|---|
| Dots.WithState | prototyping/Kuba/DotsCanvas/app/src/main/java/ca/brocku/dotscanvas/app/gameboard/Dot.java:68-73 | a change of state restarts the state clock at `now`; setting the current state changes nothing; the centre is untouched |
| Dots.WithStateIdempotent | prototyping/Kuba/DotsCanvas/app/src/main/java/ca/brocku/dotscanvas/app/gameboard/Dot.java:68-73 | setting the same state twice is the same as setting it once, whatever the clock says |
| Dots.Dot.constructor | prototyping/Kuba/DotsCanvas/app/src/main/java/ca/brocku/dotscanvas/app/gameboard/Dot.java:18-29 | a new dot keeps its id, row and column, is invisible, centred at the origin, and its state began now |
| Dots.Dot.SetState | prototyping/Kuba/DotsCanvas/app/src/main/java/ca/brocku/dotscanvas/app/gameboard/Dot.java:68-73 | the dot's view becomes `WithState` of the old one; a different state resets the state duration to 0, the same state keeps it |
| Dots.Dot.IncreaseStateStartTime | prototyping/Kuba/DotsCanvas/app/src/main/java/ca/brocku/dotscanvas/app/gameboard/Dot.java:79-85 | only the start moves forward by `time`, so at every instant the state duration is `time` shorter |
| Dots.Dot.SetCenterX | prototyping/Kuba/DotsCanvas/app/src/main/java/ca/brocku/dotscanvas/app/gameboard/Dot.java:47-49 | only the x centre changes |
| Dots.Dot.SetCenterY | prototyping/Kuba/DotsCanvas/app/src/main/java/ca/brocku/dotscanvas/app/gameboard/Dot.java:55-57 | only the y centre changes |
| Grid.Pick | prototyping/Kuba/DotsCanvas/app/src/main/java/ca/brocku/dotscanvas/app/engine/GameThread.java:492 | `(int) (draw * size)` for a draw in [0, 1) is an index below `size` |
| Grid.DotGrid.Present | prototyping/Kuba/DotsCanvas/app/src/main/java/ca/brocku/dotscanvas/app/gameboard/DotGrid.java:104-107 | the dots that count for clusters are exactly the board's non-invisible dots |
| Grid.DotGrid.View | prototyping/Kuba/DotsCanvas/app/src/main/java/ca/brocku/dotscanvas/app/gameboard/DotGrid.java:14-18 | the board's dots observed in row-major order |
| Grid.DotGrid.constructor | prototyping/Kuba/DotsCanvas/app/src/main/java/ca/brocku/dotscanvas/app/gameboard/DotGrid.java:20-26 | a valid n x n board; the dot at each position has id `col * n + row + 1` and is invisible since `now` |
| Grid.DotGrid.Populate | prototyping/Kuba/DotsCanvas/app/src/main/java/ca/brocku/dotscanvas/app/gameboard/DotGrid.java:201-209 | a fresh n x n array whose cell (r, c) holds a new dot of row r and column c numbered column by column |
| Grid.DotGrid.CellAt | prototyping/Kuba/DotsCanvas/app/src/main/java/ca/brocku/dotscanvas/app/gameboard/DotGrid.java:34-39 | array cell (r, c) is the dot at row-major index `r * n + c`, and sits at row r, column c |
| Grid.DotGrid.ShapeAt | prototyping/Kuba/DotsCanvas/app/src/main/java/ca/brocku/dotscanvas/app/gameboard/DotGrid.java:34-39 | the row-major index `r * n + c` holds the dot of row r, column c |
| Grid.DotGrid.At | prototyping/Kuba/DotsCanvas/app/src/main/java/ca/brocku/dotscanvas/app/gameboard/DotGrid.java:34-39 | the dot of the board at row r, column c |
| Grid.DotGrid.OnShape | prototyping/Kuba/DotsCanvas/app/src/main/java/ca/brocku/dotscanvas/app/gameboard/DotGrid.java:47-49 | a dot of the board lies on the board and sits at index `n * row + col` |
| Grid.DotGrid.PositionOf | prototyping/Kuba/DotsCanvas/app/src/main/java/ca/brocku/dotscanvas/app/gameboard/DotGrid.java:34-39 | the dot at index i sits at row `i / n`, column `i % n` |
| Grid.DotGrid.CellsDistinct | prototyping/Kuba/DotsCanvas/app/src/main/java/ca/brocku/dotscanvas/app/gameboard/DotGrid.java:201-209 | different positions hold different dots |
| Grid.DotGrid.DotAt | prototyping/Kuba/DotsCanvas/app/src/main/java/ca/brocku/dotscanvas/app/gameboard/DotGrid.java:34-39 | `dotAt(i)` is the dot at row `i / n`, column `i % n` |
| Grid.DotGrid.GetIndex | prototyping/Kuba/DotsCanvas/app/src/main/java/ca/brocku/dotscanvas/app/gameboard/DotGrid.java:47-49 | `getIndex` inverts `dotAt` for every dot of the board |
| Grid.DotGrid.Neighbour | prototyping/Kuba/DotsCanvas/app/src/main/java/ca/brocku/dotscanvas/app/gameboard/DotGrid.java:113-199 | the neighbour in a direction is absent exactly when it would be off the board, and otherwise is the dot one step that way |
| Grid.DotGrid.OnBoard | prototyping/Kuba/DotsCanvas/app/src/main/java/ca/brocku/dotscanvas/app/gameboard/DotGrid.java:113-199 | a dot of the board has an in-range row and column and is the array cell there |
| Grid.DotGrid.NeighboursAmong | prototyping/Kuba/DotsCanvas/app/src/main/java/ca/brocku/dotscanvas/app/gameboard/DotGrid.java:93-111 | the scan over the directions yields at most one dot per direction |
| Grid.DotGrid.GetAdjacentVisibleDots | prototyping/Kuba/DotsCanvas/app/src/main/java/ca/brocku/dotscanvas/app/gameboard/DotGrid.java:93-111 | the eight-direction scan (north clockwise to north-west) returns exactly the non-invisible neighbours, in that order |
| Grid.DotGrid.ScanStep | prototyping/Kuba/DotsCanvas/app/src/main/java/ca/brocku/dotscanvas/app/gameboard/DotGrid.java:93-111 | one step of the scan adds the neighbour in that direction exactly when it is on the board and not invisible |
| Grid.DotGrid.PresentIs | prototyping/Kuba/DotsCanvas/app/src/main/java/ca/brocku/dotscanvas/app/gameboard/DotGrid.java:93-111 | the non-invisible set computed before a read-only scan is still the board's |
| Grid.DotGrid.NeighboursStep | prototyping/Kuba/DotsCanvas/app/src/main/java/ca/brocku/dotscanvas/app/gameboard/DotGrid.java:113-199 | the neighbour one step in a direction is the dot at that row and column |
| Grid.DotGrid.NeighboursAmongSound | prototyping/Kuba/DotsCanvas/app/src/main/java/ca/brocku/dotscanvas/app/gameboard/DotGrid.java:93-111 | every dot the scan returns is a non-invisible dot one step away in one of the directions |
| Grid.DotGrid.NeighboursAmongComplete | prototyping/Kuba/DotsCanvas/app/src/main/java/ca/brocku/dotscanvas/app/gameboard/DotGrid.java:93-111 | every non-invisible dot one step away in one of the directions is returned |
| Grid.DotGrid.NeighboursAmongDistinct | prototyping/Kuba/DotsCanvas/app/src/main/java/ca/brocku/dotscanvas/app/gameboard/DotGrid.java:93-111 | the scan returns no dot twice |
| Grid.DotGrid.VisibleNeighboursExactly | prototyping/Kuba/DotsCanvas/app/src/main/java/ca/brocku/dotscanvas/app/gameboard/DotGrid.java:93-111 | a dot is adjacent-visible exactly when it is non-invisible, different and at most one row and one column away; there are at most 8, all distinct |
| Grid.DotGrid.ReachableStep | prototyping/Kuba/DotsCanvas/app/src/main/java/ca/brocku/dotscanvas/app/gameboard/DotGrid.java:58-91 | a non-invisible neighbour of a reachable dot is reachable |
| Grid.DotGrid.WalkStaysInside | prototyping/Kuba/DotsCanvas/app/src/main/java/ca/brocku/dotscanvas/app/gameboard/DotGrid.java:58-91 | a walk that starts in a set closed under the neighbour step stays in it |
| Grid.DotGrid.FillStart | prototyping/Kuba/DotsCanvas/app/src/main/java/ca/brocku/dotscanvas/app/gameboard/DotGrid.java:58-91 | the flood fill's invariant holds with only the seed on the stack |
| Grid.DotGrid.FillSkip | prototyping/Kuba/DotsCanvas/app/src/main/java/ca/brocku/dotscanvas/app/gameboard/DotGrid.java:58-91 | popping an already considered dot keeps the invariant |
| Grid.DotGrid.FillVisit | prototyping/Kuba/DotsCanvas/app/src/main/java/ca/brocku/dotscanvas/app/gameboard/DotGrid.java:58-91 | counting a popped dot and pushing its neighbours keeps the invariant |
| Grid.DotGrid.ComponentBound | prototyping/Kuba/DotsCanvas/app/src/main/java/ca/brocku/dotscanvas/app/gameboard/DotGrid.java:58-91 | a cluster holds at most n * n dots |
| Grid.DotGrid.FillDone | prototyping/Kuba/DotsCanvas/app/src/main/java/ca/brocku/dotscanvas/app/gameboard/DotGrid.java:58-91 | when the stack is empty the considered set is the whole cluster of the seed |
| Grid.DotGrid.ClusterSizeFor | prototyping/Kuba/DotsCanvas/app/src/main/java/ca/brocku/dotscanvas/app/gameboard/DotGrid.java:58-91 | 0 exactly when no neighbour is non-invisible; otherwise the size of the cluster of the randomly picked neighbour |
| Grid.DotGrid.FloodFill | prototyping/Kuba/DotsCanvas/app/src/main/java/ca/brocku/dotscanvas/app/gameboard/DotGrid.java:67-88 | the stack-and-set loop counts exactly the cluster (connected non-invisible dots) of the seed, between 1 and n * n |
| Grid.DotGridIterator.constructor | prototyping/Kuba/DotsCanvas/app/src/main/java/ca/brocku/dotscanvas/app/gameboard/DotGrid.java:226-229 | a new iterator over the grid has handed out nothing |
| Grid.DotGridIterator.Next | prototyping/Kuba/DotsCanvas/app/src/main/java/ca/brocku/dotscanvas/app/gameboard/DotGrid.java:236-244 | the counter always advances; within the board the dot at the old counter in row-major order is returned, past it nothing |
| Grid.DotGridIterator.Remove | prototyping/Kuba/DotsCanvas/app/src/main/java/ca/brocku/dotscanvas/app/gameboard/DotGrid.java:246-249 | removing is unsupported and always fails |
| Grid.Traverse | prototyping/Kuba/DotsCanvas/app/src/main/java/ca/brocku/dotscanvas/app/gameboard/DotGrid.java:216-244 | a for-each over the grid visits every dot once, in row-major order |
| Rules.Init | prototyping/Kuba/DotsCanvas/app/src/main/java/ca/brocku/dotscanvas/app/engine/GameThread.java:72-101 | a new engine: full board of dots invisible since `now`, empty chain, nothing scored or missed, not running, not over, not paused |
| Rules.SpawnsExactly | prototyping/Kuba/DotsCanvas/app/src/main/java/ca/brocku/dotscanvas/app/engine/GameThread.java:491-496 | a hidden dot is allowed to appear exactly when the draw lies in [1/800, 2/800) |
| Rules.Advance | prototyping/Kuba/DotsCanvas/app/src/main/java/ca/brocku/dotscanvas/app/engine/GameThread.java:467-504 | one frame for one dot: selected dots hold; visible after 2000 ms, appearing and disappearing after 100 ms, and invisible after 2000 ms with the one-in-800 draw move on; nothing else changes |
| Rules.AdvanceMovesOneStep | prototyping/Kuba/DotsCanvas/app/src/main/java/ca/brocku/dotscanvas/app/engine/GameThread.java:467-504 | every change of a dot's state is one step round the cycle visible, disappearing, invisible, appearing, with its clock restarted |
| Rules.TickAt | prototyping/Kuba/DotsCanvas/app/src/main/java/ca/brocku/dotscanvas/app/engine/GameThread.java:468-503 | updating one dot: that dot advances, and the missed count, run and game-over flags follow the timeout rule; nothing else changes |
| Rules.Miss | prototyping/Kuba/DotsCanvas/app/src/main/java/ca/brocku/dotscanvas/app/engine/GameThread.java:475-484 | a missed dot adds one to the count; reaching 15 stops the run, and only the current engine sets game over |
| Rules.TickUpTo | prototyping/Kuba/DotsCanvas/app/src/main/java/ca/brocku/dotscanvas/app/engine/GameThread.java:467-504 | after the first k dots of the pass exactly those k have advanced; chain, score and measurements are untouched |
| Rules.TickCounts | prototyping/Kuba/DotsCanvas/app/src/main/java/ca/brocku/dotscanvas/app/engine/GameThread.java:467-504 | the missed count grows by exactly the number of visible dots that timed out; run and game over follow from the final count |
| Rules.TickEffect | prototyping/Kuba/DotsCanvas/app/src/main/java/ca/brocku/dotscanvas/app/engine/GameThread.java:467-504 | a whole frame: each dot advances, missed grows by the timeouts, chain and score stay, game over never clears, and in the current engine 15 misses end the game |
| Rules.FirstHitFrom | prototyping/Kuba/DotsCanvas/app/src/main/java/ca/brocku/dotscanvas/app/engine/GameThread.java:344-349 | the first visible dot from position k on whose hit box holds the touch, or none when no such dot exists |
| Rules.FirstHit | prototyping/Kuba/DotsCanvas/app/src/main/java/ca/brocku/dotscanvas/app/engine/GameThread.java:344-349 | the first visible dot in row-major order whose hit box holds the touch, or none |
| Rules.Trail | prototyping/Kuba/DotsCanvas/app/src/main/java/ca/brocku/dotscanvas/app/engine/GameThread.java:390-426 | only the trailing line's end moves, and not at all with an empty chain |
| Rules.Hide | prototyping/Kuba/DotsCanvas/app/src/main/java/ca/brocku/dotscanvas/app/engine/GameThread.java:359-362 | each chained dot starts disappearing; every other dot is as it was |
| Rules.Shift | prototyping/Kuba/DotsCanvas/app/src/main/java/ca/brocku/dotscanvas/app/engine/GameThread.java:218-222 | each visible dot's state start moves later by the paused time; other dots are unchanged |
| Rules.CentreAll | prototyping/Kuba/DotsCanvas/app/src/main/java/ca/brocku/dotscanvas/app/engine/GameThread.java:305-310 | every dot is centred in the square of its own row and column |
| Properties.InitChainOk | prototyping/Kuba/DotsCanvas/app/src/main/java/ca/brocku/dotscanvas/app/engine/GameThread.java:72-101 | a new engine satisfies the chain invariant and is not over |
| Properties.TickKeepsChainOk | prototyping/Kuba/DotsCanvas/app/src/main/java/ca/brocku/dotscanvas/app/engine/GameThread.java:472-474 | the update pass keeps the chain invariant: chained dots stay selected |
| Properties.TouchKeepsChainOk | prototyping/Kuba/DotsCanvas/app/src/main/java/ca/brocku/dotscanvas/app/engine/GameThread.java:314-388 | every touch keeps the chain invariant of the current engine: distinct board positions, all selected |
| Properties.PushKeepsChainOk | prototyping/Kuba/DotsCanvas/app/src/main/java/ca/brocku/dotscanvas/app/engine/GameThread.java:448-451 | pushing a visible dot keeps the chain free of repeats and all selected |
| Properties.LifecycleKeepsChainOk | prototyping/Kuba/DotsCanvas/app/src/main/java/ca/brocku/dotscanvas/app/engine/GameThread.java:203-224 | pause, resume and resize keep the chain invariant |
| Properties.GameOverSticks | prototyping/Kuba/DotsCanvas/app/src/main/java/ca/brocku/dotscanvas/app/engine/GameThread.java:314-388 | touches, pause, resume and resize never change the game-over flag, and touches never change the missed count |
| Properties.PausedIgnoresTouches | prototyping/Kuba/DotsCanvas/app/src/main/java/ca/brocku/dotscanvas/app/engine/GameThread.java:314-337 | while paused the current engine ignores every touch |
| Properties.LegacyIgnoresPause | prototyping/Kuba/DotsCanvas/app/src/main/java/ca/brocku/dotscanvas/app/GameSurfaceView.java:401-423 | the older engine handles touches the same whether paused or not |
| Properties.DownIgnoresBlock | prototyping/Kuba/DotsCanvas/app/src/main/java/ca/brocku/dotscanvas/app/GameSurfaceView.java:425-439 | the older engine's touch down does not depend on the pause flag |
| Properties.MoveIgnoresBlock | prototyping/Kuba/DotsCanvas/app/src/main/java/ca/brocku/dotscanvas/app/GameSurfaceView.java:455-472 | the older engine's touch move does not depend on the pause flag |
| Properties.TouchDownEffect | prototyping/Kuba/DotsCanvas/app/src/main/java/ca/brocku/dotscanvas/app/engine/GameThread.java:339-352 | touch down moves the line to the touch, starts the interaction, and pushes the first visible dot within 1.4 radii, if any (selected in the current engine only) |
| Properties.TouchMoveAddsAtMostOne | prototyping/Kuba/DotsCanvas/app/src/main/java/ca/brocku/dotscanvas/app/engine/GameThread.java:367-382 | touch move adds at most one dot: the first visible dot within one radius, only if it is new to the chain and next to its top; with an empty chain nothing |
| Properties.TouchUpEffect | prototyping/Kuba/DotsCanvas/app/src/main/java/ca/brocku/dotscanvas/app/engine/GameThread.java:354-365 | touch up adds the chain's length squared to the score, starts every chained dot disappearing, leaves the others, and empties the chain |
| Properties.TouchOutsideEffect | prototyping/Kuba/DotsCanvas/app/src/main/java/ca/brocku/dotscanvas/app/engine/GameThread.java:384-388 | touch outside drops the chain without scoring and without touching any dot |
| Properties.ClampWithin | prototyping/Kuba/DotsCanvas/app/src/main/java/ca/brocku/dotscanvas/app/engine/GameThread.java:421-424 | within the limit on both axes, the line ends at the touch |
| Properties.ClampBeyond | prototyping/Kuba/DotsCanvas/app/src/main/java/ca/brocku/dotscanvas/app/engine/GameThread.java:400-420 | beyond the limit both offsets shrink by the same factor, the longer one to exactly the limit, each moved end on the touch's side, an axis without offset keeps its old value |
| Properties.ScaledOffset | prototyping/Kuba/DotsCanvas/app/src/main/java/ca/brocku/dotscanvas/app/engine/GameThread.java:403-419 | one axis of the clamp: the shrunk offset, proportional to the touch's and no longer than the limit, placed toward the touch |
| Properties.ScaleBound | prototyping/Kuba/DotsCanvas/app/src/main/java/ca/brocku/dotscanvas/app/engine/GameThread.java:403-407 | dividing an offset no longer than the larger one by the factor gives an offset no longer than the limit |
| Properties.ResumeCompensates | prototyping/Kuba/DotsCanvas/app/src/main/java/ca/brocku/dotscanvas/app/engine/GameThread.java:203-224 | after pause and resume each visible dot has been visible exactly as long as at the pause; the older engine only unblocks |
| Properties.ResizeGeometry | prototyping/Kuba/DotsCanvas/app/src/main/java/ca/brocku/dotscanvas/app/engine/GameThread.java:294-312 | the region is a sixth of the shorter side, the radius a third of the region, the line limit one and a half regions, each dot centred in its square |
| Properties.HitBoxesDisjoint | prototyping/Kuba/DotsCanvas/app/src/main/java/ca/brocku/dotscanvas/app/engine/GameThread.java:428-433 | after a resize no touch lies within the touch-down hit boxes of two different dots |
| Properties.PositionsDiffer | prototyping/Kuba/DotsCanvas/app/src/main/java/ca/brocku/dotscanvas/app/gameboard/DotGrid.java:34-39 | different indices are different grid positions |
| Properties.CentresApart | prototyping/Kuba/DotsCanvas/app/src/main/java/ca/brocku/dotscanvas/app/engine/GameThread.java:305-310 | the hit squares around the centres of two different positions do not meet when twice the reach is below the region |
| Properties.CentreGap | prototyping/Kuba/DotsCanvas/app/src/main/java/ca/brocku/dotscanvas/app/engine/GameThread.java:305-310 | centres of different rows (or columns) are at least a region apart |
| Properties.NoPointNearBoth | prototyping/Kuba/DotsCanvas/app/src/main/java/ca/brocku/dotscanvas/app/engine/GameThread.java:428-433 | no coordinate is within reach of two points a region apart |
| Engine.Indices | prototyping/Kuba/DotsCanvas/app/src/main/java/ca/brocku/dotscanvas/app/engine/GameThread.java:43-47 | the chain stack as indices, bottom first, each the dot's row-major index |
| Engine.IndicesPush | prototyping/Kuba/DotsCanvas/app/src/main/java/ca/brocku/dotscanvas/app/engine/GameThread.java:448-451 | pushing a dot on the chain pushes its index |
| Engine.TouchDownSteps | prototyping/Kuba/DotsCanvas/app/src/main/java/ca/brocku/dotscanvas/app/engine/GameThread.java:339-352 | the order of the statements of onTouchDown (line, push, interaction flag) gives the touch-down rule |
| Engine.GameThread.Model | prototyping/Kuba/DotsCanvas/app/src/main/java/ca/brocku/dotscanvas/app/engine/GameThread.java:43-65 | the engine's fields always form a full board with a chain of board positions |
| Engine.GameThread.ModelIs | prototyping/Kuba/DotsCanvas/app/src/main/java/ca/brocku/dotscanvas/app/engine/GameThread.java:43-65 | the model is determined by the fields |
| Engine.GameThread.Position | prototyping/Kuba/DotsCanvas/app/src/main/java/ca/brocku/dotscanvas/app/gameboard/DotGrid.java:34-39 | the dot at index i sits at row `i / 6`, column `i % 6` |
| Engine.GameThread.OnBoard | prototyping/Kuba/DotsCanvas/app/src/main/java/ca/brocku/dotscanvas/app/gameboard/DotGrid.java:47-49 | each dot of the board sits at its own index |
| Engine.GameThread.ChainOnBoard | prototyping/Kuba/DotsCanvas/app/src/main/java/ca/brocku/dotscanvas/app/engine/GameThread.java:43-47 | every chained dot is a dot of the board at its own index |
| Engine.GameThread.constructor | prototyping/Kuba/DotsCanvas/app/src/main/java/ca/brocku/dotscanvas/app/engine/GameThread.java:72-101 | a new engine is the initial game: hidden dots, empty chain, nothing scored or missed |
| Engine.GameThread.SetRunning | prototyping/Kuba/DotsCanvas/app/src/main/java/ca/brocku/dotscanvas/app/engine/GameThread.java:180-184 | only the run flag changes |
| Engine.GameThread.IsGameOver | prototyping/Kuba/DotsCanvas/app/src/main/java/ca/brocku/dotscanvas/app/engine/GameThread.java:268-272 | the game-over flag |
| Engine.GameThread.IsGamePaused | prototyping/Kuba/DotsCanvas/app/src/main/java/ca/brocku/dotscanvas/app/engine/GameThread.java:274-278 | the pause flag |
| Engine.GameThread.OnPause | prototyping/Kuba/DotsCanvas/app/src/main/java/ca/brocku/dotscanvas/app/engine/GameThread.java:203-208 | the game becomes the paused one: blocked, and in the current engine the pause time noted |
| Engine.GameThread.OnResume | prototyping/Kuba/DotsCanvas/app/src/main/java/ca/brocku/dotscanvas/app/engine/GameThread.java:213-224 | the game becomes the resumed one: unblocked, and in the current engine visible dots get the paused time back |
| Engine.GameThread.SetBlock | prototyping/Kuba/DotsCanvas/app/src/main/java/ca/brocku/dotscanvas/app/engine/GameThread.java:205 | only the pause flag changes |
| Engine.GameThread.ShiftVisible | prototyping/Kuba/DotsCanvas/app/src/main/java/ca/brocku/dotscanvas/app/engine/GameThread.java:218-222 | the loop over the grid shifts every visible dot's start by the paused time and no other dot |
| Engine.GameThread.ShiftDot | prototyping/Kuba/DotsCanvas/app/src/main/java/ca/brocku/dotscanvas/app/engine/GameThread.java:221 | one iteration: only dot k changes, by the shift rule |
| Engine.GameThread.OnSurfaceChange | prototyping/Kuba/DotsCanvas/app/src/main/java/ca/brocku/dotscanvas/app/engine/GameThread.java:294-312 | the game becomes the resized one: new measurements, every dot centred in its square |
| Engine.GameThread.Measure | prototyping/Kuba/DotsCanvas/app/src/main/java/ca/brocku/dotscanvas/app/engine/GameThread.java:296-303 | the shorter side, a sixth of it as region, a third of the region as radius, one and a half regions as line limit |
| Engine.GameThread.CentreDots | prototyping/Kuba/DotsCanvas/app/src/main/java/ca/brocku/dotscanvas/app/engine/GameThread.java:305-310 | the loop over the grid centres every dot by its row and column |
| Engine.GameThread.CentreDot | prototyping/Kuba/DotsCanvas/app/src/main/java/ca/brocku/dotscanvas/app/engine/GameThread.java:306-309 | one iteration: only dot k moves, to the centre of its square |
| Engine.GameThread.UpdateState | prototyping/Kuba/DotsCanvas/app/src/main/java/ca/brocku/dotscanvas/app/engine/GameThread.java:467-504 | the engine's state becomes the rule's frame `Tick` of the old state |
| Engine.GameThread.UpdateNext | prototyping/Kuba/DotsCanvas/app/src/main/java/ca/brocku/dotscanvas/app/engine/GameThread.java:468-503 | one iteration of the loop: the iterator advances and the next dot is updated by the rule |
| Engine.GameThread.UpdateDot | prototyping/Kuba/DotsCanvas/app/src/main/java/ca/brocku/dotscanvas/app/engine/GameThread.java:469-502 | one dot of the frame, by its state: the state changes and miss counting of the rule |
| Engine.GameThread.MissOne | prototyping/Kuba/DotsCanvas/app/src/main/java/ca/brocku/dotscanvas/app/engine/GameThread.java:478-482 | one more miss; at 15 the run stops (and the current engine records game over) |
| Engine.GameThread.Stop | prototyping/Kuba/DotsCanvas/app/src/main/java/ca/brocku/dotscanvas/app/engine/GameThread.java:479-482 | the run stops; only the current engine sets game over |
| Engine.GameThread.ChangeState | prototyping/Kuba/DotsCanvas/app/src/main/java/ca/brocku/dotscanvas/app/gameboard/Dot.java:68-73 | setState on a dot of the board changes only that dot's view, as `WithState` |
| Engine.GameThread.UpdateMissedByOne | prototyping/Kuba/DotsCanvas/app/src/main/java/ca/brocku/dotscanvas/app/engine/GameThread.java:461-465 | the missed count grows by one and nothing else changes |
| Engine.GameThread.OnTouch | prototyping/Kuba/DotsCanvas/app/src/main/java/ca/brocku/dotscanvas/app/engine/GameThread.java:314-337 | the game becomes the rule's touch result; the touch always counts as handled |
| Engine.GameThread.OnTouchDown | prototyping/Kuba/DotsCanvas/app/src/main/java/ca/brocku/dotscanvas/app/engine/GameThread.java:339-352 | the game becomes the touch-down rule's result |
| Engine.GameThread.SetInteracting | prototyping/Kuba/DotsCanvas/app/src/main/java/ca/brocku/dotscanvas/app/engine/GameThread.java:351 | only the interaction flag changes |
| Engine.GameThread.OnTouchUp | prototyping/Kuba/DotsCanvas/app/src/main/java/ca/brocku/dotscanvas/app/engine/GameThread.java:354-365 | the game becomes the touch-up rule's result |
| Engine.GameThread.OnTouchMove | prototyping/Kuba/DotsCanvas/app/src/main/java/ca/brocku/dotscanvas/app/engine/GameThread.java:367-382 | the game becomes the touch-move rule's result |
| Engine.GameThread.ReachFor | prototyping/Kuba/DotsCanvas/app/src/main/java/ca/brocku/dotscanvas/app/engine/GameThread.java:372-381 | the first dot hit joins the chain exactly when it is new to the chain and next to its top; otherwise nothing changes |
| Engine.GameThread.ExtendChain | prototyping/Kuba/DotsCanvas/app/src/main/java/ca/brocku/dotscanvas/app/engine/GameThread.java:375-377 | a hit dot is pushed exactly when it is new and adjacent to the top |
| Engine.GameThread.OnTouchOutside | prototyping/Kuba/DotsCanvas/app/src/main/java/ca/brocku/dotscanvas/app/engine/GameThread.java:384-388 | the game becomes the touch-outside rule's result |
| Engine.GameThread.ClearChain | prototyping/Kuba/DotsCanvas/app/src/main/java/ca/brocku/dotscanvas/app/engine/GameThread.java:363-364 | the chain empties and the interaction ends; nothing else changes |
| Engine.GameThread.HideChain | prototyping/Kuba/DotsCanvas/app/src/main/java/ca/brocku/dotscanvas/app/engine/GameThread.java:360-362 | each chained dot starts disappearing; other dots and fields are unchanged |
| Engine.GameThread.UpdateScore | prototyping/Kuba/DotsCanvas/app/src/main/java/ca/brocku/dotscanvas/app/engine/GameThread.java:453-459 | the score becomes the old score plus the chain's length squared, for a non-empty chain |
| Engine.GameThread.AddDotToChain | prototyping/Kuba/DotsCanvas/app/src/main/java/ca/brocku/dotscanvas/app/engine/GameThread.java:448-451 | the dot's index is pushed; the current engine also selects the dot |
| Engine.GameThread.FindHit | prototyping/Kuba/DotsCanvas/app/src/main/java/ca/brocku/dotscanvas/app/engine/GameThread.java:344-349 | the search loop finds the first visible dot in row-major order whose hit box holds the touch, or none |
| Engine.GameThread.AdjacentByPosition | prototyping/Kuba/DotsCanvas/app/src/main/java/ca/brocku/dotscanvas/app/engine/GameThread.java:435-446 | adjacency by the dots' rows and columns is adjacency of their indices |
| Engine.GameThread.InChain | prototyping/Kuba/DotsCanvas/app/src/main/java/ca/brocku/dotscanvas/app/engine/GameThread.java:375 | a dot is in the chain exactly when its index is |
| Engine.GameThread.SetInteractingCoordinates | prototyping/Kuba/DotsCanvas/app/src/main/java/ca/brocku/dotscanvas/app/engine/GameThread.java:390-426 | the game becomes the trailing-line rule's result: the clamped end from the top of the chain |
| Engine.GameThread.SetLine | prototyping/Kuba/DotsCanvas/app/src/main/java/ca/brocku/dotscanvas/app/engine/GameThread.java:341-342 | only the trailing line's end changes |
| Highscores.Digits | prototyping/Kuba/DotsCanvas/app/src/main/java/ca/brocku/dotscanvas/app/models/HighscoreManager.java:73 | decimal digits without leading zeros |
| Highscores.ParseInt | prototyping/Kuba/DotsCanvas/app/src/main/java/ca/brocku/dotscanvas/app/models/HighscoreManager.java:81 | only an optional sign followed by digits parses; a minus gives a non-positive value, otherwise non-negative |
| Highscores.ValueOfDigits | prototyping/Kuba/DotsCanvas/app/src/main/java/ca/brocku/dotscanvas/app/models/HighscoreManager.java:73 | the digits of n read back as n |
| Highscores.ParseIntToString | prototyping/Kuba/DotsCanvas/app/src/main/java/ca/brocku/dotscanvas/app/models/HighscoreManager.java:73-81 | every 32-bit int written with toString parses back to itself |
| Highscores.IntToStringInjective | prototyping/Kuba/DotsCanvas/app/src/main/java/ca/brocku/dotscanvas/app/models/HighscoreManager.java:73 | different numbers are written differently |
| Highscores.RankKeyInjective | prototyping/Kuba/DotsCanvas/app/src/main/java/ca/brocku/dotscanvas/app/models/HighscoreManager.java:73 | different ranks are stored under different keys |
| Highscores.MarkerIsNoRank | prototyping/Kuba/DotsCanvas/app/src/main/java/ca/brocku/dotscanvas/app/models/HighscoreManager.java:85 | the marker key is never a rank's key |
| Highscores.WritesRead | prototyping/Kuba/DotsCanvas/app/src/main/java/ca/brocku/dotscanvas/app/models/HighscoreManager.java:67-74 | after writing ranks lo..hi-1, each written rank reads its score back, others read as before |
| Highscores.WritesKeepMarker | prototyping/Kuba/DotsCanvas/app/src/main/java/ca/brocku/dotscanvas/app/models/HighscoreManager.java:67-74 | writing scores leaves the marker entry alone |
| Highscores.SetAgrees | prototyping/Kuba/DotsCanvas/app/src/main/java/ca/brocku/dotscanvas/app/models/HighscoreManager.java:67-74 | setting one rank in the table and in the store keeps them in agreement |
| Highscores.AgreesUnique | prototyping/Kuba/DotsCanvas/app/src/main/java/ca/brocku/dotscanvas/app/models/HighscoreManager.java:94-100 | the store determines the table: two tables agreeing with it are equal |
| Highscores.InsertAt | prototyping/Kuba/DotsCanvas/app/src/main/java/ca/brocku/dotscanvas/app/models/HighscoreManager.java:40-41 | the new score's place is the first rank it beats, or past the end |
| Highscores.PlaceMoves | prototyping/Kuba/DotsCanvas/app/src/main/java/ca/brocku/dotscanvas/app/models/HighscoreManager.java:41-48 | the ranks above the place stay, the new score takes the place, the ranks from there move down one |
| Highscores.InsertKeepsOrder | prototyping/Kuba/DotsCanvas/app/src/main/java/ca/brocku/dotscanvas/app/models/HighscoreManager.java:39-51 | an ordered table stays ordered, best first, and keeps its size |
| Highscores.InsertEntersIff | prototyping/Kuba/DotsCanvas/app/src/main/java/ca/brocku/dotscanvas/app/models/HighscoreManager.java:39-51 | on an ordered table a score enters exactly when it beats the lowest |
| Highscores.InsertContents | prototyping/Kuba/DotsCanvas/app/src/main/java/ca/brocku/dotscanvas/app/models/HighscoreManager.java:39-51 | the new table holds the new score and the old table minus its last entry |
| Highscores.PlaceContents | prototyping/Kuba/DotsCanvas/app/src/main/java/ca/brocku/dotscanvas/app/models/HighscoreManager.java:42-47 | placing a score is a permutation of the new score with the old table minus its last entry |
| Highscores.InsertUnchanged | prototyping/Kuba/DotsCanvas/app/src/main/java/ca/brocku/dotscanvas/app/models/HighscoreManager.java:39-51 | a score that beats nothing leaves the table unchanged |
| Highscores.HighscoreManager.Of | prototyping/Kuba/DotsCanvas/app/src/main/java/ca/brocku/dotscanvas/app/models/HighscoreManager.java:22-24 | the manager over a given store, with a fresh table |
| Highscores.HighscoreManager.Open | prototyping/Kuba/DotsCanvas/app/src/main/java/ca/brocku/dotscanvas/app/models/HighscoreManager.java:22-31 | opening succeeds with a table agreeing with the store; an invalid store is first reset to the marker and five zeros; a valid store opens exactly when all five ranks parse, and is kept as is |
| Highscores.HighscoreManager.IsKeyValid | prototyping/Kuba/DotsCanvas/app/src/main/java/ca/brocku/dotscanvas/app/models/HighscoreManager.java:102-108 | valid exactly when the marker key is present and holds DECRYPTED |
| Highscores.HighscoreManager.GetScore | prototyping/Kuba/DotsCanvas/app/src/main/java/ca/brocku/dotscanvas/app/models/HighscoreManager.java:76-82 | a rank of 5 or more fails; a rank of the table gives its score; a negative rank with no entry gives 0 |
| Highscores.HighscoreManager.SetScore | prototyping/Kuba/DotsCanvas/app/src/main/java/ca/brocku/dotscanvas/app/models/HighscoreManager.java:67-74 | a rank of 5 or more fails, a negative one fails at the array store, both changing nothing; otherwise that rank changes in the table and the store, and agreement is kept |
| Highscores.HighscoreManager.Reset | prototyping/Kuba/DotsCanvas/app/src/main/java/ca/brocku/dotscanvas/app/models/HighscoreManager.java:33-37 | all five ranks become zero in table and store, which agree |
| Highscores.HighscoreManager.AllWritten | prototyping/Kuba/DotsCanvas/app/src/main/java/ca/brocku/dotscanvas/app/models/HighscoreManager.java:33-37 | after all five ranks are written, table and store agree |
| Highscores.HighscoreManager.InitPreferences | prototyping/Kuba/DotsCanvas/app/src/main/java/ca/brocku/dotscanvas/app/models/HighscoreManager.java:84-92 | the marker is written and a fresh all-zero table is stored rank by rank; the key is then valid |
| Highscores.HighscoreManager.LoadScores | prototyping/Kuba/DotsCanvas/app/src/main/java/ca/brocku/dotscanvas/app/models/HighscoreManager.java:94-100 | a fresh five-entry table agreeing with the store, or failure exactly when some rank does not parse |
| Highscores.HighscoreManager.UpdateScore | prototyping/Kuba/DotsCanvas/app/src/main/java/ca/brocku/dotscanvas/app/models/HighscoreManager.java:39-51 | the table becomes the insertion of the score (first place it beats, lower ranks moved down, last dropped), and agreement with the store is kept |
| Highscores.HighscoreManager.PlaceScore | prototyping/Kuba/DotsCanvas/app/src/main/java/ca/brocku/dotscanvas/app/models/HighscoreManager.java:42-48 | the shift loop and the final store: table becomes the placed one, store gets the shifted ranks then the new score |
| Dots.Dot.StateDuration | prototyping/Kuba/DotsCanvas/app/src/main/java/ca/brocku/dotscanvas/app/gameboard/Dot.java:83-85 | the dot has been in its state for the returned time: its start plus the duration is `now` |
| Dots.Dot.IsVisible | prototyping/Kuba/DotsCanvas/app/src/main/java/ca/brocku/dotscanvas/app/gameboard/Dot.java:87-89 | true exactly when the dot's state is visible |
| Grid.DotGridIterator.HasNext | prototyping/Kuba/DotsCanvas/app/src/main/java/ca/brocku/dotscanvas/app/gameboard/DotGrid.java:231-233 | true exactly while the counter is below n * n; `Grid.Traverse` proves that a loop on it visits every dot once |
| Engine.GameThread.IsTouchWithinDot | prototyping/Kuba/DotsCanvas/app/src/main/java/ca/brocku/dotscanvas/app/engine/GameThread.java:428-433 | true exactly when the touch is within the dot's square hit box of half-side `reach`, the `Rules.Within` predicate |
| Engine.GameThread.IsDotAdjacent | prototyping/Kuba/DotsCanvas/app/src/main/java/ca/brocku/dotscanvas/app/engine/GameThread.java:435-446 | `Engine.GameThread.AdjacentByPosition` proves it true exactly when the chain is non-empty and the dot's index is `Rules.Adjacent` to the top's |
| Engine.GameThread.IndexIsGetIndex | prototyping/Kuba/DotsCanvas/app/src/main/java/ca/brocku/dotscanvas/app/gameboard/DotGrid.java:47-49 | the engine's row-major index of a dot is the grid's `getIndex` |
| Highscores.Lookup | prototyping/Kuba/DotsCanvas/app/src/main/java/ca/brocku/dotscanvas/app/models/HighscoreManager.java:59-65 | `getValue` without the encryptor: `Highscores.WritesRead` proves that a written rank reads back its score and an unwritten one reads as before |
| Highscores.KeyValid | prototyping/Kuba/DotsCanvas/app/src/main/java/ca/brocku/dotscanvas/app/models/HighscoreManager.java:102-108 | `Highscores.HighscoreManager.IsKeyValid` states it: true exactly when the marker key is present and holds DECRYPTED; `Highscores.WritesKeepMarker` proves score writes keep it |
| Highscores.IntToString | prototyping/Kuba/DotsCanvas/app/src/main/java/ca/brocku/dotscanvas/app/models/HighscoreManager.java:73 | `Highscores.ParseIntToString` proves parseInt reads it back for every 32-bit int; `Highscores.IntToStringInjective` that different numbers differ |
| Highscores.RankKey | prototyping/Kuba/DotsCanvas/app/src/main/java/ca/brocku/dotscanvas/app/models/HighscoreManager.java:73 | the key `RANK_` + rank; `Highscores.RankKeyInjective` and `Highscores.MarkerIsNoRank` prove the keys distinct |
| Highscores.Insert | prototyping/Kuba/DotsCanvas/app/src/main/java/ca/brocku/dotscanvas/app/models/HighscoreManager.java:39-51 | `Highscores.InsertKeepsOrder`, `Highscores.InsertEntersIff`, `Highscores.InsertContents` and `Highscores.InsertUnchanged` state its effect |
| Highscores.Place | prototyping/Kuba/DotsCanvas/app/src/main/java/ca/brocku/dotscanvas/app/models/HighscoreManager.java:42-47 | `Highscores.PlaceMoves` and `Highscores.PlaceContents` state where each score goes |
| Highscores.Writes | prototyping/Kuba/DotsCanvas/app/src/main/java/ca/brocku/dotscanvas/app/models/HighscoreManager.java:67-74 | the store after setScore on ranks lo..hi-1 in order; `Highscores.WritesRead` and `Highscores.WritesKeepMarker` state what it holds |
| Rules.TouchDown | prototyping/Kuba/DotsCanvas/app/src/main/java/ca/brocku/dotscanvas/app/engine/GameThread.java:339-352 | `Properties.TouchDownEffect` states it |
| Rules.TouchMove | prototyping/Kuba/DotsCanvas/app/src/main/java/ca/brocku/dotscanvas/app/engine/GameThread.java:367-382 | `Properties.TouchMoveAddsAtMostOne` states it |
| Rules.TouchUp | prototyping/Kuba/DotsCanvas/app/src/main/java/ca/brocku/dotscanvas/app/engine/GameThread.java:354-365 | `Properties.TouchUpEffect` states it |
| Rules.TouchOutside | prototyping/Kuba/DotsCanvas/app/src/main/java/ca/brocku/dotscanvas/app/engine/GameThread.java:384-388 | `Properties.TouchOutsideEffect` states it |
| Rules.OnTouch | prototyping/Kuba/DotsCanvas/app/src/main/java/ca/brocku/dotscanvas/app/engine/GameThread.java:314-337 | `Properties.PausedIgnoresTouches`, `Properties.LegacyIgnoresPause`, `Properties.GameOverSticks` and `Properties.TouchKeepsChainOk` state it |
| Rules.Pause | prototyping/Kuba/DotsCanvas/app/src/main/java/ca/brocku/dotscanvas/app/engine/GameThread.java:203-208 | `Properties.ResumeCompensates` and `Properties.LifecycleKeepsChainOk` state it |
| Rules.Resume | prototyping/Kuba/DotsCanvas/app/src/main/java/ca/brocku/dotscanvas/app/engine/GameThread.java:213-224 | `Properties.ResumeCompensates` states it: visible dots regain the paused time in the current engine; the older engine only unblocks |
| Rules.Resize | prototyping/Kuba/DotsCanvas/app/src/main/java/ca/brocku/dotscanvas/app/engine/GameThread.java:294-312 | `Properties.ResizeGeometry` and `Properties.HitBoxesDisjoint` state it |
| Rules.Tick | prototyping/Kuba/DotsCanvas/app/src/main/java/ca/brocku/dotscanvas/app/engine/GameThread.java:467-504 | `Rules.TickEffect` and `Rules.TickCounts` state it |
| Rules.Push | prototyping/Kuba/DotsCanvas/app/src/main/java/ca/brocku/dotscanvas/app/engine/GameThread.java:448-451 | `Properties.PushKeepsChainOk` states it; `Properties.TouchDownEffect` and `Properties.TouchMoveAddsAtMostOne` give its effect |
| Rules.Clamp | prototyping/Kuba/DotsCanvas/app/src/main/java/ca/brocku/dotscanvas/app/engine/GameThread.java:390-426 | `Properties.ClampWithin` and `Properties.ClampBeyond` state it |
| Rules.Spawns | prototyping/Kuba/DotsCanvas/app/src/main/java/ca/brocku/dotscanvas/app/engine/GameThread.java:492 | `Rules.SpawnsExactly` states it: the draw lies in [1/800, 2/800) |
| Rules.Hit | prototyping/Kuba/DotsCanvas/app/src/main/java/ca/brocku/dotscanvas/app/engine/GameThread.java:345 | a visible dot whose hit box holds the touch; `Rules.FirstHit` states the search over it |
| Rules.Adjacent | prototyping/Kuba/DotsCanvas/app/src/main/java/ca/brocku/dotscanvas/app/engine/GameThread.java:435-446 | `Engine.GameThread.AdjacentByPosition` proves it equal to the source's row and column test |
| Rules.OnTouchNewChain | prototyping/Kuba/DotsCanvas/app/src/main/java/ca/brocku/dotscanvas/app/engine/GameThread.java:339-352 | the corrected touch handling of the finding below: a touch down starts a new chain; every other action as `Rules.OnTouch` |
| Properties.FirstHitIs | prototyping/Kuba/DotsCanvas/app/src/main/java/ca/brocku/dotscanvas/app/engine/GameThread.java:344-349 | the first dot hit is the hit dot that every earlier dot misses |
| Properties.DownAt | prototyping/Kuba/DotsCanvas/app/src/main/java/ca/brocku/dotscanvas/app/engine/GameThread.java:339-352 | a touch down on a showing dot with no earlier showing dot pushes exactly that dot |
| Properties.CancelledChainIsExtended | prototyping/Kuba/DotsCanvas/app/src/main/java/ca/brocku/dotscanvas/app/engine/GameThread.java:314-352 | as written: touch down on dot 0, a cancel (action 3), then a touch down on dot 35 chain the two opposite corners |
| Properties.LegacyChainRepeats | prototyping/Kuba/DotsCanvas/app/src/main/java/ca/brocku/dotscanvas/app/GameSurfaceView.java:401-439 | as written: in the older engine a touch down, a cancel and a second touch down on the same dot chain it twice |
| Properties.NewChainKeepsLinked | prototyping/Kuba/DotsCanvas/app/src/main/java/ca/brocku/dotscanvas/app/engine/GameThread.java:314-382 | with the corrected touch down, both engines keep every chain linked, each dot next to the one before it, and free of repeats |
| Properties.MoveKeepsLinked | prototyping/Kuba/DotsCanvas/app/src/main/java/ca/brocku/dotscanvas/app/engine/GameThread.java:367-382 | touch move keeps a linked chain without repeats linked and without repeats |

## Left out

- The run loop, drawing, frame timing, thread synchronisation and the `notifyAll` wake-up (`run`, `doDraw`, `start`): they are Android threading and rendering.
- `saveState`, `restoreState`, `clearState` and `setQuitRequested`: file I/O and serialisation.
- The score and missed-count displays (`ScoreViewHandler`, `MissedViewHandler` and the older engine's messages): only the counters they display are modelled.
- Floating point: coordinates, radii and lengths are reals, so `float` rounding is not modelled.
- `Math.pow(size, 2)`: the model adds `size * size` to the score exactly. In the current engine the chain holds at most 36 distinct dots. The older engine's chain can repeat a dot, so it has no such bound. The source computes the sum as a `double` and narrows it back to `int`, which stops at 2^31 - 1. That limit is not modelled.
- `System.currentTimeMillis()` and `Math.random()` become parameters. Each handler reads one `now`, where the source reads the clock once per dot; each dot of a frame gets its own draw.
- `clusterSizeFor` takes its random pick as a parameter `draw`.
- `Grid.DotGrid.DotAt`: an index outside the board, for which `dotAt` throws, is excluded by its precondition. No caller passes one: the iterator checks the range before it reads.
- `Engine.GameThread.FindHit`: the hit-box reach (radius times 1.4 or 1) is computed by its caller and passed in.
- The encryptor (`DeviceBasedEncryptor`): the store holds plain strings. `getValue` returns the default when the stored text equals it, and the decrypted text otherwise. Without encryption both branches return the stored value, so `Lookup` has only one.
- `SharedPreferences` commits and their failures: the store is a `map<string, string>` field that is updated at once.
- `Highscores.ParseInt`: `Integer.parseInt`'s acceptance of non-ASCII Unicode digits is not modelled; only ASCII digits parse.
- `Highscores.HighscoreManager.Of`: before the constructor body runs, the Java table is `null`. The model uses a fresh placeholder array instead, which is always replaced before it is read.
- `Highscores.HighscoreManager.Open`: a `RuntimeException` thrown by the Java constructor while loading scores becomes a `Failure` result.
- `MainActivity`, `HighscoresActivity` and the other screens: they only call into the modelled code.

## Findings

| source | as written | input that shows it | evidently intended | confidence | as-written member | corrected member |
|---|---|---|---|---|---|---|
| prototyping/Kuba/DotsCanvas/app/src/main/java/ca/brocku/dotscanvas/app/engine/GameThread.java:314-352 | a touch down pushes onto the chain already held, and a cancelled touch (action 3) is ignored, so its chain stays | dots 0 and 35 showing at the touch point: touch down, cancel, touch down gives the chain [0, 35], two opposite corners | a touch down starts a new chain, so each chained dot neighbours the one before it (proved in `Properties.NewChainKeepsLinked`) | medium; not executed | Properties.CancelledChainIsExtended | Rules.OnTouchNewChain |
| prototyping/Kuba/DotsCanvas/app/src/main/java/ca/brocku/dotscanvas/app/GameSurfaceView.java:401-439 | the older engine neither selects a chained dot nor clears a cancelled chain | touch down on dot 0, cancel, touch down on dot 0 gives the chain [0, 0] | a dot is chained at most once (proved in `Properties.NewChainKeepsLinked`) | medium; not executed | Properties.LegacyChainRepeats | Rules.OnTouchNewChain |

The engine methods model the code as written. The corrected rule is stated beside them in `Rules` and is not used by the engine.

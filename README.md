# Avoid the Obstacles (2D): a verified model of the simulation engine

The 2D game keeps its whole state in globals:
- the screen (menu, character select, playing, game over) and the chosen character;
- the player box and the drag flag;
- a pool of 20 obstacle slots;
- the speed and the spawn interval and timer;
- three "last step" times and the score.

A GLUT timer calls `update` about every 16 ms. While a game is on, each tick:
1. advances the clock;
2. pays score points, speed steps (+2 every 15 s) and spawn-rate steps (÷1.5 every 30 s) through catch-up loops;
3. moves the obstacles down and retires those below the window;
4. spawns one obstacle when the spawn timer runs out;
5. ends the game on the first collision with the player box.

The score interval halves every 30 s. Keyboard and mouse handlers switch screens, move the player and start a new session through `resetGame`.

The model has six modules:
- `Geometry`: the window and player constants, the obstacle record, the strict box-overlap test and the clamping of the player's x.
- `Pool`: the obstacle pool as a sequence, with first-fit spawning, downward motion with retirement, the count of active slots and the collision scan over the array.
- `Difficulty`: the level, the score interval (the halving loop), the spawn-rate division, and `StepsDue`, the number of times a catch-up loop `while (elapsed - last >= period) { ...; last += period; }` runs. Its bounds and closed form are proved here.
- `Menus`: the hit-tests of the menu buttons and the character cards.
- `Session`: the whole state as a value (`Snapshot`), each stage of a tick as a function, the invariant `Consistent` that every reachable state satisfies, and the lemmas that the tick and `resetGame` keep it.
- `Game`: class `Engine`, which holds the globals as fields and the pool as an `array`. `update`, `resetGame`, `resetObstacles`, `spawnObstacle`, the keyboard and the mouse handlers are its methods. `update` and its stages, `resetGame` and `mouse` are proved equal to the `Session` function of the same step; `resetObstacles`, `spawnObstacle` and the obstacle loop are proved equal to the `Pool` function on the array's contents; `keyboard`, `specialKeyboard` and `mouseMotion` state their new fields directly, through `ClampX`, `StepLeft`, `StepRight` and `FollowMouse`. The constructor is the start of `main`: the globals' initial values, `resetGame` and the first clock reading.

Inputs:
- Time is a `real` number of seconds.
- The clock reading `glutGet(GLUT_ELAPSED_TIME)` is a parameter `nowMs` of `Engine.Tick`.
- The value `rand()` returns is a parameter `r`.
- `exit(0)` is a `quit` result of the handlers.

`Engine` has two ghost counters, `speedSteps` and `spawnSteps`. They count the staircase steps taken since the session started, so that the invariant can say "speed = 5 + 2·steps, last increase = 15·steps". The program itself does not keep them.

## Model

| member | source | states |
|---|---|---|
| Geometry.CheckCollision | 2D-version/main.cpp:124-134 | an inactive obstacle never collides; boxes that only touch at an edge do not collide |
| Geometry.CollisionMeansSharedInterior | 2D-version/main.cpp:124-134 | for an obstacle of positive size, a collision holds exactly when the obstacle is active and some point lies strictly inside both boxes |
| Geometry.ClampX | 2D-version/main.cpp:840-843 | the clamped x is in [0, 740]; it is unchanged inside that range, 0 below it and 740 above it |
| Geometry.StepLeft | 2D-version/main.cpp:820-822 | left arrow: the clamp of x − 15; the player never moves right and never goes below 0 |
| Geometry.StepRight | 2D-version/main.cpp:823-827 | right arrow: the clamp of x + 15; the player never moves left and never passes 740 |
| Geometry.FollowMouse | 2D-version/main.cpp:839-843 | the player's centre goes under the mouse when that fits; the result is always in [0, 740] |
| Pool.Spawned | 2D-version/main.cpp:113-117 | a spawned obstacle is active and 60×30, at x = r mod 740 in [0, 740) and y = 630 |
| Pool.FirstInactive | 2D-version/main.cpp:111-112 | every slot below the returned index is active, and the slot at the index is free if the index is in range |
| Pool.SpawnIntoFirstFit | 2D-version/main.cpp:110-121 | a full pool is unchanged; otherwise exactly the lowest free slot is filled; the active count rises by one unless the pool is full; slots stay well formed |
| Pool.CountActiveBound | 2D-version/main.cpp:51-52 | at most 20 active obstacles; full exactly when every slot is active |
| Pool.AdvancedNeverAddsActive | 2D-version/main.cpp:766-772 | moving never activates a slot, so the active count can only fall; slot sizes are kept |
| Pool.AdvancedSlot | 2D-version/main.cpp:766-772 | an inactive slot is untouched; an active one falls by dy, keeps x and size, and retires exactly when y − dy + h < 0 |
| Pool.ClearedEmpties | 2D-version/main.cpp:89-93 | after resetObstacles no slot is active |
| Pool.FirstCollision | 2D-version/main.cpp:786-791 | returns the first colliding slot, no earlier slot collides, and none is returned exactly when no slot collides |
| Menus.MenuButtonAt | 2D-version/main.cpp:855-873 | Start, Exit or nothing, each exactly when the click is inside that closed button box |
| Menus.CardAt | 2D-version/main.cpp:874-904 | the first card containing the click, in the order car, dino, cat; none exactly when the click misses all three |
| Menus.CardsOverlap | 2D-version/main.cpp:875-881 | the dino card overlaps both of its neighbours, and the earlier card wins there; car and cat are disjoint |
| Difficulty.Truncate | 2D-version/main.cpp:744 | the C float-to-int cast: the floor for x ≥ 0 and the ceiling for x < 0 |
| Difficulty.Level | 2D-version/main.cpp:744-745 | the level n satisfies 30·n ≤ elapsed < 30·(n+1), and is 0 before 30 s |
| Difficulty.CastLevelIsLevel | 2D-version/main.cpp:744-745 | truncating elapsed/30 and raising a negative result to 0 gives exactly that level |
| Difficulty.HalvedIntervalIsPower | 2D-version/main.cpp:747-751 | halving once per level gives a score interval of 1/2^level |
| Difficulty.ScoreInterval | 2D-version/main.cpp:748-751 | the halving loop returns 1/2^level |
| Difficulty.AcceleratedIsPower | 2D-version/main.cpp:773-776 | k spawn-rate steps divide the interval by 1.5^k |
| Difficulty.AcceleratedAdd | 2D-version/main.cpp:773-776 | steps taken in two runs of the loop add up |
| Difficulty.AcceleratedDecreasing | 2D-version/main.cpp:773-776 | every further step makes a positive interval strictly shorter |
| Difficulty.NoSpawnFloor | 2D-version/main.cpp:773-776 | there is no lower bound: after six steps (at 180 s) the interval is below 0.1 s |
| Difficulty.StepsDueBounds | 2D-version/main.cpp:753-756 | a catch-up loop runs k times, with k·period ≤ gap < (k+1)·period once at least one period is owed, and not at all otherwise |
| Difficulty.StepsDueUnique | 2D-version/main.cpp:760-763 | any k with those bounds is the number of times the loop runs |
| Difficulty.StepsDueIsFloor | 2D-version/main.cpp:760-763 | for a gap ≥ 0 the loop runs floor(gap/period) times |
| Difficulty.CatchUp | 2D-version/main.cpp:753-756 | after the loop the last step time has only moved forward, and now − last < period |
| Session.TickSeconds | 2D-version/main.cpp:730-733 | dt = (now − last)/1000 s, and 0 when the clock went backwards |
| Session.ResetStartsSession | 2D-version/main.cpp:95-107 | resetGame empties the pool, puts every counter at its start value and the player at the start, establishes the invariant, and keeps the screen, the character and the drag flag |
| Session.AwardedScore | 2D-version/main.cpp:753-756 | the score gains k ≥ 0 points with k·iv ≤ gap < (k+1)·iv; the award time moves by exactly k·iv, ends less than one interval behind, and nothing else changes |
| Session.SpeedRaisedKeepsStaircase | 2D-version/main.cpp:760-763 | the speed loop pays every step owed: speed = 5 + 2·steps, last increase = 15·steps, within 15 s of now; only those fields change |
| Session.ObstaclesMovedKeepsPool | 2D-version/main.cpp:765-772 | moving keeps the pool well formed and never adds an active obstacle |
| Session.SpawnsAcceleratedKeepsStaircase | 2D-version/main.cpp:773-776 | the spawn-rate loop pays every step owed: interval = 1/1.5^steps, last increase = 30·steps, within 30 s of now, never longer than before |
| Session.CountedDownSpawnsAtMostOne | 2D-version/main.cpp:779-783 | at most one spawn, only when the timer runs out, first fit, with the timer then set to the current spawn interval; only the pool and the timer change, and without a spawn only the timer |
| Session.JudgedEndsOnCollision | 2D-version/main.cpp:786-791 | the game ends exactly when some obstacle collides with the player, and nothing else changes |
| Session.TimeAdvancedKeepsStaircases | 2D-version/main.cpp:737-763 | the clock, score and speed half of a tick pays all it owes and leaves the pool and the player alone |
| Session.HazardsAdvancedKeepsConsistent | 2D-version/main.cpp:765-791 | the obstacle, spawn-rate, spawn and collision half restores the whole invariant |
| Session.StepKeepsConsistent | 2D-version/main.cpp:735-791 | a tick of a game in progress keeps the invariant |
| Session.TickKeepsConsistent | 2D-version/main.cpp:727-799 | every tick keeps the invariant |
| Session.StepSpawnsAtMostOne | 2D-version/main.cpp:778-783 | a tick adds at most one active obstacle and the pool never exceeds 20 |
| Session.StepScoreMonotone | 2D-version/main.cpp:753-756 | the score never falls over a tick |
| Session.StepEndsOnCollision | 2D-version/main.cpp:785-791 | a tick ends the game exactly when the player overlaps an obstacle after the move and the spawn; player, character and drag flag are untouched |
| Session.SpeedClosedForm | 2D-version/main.cpp:759-763 | in every reachable state, speed = 5 + 2·floor(e/15) and the last increase = 15·floor(e/15) |
| Session.SpawnClosedForm | 2D-version/main.cpp:773-776 | in every reachable state, spawn interval = 1/1.5^floor(e/30) and the last increase = 30·floor(e/30) |
| Session.SpeedAt45 | 2D-version/main.cpp:759-763 | at 45 s the speed is 11 |
| Session.ScoreIntervalSecondLevel | 2D-version/main.cpp:739-751 | between 30 s and 60 s a point is scored every 0.5 s |
| Pool.Cleared | 2D-version/main.cpp:89-93 | resetObstacles on the pool's contents; its contract gives only the length, `Pool.ClearedEmpties` states that no slot is active and `Game.Engine.ResetObstacles` that the loop computes it |
| Pool.SpawnInto | 2D-version/main.cpp:110-121 | spawnObstacle on the pool's contents; no contract of its own, specified by `Pool.SpawnIntoFirstFit` |
| Pool.Moved | 2D-version/main.cpp:767-771 | one iteration of the obstacle loop; no contract of its own, specified by `Pool.AdvancedSlot` |
| Pool.Advanced | 2D-version/main.cpp:766-772 | the obstacle loop on the pool's contents; its contract gives only the length, specified by `Pool.AdvancedSlot` and `Pool.AdvancedNeverAddsActive` |
| Difficulty.CastLevel | 2D-version/main.cpp:744-745 | the level as the source computes it; no contract of its own, specified by `Difficulty.CastLevelIsLevel` and `Difficulty.Level` |
| Difficulty.HalvedInterval | 2D-version/main.cpp:748-751 | the score interval at a level; its contract gives 0 < interval ≤ 1, `Difficulty.HalvedIntervalIsPower` gives 1/2^level |
| Difficulty.Accelerated | 2D-version/main.cpp:773-776 | the spawn interval after k steps; its contract gives 0 < result ≤ interval, `Difficulty.AcceleratedIsPower`, `AcceleratedAdd` and `AcceleratedDecreasing` state the rest |
| Difficulty.StepsDue | 2D-version/main.cpp:753-776 | how often each of the three catch-up loops (score at 753-756, speed at 760-763, spawn rate at 773-776) runs; no contract of its own, specified by `Difficulty.StepsDueBounds`, `StepsDueUnique`, `StepsDueIsFloor` and `CatchUp` |
| Session.Reset | 2D-version/main.cpp:95-107 | resetGame on the state; no contract of its own, specified by `Session.ResetStartsSession` |
| Session.Awarded | 2D-version/main.cpp:753-756 | the score loop; no contract of its own, specified by `Session.AwardedScore` |
| Session.SpeedRaised | 2D-version/main.cpp:760-763 | the speed loop; no contract of its own, specified by `Session.SpeedRaisedKeepsStaircase` |
| Session.ObstaclesMoved | 2D-version/main.cpp:765-772 | the obstacle loop at 40 pixels per second per unit of speed; no contract of its own, specified by `Session.ObstaclesMovedKeepsPool` |
| Session.SpawnsAccelerated | 2D-version/main.cpp:773-776 | the spawn-rate loop; no contract of its own, specified by `Session.SpawnsAcceleratedKeepsStaircase` |
| Session.CountedDown | 2D-version/main.cpp:779-783 | the spawn countdown; no contract of its own, specified by `Session.CountedDownSpawnsAtMostOne` |
| Session.Judged | 2D-version/main.cpp:786-791 | the collision scan; no contract of its own, specified by `Session.JudgedEndsOnCollision` |
| Session.TimeAdvanced | 2D-version/main.cpp:737-763 | clock, score and speed; no contract of its own, specified by `Session.TimeAdvancedKeepsStaircases` |
| Session.HazardsAdvanced | 2D-version/main.cpp:765-791 | motion, spawn rate, spawning and collision; no contract of its own, specified by `Session.HazardsAdvancedKeepsConsistent` |
| Session.Stepped | 2D-version/main.cpp:735-791 | a tick while playing; no contract of its own, specified by `Session.StepKeepsConsistent`, `StepEndsOnCollision`, `StepSpawnsAtMostOne` and `StepScoreMonotone` |
| Session.Ticked | 2D-version/main.cpp:727-799 | a tick in any state; no contract of its own, specified by `Session.TickKeepsConsistent` |
| Game.Engine.constructor | 2D-version/main.cpp:944-945 | the globals' initial values (2D-version/main.cpp:14-64) followed by resetGame and the first clock reading: a new session on the menu screen with the car, not dragging, with the clock read |
| Game.Engine.ResetObstacles | 2D-version/main.cpp:89-93 | every slot deactivated, nothing else in a slot changed |
| Game.Engine.ResetGame | 2D-version/main.cpp:95-107 | the state becomes Reset of the old state: a new session, with the invariant established |
| Game.Engine.ResetClocks | 2D-version/main.cpp:97-103 | score, elapsed time, timer and the three last-step times set to 0, nothing else changed |
| Game.Engine.ResetDifficulty | 2D-version/main.cpp:101-106 | speed 5, spawn interval 1, player at the start, nothing else changed |
| Game.Engine.SpawnObstacle | 2D-version/main.cpp:110-121 | the array becomes the first-fit spawn of its old contents |
| Game.Engine.AdvanceObstacles | 2D-version/main.cpp:765-772 | the array becomes its old contents moved by dy, with off-screen obstacles retired |
| Game.Engine.AwardScore | 2D-version/main.cpp:753-756 | the score loop's effect is exactly Awarded: StepsDue points, award time moved by that many intervals |
| Game.Engine.RaiseSpeed | 2D-version/main.cpp:760-763 | the speed loop's effect is exactly SpeedRaised |
| Game.Engine.AccelerateSpawns | 2D-version/main.cpp:773-776 | the spawn-rate loop's effect is exactly SpawnsAccelerated |
| Game.Engine.CountDownSpawn | 2D-version/main.cpp:779-783 | the countdown's effect is exactly CountedDown |
| Game.Engine.AdvanceTime | 2D-version/main.cpp:737-763 | the clock, level, score-interval, score and speed code has the effect of TimeAdvanced |
| Game.Engine.AdvanceHazards | 2D-version/main.cpp:765-791 | the motion, spawn-rate, spawn and collision code has the effect of HazardsAdvanced |
| Game.Engine.Step | 2D-version/main.cpp:735-795 | the body of update while playing has the effect of Stepped |
| Game.Engine.Tick | 2D-version/main.cpp:727-799 | update: dt clamped at 0, then the clock reading is stored, and the state changes only while playing; the invariant is kept |
| Game.Engine.Keyboard | 2D-version/main.cpp:802-813 | quits exactly on Escape; Space on the game-over screen goes to character select; nothing else changes |
| Game.Engine.SpecialKeyboard | 2D-version/main.cpp:815-828 | an arrow moves the player by 15 pixels, clamped, only while playing; other keys and other screens change nothing |
| Game.Engine.Mouse | 2D-version/main.cpp:830-905 | while playing, a left press moves the player under the mouse and starts a drag, and a release ends it. On the menu a left press on Start goes to character select and on Exit quits. On character select a click on a card resets the session and starts a game with that card's character. Everything else changes nothing |
| Game.Engine.MouseMotion | 2D-version/main.cpp:906-917 | during a drag in a game the player follows the mouse, clamped; otherwise nothing changes |

## Left out

- Drawing (every `draw*` function, `display`, `reshape`, text layout) is not modelled: it does not change the game state.
- The GLUT event loop and timer re-arming, window creation, the callback registration in `main` and `srand(time(NULL))` are not modelled; of `main`, only `resetGame(); lastTimeMs = glutGet(...)` (2D-version/main.cpp:944-945) is, as `Engine.constructor`. The clock reading and each `rand()` value are parameters of `Engine.Tick` and `Pool.Spawned`.
- `exit(0)` is not modelled as ending the process. Escape and the Exit button return `quit == true`, and the state is left as it was.
- Floating point: `float` arithmetic is modelled as exact real arithmetic. Rounding in `scoreInterval *= 0.5f`, `spawnInterval /= 1.5f` and `lastScoreTime += scoreInterval` is not captured.
- Game.Engine.AwardScore: its termination rests on exact reals. In `float`, from level 16 on (elapsed time of 480 s or more) the score interval 2^-16 is at most half an ulp of `lastScoreTime` (an ulp is 2^-15 between 256 and 512), so `lastScoreTime += scoreInterval` (2D-version/main.cpp:755) can leave it unchanged and the loop at 2D-version/main.cpp:753 then never ends; the model's loop always ends after `StepsDue` rounds.
- The `int` score is unbounded in the model. The 32-bit overflow after about 2^31 points is not modelled.
- `GAME_DURATION` is declared and never used, so it is not part of this model.
- `isDragging` only gates `mouseMotion`; it has no other effect, and none is modelled.
- Shields, power-ups and lanes exist only in the 3D version (Avoiding Obstacles game 3D/main.cpp:30-59), not in 2D-version/main.cpp; the 3D version is not part of this model.
- The spawn interval has no lower bound. The 3D version floors it at 0.1 s (Avoiding Obstacles game 3D/main.cpp:1524, `if (spawnInterval < 0.1f) spawnInterval = 0.1f;`); the 2D loop at 2D-version/main.cpp:773-776 has no floor. The model follows the 2D code, and `Difficulty.NoSpawnFloor` proves the interval drops below 0.1 s.

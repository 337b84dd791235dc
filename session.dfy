/** The game session as a value: everything the 2D game's globals hold,
    the invariant they keep, and the per-tick update and resetGame as
    functions on it. The Engine class keeps the same state in fields and an
    array; its methods are specified by these functions. */
module Session {
  import opened Geometry
  import opened Pool
  import opened Difficulty
  import opened Menus

  datatype GameState = Menu | CharSelect | Playing | GameOver

  /** The special keys the game reacts to; any other special key is OtherKey. */
  datatype SpecialKey = LeftKey | RightKey | OtherKey
  datatype MouseButton = LeftButton | MiddleButton | RightButton
  datatype ButtonState = Down | Up

  const Escape: char := 27 as char
  const Space: char := ' '

  /** The globals except the clock reading of the last tick, together with
      the number of speed steps and spawn steps taken since the session
      started (the program does not count these; they name the staircases). */
  datatype Snapshot = Snapshot(
    state: GameState, character: Character,
    playerX: real, playerY: real, dragging: bool,
    obstacles: seq<Obstacle>,
    gameSpeed: real, spawnInterval: real, spawnTimer: real,
    elapsedTime: real, lastScoreTime: real, lastSpeedIncreaseTime: real,
    score: int, lastSpawnIncreaseTime: real,
    speedSteps: nat, spawnSteps: nat)

  /** The seconds a tick advances, from two readings of the millisecond clock;
      a clock that went backwards gives 0. */
  function TickSeconds(nowMs: int, lastMs: int): (dt: real)
    ensures dt >= 0.0
    ensures nowMs >= lastMs ==> dt * 1000.0 == (nowMs - lastMs) as real
    ensures nowMs <= lastMs ==> dt == 0.0
  {
    var dt := (nowMs - lastMs) as real / 1000.0;
    if dt < 0.0 then 0.0 else dt
  }

  /** The score is never behind by a whole score interval. */
  predicate ScoreOk(s: Snapshot) {
    && s.score >= 0
    && 0.0 <= s.lastScoreTime <= s.elapsedTime < s.lastScoreTime + ScoreIntervalAt(s.elapsedTime)
  }

  /** The speed staircase: one +2 step per 15 seconds taken, none owed. */
  predicate SpeedOk(s: Snapshot) {
    && s.lastSpeedIncreaseTime == 15.0 * s.speedSteps as real
    && s.gameSpeed == 5.0 + 2.0 * s.speedSteps as real
    && s.lastSpeedIncreaseTime <= s.elapsedTime < s.lastSpeedIncreaseTime + 15.0
  }

  /** The spawn staircase, except that a step may be owed. */
  predicate SpawnStepsTaken(s: Snapshot) {
    && s.lastSpawnIncreaseTime == 30.0 * s.spawnSteps as real
    && s.spawnInterval == Accelerated(1.0, s.spawnSteps)
    && s.lastSpawnIncreaseTime <= s.elapsedTime
  }

  /** The spawn staircase: one /1.5 step per 30 seconds taken, none owed. */
  predicate SpawnOk(s: Snapshot) {
    SpawnStepsTaken(s) && s.elapsedTime < s.lastSpawnIncreaseTime + 30.0
  }

  /** What holds between ticks in every reachable state. */
  predicate Consistent(s: Snapshot) {
    && WellFormedPool(s.obstacles)
    && 0.0 <= s.playerX <= MaxPlayerX && s.playerY == PlayerStartY
    && ScoreOk(s) && SpeedOk(s) && SpawnOk(s)
  }

  /** The state resetGame leaves: an empty pool, every counter at its
      initial value and the player at the start position. */
  predicate NewSession(s: Snapshot) {
    && (forall i :: 0 <= i < |s.obstacles| ==> !s.obstacles[i].active)
    && s.score == 0 && s.elapsedTime == 0.0
    && s.lastScoreTime == 0.0 && s.lastSpeedIncreaseTime == 0.0 && s.lastSpawnIncreaseTime == 0.0
    && s.gameSpeed == 5.0 && s.spawnTimer == 0.0 && s.spawnInterval == 1.0
    && s.playerX == PlayerStartX && s.playerY == PlayerStartY
    && s.speedSteps == 0 && s.spawnSteps == 0
  }

  /** resetGame. */
  function Reset(s: Snapshot): Snapshot {
    s.(obstacles := Cleared(s.obstacles), score := 0, elapsedTime := 0.0,
       lastScoreTime := 0.0, lastSpeedIncreaseTime := 0.0, gameSpeed := 5.0,
       spawnTimer := 0.0, lastSpawnIncreaseTime := 0.0, spawnInterval := 1.0,
       playerX := PlayerStartX, playerY := PlayerStartY, speedSteps := 0, spawnSteps := 0)
  }

  /** resetGame starts a new session from any state whose pool has its
      slots: the pool is emptied, the invariant holds, and the screen, the
      character and the drag flag are kept. */
  lemma ResetStartsSession(s: Snapshot)
    requires |s.obstacles| == MaxObs
    ensures var t := Reset(s);
      && NewSession(t) && Consistent(t) && CountActive(t.obstacles) == 0
      && t.state == s.state && t.character == s.character && t.dragging == s.dragging
  {
    ClearedEmpties(s.obstacles);
  }

  /** The score loop, for the score interval in force: one point per whole
      interval owed, the award time advancing by the interval each time. */
  function Awarded(s: Snapshot, interval: real): Snapshot
    requires interval > 0.0
  {
    var k := StepsDue(s.elapsedTime - s.lastScoreTime, interval);
    s.(score := s.score + k, lastScoreTime := s.lastScoreTime + k as real * interval)
  }

  /** The speed loop: +2 for every 15 seconds owed. */
  function SpeedRaised(s: Snapshot): Snapshot {
    var k := StepsDue(s.elapsedTime - s.lastSpeedIncreaseTime, 15.0);
    s.(gameSpeed := s.gameSpeed + 2.0 * k as real,
       lastSpeedIncreaseTime := s.lastSpeedIncreaseTime + k as real * 15.0,
       speedSteps := s.speedSteps + k)
  }

  /** Pixels an obstacle falls in dt seconds at a logical speed: 40 pixels
      per second per unit of speed. */
  function FallDistance(speed: real, dt: real): real {
    speed * 40.0 * dt
  }

  /** The obstacle loop: every obstacle falls for dt seconds at the current
      speed. */
  function ObstaclesMoved(s: Snapshot, dt: real): Snapshot {
    s.(obstacles := Advanced(s.obstacles, FallDistance(s.gameSpeed, dt)))
  }

  /** The spawn-rate loop: the spawn interval divided by 1.5 for every 30
      seconds owed. */
  function SpawnsAccelerated(s: Snapshot): Snapshot {
    var k := StepsDue(s.elapsedTime - s.lastSpawnIncreaseTime, 30.0);
    s.(spawnInterval := Accelerated(s.spawnInterval, k),
       lastSpawnIncreaseTime := s.lastSpawnIncreaseTime + k as real * 30.0,
       spawnSteps := s.spawnSteps + k)
  }

  /** The spawn countdown: when the timer runs out, one spawn and a restart
      from the spawn interval. */
  function CountedDown(s: Snapshot, dt: real, r: nat): Snapshot {
    var timer := s.spawnTimer - dt;
    if timer <= 0.0 then s.(obstacles := SpawnInto(s.obstacles, r), spawnTimer := s.spawnInterval)
    else s.(spawnTimer := timer)
  }

  /** The collision scan: any overlap ends the game. */
  function Judged(s: Snapshot): Snapshot {
    if AnyCollision(s.playerX, s.playerY, s.obstacles) then s.(state := GameOver) else s
  }

  /** The first half of a tick: the clock, the score loop for the score
      interval in force at the new time, and the speed loop. */
  function TimeAdvanced(s: Snapshot, dt: real): Snapshot {
    var clocked := s.(elapsedTime := s.elapsedTime + dt);
    SpeedRaised(Awarded(clocked, ScoreIntervalAt(clocked.elapsedTime)))
  }

  /** The second half: obstacle motion, the spawn-rate loop, the spawn
      countdown and the collision scan. */
  function HazardsAdvanced(s: Snapshot, dt: real, r: nat): Snapshot {
    Judged(CountedDown(SpawnsAccelerated(ObstaclesMoved(s, dt)), dt, r))
  }

  /** The body of update while a game is on, for a tick of dt seconds: the
      clock, then the six stages in the program's order. */
  function Stepped(s: Snapshot, dt: real, r: nat): Snapshot {
    HazardsAdvanced(TimeAdvanced(s, dt), dt, r)
  }

  /** update: outside a game a tick changes nothing but the clock reading. */
  function Ticked(s: Snapshot, dt: real, r: nat): Snapshot {
    if s.state == Playing then Stepped(s, dt, r) else s
  }

  /** The score loop pays exactly the whole intervals owed: the points
      gained are k with k * interval <= gap < (k + 1) * interval for the gap
      since the last award, and afterwards less than one interval is owed. */
  lemma AwardedScore(s: Snapshot, interval: real)
    requires interval > 0.0 && s.lastScoreTime <= s.elapsedTime
    ensures var t := Awarded(s, interval);
      var gained := t.score - s.score;
      && gained >= 0
      && gained as real * interval <= s.elapsedTime - s.lastScoreTime < (gained + 1) as real * interval
      && t.lastScoreTime == s.lastScoreTime + gained as real * interval
      && s.lastScoreTime <= t.lastScoreTime <= s.elapsedTime < t.lastScoreTime + interval
      && t == s.(score := t.score, lastScoreTime := t.lastScoreTime)
  {
    var gap := s.elapsedTime - s.lastScoreTime;
    StepsDueBounds(gap, interval);
    MulSucc(0, interval);
    CatchUp(s.lastScoreTime, s.elapsedTime, interval);
  }

  /** The speed loop pays every speed step owed. */
  lemma SpeedRaisedKeepsStaircase(s: Snapshot)
    requires s.lastSpeedIncreaseTime == 15.0 * s.speedSteps as real
    requires s.gameSpeed == 5.0 + 2.0 * s.speedSteps as real
    requires s.lastSpeedIncreaseTime <= s.elapsedTime
    ensures var t := SpeedRaised(s);
      SpeedOk(t) && t.gameSpeed >= s.gameSpeed
      && t == s.(gameSpeed := t.gameSpeed, lastSpeedIncreaseTime := t.lastSpeedIncreaseTime,
                 speedSteps := t.speedSteps)
  {
    CatchUp(s.lastSpeedIncreaseTime, s.elapsedTime, 15.0);
  }

  /** Moving keeps the pool well formed and never adds an obstacle. */
  lemma ObstaclesMovedKeepsPool(s: Snapshot, dt: real)
    requires WellFormedPool(s.obstacles)
    ensures var t := ObstaclesMoved(s, dt);
      WellFormedPool(t.obstacles) && CountActive(t.obstacles) <= CountActive(s.obstacles)
  {
    AdvancedNeverAddsActive(s.obstacles, FallDistance(s.gameSpeed, dt));
  }

  /** The spawn-rate loop pays every spawn step owed and never lengthens the
      interval. */
  lemma SpawnsAcceleratedKeepsStaircase(s: Snapshot)
    requires SpawnStepsTaken(s)
    ensures var t := SpawnsAccelerated(s);
      SpawnOk(t) && t.spawnInterval <= s.spawnInterval
      && t == s.(spawnInterval := t.spawnInterval, lastSpawnIncreaseTime := t.lastSpawnIncreaseTime,
                 spawnSteps := t.spawnSteps)
  {
    var k := StepsDue(s.elapsedTime - s.lastSpawnIncreaseTime, 30.0);
    CatchUp(s.lastSpawnIncreaseTime, s.elapsedTime, 30.0);
    AcceleratedAdd(1.0, s.spawnSteps, k);
  }

  /** The countdown spawns at most one obstacle, first fit, and only when
      the timer runs out, restarting it from the spawn interval; the pool
      stays well formed and never overflows. */
  lemma CountedDownSpawnsAtMostOne(s: Snapshot, dt: real, r: nat)
    requires WellFormedPool(s.obstacles)
    ensures var t := CountedDown(s, dt, r);
      && WellFormedPool(t.obstacles)
      && CountActive(t.obstacles) <= CountActive(s.obstacles) + 1
      && CountActive(t.obstacles) <= MaxObs
      && (s.spawnTimer - dt > 0.0 ==> t == s.(spawnTimer := s.spawnTimer - dt))
      && (s.spawnTimer - dt <= 0.0 ==> t.obstacles == SpawnInto(s.obstacles, r) && t.spawnTimer == s.spawnInterval)
      && (s.spawnTimer - dt <= 0.0 ==> t == s.(obstacles := SpawnInto(s.obstacles, r), spawnTimer := s.spawnInterval))
  {
    SpawnIntoFirstFit(s.obstacles, r);
    CountActiveBound(s.obstacles);
  }

  /** The scan ends a game exactly when the player box overlaps an obstacle,
      and changes nothing else. */
  lemma JudgedEndsOnCollision(s: Snapshot)
    requires s.state == Playing
    ensures var t := Judged(s);
      && (t.state == GameOver <==> exists i :: 0 <= i < |s.obstacles| && CheckCollision(s.playerX, s.playerY, s.obstacles[i]))
      && (t.state == GameOver || t.state == Playing)
      && t == s.(state := t.state)
  {
  }

  /** The first half of a tick pays every score point and speed step owed
      at the new time, leaving the spawn steps possibly owed, and touches
      neither the pool nor the player. */
  lemma TimeAdvancedKeepsStaircases(s: Snapshot, dt: real)
    requires Consistent(s) && dt >= 0.0
    ensures var t := TimeAdvanced(s, dt);
      && ScoreOk(t) && SpeedOk(t) && SpawnStepsTaken(t)
      && t.obstacles == s.obstacles && t.playerX == s.playerX && t.playerY == s.playerY
      && t.state == s.state && t.spawnTimer == s.spawnTimer
  {
    var clocked := s.(elapsedTime := s.elapsedTime + dt);
    var interval := ScoreIntervalAt(clocked.elapsedTime);
    var scored := Awarded(clocked, interval);
    AwardedScore(clocked, interval);
    SpeedRaisedKeepsStaircase(scored);
  }

  /** The second half of a tick pays the spawn steps owed and keeps the pool
      well formed, so it restores the invariant. */
  lemma HazardsAdvancedKeepsConsistent(s: Snapshot, dt: real, r: nat)
    requires ScoreOk(s) && SpeedOk(s) && SpawnStepsTaken(s) && WellFormedPool(s.obstacles)
    requires 0.0 <= s.playerX <= MaxPlayerX && s.playerY == PlayerStartY
    ensures Consistent(HazardsAdvanced(s, dt, r))
  {
    var moved := ObstaclesMoved(s, dt);
    ObstaclesMovedKeepsPool(s, dt);
    var accelerated := SpawnsAccelerated(moved);
    SpawnsAcceleratedKeepsStaircase(moved);
    var counted := CountedDown(accelerated, dt, r);
    CountedDownSpawnsAtMostOne(accelerated, dt, r);
    assert ScoreOk(counted) && SpeedOk(counted) && SpawnOk(counted);
  }

  /** A tick of a game in progress keeps the invariant. */
  lemma StepKeepsConsistent(s: Snapshot, dt: real, r: nat)
    requires Consistent(s) && dt >= 0.0
    ensures Consistent(Stepped(s, dt, r))
  {
    TimeAdvancedKeepsStaircases(s, dt);
    HazardsAdvancedKeepsConsistent(TimeAdvanced(s, dt), dt, r);
  }

  /** Every tick keeps the invariant. */
  lemma TickKeepsConsistent(s: Snapshot, dt: real, r: nat)
    requires Consistent(s) && dt >= 0.0
    ensures Consistent(Ticked(s, dt, r))
  {
    if s.state == Playing {
      StepKeepsConsistent(s, dt, r);
    }
  }

  /** At most one obstacle is spawned per tick, and the pool never
      overflows. */
  lemma StepSpawnsAtMostOne(s: Snapshot, dt: real, r: nat)
    requires Consistent(s) && dt >= 0.0
    ensures var t := Stepped(s, dt, r);
      CountActive(t.obstacles) <= CountActive(s.obstacles) + 1 && CountActive(t.obstacles) <= MaxObs
  {
    var raised := TimeAdvanced(s, dt);
    TimeAdvancedKeepsStaircases(s, dt);
    var moved := ObstaclesMoved(raised, dt);
    ObstaclesMovedKeepsPool(raised, dt);
    var accelerated := SpawnsAccelerated(moved);
    var counted := CountedDown(accelerated, dt, r);
    CountedDownSpawnsAtMostOne(accelerated, dt, r);
    assert Stepped(s, dt, r).obstacles == counted.obstacles;
  }

  /** The score never falls over a tick. */
  lemma StepScoreMonotone(s: Snapshot, dt: real, r: nat)
    requires Consistent(s) && dt >= 0.0
    ensures Stepped(s, dt, r).score >= s.score
  {
    var clocked := s.(elapsedTime := s.elapsedTime + dt);
    AwardedScore(clocked, ScoreIntervalAt(clocked.elapsedTime));
  }

  /** A tick of a game in progress ends it exactly when the player box
      overlaps an obstacle after the move and the spawn; the player, the
      character and the drag flag are not touched. */
  lemma StepEndsOnCollision(s: Snapshot, dt: real, r: nat)
    requires s.state == Playing
    ensures var t := Stepped(s, dt, r);
      && (t.state == GameOver <==> exists i :: 0 <= i < |t.obstacles| && CheckCollision(s.playerX, s.playerY, t.obstacles[i]))
      && (t.state == GameOver || t.state == Playing)
      && t.playerX == s.playerX && t.playerY == s.playerY
      && t.character == s.character && t.dragging == s.dragging
  {
  }

  /** The speed staircase in closed form: 5 + 2 * floor(elapsed / 15), and
      the last increase at 15 * floor(elapsed / 15). */
  lemma SpeedClosedForm(s: Snapshot)
    requires Consistent(s)
    ensures var k := StepsDue(s.elapsedTime, 15.0);
      s.gameSpeed == 5.0 + 2.0 * k as real
      && s.lastSpeedIncreaseTime == 15.0 * k as real
  {
    StepsDueUnique(s.elapsedTime, 15.0, s.speedSteps);
  }

  /** The spawn-rate staircase in closed form: 1 / 1.5^floor(elapsed / 30). */
  lemma SpawnClosedForm(s: Snapshot)
    requires Consistent(s)
    ensures var k := StepsDue(s.elapsedTime, 30.0);
      s.spawnInterval == 1.0 / Pow(1.5, k)
      && s.lastSpawnIncreaseTime == 30.0 * k as real
  {
    StepsDueUnique(s.elapsedTime, 30.0, s.spawnSteps);
    AcceleratedIsPower(1.0, s.spawnSteps);
  }

  /** Three speed steps by 45 seconds: speed 5 + 3 * 2. */
  lemma SpeedAt45(s: Snapshot)
    requires Consistent(s) && s.elapsedTime == 45.0
    ensures s.gameSpeed == 11.0
  {
    SpeedClosedForm(s);
    StepsDueUnique(45.0, 15.0, 3);
  }

  /** Between 30 and 60 seconds a point is scored every half second. */
  lemma ScoreIntervalSecondLevel(e: real)
    requires 30.0 <= e < 60.0
    ensures ScoreIntervalAt(e) == 0.5
  {
    assert Level(e) == 1;
  }
}

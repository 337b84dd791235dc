/** The simulation engine of the 2D game: one object holding the program's
    global state, with the per-tick update and the input handlers as its
    methods. Each method is specified by the functions on Snapshot in module
    Session; the clock reading and the value of rand() are parameters, and
    process exit is reported as a `quit` result. */
module Game {
  import opened Wrappers
  import opened Geometry
  import opened Pool
  import opened Difficulty
  import opened Menus
  import opened Session

  class Engine {
    var gameState: GameState
    var currentCharacter: Character
    var playerX: real
    var playerY: real
    var isDragging: bool
    var obstacles: array<Obstacle>
    var gameSpeed: real
    var spawnInterval: real
    var spawnTimer: real
    var lastTimeMs: int
    var elapsedTime: real
    var lastScoreTime: real
    var lastSpeedIncreaseTime: real
    var score: int
    var lastSpawnIncreaseTime: real

    /** Speed steps and spawn steps taken since the session started. */
    ghost var speedSteps: nat
    ghost var spawnSteps: nat

    /** The engine's state as a value. */
    ghost function View(): Snapshot
      reads this, obstacles
    {
      Snapshot(gameState, currentCharacter, playerX, playerY, isDragging, obstacles[..],
               gameSpeed, spawnInterval, spawnTimer, elapsedTime, lastScoreTime,
               lastSpeedIncreaseTime, score, lastSpawnIncreaseTime, speedSteps, spawnSteps)
    }

    ghost predicate Valid()
      reads this, obstacles
    {
      obstacles.Length == MaxObs && Consistent(View())
    }

    /** The program's start: the globals' initial values, then resetGame and
        the first clock reading. */
    constructor (nowMs: int)
      ensures Valid() && NewSession(View()) && fresh(obstacles)
      ensures gameState == Menu && currentCharacter == Car && !isDragging
      ensures lastTimeMs == nowMs
    {
      gameState := Menu;
      currentCharacter := Car;
      playerX := PlayerStartX;
      playerY := PlayerStartY;
      isDragging := false;
      obstacles := new Obstacle[MaxObs](_ => Obstacle(0.0, 0.0, 0.0, 0.0, false));
      gameSpeed := 5.0;
      spawnInterval := 1.0;
      spawnTimer := 0.0;
      lastTimeMs := 0;
      elapsedTime := 0.0;
      lastScoreTime := 0.0;
      lastSpeedIncreaseTime := 0.0;
      score := 0;
      lastSpawnIncreaseTime := 0.0;
      speedSteps := 0;
      spawnSteps := 0;
      new;
      ResetGame();
      lastTimeMs := nowMs;
    }

    /** resetObstacles: every slot inactive. */
    method ResetObstacles()
      requires obstacles.Length == MaxObs
      modifies obstacles
      ensures obstacles[..] == Cleared(old(obstacles[..]))
    {
      for i := 0 to MaxObs
        invariant forall j :: 0 <= j < i ==> obstacles[j] == old(obstacles[j]).(active := false)
        invariant forall j :: i <= j < MaxObs ==> obstacles[j] == old(obstacles[j])
      {
        obstacles[i] := obstacles[i].(active := false);
      }
    }

    /** resetGame: starts a new session; the screen state, the character,
        the drag flag and the clock reading are left as they are. */
    method ResetGame()
      requires obstacles.Length == MaxObs
      modifies this, obstacles
      ensures View() == Reset(old(View())) && obstacles == old(obstacles)
      ensures Valid() && NewSession(View()) && lastTimeMs == old(lastTimeMs)
    {
      ghost var s := View();
      ResetObstacles();
      assert View() == s.(obstacles := Cleared(s.obstacles));
      ResetClocks();
      ResetDifficulty();
      ResetStartsSession(s);
    }

    /** The clock and score assignments of resetGame. */
    method ResetClocks()
      modifies this`score, this`elapsedTime, this`lastScoreTime, this`lastSpeedIncreaseTime,
               this`spawnTimer, this`lastSpawnIncreaseTime
      ensures View() == old(View()).(score := 0, elapsedTime := 0.0, lastScoreTime := 0.0,
        lastSpeedIncreaseTime := 0.0, spawnTimer := 0.0, lastSpawnIncreaseTime := 0.0)
    {
      ghost var s := View();
      score := 0;
      elapsedTime := 0.0;
      lastScoreTime := 0.0;
      lastSpeedIncreaseTime := 0.0;
      spawnTimer := 0.0;
      lastSpawnIncreaseTime := 0.0;
      assert View() == s.(score := 0, elapsedTime := 0.0, lastScoreTime := 0.0,
        lastSpeedIncreaseTime := 0.0, spawnTimer := 0.0, lastSpawnIncreaseTime := 0.0);
    }

    /** The difficulty and player assignments of resetGame. */
    method ResetDifficulty()
      modifies this`gameSpeed, this`spawnInterval, this`playerX, this`playerY,
               this`speedSteps, this`spawnSteps
      ensures View() == old(View()).(gameSpeed := 5.0, spawnInterval := 1.0,
        playerX := PlayerStartX, playerY := PlayerStartY, speedSteps := 0, spawnSteps := 0)
    {
      ghost var s := View();
      gameSpeed := 5.0;
      spawnInterval := 1.0;
      playerX := PlayerStartX;
      playerY := PlayerStartY;
      speedSteps := 0;
      spawnSteps := 0;
      assert View() == s.(gameSpeed := 5.0, spawnInterval := 1.0,
        playerX := PlayerStartX, playerY := PlayerStartY, speedSteps := 0, spawnSteps := 0);
    }

    /** spawnObstacle: first fit into the pool, for the random value r. */
    method SpawnObstacle(r: nat)
      requires obstacles.Length == MaxObs
      modifies obstacles
      ensures obstacles[..] == SpawnInto(old(obstacles[..]), r)
    {
      var i := 0;
      while i < MaxObs
        invariant 0 <= i <= MaxObs
        invariant obstacles[..] == old(obstacles[..])
        invariant forall j :: 0 <= j < i ==> obstacles[j].active
      {
        if !obstacles[i].active {
          obstacles[i] := Spawned(r);
          break;
        }
        i := i + 1;
      }
    }

    /** The obstacle loop of a tick: active obstacles fall by dy pixels and
        retire below the window. */
    method AdvanceObstacles(dy: real)
      requires obstacles.Length == MaxObs
      modifies obstacles
      ensures obstacles[..] == Advanced(old(obstacles[..]), dy)
    {
      for i := 0 to MaxObs
        invariant forall j :: 0 <= j < i ==> obstacles[j] == Moved(old(obstacles[j]), dy)
        invariant forall j :: i <= j < MaxObs ==> obstacles[j] == old(obstacles[j])
      {
        if !obstacles[i].active {
          continue;
        }
        obstacles[i] := obstacles[i].(y := obstacles[i].y - dy);
        if obstacles[i].y + obstacles[i].h < 0.0 {
          obstacles[i] := obstacles[i].(active := false);
        }
      }
    }

    /** The score loop of a tick. */
    method AwardScore(interval: real)
      requires interval > 0.0
      modifies this`score, this`lastScoreTime
      ensures View() == Awarded(old(View()), interval)
    {
      ghost var due := StepsDue(elapsedTime - lastScoreTime, interval);
      ghost var k: nat := 0;
      while elapsedTime - lastScoreTime >= interval
        invariant lastScoreTime == old(lastScoreTime) + k as real * interval
        invariant score == old(score) + k
        invariant k + StepsDue(elapsedTime - lastScoreTime, interval) == due
        decreases StepsDue(elapsedTime - lastScoreTime, interval)
      {
        assert elapsedTime - (lastScoreTime + interval) == (elapsedTime - lastScoreTime) - interval;
        MulSucc(k, interval);
        score := score + 1;
        lastScoreTime := lastScoreTime + interval;
        k := k + 1;
      }
    }

    /** The speed loop of a tick. */
    method RaiseSpeed()
      modifies this`gameSpeed, this`lastSpeedIncreaseTime, this`speedSteps
      ensures View() == SpeedRaised(old(View()))
    {
      ghost var due := StepsDue(elapsedTime - lastSpeedIncreaseTime, 15.0);
      ghost var k: nat := 0;
      while elapsedTime - lastSpeedIncreaseTime >= 15.0
        invariant lastSpeedIncreaseTime == old(lastSpeedIncreaseTime) + k as real * 15.0
        invariant gameSpeed == old(gameSpeed) + 2.0 * k as real
        invariant speedSteps == old(speedSteps) + k
        invariant k + StepsDue(elapsedTime - lastSpeedIncreaseTime, 15.0) == due
        decreases StepsDue(elapsedTime - lastSpeedIncreaseTime, 15.0)
      {
        assert elapsedTime - (lastSpeedIncreaseTime + 15.0) == (elapsedTime - lastSpeedIncreaseTime) - 15.0;
        gameSpeed := gameSpeed + 2.0;
        lastSpeedIncreaseTime := lastSpeedIncreaseTime + 15.0;
        speedSteps := speedSteps + 1;
        k := k + 1;
      }
    }

    /** The spawn-rate loop of a tick. */
    method AccelerateSpawns()
      modifies this`spawnInterval, this`lastSpawnIncreaseTime, this`spawnSteps
      ensures View() == SpawnsAccelerated(old(View()))
    {
      ghost var due := StepsDue(elapsedTime - lastSpawnIncreaseTime, 30.0);
      ghost var k: nat := 0;
      while elapsedTime - lastSpawnIncreaseTime >= 30.0
        invariant lastSpawnIncreaseTime == old(lastSpawnIncreaseTime) + k as real * 30.0
        invariant spawnInterval == Accelerated(old(spawnInterval), k)
        invariant spawnSteps == old(spawnSteps) + k
        invariant k + StepsDue(elapsedTime - lastSpawnIncreaseTime, 30.0) == due
        decreases StepsDue(elapsedTime - lastSpawnIncreaseTime, 30.0)
      {
        assert elapsedTime - (lastSpawnIncreaseTime + 30.0) == (elapsedTime - lastSpawnIncreaseTime) - 30.0;
        spawnInterval := spawnInterval / 1.5;
        lastSpawnIncreaseTime := lastSpawnIncreaseTime + 30.0;
        spawnSteps := spawnSteps + 1;
        k := k + 1;
      }
    }

    /** The spawn countdown of a tick. */
    method CountDownSpawn(dt: real, r: nat)
      requires obstacles.Length == MaxObs
      modifies this`spawnTimer, obstacles
      ensures View() == CountedDown(old(View()), dt, r)
    {
      spawnTimer := spawnTimer - dt;
      if spawnTimer <= 0.0 {
        SpawnObstacle(r);
        spawnTimer := spawnInterval;
      }
    }

    /** The first half of update while a game is on: the clock, the score
        and the speed. */
    method AdvanceTime(dt: real)
      modifies this`elapsedTime, this`score, this`lastScoreTime,
               this`gameSpeed, this`lastSpeedIncreaseTime, this`speedSteps
      ensures View() == TimeAdvanced(old(View()), dt)
    {
      ghost var s := View();
      elapsedTime := elapsedTime + dt;
      ghost var clocked := View();
      assert clocked == s.(elapsedTime := s.elapsedTime + dt);
      var level := CastLevel(elapsedTime);
      CastLevelIsLevel(elapsedTime);
      var scoreInterval := ScoreInterval(level);
      assert scoreInterval == ScoreIntervalAt(clocked.elapsedTime);
      AwardScore(scoreInterval);
      ghost var scored := View();
      assert scored == Awarded(clocked, ScoreIntervalAt(clocked.elapsedTime));
      RaiseSpeed();
      assert View() == SpeedRaised(scored);
    }

    /** The second half: obstacle motion, spawn rate, spawning, and the
        collision scan that ends the game. */
    method AdvanceHazards(dt: real, r: nat)
      requires obstacles.Length == MaxObs
      modifies this`spawnInterval, this`lastSpawnIncreaseTime, this`spawnSteps,
               this`spawnTimer, this`gameState, obstacles
      ensures View() == HazardsAdvanced(old(View()), dt, r)
    {
      ghost var s := View();
      var pixelSpeed := gameSpeed * 40.0;
      assert pixelSpeed * dt == FallDistance(gameSpeed, dt);
      AdvanceObstacles(pixelSpeed * dt);
      ghost var moved := View();
      assert moved == ObstaclesMoved(s, dt);
      AccelerateSpawns();
      ghost var accelerated := View();
      assert accelerated == SpawnsAccelerated(moved);
      CountDownSpawn(dt, r);
      ghost var counted := View();
      assert counted == CountedDown(accelerated, dt, r);
      var hit := FirstCollision(obstacles, playerX, playerY);
      if hit.Some? {
        gameState := GameOver;
      }
      assert View() == Judged(counted);
    }

    /** The body of update while a game is on, for a tick of dt seconds. */
    method Step(dt: real, r: nat)
      requires obstacles.Length == MaxObs
      modifies this, obstacles
      ensures View() == Stepped(old(View()), dt, r)
      ensures obstacles == old(obstacles) && lastTimeMs == old(lastTimeMs)
    {
      AdvanceTime(dt);
      AdvanceHazards(dt, r);
    }

    /** update: one tick for the clock reading nowMs, with r the value rand()
        gives if an obstacle is spawned. */
    method Tick(nowMs: int, r: nat)
      requires Valid()
      modifies this, obstacles
      ensures Valid() && obstacles == old(obstacles) && lastTimeMs == nowMs
      ensures View() == Ticked(old(View()), TickSeconds(nowMs, old(lastTimeMs)), r)
    {
      var dt := TickSeconds(nowMs, lastTimeMs);
      lastTimeMs := nowMs;
      if gameState == Playing {
        StepKeepsConsistent(View(), dt, r);
        Step(dt, r);
      }
    }

    /** keyboard: Escape quits; Space on the game-over screen goes back to
        character selection. */
    method Keyboard(key: char) returns (quit: bool)
      requires Valid()
      modifies this`gameState
      ensures Valid()
      ensures quit <==> key == Escape
      ensures gameState == if !quit && old(gameState) == GameOver && key == Space then CharSelect
                           else old(gameState)
    {
      if key == Escape {
        return true;
      }
      quit := false;
      if gameState == GameOver && key == Space {
        gameState := CharSelect;
      }
    }

    /** specialKeyboard: an arrow key moves the player one step, clamped to the
        window, while a game is on. */
    method SpecialKeyboard(key: SpecialKey)
      requires Valid()
      modifies this`playerX
      ensures Valid()
      ensures old(gameState) != Playing || key == OtherKey ==> playerX == old(playerX)
      ensures old(gameState) == Playing && key == LeftKey ==> playerX == ClampX(old(playerX) - ArrowStep)
      ensures old(gameState) == Playing && key == RightKey ==> playerX == ClampX(old(playerX) + ArrowStep)
    {
      if gameState != Playing {
        return;
      }
      if key == LeftKey {
        playerX := StepLeft(playerX);
      } else if key == RightKey {
        playerX := StepRight(playerX);
      }
    }

    /** mouse: while playing, a left press puts the player under the mouse
        and starts a drag and a left release ends it; on the menu and the
        character screen a left press is hit-tested against the buttons and
        the cards. y is GLUT's, measured down from the top. */
    method Mouse(button: MouseButton, state: ButtonState, x: int, y: int) returns (quit: bool)
      requires Valid()
      modifies this, obstacles
      ensures Valid() && obstacles == old(obstacles) && lastTimeMs == old(lastTimeMs)
      ensures quit <==> old(gameState) == Menu && button == LeftButton && state == Down
                        && MenuButtonAt(x, WindowHeight - y) == ExitButton
      ensures old(gameState) == Playing ==>
        View() == if button != LeftButton then old(View())
                  else if state == Down then old(View()).(playerX := FollowMouse(x), dragging := true)
                  else old(View()).(dragging := false)
      ensures old(gameState) != Playing && !(button == LeftButton && state == Down) ==> View() == old(View())
      ensures old(gameState) == Menu && button == LeftButton && state == Down ==>
        View() == if MenuButtonAt(x, WindowHeight - y) == StartButton then old(View()).(state := CharSelect)
                  else old(View())
      ensures old(gameState) == CharSelect && button == LeftButton && state == Down ==>
        View() == match CardAt(x, WindowHeight - y)
                  case None => old(View())
                  case Some(c) => Reset(old(View())).(state := Playing, character := c)
      ensures old(gameState) == GameOver ==> View() == old(View())
    {
      var my := WindowHeight - y;
      quit := false;

      if gameState == Playing {
        if button == LeftButton {
          if state == Down {
            isDragging := true;
            playerX := FollowMouse(x);
          } else {
            isDragging := false;
          }
        }
        return;
      }

      if button != LeftButton || state != Down {
        return;
      }

      if gameState == Menu {
        match MenuButtonAt(x, my)
        case StartButton =>
          gameState := CharSelect;
        case ExitButton =>
          quit := true;
        case NoButton =>
      } else if gameState == CharSelect {
        match CardAt(x, my)
        case Some(c) =>
          currentCharacter := c;
          ResetGame();
          gameState := Playing;
        case None =>
      }
    }

    /** mouseMotion: during a drag in a game, the player follows the mouse. */
    method MouseMotion(x: int, y: int)
      requires Valid()
      modifies this`playerX
      ensures Valid()
      ensures playerX == if isDragging && gameState == Playing then FollowMouse(x) else old(playerX)
    {
      if !isDragging || gameState != Playing {
        return;
      }
      playerX := FollowMouse(x);
    }
  }
}

/** Window and player geometry of the 2D game: the constants, the obstacle
    record, the strict box-overlap test and the clamping of the player's X. */
module Geometry {

  const WindowWidth: int := 800
  const WindowHeight: int := 600

  const PlayerW: real := 60.0
  const PlayerH: real := 50.0
  /** Where a new session puts the player: centred horizontally, 40 up. */
  const PlayerStartX: real := WindowWidth as real / 2.0 - PlayerW / 2.0
  const PlayerStartY: real := 40.0
  /** Largest X that keeps the player box inside the window. */
  const MaxPlayerX: real := WindowWidth as real - PlayerW
  /** Horizontal speed in pixels per second; one arrow key press moves it
      for 0.05 s. */
  const PlayerSpeedPixels: real := 300.0
  const ArrowStep: real := PlayerSpeedPixels * 0.05

  /** One slot of the obstacle pool: box with bottom-left corner (x, y). */
  datatype Obstacle = Obstacle(x: real, y: real, w: real, h: real, active: bool)

  /** The player box, at (px, py) with size PlayerW x PlayerH, and an active
      obstacle box overlap; the comparisons are strict. */
  function CheckCollision(px: real, py: real, o: Obstacle): (hit: bool)
    ensures hit ==> o.active
    ensures o.x == px + PlayerW || o.x + o.w == px ==> !hit
    ensures o.y == py + PlayerH || o.y + o.h == py ==> !hit
  {
    if !o.active then false
    else px < o.x + o.w && px + PlayerW > o.x && py < o.y + o.h && py + PlayerH > o.y
  }

  /** (x, y) lies in the open box with corner (left, bottom) and size w x h. */
  ghost predicate StrictlyInside(x: real, y: real, left: real, bottom: real, w: real, h: real) {
    left < x < left + w && bottom < y < bottom + h
  }

  function Min(a: real, b: real): real { if a <= b then a else b }
  function Max(a: real, b: real): real { if a <= b then b else a }

  /** For an obstacle of positive size, the strict test holds exactly when
      some point lies strictly inside both boxes: boxes that only share an
      edge or a corner do not collide. */
  lemma CollisionMeansSharedInterior(px: real, py: real, o: Obstacle)
    requires o.w > 0.0 && o.h > 0.0
    ensures CheckCollision(px, py, o) <==>
      o.active && exists x, y :: StrictlyInside(x, y, px, py, PlayerW, PlayerH)
                                && StrictlyInside(x, y, o.x, o.y, o.w, o.h)
  {
    if CheckCollision(px, py, o) {
      var x := (Max(px, o.x) + Min(px + PlayerW, o.x + o.w)) / 2.0;
      var y := (Max(py, o.y) + Min(py + PlayerH, o.y + o.h)) / 2.0;
      assert StrictlyInside(x, y, px, py, PlayerW, PlayerH);
      assert StrictlyInside(x, y, o.x, o.y, o.w, o.h);
    }
  }

  /** The two-sided clamp of the mouse handlers: first raise a negative X to
      0, then lower an X whose box passes the right edge to MaxPlayerX. */
  function ClampX(x: real): (r: real)
    ensures 0.0 <= r <= MaxPlayerX
    ensures 0.0 <= x <= MaxPlayerX ==> r == x
    ensures x < 0.0 ==> r == 0.0
    ensures x > MaxPlayerX ==> r == MaxPlayerX
  {
    var lowered := if x < 0.0 then 0.0 else x;
    if lowered + PlayerW > WindowWidth as real then WindowWidth as real - PlayerW else lowered
  }

  /** Left arrow: step by ArrowStep, then clamp only at the left edge. */
  function StepLeft(x: real): (r: real)
    ensures x <= MaxPlayerX ==> r == ClampX(x - ArrowStep)
    ensures 0.0 <= r && (0.0 <= x ==> r <= x)
  {
    var moved := x - ArrowStep;
    if moved < 0.0 then 0.0 else moved
  }

  /** Right arrow: step by ArrowStep, then clamp only at the right edge. */
  function StepRight(x: real): (r: real)
    ensures 0.0 <= x ==> r == ClampX(x + ArrowStep)
    ensures r <= MaxPlayerX && (x <= MaxPlayerX ==> r >= x)
  {
    var moved := x + ArrowStep;
    if moved + PlayerW > WindowWidth as real then WindowWidth as real - PlayerW else moved
  }

  /** The mouse handlers put the player's centre under the mouse. */
  function FollowMouse(mouseX: int): (r: real)
    ensures 0.0 <= r <= MaxPlayerX
    ensures 0.0 <= mouseX as real - PlayerW / 2.0 <= MaxPlayerX ==> r + PlayerW / 2.0 == mouseX as real
  {
    ClampX(mouseX as real - PlayerW / 2.0)
  }
}

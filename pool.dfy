/** The fixed-capacity obstacle pool: first-fit spawning, downward motion with
    retirement off screen, and the first-hit collision scan. Collections here
    are the pool's contents as a sequence; the Engine class keeps them in an
    array and its methods are specified by these functions. */
module Pool {
  import opened Geometry
  import opened Wrappers

  const MaxObs: nat := 20
  const ObstacleW: real := 60.0
  const ObstacleH: real := 30.0

  /** The slot contents of a freshly spawned obstacle, for the random value r
      drawn by rand(): x = r mod (800 - 60), just above the top edge. */
  function Spawned(r: nat): (o: Obstacle)
    ensures o.active && o.w == ObstacleW && o.h == ObstacleH
    ensures 0.0 <= o.x < MaxPlayerX && o.y == WindowHeight as real + ObstacleH
  {
    var w := ObstacleW;
    Obstacle((r % (WindowWidth - w.Floor)) as real, WindowHeight as real + ObstacleH, w, ObstacleH, true)
  }

  /** Every active slot has the size spawning gives it. */
  predicate WellFormed(o: Obstacle) {
    o.active ==> o.w == ObstacleW && o.h == ObstacleH
  }

  /** The pool has its MaxObs slots, each active one of the spawned size. */
  predicate WellFormedPool(s: seq<Obstacle>) {
    |s| == MaxObs && forall i :: 0 <= i < |s| ==> WellFormed(s[i])
  }

  /** resetObstacles on the pool's contents: every slot deactivated. */
  function Cleared(s: seq<Obstacle>): (t: seq<Obstacle>)
    ensures |t| == |s|
  {
    seq(|s|, i requires 0 <= i < |s| => s[i].(active := false))
  }

  /** Some slot's obstacle overlaps the player box at (px, py). */
  predicate AnyCollision(px: real, py: real, s: seq<Obstacle>) {
    exists i :: 0 <= i < |s| && CheckCollision(px, py, s[i])
  }

  /** Index of the lowest inactive slot, or |s| when every slot is active. */
  function FirstInactive(s: seq<Obstacle>): (i: nat)
    ensures i <= |s|
    ensures forall j :: 0 <= j < i ==> s[j].active
    ensures i < |s| ==> !s[i].active
  {
    if |s| == 0 then 0
    else if !s[0].active then 0
    else 1 + FirstInactive(s[1..])
  }

  /** spawnObstacle on the pool's contents: the lowest inactive slot gets a new
      obstacle; a full pool is left as it is. */
  function SpawnInto(s: seq<Obstacle>, r: nat): seq<Obstacle> {
    var i := FirstInactive(s);
    if i < |s| then s[i := Spawned(r)] else s
  }

  function CountActive(s: seq<Obstacle>): nat {
    if |s| == 0 then 0 else (if s[0].active then 1 else 0) + CountActive(s[1..])
  }

  /** One obstacle moved down by dy pixels; it retires once its top edge is
      below the window. Inactive slots are untouched. */
  function Moved(o: Obstacle, dy: real): Obstacle {
    if !o.active then o
    else
      var o' := o.(y := o.y - dy);
      if o'.y + o'.h < 0.0 then o'.(active := false) else o'
  }

  /** The obstacle loop of a tick, on the pool's contents. */
  function Advanced(s: seq<Obstacle>, dy: real): (t: seq<Obstacle>)
    ensures |t| == |s|
  {
    seq(|s|, i requires 0 <= i < |s| => Moved(s[i], dy))
  }

  /** The pool never holds more active obstacles than it has slots. */
  lemma {:induction false} CountActiveBound(s: seq<Obstacle>)
    ensures CountActive(s) <= |s|
    ensures CountActive(s) == |s| <==> forall j :: 0 <= j < |s| ==> s[j].active
  {
    if |s| > 0 {
      CountActiveBound(s[1..]);
      if forall j :: 0 <= j < |s| ==> s[j].active {
        assert forall j :: 0 <= j < |s| - 1 ==> s[1..][j].active by {
          forall j | 0 <= j < |s| - 1 ensures s[1..][j].active { assert s[1..][j] == s[j + 1]; }
        }
      } else if s[0].active {
        var k :| 0 <= k < |s| && !s[k].active;
        assert !s[1..][k - 1].active;
      }
    }
  }

  /** Overwriting one slot changes the count by the difference of the two
      active flags. */
  lemma {:induction false} CountActiveUpdate(s: seq<Obstacle>, i: nat, v: Obstacle)
    requires i < |s|
    ensures CountActive(s[i := v]) + (if s[i].active then 1 else 0)
         == CountActive(s) + (if v.active then 1 else 0)
  {
    if i > 0 {
      assert s[i := v][1..] == s[1..][i - 1 := v];
      CountActiveUpdate(s[1..], i - 1, v);
    } else {
      assert s[i := v][1..] == s[1..];
    }
  }

  /** First fit: a spawn fills exactly the lowest free slot, leaves every other
      slot as it was, and adds one active obstacle; on a full pool it does
      nothing. So the count never passes the capacity. */
  lemma SpawnIntoFirstFit(s: seq<Obstacle>, r: nat)
    ensures var t := SpawnInto(s, r);
      && |t| == |s|
      && ((forall j :: 0 <= j < |s| ==> s[j].active) ==> t == s)
      && (forall i :: 0 <= i < |s| && !s[i].active && (forall j :: 0 <= j < i ==> s[j].active) ==>
            t == s[i := Spawned(r)])
      && CountActive(t) == (if CountActive(s) < |s| then CountActive(s) + 1 else CountActive(s))
      && CountActive(t) <= |t|
      && (WellFormedPool(s) ==> WellFormedPool(t))
  {
    var i := FirstInactive(s);
    CountActiveBound(s);
    if i < |s| {
      CountActiveUpdate(s, i, Spawned(r));
      CountActiveBound(s[i := Spawned(r)]);
    }
  }

  /** Moving obstacles never activates a slot: the inactive slots stay as they
      are, so the count can only fall; sizes are kept. */
  lemma {:induction false} AdvancedNeverAddsActive(s: seq<Obstacle>, dy: real)
    ensures CountActive(Advanced(s, dy)) <= CountActive(s)
    ensures WellFormedPool(s) ==> WellFormedPool(Advanced(s, dy))
  {
    if |s| > 0 {
      assert Advanced(s, dy)[1..] == Advanced(s[1..], dy);
      AdvancedNeverAddsActive(s[1..], dy);
    }
  }

  /** Per slot: an active obstacle keeps its x and size, falls by dy and is
      retired exactly when its top edge goes below 0; inactive slots do not
      change. */
  lemma AdvancedSlot(s: seq<Obstacle>, dy: real, i: nat)
    requires i < |s|
    ensures var o, o' := s[i], Advanced(s, dy)[i];
      && (!o.active ==> o' == o)
      && (o.active ==> o'.x == o.x && o'.w == o.w && o'.h == o.h && o'.y == o.y - dy
                       && (o'.active <==> o.y - dy + o.h >= 0.0))
  {
  }

  /** After a reset no slot is active and the pool keeps its shape. */
  lemma ClearedEmpties(s: seq<Obstacle>)
    ensures CountActive(Cleared(s)) == 0
    ensures |s| == MaxObs ==> WellFormedPool(Cleared(s))
  {
    CountActiveNone(Cleared(s));
  }

  /** A pool with no active slot counts 0. */
  lemma {:induction false} CountActiveNone(s: seq<Obstacle>)
    requires forall i :: 0 <= i < |s| ==> !s[i].active
    ensures CountActive(s) == 0
  {
    if |s| > 0 {
      assert forall i :: 0 <= i < |s| - 1 ==> s[1..][i] == s[i + 1];
      CountActiveNone(s[1..]);
    }
  }

  /** The collision loop of a tick: the index of the first slot whose
      obstacle the player box at (px, py) overlaps, if any. */
  method FirstCollision(obs: array<Obstacle>, px: real, py: real) returns (hit: Option<nat>)
    ensures hit.Some? ==> hit.value < obs.Length && CheckCollision(px, py, obs[hit.value])
    ensures hit.Some? ==> forall j :: 0 <= j < hit.value ==> !CheckCollision(px, py, obs[j])
    ensures hit.None? <==> forall j :: 0 <= j < obs.Length ==> !CheckCollision(px, py, obs[j])
    ensures hit.Some? <==> AnyCollision(px, py, obs[..])
  {
    hit := None;
    var i := 0;
    while i < obs.Length
      invariant 0 <= i <= obs.Length
      invariant forall j :: 0 <= j < i ==> !CheckCollision(px, py, obs[j])
    {
      if CheckCollision(px, py, obs[i]) {
        hit := Some(i);
        return;
      }
      i := i + 1;
    }
  }
}

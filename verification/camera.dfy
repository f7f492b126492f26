/** The side-scrolling `Camera`: it follows its target horizontally with a
    snapped linear interpolation and is clamped between the left limit 0 and
    the right limit, the background width minus the canvas width. */
module CameraFollow {
  import opened Base
  import opened Helpers

  /** `MOVEMENT_WEIGHT`: the share of the distance covered per update. */
  const MovementWeight: real := 0.1

  /** `RIGHT_LIMIT`: the background is 336 wide and the canvas 320. */
  const RightLimit: int := BackgroundWidth - NativeWidth

  /** The camera's global position and whether a target was set. The target
      itself is a reference to an actor; its current rect x is passed to
      `Update` by the caller. */
  datatype Camera = Camera(globalPosition: Vec2, hasTarget: bool)

  /** A fresh camera: at the origin, with no target. */
  function NewCamera(): (c: Camera)
    ensures c.globalPosition == Vec2(0.0, 0.0) && !c.hasTarget
  {
    Camera(Vec2(0.0, 0.0), false)
  }

  /** The camera x that puts the target's rect x at the canvas centre. */
  function Centered(targetX: int): real
  {
    (targetX - HalfNativeWidth) as real
  }

  /** `max(0, min(x, RIGHT_LIMIT))`. */
  function Clamp(x: real): (r: real)
    ensures 0.0 <= r <= RightLimit as real
    ensures 0.0 <= x <= RightLimit as real ==> r == x
    ensures x < 0.0 ==> r == 0.0
    ensures x > RightLimit as real ==> r == RightLimit as real
  {
    var low := if x < RightLimit as real then x else RightLimit as real;
    if 0.0 > low then 0.0 else low
  }

  /** `Camera.update`: with no target nothing changes; otherwise the x
      approaches the centred target and is clamped, and y never moves. */
  function Update(c: Camera, targetX: int): (r: Camera)
    ensures !c.hasTarget ==> r == c
    ensures c.hasTarget ==> 0.0 <= r.globalPosition.x <= RightLimit as real
    ensures r.globalPosition.y == c.globalPosition.y && r.hasTarget == c.hasTarget
    ensures c.hasTarget ==>
              var x := Lerp(c.globalPosition.x, Centered(targetX), MovementWeight);
              && (0.0 <= x <= RightLimit as real ==> r.globalPosition.x == x)
              && (x < 0.0 ==> r.globalPosition.x == 0.0)
              && (x > RightLimit as real ==> r.globalPosition.x == RightLimit as real)
  {
    if !c.hasTarget then c
    else
      var x := Lerp(c.globalPosition.x, Centered(targetX), MovementWeight);
      c.(globalPosition := c.globalPosition.(x := Clamp(x)))
  }

  /** `Camera.set_target`: binds the target and snaps x to the centred target
      at once, without clamping. */
  function SetTarget(c: Camera, targetX: int): (r: Camera)
    ensures r.hasTarget
    ensures r.globalPosition == Vec2(Centered(targetX), c.globalPosition.y)
  {
    Camera(c.globalPosition.(x := Centered(targetX)), true)
  }

  /** `set_target` may leave the camera outside its limits until the next
      `update`: a target at x = 0 puts the camera at -160. */
  lemma SetTargetIsUnclamped()
    ensures SetTarget(NewCamera(), 0).globalPosition.x == -160.0
    ensures Update(SetTarget(NewCamera(), 0), 0).globalPosition.x == 0.0
  {
  }

  /** A target far enough right (centred x at least 160) pulls a camera that
      is within its limits to the right limit in one update, and it stays. */
  lemma ReachesRightLimit(c: Camera, targetX: int)
    requires c.hasTarget
    requires 0.0 <= c.globalPosition.x <= RightLimit as real
    requires Centered(targetX) >= 160.0
    ensures Update(c, targetX).globalPosition.x == RightLimit as real
  {
    var x := c.globalPosition.x;
    var t := Centered(targetX);
    assert Blend(x, t, MovementWeight) == 0.9 * x + 0.1 * t;
  }

  /** Starting at the right limit, any target whose centred x is at or
      right of the limit keeps the camera exactly there. */
  lemma RightLimitIsStable(c: Camera, targetX: int)
    requires c.hasTarget
    requires c.globalPosition.x == RightLimit as real
    requires Centered(targetX) >= RightLimit as real
    ensures Update(c, targetX) == c
  {
    var t := Centered(targetX);
    assert Blend(16.0, t, MovementWeight) == 14.4 + 0.1 * t;
  }

  /** `n` updates with the target standing still at `targetX`. */
  function Run(c: Camera, targetX: int, n: nat): Camera
    decreases n
  {
    if n == 0 then c else Run(Update(c, targetX), targetX, n - 1)
  }

  /** Convergence and clamp: a fresh camera following a target at x = 1000
      reaches the right limit after the first update and never leaves it. */
  lemma {:induction false} FollowFarTarget(n: nat)
    requires n >= 1
    ensures Run(SetTarget(NewCamera(), 1000), 1000, n).globalPosition.x == RightLimit as real
  {
    var c0 := SetTarget(NewCamera(), 1000);
    var c1 := Update(c0, 1000);
    assert Blend(840.0, 840.0, MovementWeight) == 840.0;
    assert c1.globalPosition.x == RightLimit as real;
    StaysAtRightLimit(c1, 1000, n - 1);
  }

  lemma {:induction false} StaysAtRightLimit(c: Camera, targetX: int, n: nat)
    requires c.hasTarget
    requires c.globalPosition.x == RightLimit as real
    requires Centered(targetX) >= RightLimit as real
    ensures Run(c, targetX, n) == c
    decreases n
  {
    if n > 0 {
      RightLimitIsStable(c, targetX);
      StaysAtRightLimit(Update(c, targetX), targetX, n - 1);
    }
  }

  /** A target at or left of the left edge makes the camera shrink towards 0
      by at least a tenth of its position per update. */
  lemma ApproachesLeftLimit(c: Camera, targetX: int)
    requires c.hasTarget
    requires 0.0 <= c.globalPosition.x <= RightLimit as real
    requires Centered(targetX) <= 0.0
    ensures Update(c, targetX).globalPosition.x <= 0.9 * c.globalPosition.x
  {
    var x := c.globalPosition.x;
    var t := Centered(targetX);
    assert Blend(x, t, MovementWeight) == 0.9 * x + 0.1 * t;
  }
}

/** The player's two children: the exhaust flame, which plays a looping
    keyframe animation on its sprite frame, and the shadow, which copies the
    player's frame. Both pin their rect to the parent's rect plus a local
    offset on every update. */
module Actors {
  import opened Base
  import opened Animation

  /** A child's `local_position`. The source stores it as a float vector but
      only ever gives it whole values (0.0 and 15.0), so it is an integer
      offset here. */
  datatype Offset = Offset(dx: int, dy: int)

  /** The child-follow rule: the child's top-left corner is the parent's
      plus the local offset; the child's size is kept. */
  function Follow(child: Rect, parent: Rect, local: Offset): (r: Rect)
    ensures r.width == child.width && r.height == child.height
    ensures r.x - parent.x == local.dx && r.y - parent.y == local.dy
  {
    child.(x := parent.x + local.dx, y := parent.y + local.dy)
  }

  /** Following does not depend on where the child was, and moving the parent
      by some distance moves the child by exactly the same distance. */
  lemma FollowTranslates(child: Rect, other: Rect, parent: Rect, local: Offset, dx: int, dy: int)
    requires other.width == child.width && other.height == child.height
    ensures Follow(other, parent, local) == Follow(child, parent, local)
    ensures Follow(child, parent.(x := parent.x + dx, y := parent.y + dy), local)
            == Follow(child, parent, local).(x := Follow(child, parent, local).x + dx,
                                             y := Follow(child, parent, local).y + dy)
  {
  }

  /** `PlayerShadow`: its sprite frame and rect. */
  datatype Shadow = Shadow(frame: int, rect: Rect, local: Offset)

  /** `PlayerShadow.update`: follow the parent and show the parent's frame. */
  function UpdateShadow(s: Shadow, parentRect: Rect, parentFrame: int): (r: Shadow)
    ensures r.frame == parentFrame
    ensures r.local == s.local
    ensures r.rect == Follow(s.rect, parentRect, s.local)
  {
    Shadow(parentFrame, Follow(s.rect, parentRect, s.local), s.local)
  }

  /** Handle of the flame's own sprite, the target of its animation. */
  const FlameSprite: nat := 0

  /** The keyframes of the flame's "default" animation: frames 0, 1, 2 and
      back to 0 at ticks 0, 2, 4 and 6. */
  const FlameKeyframes: seq<Keyframe<int>> :=
    [Keyframe(0, 0), Keyframe(2, 1), Keyframe(4, 2), Keyframe(6, 0)]

  /** `PlayerExhaustFlame`: its sprite frame, rect, offset and animator. */
  datatype Flame = Flame(frame: int, rect: Rect, local: Offset, animator: Animator<int>)

  /** The animator the flame constructor builds: the looping "default" track
      registered and played. */
  function FlameAnimator(): (a: Animator<int>)
    ensures a.Valid() && a.Playing()
    ensures a.animations == map["default" := Track(FlameSprite, FlameKeyframes, "frame", true)]
    ensures a.currentAnimation == Some("default") && a.listeners == map[]
    ensures a.keyframeIndex == 0 && a.elapsedFrame == 0
  {
    Play(AddAnimation(NewAnimator(), "default", FlameSprite, FlameKeyframes, "frame", true), "default")
  }

  /** A new flame on a sprite sheet of the given size: frame 0, at the origin. */
  function NewFlame(sheetWidth: nat, sheetHeight: nat, local: Offset): (f: Flame)
    ensures f.frame == 0 && f.animator == FlameAnimator()
  {
    Flame(0, Rect(0, 0, sheetWidth, sheetHeight), local, FlameAnimator())
  }

  /** Applies an animator write to the sprite frame it targets. */
  function ApplyWrite(frame: int, w: Option<Write<int>>): (r: int)
    ensures w.None? ==> r == frame
    ensures w.Some? && w.value.target == FlameSprite && w.value.propertyName == "frame" ==> r == w.value.value
  {
    if w.Some? && w.value.target == FlameSprite && w.value.propertyName == "frame" then w.value.value else frame
  }

  /** `PlayerExhaustFlame.update`: advance the animation, apply its write to
      the sprite frame, then follow the parent. */
  function UpdateFlame(f: Flame, parentRect: Rect): (r: Flame)
    requires f.animator.Valid()
    ensures r.animator == Update(f.animator).animator
    ensures r.frame == ApplyWrite(f.frame, Update(f.animator).written)
    ensures r.rect == Follow(f.rect, parentRect, f.local)
  {
    var s := Update(f.animator);
    Flame(ApplyWrite(f.frame, s.written), Follow(f.rect, parentRect, f.local), f.local, s.animator)
  }

  /** The sprite frames shown after each of `n` flame updates under a
      stationary parent, and the final flame. */
  function FlameFrames(f: Flame, parentRect: Rect, n: nat): (r: (seq<int>, Flame))
    requires f.animator.Valid()
    ensures |r.0| == n
    ensures r.1.animator.Valid()
    decreases n
  {
    if n == 0 then ([], f)
    else
      var g := UpdateFlame(f, parentRect);
      var rest := FlameFrames(g, parentRect, n - 1);
      ([g.frame] + rest.0, rest.1)
  }

  /** The flame's animator with its cursor at a given keyframe and tick. */
  function FlameAt(index: int, elapsed: int): Animator<int>
  {
    FlameAnimator().(keyframeIndex := index, elapsedFrame := elapsed)
  }

  /** The exhaust flame as built: the first seven ticks show frames
      0,1,1,2,2,0,0 (the seventh tick is the loop's rewind), and from then on
      the animation repeats with period 8, showing 0,0,1,1,2,2,0,0. */
  lemma FlameCycle(sheetWidth: nat, sheetHeight: nat, local: Offset, parentRect: Rect)
    ensures FlameFrames(NewFlame(sheetWidth, sheetHeight, local), parentRect, 7).0 == [0, 1, 1, 2, 2, 0, 0]
    ensures FlameFrames(NewFlame(sheetWidth, sheetHeight, local), parentRect, 7).1.animator == FlameAt(-1, -1)
    ensures Run(FlameAt(-1, -1), 8).animator == FlameAt(-1, -1)
    ensures Run(FlameAt(-1, -1), 8).writes
            == [Some(Write(FlameSprite, "frame", 0)), None, Some(Write(FlameSprite, "frame", 1)), None,
                Some(Write(FlameSprite, "frame", 2)), None, Some(Write(FlameSprite, "frame", 0)), None]
    ensures Run(FlameAt(-1, -1), 8).calls == []
  {
    var f0 := NewFlame(sheetWidth, sheetHeight, local);
    assert Update(FlameAt(0, 0)) == Step(FlameAt(0, 1), None, []);
    assert Update(FlameAt(0, 1)) == Step(FlameAt(1, 2), Some(Write(FlameSprite, "frame", 1)), []);
    assert Update(FlameAt(1, 2)) == Step(FlameAt(1, 3), None, []);
    assert Update(FlameAt(1, 3)) == Step(FlameAt(2, 4), Some(Write(FlameSprite, "frame", 2)), []);
    assert Update(FlameAt(2, 4)) == Step(FlameAt(2, 5), None, []);
    assert Update(FlameAt(2, 5)) == Step(FlameAt(3, 6), Some(Write(FlameSprite, "frame", 0)), []);
    assert Update(FlameAt(3, 6)) == Step(FlameAt(-1, -1), None, []);
    assert Update(FlameAt(-1, -1)) == Step(FlameAt(0, 0), Some(Write(FlameSprite, "frame", 0)), []);
    assert f0.animator == FlameAt(0, 0);
  }
}

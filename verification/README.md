# sky_dogma demo core, modelled in Dafny

`test.py` is a single-file pygame demo of a vertically scrolling shooter.
Around its drawing and input code it holds the small pieces of game logic
modelled here:

- the keyframe `Animator`: named keyframe tracks, a shared playback cursor
  (`keyframe_index`, `elapsed_frame`), the `animation_finished` event and its
  ordered listener lists (module `Animation`);
- the sub-pixel motion of the player, `move_x` / `move_y`: a real remainder
  collects fractional velocity, Python 3 `round` (half to even) takes the
  whole part, and the position is walked one unit step at a time (module
  `Motion`);
- the helpers `lerp`, with its snap-to-zero rule, and `Sign` (module `Helpers`);
- the side-scrolling `Camera`: it follows its target with `lerp` at weight
  0.1 and is clamped to `[0, 16]`, where 16 is the background width 336
  minus the canvas width 320 (module `CameraFollow`);
- the `Sprite` frame table: the sheet cut into `h_frame * v_frame` frames,
  numbered column by column (module `SpriteSheet`);
- the `BackgroundScroller`: two copies of the background move down one pixel
  per tick and wrap from `H` to `-H` (module `Scroller`);
- the player's children: the exhaust flame, which plays a looping animation
  on its sprite frame, and the shadow, which copies the player's frame; both
  follow the player's rect plus a local offset (module `Actors`).

Everything is a pure function over immutable records, except `move_x` /
`move_y` and the frame-table constructor, which are methods with the loops
of the source. The animator does not perform its effects: `update` returns
the attribute assignment it makes (`setattr(target, property, value)`) as an
optional `Write`, and the listener calls it makes as a sequence of `Call`s,
in order. The global singletons `Cam` and `Input` are replaced by explicit
parameters: the camera's target is a flag plus the target's rect x, passed
to each update.

The animator is modelled as its code behaves, including three behaviours a
reader might not expect:

- `play` only selects the animation; it does not rewind `keyframe_index` and
  `elapsed_frame` (`Animation.Play`, `Animation.ReplayDoesNotRestart`).
- A non-looping animation at its last keyframe is never cleared, so
  `animation_finished` fires on every later `update`, not once
  (`Animation.FinishedFiresEveryTick`).
- The next keyframe is reached only when `elapsed_frame` equals its tick;
  an animation whose counter has already passed that tick stalls for ever
  (`Animation.StallForever`).

There is no keyframe interpolation, no `stop`, no pause and no scene manager
in this code, so none is modelled. Since `if not self.current_animation`
tests truthiness, an animation registered under the empty name never
advances; the model keeps that (`Animator.Playing`).

## Model

| member | source | states |
|---|---|---|
| Helpers.Lerp | test.py:57-64 | the result is exactly `start + (end - start) * weight` when that has magnitude at least 1, it is 0 exactly when that lies strictly between -1 and 1, so a result is never a non-zero value below one unit |
| Helpers.LerpEndpoints | test.py:57-64 | weight 1 lands on `end` and weight 0 stays at `start`, each snapped to 0 when below one unit |
| Helpers.LerpBetween | test.py:57-64 | for a weight in [0, 1] the interpolation stays between the smaller and the larger endpoint, in either direction (rightward or leftward), or is snapped to 0 |
| Helpers.Sign | test.py:66-75 | 1 exactly for positive values, -1 exactly for negative ones, 0 exactly for 0 |
| Helpers.SignTimesAbs | test.py:66-75 | every integer is its sign times its magnitude |
| Motion.RoundHalfEven | test.py:646 | Python 3 `round`: the result is within half a unit of the argument and even on an exact tie |
| Motion.RoundHalfEvenUnique | test.py:646 | any integer with those two properties is the rounded value, so they define `round` completely |
| Motion.Step | test.py:641-657 | one `move_x`: position plus remainder grows by exactly `amount`, and the remainder left is at most half a unit in magnitude |
| Motion.MoveAxis | test.py:641-657 | the unit-step loop gives the same result as `Step`, takes exactly `abs(round(remainder + amount))` steps of `Sign` of that rounded amount, and leaves the position alone when it rounds to 0 |
| Motion.MoveX | test.py:641-657 | `move_x` changes only the rect x and the x remainder, as `Step` says, with `abs(round(...))` unit steps |
| Motion.MoveY | test.py:660-676 | `move_y` changes only the rect y and the y remainder, as `Step` says, with `abs(round(...))` unit steps |
| Motion.RunConserves | test.py:641-657 | over any sequence of calls, position plus remainder grows by exactly the sum of the amounts and the remainder stays within half a unit |
| Motion.NoDrift | test.py:589 | from the initial zero remainder, the integer displacement is within half a unit of the exact distance and within one unit of that distance rounded |
| Animation.NewAnimator | test.py:222-230 | a new animator has no animation, no listener, nothing playing, and its cursor at keyframe 0, frame 0 |
| Animation.AddAnimation | test.py:235-252 | the track is registered under its name, replacing any earlier one, every other track and every other field is unchanged, and the state invariant is kept |
| Animation.Play | test.py:254-263 | a registered name becomes the current animation, an unknown one changes nothing, and nothing but the current animation ever changes, so the cursor is not rewound |
| Animation.Connect | test.py:265-279 | the listener is appended to its event's list, which is created on first use; every other list and field is unchanged |
| Animation.AnimationFinished | test.py:321-331 | one call per finished-listener, in `connect` order, each passed the current animation; none when nobody connected |
| Animation.Update | test.py:281-316 | with nothing truthy playing, no state change, no write, no call; otherwise only the cursor moves, the frame counter goes up by one unless a looping track rewinds to -1/-1, the index goes up by one and that keyframe's value is written exactly when the counter hits the next keyframe's tick, the index is never pushed past the last keyframe, and finished-listeners are called only at the last keyframe of a non-looping track |
| Animation.Run | test.py:281-316 | successive updates keep the state invariant and record one write slot per update |
| Animation.IdleRun | test.py:286-288 | with nothing playing, any number of updates change nothing, write nothing and call nobody |
| Animation.FinishedFiresEveryTick | test.py:308-331 | a non-looping track at its last keyframe calls every finished-listener again on each of any number of updates, and only the frame counter moves |
| Animation.StallForever | test.py:300-306 | once the frame counter is at or past the next keyframe's tick, no number of updates moves the index, writes anything or calls anyone |
| Animation.LoopRestartsAtFirstKeyframe | test.py:300-313 | a looping track with at least one keyframe, at its last keyframe, rewinds to -1/-1, and the next update lands on a tick-0 first keyframe and writes its value |
| Animation.ReplayDoesNotRestart | test.py:254-263 | `play` of a finished non-looping animation changes nothing, so the next update fires the finished event again |
| Actors.Follow | test.py:496-497 | the child's corner is the parent's corner plus the local offset, and its size is kept |
| Actors.FollowTranslates | test.py:548-549 | following does not depend on the child's old place, and moving the parent moves the child by the same distance |
| Actors.UpdateShadow | test.py:491-498 | the shadow shows the parent's frame and follows the parent's rect |
| Actors.FlameAnimator | test.py:517-531 | the flame's animator registers exactly one track, the looping `"default"` track writing the flame sprite's `frame` with its four keyframes, plays it, has no listeners, and starts its cursor at 0/0 |
| Actors.NewFlame | test.py:506-531 | a new flame shows frame 0 and has that animator |
| Actors.ApplyWrite | test.py:306 | no write keeps the frame, a write to the flame sprite's `frame` sets it |
| Actors.UpdateFlame | test.py:542-549 | a flame update advances the animator once, applies its write to the sprite frame and follows the parent |
| Actors.FlameFrames | test.py:542-549 | successive flame updates record one shown frame per update and keep the animator's invariant |
| Actors.FlameCycle | test.py:519-530 | the built flame shows frames 0,1,1,2,2,0,0 over its first seven updates, the seventh rewinding the cursor, and from then on repeats with period 8, writing 0, 1, 2, 0 on every second update and calling nobody |
| CameraFollow.NewCamera | test.py:147-159 | a new camera is at the origin with no target |
| CameraFollow.Clamp | test.py:180 | the result lies in `[0, 16]`, equals the input inside that range and the nearer limit outside it |
| CameraFollow.Update | test.py:164-180 | without a target nothing changes; with one, x is the snapped interpolation towards the centred target when that lies in `[0, 16]` and the nearer limit otherwise, so it always ends in `[0, 16]`, and y never moves |
| CameraFollow.SetTarget | test.py:185-188 | binds the target and sets x to exactly the target's x minus 160, with no clamp |
| CameraFollow.SetTargetIsUnclamped | test.py:185-188 | a target at x = 0 puts the camera at -160 until the next update clamps it to 0 |
| CameraFollow.ReachesRightLimit | test.py:164-180 | a camera within its limits and a target whose centred x is at least 160 give x = 16 after one update |
| CameraFollow.RightLimitIsStable | test.py:164-180 | at x = 16, any target centred at or right of 16 leaves the camera unchanged |
| CameraFollow.StaysAtRightLimit | test.py:164-180 | at x = 16 with such a target, any number of updates leave the camera unchanged |
| CameraFollow.FollowFarTarget | test.py:164-180 | a fresh camera given a target at x = 1000 is at exactly 16 after every number of updates from the first on |
| CameraFollow.ApproachesLeftLimit | test.py:164-180 | a target centred at or left of 0 makes x shrink by at least a tenth per update |
| Scroller.NewScroller | test.py:413-422 | the bottom background starts at the origin and the top one one height above it |
| Scroller.Advance | test.py:445-447 | a background moves down by one, or, on reaching its height, so that its bottom edge is at 0; it stays within `[-h, h)` |
| Scroller.Update | test.py:439-452 | each background moves down by one or wraps; x and sizes are kept, and the seamless tiling is preserved |
| Scroller.NewScrollerIsTiled | test.py:418-422 | the initial placement is tiled: both in `[-h, h)`, exactly one height apart |
| Scroller.PlacementStep | test.py:439-452 | one update moves the closed-form placement from tick `n` to tick `n + 1` |
| Scroller.RunSplit | test.py:439-452 | `n + 1` updates are `n` updates followed by one more |
| Scroller.RunClosedForm | test.py:439-452 | after `n` updates the top background is at `-h + n mod 2h` and the bottom one at `(n + h) mod 2h - h` |
| Scroller.Periodic | test.py:439-452 | after `2h` updates both backgrounds are back at their initial places |
| SpriteSheet.FloorDiv | test.py:350-351 | Python `//`: the quotient rounded towards minus infinity, for either sign of divisor |
| SpriteSheet.GridGrows | test.py:357 | storing the frame of column `col`, row `row` under key `len(frame_data)` extends the grid table by exactly that frame |
| SpriteSheet.AddColumn | test.py:354-357 | the inner loop adds the frames of one column, keeping the table a grid |
| SpriteSheet.BuildFrameData | test.py:353-357 | the loops produce exactly `h_frame * v_frame` entries (none if a count is not positive), keyed `0 .. h*v-1`, entry `k` at `((k / v) * fw, (k % v) * fh, fw, fh)` |
| SpriteSheet.NewSprite | test.py:339-357 | the sprite starts at frame 0 with the sheet's rect, frame sizes `W // h_frame` and `H // v_frame`, and that frame table |
| SpriteSheet.CellInside | test.py:350-356 | cell `i` of `n` cells of width `W // n` starts at or right of 0 and ends at or before `W` |
| SpriteSheet.FramesInsideSheet | test.py:350-357 | every frame of a positive grid lies inside the `W x H` sheet |

## Left out

- Asset loading, `pg.init`, the display, the clock, the main loop, scaling and blitting, `pg.quit`: input/output with no logic of its own.
- `Sprite.draw`, the `draw` methods of `Background`, `BackgroundScroller`, `Player` and the children, and `Group.draw`: blit calls, and the member order comes from pygame's `sprite.Group`, whose code is not part of this model.
- `apply_flash_shader`: its meaning lies in pygame surface pixel access and alpha blending.
- `Input`: a dictionary wrapper over pygame key events; its `is_action_just_pressed` calls a method that does not exist and would raise.
- `Player.update`: the velocity and frame-index glue relies on float `int()` truncation and on `Vector2.normalize()`, whose copy is discarded; only the `move_x` / `move_y` calls it makes are modelled.
- The `Test` scene wiring and its layers: static construction plus group iteration in pygame's order.
- Floating point: every Python float (remainders, camera position, `lerp`) is an exact real, so rounding error of float arithmetic is not modelled.
- Listener callbacks are opaque handles: the calls are returned in order, but what a callback does (for instance calling back into the animator) is not modelled.
- Keyframe values are written through an opaque target handle and property name; only the flame's own `frame` attribute is applied, by `Actors.ApplyWrite`.
- Child `local_position` is a float vector assigned into an integer rect; the code only uses whole values (0.0 and 15.0), so it is an integer offset here.
- SpriteSheet.NewSprite: requires non-zero frame counts, because the source divides by them and raises `ZeroDivisionError` otherwise.
- Animation.Update: requires the state invariant `Valid` (index at least -1, current animation registered), which every reachable animator satisfies; it is what keeps Python's negative indexing and a `KeyError` out of reach.

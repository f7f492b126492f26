/** The keyframe `Animator`: a registry of named keyframe tracks, one playback
    cursor shared by all of them, and per-event listener lists. A step of the
    animator returns the property write it performs (pygame's `setattr`) and
    the listener calls it makes, instead of performing them. */
module Animation {
  import opened Base

  /** A keyframe: at `tick` frames into the animation the property takes `value`. */
  datatype Keyframe<V> = Keyframe(tick: int, value: V)

  /** One registered animation. `target` is an opaque handle on the object
      whose attribute `propertyName` the animation writes. */
  datatype Track<V> = Track(target: nat, keyframes: seq<Keyframe<V>>, propertyName: string, isLooping: bool)

  /** An opaque handle on a registered callback. */
  type Listener = nat

  /** One callback invocation, with the argument it is passed. */
  datatype Call = Call(listener: Listener, argument: Option<string>)

  /** One attribute assignment `setattr(target, propertyName, value)`. */
  datatype Write<V> = Write(target: nat, propertyName: string, value: V)

  /** The only event the animator fires. */
  const FinishedEvent: string := "animation_finished"

  datatype Animator<V> = Animator(
    animations: map<string, Track<V>>,
    currentAnimation: Option<string>,
    keyframeIndex: int,
    elapsedFrame: int,
    listeners: map<string, seq<Listener>>)
  {
    /** What every reachable animator satisfies: the cursor never drops below
        the pre-start position -1 (so the index read by `update` is never a
        negative Python index), and the current animation is registered. */
    predicate Valid()
    {
      && keyframeIndex >= -1
      && (currentAnimation.Some? ==> currentAnimation.value in animations)
    }

    /** `update` does something only when the current animation is truthy:
        set, and not the empty string. */
    predicate Playing()
    {
      currentAnimation.Some? && currentAnimation.value != ""
    }
  }

  /** The result of one `update`: the new state, the attribute written (if
      any), and the listener calls made, in order. */
  datatype Step<V> = Step(animator: Animator<V>, written: Option<Write<V>>, calls: seq<Call>)

  /** A freshly constructed animator. */
  function NewAnimator<V>(): (a: Animator<V>)
    ensures a.Valid() && !a.Playing()
    ensures a.keyframeIndex == 0 && a.elapsedFrame == 0
    ensures a.animations == map[] && a.listeners == map[]
  {
    Animator(map[], None, 0, 0, map[])
  }

  /** `add_animation`: registers the track under `name`, silently replacing
      a previous one; nothing else changes. */
  function AddAnimation<V>(a: Animator<V>, name: string, target: nat, keyframes: seq<Keyframe<V>>,
                           propertyName: string, isLooping: bool): (r: Animator<V>)
    ensures a.Valid() ==> r.Valid()
    ensures name in r.animations && r.animations[name] == Track(target, keyframes, propertyName, isLooping)
    ensures r.animations.Keys == a.animations.Keys + {name}
    ensures forall n :: n in a.animations && n != name ==> r.animations[n] == a.animations[n]
    ensures r == a.(animations := r.animations)
  {
    a.(animations := a.animations[name := Track(target, keyframes, propertyName, isLooping)])
  }

  /** `play`: selects a registered animation. The playback cursor is NOT
      rewound, and an unknown name is ignored. */
  function Play<V>(a: Animator<V>, name: string): (r: Animator<V>)
    ensures a.Valid() ==> r.Valid()
    ensures name in a.animations ==> r.currentAnimation == Some(name)
    ensures name !in a.animations ==> r == a
    ensures r == a.(currentAnimation := r.currentAnimation)
  {
    if name in a.animations then a.(currentAnimation := Some(name)) else a
  }

  /** `connect`: appends `listener` to the list of `eventName`, creating the
      list on first use; every other list and field is untouched. */
  function Connect<V>(a: Animator<V>, eventName: string, listener: Listener): (r: Animator<V>)
    ensures a.Valid() ==> r.Valid()
    ensures eventName in r.listeners
    ensures r.listeners[eventName] == (if eventName in a.listeners then a.listeners[eventName] else []) + [listener]
    ensures r.listeners.Keys == a.listeners.Keys + {eventName}
    ensures forall e :: e in a.listeners && e != eventName ==> r.listeners[e] == a.listeners[e]
    ensures r == a.(listeners := r.listeners)
  {
    if eventName in a.listeners then
      a.(listeners := a.listeners[eventName := a.listeners[eventName] + [listener]])
    else
      a.(listeners := a.listeners[eventName := [listener]])
  }

  /** The listeners of an event in registration order; none if nobody connected. */
  function ListenersOf<V>(a: Animator<V>, eventName: string): seq<Listener>
  {
    if eventName in a.listeners then a.listeners[eventName] else []
  }

  /** `animation_finished`: every listener of the finished event, in
      `connect` order, is called with the current animation name. */
  function AnimationFinished<V>(a: Animator<V>): (calls: seq<Call>)
    ensures |calls| == |ListenersOf(a, FinishedEvent)|
    ensures forall i :: 0 <= i < |calls| ==>
              calls[i] == Call(ListenersOf(a, FinishedEvent)[i], a.currentAnimation)
    ensures FinishedEvent !in a.listeners ==> calls == []
  {
    var ls := ListenersOf(a, FinishedEvent);
    seq(|ls|, i requires 0 <= i < |ls| => Call(ls[i], a.currentAnimation))
  }

  /** `update`: one tick of the current animation. */
  function Update<V>(a: Animator<V>): (s: Step<V>)
    requires a.Valid()
    ensures s.animator.Valid()
    // idle when nothing (truthy) is playing
    ensures !a.Playing() ==> s == Step(a, None, [])
    // only the cursor moves
    ensures s.animator == a.(keyframeIndex := s.animator.keyframeIndex, elapsedFrame := s.animator.elapsedFrame)
    ensures a.Playing() ==> UpdateSpec(a, s)
  {
    if !a.Playing() then Step(a, None, [])
    else
      var track := a.animations[a.currentAnimation.value];
      var keyframes := track.keyframes;
      var elapsed := a.elapsedFrame + 1;
      if a.keyframeIndex < |keyframes| - 1 then
        if elapsed == keyframes[a.keyframeIndex + 1].tick then
          var index := a.keyframeIndex + 1;
          Step(a.(keyframeIndex := index, elapsedFrame := elapsed),
               Some(Write(track.target, track.propertyName, keyframes[index].value)), [])
        else
          Step(a.(elapsedFrame := elapsed), None, [])
      else if track.isLooping then
        Step(a.(keyframeIndex := -1, elapsedFrame := -1), None, [])
      else
        Step(a.(elapsedFrame := elapsed), None, AnimationFinished(a))
  }

  /** The meaning of one tick of a playing animation, case by case. */
  ghost predicate UpdateSpec<V>(a: Animator<V>, s: Step<V>)
    requires a.Valid() && a.Playing()
  {
    var track := a.animations[a.currentAnimation.value];
    var keyframes := track.keyframes;
    var index := a.keyframeIndex;
    var atLast := index >= |keyframes| - 1;
    var looped := atLast && track.isLooping;
    // the frame counter always advances, except when a loop rewinds it
    && (looped ==> s.animator.keyframeIndex == -1 && s.animator.elapsedFrame == -1)
    && (!looped ==> s.animator.elapsedFrame == a.elapsedFrame + 1)
    // the cursor advances by one exactly on the next keyframe's tick, and
    // then writes exactly that keyframe's value
    && (s.written.Some? <==> !atLast && a.elapsedFrame + 1 == keyframes[index + 1].tick)
    && (s.written.Some? ==>
          && s.animator.keyframeIndex == index + 1
          && s.written.value == Write(track.target, track.propertyName, keyframes[index + 1].value))
    && (!looped && s.written.None? ==> s.animator.keyframeIndex == index)
    // the cursor is never pushed past the last keyframe
    && (index <= |keyframes| - 1 ==> s.animator.keyframeIndex <= |keyframes| - 1)
    // listeners are called only at the last keyframe of a non-looping track
    && (atLast && !track.isLooping ==> s.calls == AnimationFinished(a))
    && (!(atLast && !track.isLooping) ==> s.calls == [])
  }

  /** The effects of several ticks: the final state, the write of each tick
      and all listener calls in order. */
  datatype Trace<V> = Trace(animator: Animator<V>, writes: seq<Option<Write<V>>>, calls: seq<Call>)

  /** `n` successive calls of `update`. */
  function Run<V>(a: Animator<V>, n: nat): (t: Trace<V>)
    requires a.Valid()
    ensures t.animator.Valid()
    ensures |t.writes| == n
    decreases n
  {
    if n == 0 then Trace(a, [], [])
    else
      var s := Update(a);
      var rest := Run(s.animator, n - 1);
      Trace(rest.animator, [s.written] + rest.writes, s.calls + rest.calls)
  }

  /** `n` copies of the same sequence of calls. */
  function Repeat(calls: seq<Call>, n: nat): seq<Call>
  {
    if n == 0 then [] else calls + Repeat(calls, n - 1)
  }

  function NoWrites<V>(n: nat): (w: seq<Option<Write<V>>>)
    ensures |w| == n
    ensures forall i :: 0 <= i < n ==> w[i].None?
  {
    seq(n, i => None)
  }

  /** With nothing playing, any number of ticks change nothing, write nothing
      and call nobody. */
  lemma {:induction false} IdleRun<V>(a: Animator<V>, n: nat)
    requires a.Valid() && !a.Playing()
    ensures Run(a, n) == Trace(a, NoWrites(n), [])
    decreases n
  {
    if n > 0 {
      IdleRun(a, n - 1);
      assert [None] + NoWrites<V>(n - 1) == NoWrites<V>(n);
    }
  }

  /** A non-looping animation at its last keyframe is never cleared: every
      further tick calls every finished-listener again, in `connect` order,
      with the animation's name, and only the frame counter moves. */
  lemma {:induction false} FinishedFiresEveryTick<V>(a: Animator<V>, n: nat)
    requires a.Valid() && a.Playing()
    requires !a.animations[a.currentAnimation.value].isLooping
    requires a.keyframeIndex >= |a.animations[a.currentAnimation.value].keyframes| - 1
    ensures Run(a, n).animator == a.(elapsedFrame := a.elapsedFrame + n)
    ensures Run(a, n).writes == NoWrites(n)
    ensures Run(a, n).calls == Repeat(AnimationFinished(a), n)
    decreases n
  {
    if n > 0 {
      var b := Update(a).animator;
      assert b == a.(elapsedFrame := a.elapsedFrame + 1);
      assert AnimationFinished(b) == AnimationFinished(a);
      FinishedFiresEveryTick(b, n - 1);
      assert [None] + NoWrites<V>(n - 1) == NoWrites<V>(n);
    }
  }

  /** A stalled animation: once the frame counter has reached or passed the
      next keyframe's tick without hitting it exactly, the cursor never moves
      again, nothing is ever written and no listener is called. */
  lemma {:induction false} StallForever<V>(a: Animator<V>, n: nat)
    requires a.Valid() && a.Playing()
    requires a.keyframeIndex < |a.animations[a.currentAnimation.value].keyframes| - 1
    requires a.animations[a.currentAnimation.value].keyframes[a.keyframeIndex + 1].tick <= a.elapsedFrame
    ensures Run(a, n).animator == a.(elapsedFrame := a.elapsedFrame + n)
    ensures Run(a, n).writes == NoWrites(n)
    ensures Run(a, n).calls == []
    decreases n
  {
    if n > 0 {
      var b := Update(a).animator;
      assert b == a.(elapsedFrame := a.elapsedFrame + 1);
      StallForever(b, n - 1);
      assert [None] + NoWrites<V>(n - 1) == NoWrites<V>(n);
    }
  }

  /** After a looping track rewinds, the next tick lands on a tick-0 first
      keyframe and writes its value. */
  lemma LoopRestartsAtFirstKeyframe<V>(a: Animator<V>)
    requires a.Valid() && a.Playing()
    requires a.animations[a.currentAnimation.value].isLooping
    requires a.keyframeIndex >= |a.animations[a.currentAnimation.value].keyframes| - 1
    requires |a.animations[a.currentAnimation.value].keyframes| >= 1
    requires a.animations[a.currentAnimation.value].keyframes[0].tick == 0
    ensures Update(a).animator.keyframeIndex == -1 && Update(a).written.None?
    ensures Update(Update(a).animator).animator.keyframeIndex == 0
    ensures Update(Update(a).animator).animator.elapsedFrame == 0
    ensures var track := a.animations[a.currentAnimation.value];
            Update(Update(a).animator).written
              == Some(Write(track.target, track.propertyName, track.keyframes[0].value))
  {
  }

  /** `play` after a non-looping animation finished does not restart it:
      the very next tick fires the finished event again. */
  lemma ReplayDoesNotRestart<V>(a: Animator<V>)
    requires a.Valid() && a.Playing()
    requires !a.animations[a.currentAnimation.value].isLooping
    requires a.keyframeIndex >= |a.animations[a.currentAnimation.value].keyframes| - 1
    ensures Play(a, a.currentAnimation.value) == a
    ensures Update(Play(a, a.currentAnimation.value)).calls == AnimationFinished(a)
  {
  }
}

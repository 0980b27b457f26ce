/**
 One fish of a school and its per-frame step (Fish.update, main.js): the
 weighted steering terms and the vertical wave are added onto the
 acceleration, the acceleration onto the velocity, whose length is then
 clamped to `maxSpeed`; the velocity moves the position, the acceleration is
 reset, the new position is pushed onto the trail, and only then is the
 position wrapped into the scene bounds.

 The steering rules (`separate`, `align`, `cohesion`), `wrap`, `Math.sin`
 and the vector length are not defined in this model; they reach the step
 as the fields of a `Behaviours` value.
 */
module Fishes {
  import opened Vectors
  import opened Trails

  /** Half-extents of the swimming area, a two-component vector. */
  datatype Bounds = Bounds(x: real, y: real)

  const MaxSpeed: real := 0.05
  const MaxForce: real := 0.002

  /** Weight of the separation term; alignment and cohesion weigh 1. */
  const SeparationWeight: real := 1.5
  const AlignmentWeight: real := 1.0
  const CohesionWeight: real := 1.0

  /** Amplitude of the vertical wave added to the acceleration. */
  const WaveAmplitude: real := 0.0005

  /** The kinematic state of a fish and its trail. */
  datatype Fish = Fish(
    position: Vec3,
    velocity: Vec3,
    acceleration: Vec3,
    maxSpeed: real,
    maxForce: real,
    trail: Trail)

  /**
   The operations the step uses but this model does not define: the three
   steering rules over the fish and its school, the wrap of a position into
   the bounds, the sine, and the Euclidean length of a vector.
   */
  datatype Behaviours = Behaviours(
    separate: (Fish, seq<Fish>) -> Vec3,
    align: (Fish, seq<Fish>) -> Vec3,
    cohesion: (Fish, seq<Fish>) -> Vec3,
    wrap: (Vec3, Bounds) -> Vec3,
    sin: real -> real,
    length: Vec3 -> real)

  /** `length` really is the Euclidean length. */
  ghost predicate Valid(b: Behaviours) {
    forall v :: IsLengthOf(b.length(v), v)
  }

  /**
   The state every fish keeps between frames: no pending acceleration, a
   speed within `maxSpeed`, a trail within its cap, and trail buffers that
   show the trail.
   */
  ghost predicate Wellformed(f: Fish) {
    && f.acceleration == Zero
    && 0.0 <= f.maxSpeed
    && LengthSq(f.velocity) <= f.maxSpeed * f.maxSpeed
    && |f.trail.points| <= f.trail.cap
    && Consistent(f.trail)
  }

  /** A coordinate of `(random - 0.5) * 0.02` for `random` in [0, 1) lies in [-0.01, 0.01). */
  function InitialComponent(random: real): (c: real)
    requires 0.0 <= random < 1.0
    ensures -0.01 <= c < 0.01
  {
    (random - 0.5) * 0.02
  }

  lemma SmallSquare(a: real)
    requires -0.01 <= a <= 0.01
    ensures a * a <= 0.0001
  {
    if a >= 0.0 {
      SquareMonotone(a, 0.01);
    } else {
      SquareMonotone(-a, 0.01);
      assert (-a) * (-a) == a * a;
    }
  }

  /**
   The Fish constructor, given the two `Math.random()` draws for the
   velocity: a planar velocity of at most 0.01 per axis, no acceleration,
   the speed and force limits, and an empty trail capped at 20 points. The
   mesh starts at the origin; the school setup moves it afterwards.
   */
  function NewFish(randomX: real, randomY: real): (f: Fish)
    requires 0.0 <= randomX < 1.0 && 0.0 <= randomY < 1.0
    ensures Wellformed(f)
    ensures -0.01 <= f.velocity.x < 0.01 && -0.01 <= f.velocity.y < 0.01 && f.velocity.z == 0.0
    ensures f.maxSpeed == MaxSpeed && f.maxForce == MaxForce
    ensures f.trail.points == [] && f.trail.cap == MaxTrailLength
  {
    var v := Vec3(InitialComponent(randomX), InitialComponent(randomY), 0.0);
    SmallSquare(v.x);
    SmallSquare(v.y);
    Fish(Zero, v, Zero, MaxSpeed, MaxForce, EmptyTrail)
  }

  /**
   The acceleration after the steering step: the stored acceleration plus
   1.5 times separation, alignment and cohesion, with the wave
   `sin(2 * time + x) * 0.0005` added to its y component.
   */
  function Steering(f: Fish, time: real, school: seq<Fish>, b: Behaviours): Vec3 {
    var separation := Scale(b.separate(f, school), SeparationWeight);
    var alignment := Scale(b.align(f, school), AlignmentWeight);
    var cohesion := Scale(b.cohesion(f, school), CohesionWeight);
    var acc := Add(Add(Add(f.acceleration, separation), alignment), cohesion);
    acc.(y := acc.y + b.sin(time * 2.0 + f.position.x) * WaveAmplitude)
  }

  /** The velocity plus the steering acceleration, before the clamp. */
  function Desired(f: Fish, time: real, school: seq<Fish>, b: Behaviours): Vec3 {
    Add(f.velocity, Steering(f, time, school, b))
  }

  /** The velocity after the clamp to `maxSpeed`. */
  function NewVelocity(f: Fish, time: real, school: seq<Fish>, b: Behaviours): Vec3 {
    var desired := Desired(f, time, school, b);
    ClampLength(desired, f.maxSpeed, b.length(desired))
  }

  /** Fish.update for one frame; the rotation and shader uniforms are not modelled. */
  function Update(f: Fish, time: real, bounds: Bounds, school: seq<Fish>, b: Behaviours): (r: Fish)
    ensures r.acceleration == Zero
    ensures r.maxSpeed == f.maxSpeed && r.maxForce == f.maxForce && r.trail.cap == f.trail.cap
    ensures r.trail.points == Push(f.trail.points, Add(f.position, r.velocity), f.trail.cap)
    ensures r.position == b.wrap(Add(f.position, r.velocity), bounds)
    ensures Consistent(r.trail)
  {
    var acc := Steering(f, time, school, b);
    var velocity := NewVelocity(f, time, school, b);
    var moved := Add(f.position, velocity);
    var trail := UpdateTrail(f.trail, moved);
    LayoutIsConsistent(trail);
    Fish(b.wrap(moved, bounds), velocity, Scale(acc, 0.0), f.maxSpeed, f.maxForce, trail)
  }

  /**
   The new velocity is the clamp of velocity plus steering to `maxSpeed`,
   so the fish never exceeds its speed limit.
   */
  lemma UpdateClampsVelocity(f: Fish, time: real, bounds: Bounds, school: seq<Fish>, b: Behaviours)
    requires Valid(b) && 0.0 <= f.maxSpeed
    ensures IsClampOf(Update(f, time, bounds, school, b).velocity, Desired(f, time, school, b), f.maxSpeed)
    ensures LengthSq(Update(f, time, bounds, school, b).velocity) <= f.maxSpeed * f.maxSpeed
  {
    var desired := Desired(f, time, school, b);
    ClampLengthIsClamp(desired, f.maxSpeed, b.length(desired));
  }

  /**
   The trail records the position before the wrap: its newest point is
   where the velocity took the fish, the wrapped position is that point
   wrapped, and no point is lost except the oldest one beyond the cap.
   */
  lemma UpdateRecordsUnwrapped(f: Fish, time: real, bounds: Bounds, school: seq<Fish>, b: Behaviours)
    requires f.trail.cap > 0 || |f.trail.points| > 0
    ensures var r := Update(f, time, bounds, school, b);
      && r.trail.points[0] == Add(f.position, r.velocity)
      && r.position == b.wrap(r.trail.points[0], bounds)
      && r.trail.points[1..] <= f.trail.points
      && |r.trail.points| >= |f.trail.points|
  {
  }

  /** A frame keeps a well-formed fish well-formed. */
  lemma UpdatePreservesWellformed(f: Fish, time: real, bounds: Bounds, school: seq<Fish>, b: Behaviours)
    requires Valid(b) && Wellformed(f)
    ensures Wellformed(Update(f, time, bounds, school, b))
  {
    UpdateClampsVelocity(f, time, bounds, school, b);
  }

  /** The inputs of one frame: the time, the bounds and the school the fish swims with. */
  datatype Frame = Frame(time: real, bounds: Bounds, school: seq<Fish>)

  /** The fish after updating it once per frame, in order. */
  function Run(f: Fish, frames: seq<Frame>, b: Behaviours): Fish {
    if |frames| == 0 then f
    else
      var g := Run(f, frames[..|frames| - 1], b);
      var fr := frames[|frames| - 1];
      Update(g, fr.time, fr.bounds, fr.school, b)
  }

  /** The unwrapped position each frame moved the fish to, oldest first. */
  function Path(f: Fish, frames: seq<Frame>, b: Behaviours): (p: seq<Vec3>)
    ensures |p| == |frames|
  {
    if |frames| == 0 then []
    else
      var g := Run(f, frames[..|frames| - 1], b);
      var fr := frames[|frames| - 1];
      Path(f, frames[..|frames| - 1], b) + [Add(g.position, NewVelocity(g, fr.time, fr.school, b))]
  }

  /** Over many frames the trail is the initial trail with the path pushed onto it. */
  lemma {:induction false} RunTrail(f: Fish, frames: seq<Frame>, b: Behaviours)
    ensures Run(f, frames, b).trail.cap == f.trail.cap
    ensures Run(f, frames, b).trail.points == PushAll(f.trail.points, Path(f, frames, b), f.trail.cap)
  {
    if |frames| > 0 {
      var front := frames[..|frames| - 1];
      RunTrail(f, front, b);
      var p := Path(f, frames, b);
      assert p[..|p| - 1] == Path(f, front, b);
    }
  }

  /**
   After `k` frames, trail point `i` is the unwrapped position of `i`
   frames ago, for every `i` below both `k` and the cap.
   */
  lemma {:induction false} RunHistory(f: Fish, frames: seq<Frame>, b: Behaviours)
    requires |f.trail.points| <= f.trail.cap
    ensures |Run(f, frames, b).trail.points| ==
      if |frames| + |f.trail.points| <= f.trail.cap then |frames| + |f.trail.points| else f.trail.cap
    ensures forall i :: 0 <= i < |frames| && i < f.trail.cap ==>
      Run(f, frames, b).trail.points[i] == Path(f, frames, b)[|frames| - 1 - i]
  {
    RunTrail(f, frames, b);
    HistoryOfPushes(f, frames, Run(f, frames, b).trail.points, Path(f, frames, b));
  }

  /** `RunHistory` for any trail `t` that is the fish's trail with the positions `p` pushed. */
  lemma HistoryOfPushes(f: Fish, frames: seq<Frame>, t: seq<Vec3>, p: seq<Vec3>)
    requires |f.trail.points| <= f.trail.cap
    requires |p| == |frames| && t == PushAll(f.trail.points, p, f.trail.cap)
    ensures |t| ==
      if |frames| + |f.trail.points| <= f.trail.cap then |frames| + |f.trail.points| else f.trail.cap
    ensures forall i :: 0 <= i < |frames| && i < f.trail.cap ==> t[i] == p[|frames| - 1 - i]
  {
    PushAllRecent(t, f.trail.points, p, f.trail.cap);
  }

  /** Every frame keeps a well-formed fish well-formed. */
  lemma {:induction false} RunPreservesWellformed(f: Fish, frames: seq<Frame>, b: Behaviours)
    requires Valid(b) && Wellformed(f)
    ensures Wellformed(Run(f, frames, b))
  {
    if |frames| > 0 {
      var front := frames[..|frames| - 1];
      RunPreservesWellformed(f, front, b);
      var fr := frames[|frames| - 1];
      UpdatePreservesWellformed(Run(f, front, b), fr.time, fr.bounds, fr.school, b);
    }
  }
}

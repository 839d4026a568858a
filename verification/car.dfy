/** One frame of the player's van (the `useFrame` body of src/components/Car.tsx):
    throttle, braking, reversing and friction change the speed; steering turns the
    heading when the van moves; the position advances along the heading and is
    clamped to the square [-25, 25] x [-25, 25]. The van does not consult the road
    network, does not read the turbo key and has no reset. */
module CarPhysics {
  import opened Geometry
  import opened CarControls

  const MaxSpeed: real := 7.5
  const MaxReverseSpeed: real := 4.0
  const Acceleration: real := 8.0
  const Braking: real := 12.0
  const Friction: real := 3.0
  const RotationSpeed: real := 2.5
  /** The van moves only inside [-MapLimit, MapLimit] on both axes. */
  const MapLimit: real := 25.0

  /** Position on the ground plane (the height stays 0.5), signed speed along the
      heading, and heading in radians. */
  datatype CarState = CarState(x: real, z: real, velocity: real, rotation: real)

  /** The van at its spawn point, at rest. */
  const Spawn: CarState := CarState(0.0, 0.0, 0.0, 0.0)

  /** `Math.sign` */
  function Sign(v: real): (r: real)
    ensures v > 0.0 ==> r == 1.0
    ensures v < 0.0 ==> r == -1.0
    ensures v == 0.0 ==> r == 0.0
  {
    if v > 0.0 then 1.0 else if v < 0.0 then -1.0 else 0.0
  }

  /** The throttle increment: faster from rest, never below 30% near the limit. */
  function AccelerationFactor(speed: real, limit: real): (f: real)
    requires limit > 0.0
    ensures f >= 0.3
  {
    Max(0.3, 1.0 - speed / limit)
  }

  /** The speed after the throttle/brake/friction part of the frame. */
  function NewVelocity(v: real, keys: Keys, delta: real): (r: real)
    // Forward wins over backward and never passes the top speed.
    ensures keys.forward ==> r <= MaxSpeed
    ensures keys.forward && v <= MaxSpeed && delta >= 0.0 ==> v <= r
    // Braking while moving forward is a plain subtraction; it may cross zero.
    ensures !keys.forward && keys.backward && v > 0.1 ==> r == v - Mul(delta, Braking)
    // Reversing never passes the reverse limit.
    ensures !keys.forward && keys.backward && v <= 0.1 ==> -MaxReverseSpeed <= r
    ensures !keys.forward && keys.backward && v <= 0.1 && delta >= 0.0 ==> r <= v || r == -MaxReverseSpeed
    // Coasting: a crawl stops dead, otherwise friction pulls towards zero without crossing it.
    ensures !keys.forward && !keys.backward && Abs(v) <= 0.01 ==> r == 0.0
    ensures !keys.forward && !keys.backward && delta >= 0.0 && v > 0.0 ==> 0.0 <= r <= v
    ensures !keys.forward && !keys.backward && delta >= 0.0 && v < 0.0 ==> v <= r <= 0.0
    // Nothing drives the speed above the top speed.
    ensures delta >= 0.0 && v <= MaxSpeed ==> r <= MaxSpeed
  {
    var currentSpeed := Abs(v);
    MulNonNegative(delta, Acceleration * AccelerationFactor(currentSpeed, MaxSpeed));
    MulNonNegative(delta, Acceleration * 0.7 * AccelerationFactor(currentSpeed, MaxReverseSpeed));
    MulNonNegative(delta, Friction * (1.0 + currentSpeed * 0.1));
    if keys.forward then
      Min(v + Mul(delta, Acceleration * AccelerationFactor(currentSpeed, MaxSpeed)), MaxSpeed)
    else if keys.backward then
      if v > 0.1 then v - Mul(delta, Braking)
      else Max(v - Mul(delta, Acceleration * 0.7 * AccelerationFactor(currentSpeed, MaxReverseSpeed)), -MaxReverseSpeed)
    else if Abs(v) > 0.01 then
      var frictionForce := Mul(delta, Friction * (1.0 + currentSpeed * 0.1));
      if v > 0.0 then Max(0.0, v - frictionForce) else Min(0.0, v + frictionForce)
    else 0.0
  }

  /** How far one frame of steering turns: slower at higher speed (before the
      speed update), proportional to the frame time. */
  function TurnAmount(speedBefore: real, delta: real): real {
    Mul(delta, RotationSpeed / (1.0 + Abs(speedBefore) * 0.15))
  }

  /** The heading after the steering part of the frame. */
  function NewRotation(rotation: real, speedBefore: real, speedAfter: real, keys: Keys, delta: real): (r: real)
    ensures Abs(speedAfter) <= 0.5 ==> r == rotation
    ensures keys.left == keys.right ==> r == rotation
    ensures Abs(speedAfter) > 0.5 && keys.left && !keys.right ==>
              r == rotation + TurnAmount(speedBefore, delta) * Sign(speedAfter)
    ensures Abs(speedAfter) > 0.5 && keys.right && !keys.left ==>
              r == rotation - TurnAmount(speedBefore, delta) * Sign(speedAfter)
  {
    if Abs(speedAfter) > 0.5 then
      var turn := TurnAmount(speedBefore, delta) * Sign(speedAfter);
      var afterLeft := if keys.left then rotation + turn else rotation;
      if keys.right then afterLeft - turn else afterLeft
    else rotation
  }

  /** One frame. `sinA` and `cosA` are the sine and cosine of the heading after
      steering, which the frame computes with `Math.sin`/`Math.cos`. */
  function Step(s: CarState, keys: Keys, delta: real, sinA: real, cosA: real): (r: CarState)
    ensures -MapLimit <= r.x <= MapLimit && -MapLimit <= r.z <= MapLimit
    ensures r.velocity == NewVelocity(s.velocity, keys, delta)
    ensures r.rotation == NewRotation(s.rotation, s.velocity, r.velocity, keys, delta)
    // Inside the map the van moves exactly along its heading.
    ensures var nx := s.x + Mul(Mul(sinA, r.velocity), delta);
            -MapLimit <= nx <= MapLimit ==> r.x == nx
    ensures var nz := s.z + Mul(Mul(cosA, r.velocity), delta);
            -MapLimit <= nz <= MapLimit ==> r.z == nz
  {
    var v := NewVelocity(s.velocity, keys, delta);
    var rot := NewRotation(s.rotation, s.velocity, v, keys, delta);
    var nx := s.x + Mul(Mul(sinA, v), delta);
    var nz := s.z + Mul(Mul(cosA, v), delta);
    CarState(Clamp(-MapLimit, MapLimit, nx), Clamp(-MapLimit, MapLimit, nz), v, rot)
  }

  /** One frame's input: the held keys, the frame time, and sine and cosine of the
      heading the frame steers to. */
  datatype Frame = Frame(keys: Keys, delta: real, sinA: real, cosA: real)

  function StepFrame(s: CarState, f: Frame): CarState {
    Step(s, f.keys, f.delta, f.sinA, f.cosA)
  }

  /** The states after each frame: Run(s, fs)[i] is the state after frame i. */
  function Run(s: CarState, frames: seq<Frame>): (states: seq<CarState>)
    ensures |states| == |frames|
    decreases |frames|
  {
    if |frames| == 0 then []
    else
      var next := StepFrame(s, frames[0]);
      [next] + Run(next, frames[1..])
  }

  predicate NonNegativeTimes(frames: seq<Frame>) {
    forall i :: 0 <= i < |frames| ==> frames[i].delta >= 0.0
  }

  /** Whatever keys are held, a van that starts at or below the top speed never
      exceeds it, and every frame leaves it inside the map. */
  lemma {:induction false} RunBounded(s: CarState, frames: seq<Frame>)
    requires s.velocity <= MaxSpeed
    requires NonNegativeTimes(frames)
    ensures forall i :: 0 <= i < |frames| ==> Run(s, frames)[i].velocity <= MaxSpeed
    ensures forall i :: 0 <= i < |frames| ==>
              -MapLimit <= Run(s, frames)[i].x <= MapLimit && -MapLimit <= Run(s, frames)[i].z <= MapLimit
    decreases |frames|
  {
    if |frames| > 0 {
      var next := StepFrame(s, frames[0]);
      RunBounded(next, frames[1..]);
      var rest := Run(next, frames[1..]);
      assert Run(s, frames) == [next] + rest;
      forall i | 0 <= i < |frames|
        ensures Run(s, frames)[i].velocity <= MaxSpeed
      {
        if i > 0 {
          assert Run(s, frames)[i] == rest[i - 1];
        }
      }
    }
  }

  /** From the spawn point the van never goes faster than 7.5. */
  lemma FromRestBounded(frames: seq<Frame>)
    requires NonNegativeTimes(frames)
    ensures forall i :: 0 <= i < |frames| ==> Run(Spawn, frames)[i].velocity <= MaxSpeed
  {
    RunBounded(Spawn, frames);
  }

  /** With forward held, the backward key makes no difference. */
  lemma ForwardOverridesBackward(s: CarState, keys: Keys, delta: real, sinA: real, cosA: real)
    requires keys.forward
    ensures Step(s, keys.(backward := true), delta, sinA, cosA) == Step(s, keys.(backward := false), delta, sinA, cosA)
  {
  }

  /** The turbo key is never read. */
  lemma TurboIgnored(s: CarState, keys: Keys, delta: real, sinA: real, cosA: real)
    ensures Step(s, keys.(turbo := true), delta, sinA, cosA) == Step(s, keys.(turbo := false), delta, sinA, cosA)
  {
  }

  /** Steering while reversing turns the other way: mirroring both speeds mirrors
      the heading change. */
  lemma SteeringMirrorsWhenReversing(rotation: real, speedBefore: real, speedAfter: real, keys: Keys, delta: real)
    ensures NewRotation(rotation, -speedBefore, -speedAfter, keys, delta) - rotation
            == -(NewRotation(rotation, speedBefore, speedAfter, keys, delta) - rotation)
  {
  }

  /** A left turn with a positive frame time turns towards the direction of motion. */
  lemma LeftTurnDirection(rotation: real, speedBefore: real, speedAfter: real, keys: Keys, delta: real)
    requires keys.left && !keys.right && delta > 0.0
    ensures speedAfter > 0.5 ==> NewRotation(rotation, speedBefore, speedAfter, keys, delta) > rotation
    ensures speedAfter < -0.5 ==> NewRotation(rotation, speedBefore, speedAfter, keys, delta) < rotation
  {
    var rate := RotationSpeed / (1.0 + Abs(speedBefore) * 0.15);
    assert rate > 0.0;
    MulLtRight(0.0, delta, rate);
  }
}

/** The timed red/green/yellow cycle of one traffic light and its lamp intensities
    (src/components/TrafficLight.tsx). Placement and meshes are not modelled. */
module TrafficLight {

  datatype Light = Red | Green | Yellow

  /** The state the frame callback keeps in its refs: the light and the time spent
      in it. */
  datatype LightState = LightState(light: Light, time: real)

  /** How long each light stays on before the next frame may switch it. */
  function Duration(l: Light): (d: real)
    ensures d > 0.0
  {
    match l
    case Red => 5.0
    case Green => 5.0
    case Yellow => 2.0
  }

  /** The light that follows. */
  function Next(l: Light): (n: Light)
    ensures n != l
  {
    match l
    case Red => Green
    case Green => Yellow
    case Yellow => Red
  }

  /** A light starts with no time spent; the default is red. */
  function Initial(l: Light := Red): (s: LightState)
    ensures s.light == l && s.time == 0.0
  {
    LightState(l, 0.0)
  }

  /** One frame: time grows by delta; once it strictly exceeds the duration the
      light moves to the next one and the time restarts at zero. */
  function Tick(s: LightState, delta: real): (r: LightState)
    ensures r.light == s.light || r.light == Next(s.light)
    ensures r.light == Next(s.light) <==> s.time + delta > Duration(s.light)
    ensures r.light == s.light ==> r.time == s.time + delta
    ensures r.light != s.light ==> r.time == 0.0
  {
    var t := s.time + delta;
    if t > Duration(s.light) then LightState(Next(s.light), 0.0) else LightState(s.light, t)
  }

  /** Three switches bring a light back to where it started. */
  lemma CycleOfThree(l: Light)
    ensures Next(Next(Next(l))) == l
    ensures Next(Next(l)) != l
  {
  }

  /** The time spent never goes negative nor past the duration. */
  predicate Valid(s: LightState) {
    0.0 <= s.time <= Duration(s.light)
  }

  lemma TickKeepsValid(s: LightState, delta: real)
    requires Valid(s) && delta >= 0.0
    ensures Valid(Tick(s, delta))
  {
  }

  /** A frame longer than the current light's duration always switches it. */
  lemma LongFrameSwitches(s: LightState, delta: real)
    requires Valid(s) && delta > Duration(s.light)
    ensures Tick(s, delta).light == Next(s.light)
  {
  }

  function Run(s: LightState, deltas: seq<real>): LightState
    decreases |deltas|
  {
    if |deltas| == 0 then s else Run(Tick(s, deltas[0]), deltas[1..])
  }

  /** Every light visited along a run is reached from the start by following the
      cycle: after n frames the light is the start advanced by at most n steps. */
  function Advance(l: Light, n: nat): Light
    decreases n
  {
    if n == 0 then l else Advance(Next(l), n - 1)
  }

  lemma {:induction false} RunFollowsCycle(s: LightState, deltas: seq<real>)
    requires Valid(s) && forall i :: 0 <= i < |deltas| ==> deltas[i] >= 0.0
    ensures Valid(Run(s, deltas))
    ensures exists n :: 0 <= n <= |deltas| && Run(s, deltas).light == Advance(s.light, n)
    decreases |deltas|
  {
    if |deltas| == 0 {
      assert Run(s, deltas).light == Advance(s.light, 0);
    } else {
      var s1 := Tick(s, deltas[0]);
      RunFollowsCycle(s1, deltas[1..]);
      var n :| 0 <= n <= |deltas[1..]| && Run(s1, deltas[1..]).light == Advance(s1.light, n);
      if s1.light == s.light {
        assert Run(s, deltas).light == Advance(s.light, n);
      } else {
        assert Run(s, deltas).light == Advance(s.light, n + 1);
      }
    }
  }

  datatype Lamps = Lamps(red: real, yellow: real, green: real)

  const LitIntensity: real := 1.5

  /** The lamp intensities set after each frame: the lamp of the current light at
      1.5, the other two off. */
  function Intensities(l: Light): (r: Lamps)
    ensures r.red == LitIntensity <==> l.Red?
    ensures r.yellow == LitIntensity <==> l.Yellow?
    ensures r.green == LitIntensity <==> l.Green?
    ensures r.red == 0.0 || r.red == LitIntensity
    ensures r.yellow == 0.0 || r.yellow == LitIntensity
    ensures r.green == 0.0 || r.green == LitIntensity
  {
    if l == Red then Lamps(LitIntensity, 0.0, 0.0)
    else if l == Yellow then Lamps(0.0, LitIntensity, 0.0)
    else assert l.Green?; Lamps(0.0, 0.0, LitIntensity)
  }

  /** Exactly one lamp is lit, so the lamps tell the light apart. */
  lemma OneLampLit(l: Light, m: Light)
    ensures var r := Intensities(l);
            (if r.red == LitIntensity then 1 else 0) + (if r.yellow == LitIntensity then 1 else 0)
              + (if r.green == LitIntensity then 1 else 0) == 1
    ensures Intensities(l) == Intensities(m) ==> l == m
  {
  }
}

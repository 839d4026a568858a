/** The proximity flag and the E-key latch of one interaction point
    (src/hooks/useInteraction.ts). Listener registration is not modelled: each key
    press is one transition on the state the handler sees. */
module Interaction {
  import opened Geometry

  datatype InteractionState = InteractionState(isNearTarget: bool, canInteract: bool)

  /** Both flags start false. */
  const Idle: InteractionState := InteractionState(false, false)

  /** Default of `interactionDistance`. */
  const DefaultInteractionDistance: real := 3.0

  /** `checkDistance` for one frame: the proximity flag follows the strict distance
      test, the latch is left alone. */
  function CheckDistance(s: InteractionState, car: Vec3, target: Vec3,
                         distance: real := DefaultInteractionDistance): (r: InteractionState)
    ensures r.isNearTarget <==> Within(car, target, distance)
    ensures r.canInteract == s.canInteract
  {
    s.(isNearTarget := Within(car, target, distance))
  }

  predicate IsInteractKey(key: string) {
    key == "e" || key == "E"
  }

  /** The keydown handler: 'e' or 'E' latches the interaction, but only near the
      target; every other key, and any key far away, changes nothing. */
  function KeyPress(s: InteractionState, key: string): (r: InteractionState)
    ensures r.isNearTarget == s.isNearTarget
    ensures r.canInteract <==> s.canInteract || (IsInteractKey(key) && s.isNearTarget)
    ensures !IsInteractKey(key) ==> r == s
  {
    if IsInteractKey(key) && s.isNearTarget then s.(canInteract := true) else s
  }

  /** `resetInteraction` */
  function ResetInteraction(s: InteractionState): (r: InteractionState)
    ensures !r.canInteract
    ensures r.isNearTarget == s.isNearTarget
  {
    s.(canInteract := false)
  }

  /** A car at the target itself is near for every positive distance, and a
      larger distance never turns a near car into a far one. */
  lemma NearAtTarget(s: InteractionState, car: Vec3, target: Vec3, d1: real, d2: real)
    requires 0.0 < d1 <= d2
    ensures CheckDistance(s, target, target, d1).isNearTarget
    ensures CheckDistance(s, car, target, d1).isNearTarget ==> CheckDistance(s, car, target, d2).isNearTarget
  {
    WithinSelf(target, d1);
    WithinMonotone(car, target, d1, d2);
  }

  /** Driving away does not clear a latched interaction; only a reset does. */
  lemma LatchSurvivesDistance(s: InteractionState, car: Vec3, target: Vec3, distance: real)
    requires s.canInteract
    ensures CheckDistance(s, car, target, distance).canInteract
    ensures !ResetInteraction(CheckDistance(s, car, target, distance)).canInteract
  {
  }

  /** What the hook sees, in order: frames with the car position, key presses and
      resets from the scene. */
  datatype Event = Frame(car: Vec3) | Key(key: string) | Reset

  function Apply(s: InteractionState, target: Vec3, distance: real, e: Event): InteractionState {
    match e
    case Frame(car) => CheckDistance(s, car, target, distance)
    case Key(k) => KeyPress(s, k)
    case Reset => ResetInteraction(s)
  }

  /** The state after a series of events (the last event applied last). */
  function Run(s: InteractionState, target: Vec3, distance: real, evs: seq<Event>): InteractionState
    decreases |evs|
  {
    if |evs| == 0 then s
    else Apply(Run(s, target, distance, evs[..|evs| - 1]), target, distance, evs[|evs| - 1])
  }

  /** From idle, an interaction is latched only if at some point an E key was
      pressed while the car was near the target. */
  lemma {:induction false} LatchNeedsNearKey(s: InteractionState, target: Vec3, distance: real, evs: seq<Event>)
    requires !s.canInteract
    requires Run(s, target, distance, evs).canInteract
    ensures exists i :: 0 <= i < |evs| && evs[i].Key? && IsInteractKey(evs[i].key)
                        && Run(s, target, distance, evs[..i]).isNearTarget
    decreases |evs|
  {
    var n := |evs|;
    var pre := evs[..n - 1];
    if Run(s, target, distance, pre).canInteract {
      LatchNeedsNearKey(s, target, distance, pre);
      var i :| 0 <= i < |pre| && pre[i].Key? && IsInteractKey(pre[i].key)
               && Run(s, target, distance, pre[..i]).isNearTarget;
      assert pre[..i] == evs[..i];
      assert evs[i] == pre[i];
    } else {
      assert evs[..n - 1] == pre;
      assert evs[n - 1].Key? && IsInteractKey(evs[n - 1].key);
    }
  }
}

/** The held-key record that `useCarControls` keeps from key-down and key-up events
    (src/hooks/useCarControls.ts). */
module CarControls {
  import opened Text
  import opened Optional

  datatype Keys = Keys(forward: bool, backward: bool, left: bool, right: bool, turbo: bool)

  /** The five controls the record tracks. */
  datatype Control = Forward | Backward | Left | Right | Turbo

  /** Every control starts released. */
  const InitialKeys: Keys := Keys(false, false, false, false, false)

  function Get(k: Keys, c: Control): bool {
    match c
    case Forward => k.forward
    case Backward => k.backward
    case Left => k.left
    case Right => k.right
    case Turbo => k.turbo
  }

  function Set(k: Keys, c: Control, v: bool): (r: Keys)
    ensures Get(r, c) == v
    ensures forall d :: d != c ==> Get(r, d) == Get(k, d)
  {
    match c
    case Forward => k.(forward := v)
    case Backward => k.(backward := v)
    case Left => k.(left := v)
    case Right => k.(right := v)
    case Turbo => k.(turbo := v)
  }

  /** The key binding: "Shift" exactly, then w/s/a/d after lower-casing. */
  function Binding(key: string): (c: Option<Control>)
    ensures c == Some(Turbo) <==> key == "Shift"
    ensures c == Some(Forward) <==> key == "w" || key == "W"
    ensures c == Some(Backward) <==> key == "s" || key == "S"
    ensures c == Some(Left) <==> key == "a" || key == "A"
    ensures c == Some(Right) <==> key == "d" || key == "D"
  {
    if key == "Shift" then Some(Turbo)
    else
      var lower := LowerAscii(key);
      if lower == "w" then Some(Forward)
      else if lower == "s" then Some(Backward)
      else if lower == "a" then Some(Left)
      else if lower == "d" then Some(Right)
      else None
  }

  /** `handleKeyDown`: the bound control becomes held; nothing else changes. */
  function KeyDown(k: Keys, key: string): (r: Keys)
    ensures Binding(key).Some? ==> Get(r, Binding(key).value)
    ensures forall c :: Binding(key) != Some(c) ==> Get(r, c) == Get(k, c)
  {
    match Binding(key)
    case Some(c) => Set(k, c, true)
    case None => k
  }

  /** `handleKeyUp`: the bound control becomes released; nothing else changes. */
  function KeyUp(k: Keys, key: string): (r: Keys)
    ensures Binding(key).Some? ==> !Get(r, Binding(key).value)
    ensures forall c :: Binding(key) != Some(c) ==> Get(r, c) == Get(k, c)
  {
    match Binding(key)
    case Some(c) => Set(k, c, false)
    case None => k
  }

  datatype KeyEvent = Down(key: string) | Up(key: string)

  function Apply(k: Keys, e: KeyEvent): Keys {
    match e
    case Down(key) => KeyDown(k, key)
    case Up(key) => KeyUp(k, key)
  }

  /** The record after a sequence of events, oldest first. */
  function ApplyAll(k: Keys, events: seq<KeyEvent>): Keys
    decreases |events|
  {
    if |events| == 0 then k else ApplyAll(Apply(k, events[0]), events[1..])
  }

  /** Whether control c is held after the events: decided by the last event bound
      to c (a key-down holds it, a key-up releases it), or `initial` if none is. */
  function HeldAfter(initial: bool, events: seq<KeyEvent>, c: Control): bool
    decreases |events|
  {
    if |events| == 0 then initial
    else
      var e := events[|events| - 1];
      if Binding(e.key) == Some(c) then e.Down?
      else HeldAfter(initial, events[..|events| - 1], c)
  }

  /** Case does not matter for the letter keys. */
  lemma LetterCaseInsensitive(k: Keys)
    ensures KeyDown(k, "W") == KeyDown(k, "w") && KeyUp(k, "W") == KeyUp(k, "w")
    ensures KeyDown(k, "S") == KeyDown(k, "s") && KeyUp(k, "S") == KeyUp(k, "s")
    ensures KeyDown(k, "A") == KeyDown(k, "a") && KeyUp(k, "A") == KeyUp(k, "a")
    ensures KeyDown(k, "D") == KeyDown(k, "d") && KeyUp(k, "D") == KeyUp(k, "d")
  {
  }

  /** Releasing a key undoes pressing it when the control was not held before. */
  lemma DownThenUp(k: Keys, key: string)
    requires Binding(key).Some? ==> !Get(k, Binding(key).value)
    ensures KeyUp(KeyDown(k, key), key) == k
  {
    match Binding(key)
    case Some(c) =>
      assert forall d :: Get(KeyUp(KeyDown(k, key), key), d) == Get(k, d);
      KeysExtensional(KeyUp(KeyDown(k, key), key), k);
    case None =>
  }

  lemma KeysExtensional(a: Keys, b: Keys)
    requires forall c :: Get(a, c) == Get(b, c)
    ensures a == b
  {
    assert Get(a, Forward) == Get(b, Forward);
    assert Get(a, Backward) == Get(b, Backward);
    assert Get(a, Left) == Get(b, Left);
    assert Get(a, Right) == Get(b, Right);
    assert Get(a, Turbo) == Get(b, Turbo);
  }

  lemma {:induction false} ApplyAllSnoc(k: Keys, events: seq<KeyEvent>, e: KeyEvent)
    ensures ApplyAll(k, events + [e]) == Apply(ApplyAll(k, events), e)
    decreases |events|
  {
    if |events| > 0 {
      assert (events + [e])[1..] == events[1..] + [e];
      ApplyAllSnoc(Apply(k, events[0]), events[1..], e);
    }
  }

  /** After any sequence of events, each control is held exactly when the last event
      bound to it was a key-down (or, with no such event, when it started held). */
  lemma {:induction false} ApplyAllHeld(k: Keys, events: seq<KeyEvent>, c: Control)
    ensures Get(ApplyAll(k, events), c) == HeldAfter(Get(k, c), events, c)
    decreases |events|
  {
    if |events| > 0 {
      var init := events[..|events| - 1];
      var e := events[|events| - 1];
      assert events == init + [e];
      ApplyAllSnoc(k, init, e);
      ApplyAllHeld(k, init, c);
    }
  }

  /** From the initial record, a control is held only if some event pressed it. */
  lemma HeldNeedsPress(events: seq<KeyEvent>, c: Control)
    requires Get(ApplyAll(InitialKeys, events), c)
    ensures exists i :: 0 <= i < |events| && events[i].Down? && Binding(events[i].key) == Some(c)
  {
    ApplyAllHeld(InitialKeys, events, c);
    HeldAfterWitness(false, events, c);
  }

  lemma {:induction false} HeldAfterWitness(initial: bool, events: seq<KeyEvent>, c: Control)
    requires HeldAfter(initial, events, c) && !initial
    ensures exists i :: 0 <= i < |events| && events[i].Down? && Binding(events[i].key) == Some(c)
    decreases |events|
  {
    var e := events[|events| - 1];
    if Binding(e.key) != Some(c) {
      HeldAfterWitness(initial, events[..|events| - 1], c);
      var i :| 0 <= i < |events| - 1 && events[..|events| - 1][i].Down? && Binding(events[..|events| - 1][i].key) == Some(c);
      assert events[i] == events[..|events| - 1][i];
    }
  }
}

/** The courier mini-game at the delivery locker: log in with the PIN, type the
    parcel number, close the locker (src/components/CourierDeliveryGame.tsx).
    Each handler is one transition on the game, the score and the quest list; the
    random parcel digits and the random locker are passed in. */
module CourierGame {
  import opened Optional
  import opened Text
  import opened Score
  import opened Quests

  datatype Step = Storytelling | PinInput | ParcelInput | LockerOpen | Result

  datatype ErrorType = NoError | WrongPin | WrongParcel

  /** The PIN the game accepts; it is also shown to the player. */
  const CorrectPin: string := "1234"
  const PointsForDelivery: int := 50
  const PinLength: nat := 4
  const ParcelLength: nat := 14
  const LockerCount: nat := 9

  datatype Game = Game(step: Step, pin: string, parcel: string, correctParcel: string,
                       locker: Option<int>, error: ErrorType, earned: int)

  /** The game together with the two contexts it updates. */
  datatype World = World(game: Game, score: ScoreData, quests: seq<Quest>)

  /** Where the game sits in the fixed order of its screens. */
  function Rank(s: Step): (n: nat)
    ensures n <= 4
  {
    match s
    case Storytelling => 0
    case PinInput => 1
    case ParcelInput => 2
    case LockerOpen => 3
    case Result => 4
  }

  /** A fresh game: the story screen, empty inputs, a 14-digit parcel number from
      the draws. */
  function NewGame(draws: seq<real>): (g: Game)
    requires |draws| == ParcelLength && UnitDraws(draws)
    ensures g.step == Storytelling && g.pin == "" && g.parcel == "" && g.error == NoError
    ensures |g.correctParcel| == ParcelLength && AllDigits(g.correctParcel)
    ensures forall i :: 0 <= i < ParcelLength ==> DigitValue(g.correctParcel[i]) == DrawDigit(draws[i])
  {
    Game(Storytelling, "", "", DigitString(draws), None, NoError, 0)
  }

  /** `slice(0, -1)`: the last character dropped; empty stays empty. */
  function DropLast(s: string): (r: string)
    ensures |s| == 0 ==> r == s
    ensures |s| > 0 ==> |r| == |s| - 1 && r == s[..|s| - 1]
  {
    if |s| == 0 then s else s[..|s| - 1]
  }

  /** `Math.floor(Math.random() * 9) + 1` */
  function LockerNumber(u: real): (n: int)
    ensures 0.0 <= u < 1.0 ==> 1 <= n <= LockerCount
  {
    (u * 9.0).Floor + 1
  }

  /** `handleStartGame` */
  function StartGame(w: World): (r: World)
    ensures r.game.step == PinInput
    ensures r == w.(game := w.game.(step := PinInput))
  {
    w.(game := w.game.(step := PinInput))
  }

  /** `handlePinSubmit`: the right PIN clears the error and moves on to the parcel;
      a wrong one sets the PIN error and stays. */
  function SubmitPin(w: World): (r: World)
    ensures w.game.pin == CorrectPin ==> r == w.(game := w.game.(error := NoError, step := ParcelInput))
    ensures w.game.pin != CorrectPin ==> r == w.(game := w.game.(error := WrongPin))
  {
    if w.game.pin == CorrectPin then w.(game := w.game.(error := NoError, step := ParcelInput))
    else w.(game := w.game.(error := WrongPin))
  }

  /** `handleParcelSubmit`: the right parcel number opens a random locker; a wrong
      one sets the parcel error and stays. */
  function SubmitParcel(w: World, draw: real): (r: World)
    ensures w.game.parcel == w.game.correctParcel ==>
              r == w.(game := w.game.(error := NoError, locker := Some(LockerNumber(draw)), step := LockerOpen))
    ensures w.game.parcel != w.game.correctParcel ==> r == w.(game := w.game.(error := WrongParcel))
  {
    if w.game.parcel == w.game.correctParcel then
      w.(game := w.game.(error := NoError, locker := Some(LockerNumber(draw)), step := LockerOpen))
    else w.(game := w.game.(error := WrongParcel))
  }

  /** `handleNumberClick(num)` on the on-screen numpad: the input the current
      step types into, with its length limit. The keyboard's digit branch
      appends in its own code with the same effect. */
  function Append(w: World, input: string): (r: World)
    ensures w.game.step == PinInput && |w.game.pin| < PinLength ==>
              r == w.(game := w.game.(pin := w.game.pin + input))
    ensures w.game.step == ParcelInput && |w.game.parcel| < ParcelLength ==>
              r == w.(game := w.game.(parcel := w.game.parcel + input))
    ensures (!(w.game.step == PinInput && |w.game.pin| < PinLength)
             && !(w.game.step == ParcelInput && |w.game.parcel| < ParcelLength)) ==> r == w
  {
    if w.game.step == PinInput && |w.game.pin| < PinLength then w.(game := w.game.(pin := w.game.pin + input))
    else if w.game.step == ParcelInput && |w.game.parcel| < ParcelLength then
      w.(game := w.game.(parcel := w.game.parcel + input))
    else w
  }

  /** `handleBackspace` on the on-screen numpad. */
  function Backspace(w: World): (r: World)
    ensures w.game.step == PinInput ==> r == w.(game := w.game.(pin := DropLast(w.game.pin)))
    ensures w.game.step == ParcelInput ==> r == w.(game := w.game.(parcel := DropLast(w.game.parcel)))
    ensures w.game.step != PinInput && w.game.step != ParcelInput ==> r == w
  {
    if w.game.step == PinInput then w.(game := w.game.(pin := DropLast(w.game.pin)))
    else if w.game.step == ParcelInput then w.(game := w.game.(parcel := DropLast(w.game.parcel)))
    else w
  }

  /** The physical keyboard: ignored while an error is shown and outside the two
      input screens; a key in the range '0'..'9' types (up to the limit),
      Backspace erases, Enter submits a complete input. */
  function KeyDown(w: World, key: string, draw: real): (r: World)
    ensures w.game.error != NoError ==> r == w
    ensures w.game.step != PinInput && w.game.step != ParcelInput ==> r == w
    ensures w.game.error == NoError && InDigitRange(key) ==> r == Append(w, key)
    ensures w.game.error == NoError && key == "Backspace" ==> r == Backspace(w)
    ensures w.game.error == NoError && key == "Enter" && w.game.step == PinInput ==>
              r == (if |w.game.pin| == PinLength then SubmitPin(w) else w)
    ensures w.game.error == NoError && key == "Enter" && w.game.step == ParcelInput ==>
              r == (if |w.game.parcel| == ParcelLength then SubmitParcel(w, draw) else w)
    ensures !InDigitRange(key) && key != "Backspace" && key != "Enter" ==> r == w
  {
    var g := w.game;
    if g.error != NoError then w
    else if g.step == PinInput then
      if InDigitRange(key) then Append(w, key)
      else if key == "Backspace" then Backspace(w)
      else if key == "Enter" && |g.pin| == PinLength then SubmitPin(w)
      else w
    else if g.step == ParcelInput then
      if InDigitRange(key) then Append(w, key)
      else if key == "Backspace" then Backspace(w)
      else if key == "Enter" && |g.parcel| == ParcelLength then SubmitParcel(w, draw)
      else w
    else w
  }

  /** `handleCloseLocker`: 50 points and a completed mini-game; the quest chain
      advances only when the current quest is quest-2. */
  function CloseLocker(w: World): (r: World)
    ensures r.game == w.game.(earned := PointsForDelivery, step := Result)
    ensures r.score == AddScore(w.score, PointsForDelivery, true)
    ensures var q := CurrentQuest(w.quests);
            r.quests == (if q.Some? && q.value.id == "quest-2" then CompleteCurrentQuest(w.quests) else w.quests)
  {
    var q := CurrentQuest(w.quests);
    World(w.game.(earned := PointsForDelivery, step := Result),
          AddScore(w.score, PointsForDelivery, true),
          if q.Some? && q.value.id == "quest-2" then CompleteCurrentQuest(w.quests) else w.quests)
  }

  /** `handleRetry`: clears the input the error is about, and the error. */
  function Retry(w: World): (r: World)
    ensures w.game.error == WrongPin ==> r == w.(game := w.game.(pin := "", error := NoError))
    ensures w.game.error == WrongParcel ==> r == w.(game := w.game.(parcel := "", error := NoError))
    ensures w.game.error == NoError ==> r == w
  {
    match w.game.error
    case WrongPin => w.(game := w.game.(pin := "", error := NoError))
    case WrongParcel => w.(game := w.game.(parcel := "", error := NoError))
    case NoError => w
  }

  /** What the player can do. */
  datatype Event =
    | Start
    | Key(key: string, draw: real)
    | Number(num: string)
    | Erase
    | ConfirmPin
    | ConfirmParcel(draw: real)
    | Close
    | RetryInput

  function Apply(w: World, e: Event): World {
    match e
    case Start => StartGame(w)
    case Key(k, d) => KeyDown(w, k, d)
    case Number(n) => Append(w, n)
    case Erase => Backspace(w)
    case ConfirmPin => SubmitPin(w)
    case ConfirmParcel(d) => SubmitParcel(w, d)
    case Close => CloseLocker(w)
    case RetryInput => Retry(w)
  }

  predicate IsDigitString(s: string) {
    |s| == 1 && IsDigit(s[0])
  }

  /** The events the screen offers: each button exists only on its screen (the
      numpad and the confirm buttons only while no error is shown, a confirm button
      only for a complete input, the retry button only in an error box). Browser
      key values in the digit range are single characters; the keyboard listener
      is always registered. */
  predicate Available(g: Game, e: Event) {
    match e
    case Start => g.step == Storytelling
    case Key(k, d) => (InDigitRange(k) ==> |k| == 1) && 0.0 <= d < 1.0
    case Number(n) => (g.step == PinInput || g.step == ParcelInput) && g.error == NoError && IsDigitString(n)
    case Erase => (g.step == PinInput || g.step == ParcelInput) && g.error == NoError
    case ConfirmPin => g.step == PinInput && g.error == NoError && |g.pin| == PinLength
    case ConfirmParcel(d) => g.step == ParcelInput && g.error == NoError && |g.parcel| == ParcelLength
                             && 0.0 <= d < 1.0
    case Close => g.step == LockerOpen
    case RetryInput => (g.step == PinInput && g.error == WrongPin) || (g.step == ParcelInput && g.error == WrongParcel)
  }

  /** Screens only move forward, one at a time. */
  lemma StepOrder(w: World, e: Event)
    requires Available(w.game, e)
    ensures Rank(Apply(w, e).game.step) == Rank(w.game.step)
            || Rank(Apply(w, e).game.step) == Rank(w.game.step) + 1
  {
  }

  /** What holds at every moment of a game started with `base` as the score: the
      inputs are digits within their limits, an error belongs to its screen, an
      open or closed locker has a number in 1..9, and the score has grown by 50
      with one mini-game exactly when the result screen has been reached. */
  predicate Inv(w: World, base: ScoreData) {
    && |w.game.pin| <= PinLength && AllDigits(w.game.pin)
    && |w.game.parcel| <= ParcelLength && AllDigits(w.game.parcel)
    && |w.game.correctParcel| == ParcelLength
    && (w.game.error == WrongPin ==> w.game.step == PinInput)
    && (w.game.error == WrongParcel ==> w.game.step == ParcelInput)
    && (Rank(w.game.step) >= 3 ==> w.game.locker.Some? && 1 <= w.game.locker.value <= LockerCount)
    && w.game.earned == (if w.game.step == Result then PointsForDelivery else 0)
    && w.score == (if w.game.step == Result then AddScore(base, PointsForDelivery, true) else base)
  }

  lemma InitInv(draws: seq<real>, score: ScoreData, quests: seq<Quest>)
    requires |draws| == ParcelLength && UnitDraws(draws)
    ensures Inv(World(NewGame(draws), score, quests), score)
  {
  }

  lemma AppendKeepsInv(w: World, base: ScoreData, input: string)
    requires Inv(w, base) && IsDigitString(input)
    ensures Inv(Append(w, input), base)
  {
    var r := Append(w, input);
    if w.game.step == PinInput && |w.game.pin| < PinLength {
      assert r.game.pin == w.game.pin + input;
    } else if w.game.step == ParcelInput && |w.game.parcel| < ParcelLength {
      assert r.game.parcel == w.game.parcel + input;
    }
  }

  lemma BackspaceKeepsInv(w: World, base: ScoreData)
    requires Inv(w, base)
    ensures Inv(Backspace(w), base)
  {
  }

  /** Every offered event keeps the invariant. */
  lemma ApplyKeepsInv(w: World, base: ScoreData, e: Event)
    requires Inv(w, base) && Available(w.game, e)
    ensures Inv(Apply(w, e), base)
  {
    match e
    case Key(k, d) =>
      if w.game.error == NoError && InDigitRange(k) {
        DigitRangeShape(k);
        AppendKeepsInv(w, base, k);
      } else if w.game.error == NoError && k == "Backspace" {
        BackspaceKeepsInv(w, base);
      }
    case Number(n) => AppendKeepsInv(w, base, n);
    case Erase => BackspaceKeepsInv(w, base);
    case _ =>
  }

  function Play(w: World, events: seq<Event>): World
    decreases |events|
  {
    if |events| == 0 then w else Play(Apply(w, events[0]), events[1..])
  }

  predicate AllAvailable(w: World, events: seq<Event>)
    decreases |events|
  {
    |events| == 0 || (Available(w.game, events[0]) && AllAvailable(Apply(w, events[0]), events[1..]))
  }

  lemma {:induction false} PlayKeepsInv(w: World, base: ScoreData, events: seq<Event>)
    requires Inv(w, base) && AllAvailable(w, events)
    ensures Inv(Play(w, events), base)
    decreases |events|
  {
    if |events| > 0 {
      ApplyKeepsInv(w, base, events[0]);
      PlayKeepsInv(Apply(w, events[0]), base, events[1..]);
    }
  }

  /** However the player plays, one game awards 50 points and one mini-game at
      most once, and exactly when it ends on the result screen. */
  lemma DeliveryPaysOnce(draws: seq<real>, score: ScoreData, quests: seq<Quest>, events: seq<Event>)
    requires |draws| == ParcelLength && UnitDraws(draws)
    requires AllAvailable(World(NewGame(draws), score, quests), events)
    ensures var r := Play(World(NewGame(draws), score, quests), events);
            && (r.game.step == Result ==> r.score.totalScore == score.totalScore + PointsForDelivery
                                          && r.score.miniGamesCompleted == score.miniGamesCompleted + 1)
            && (r.game.step != Result ==> r.score == score)
  {
    InitInv(draws, score, quests);
    PlayKeepsInv(World(NewGame(draws), score, quests), score, events);
  }

  /** Closing the locker advances the quest chain only while quest-2 is the current
      quest. */
  lemma CloseAdvancesQuestTwo(w: World, k: nat)
    requires ChainAt(w.quests, k) && k < |w.quests|
    ensures w.quests[k].id == "quest-2" ==> ChainAt(CloseLocker(w).quests, k + 1)
    ensures w.quests[k].id != "quest-2" ==> CloseLocker(w).quests == w.quests
  {
    CurrentOfChain(w.quests, k);
    CompleteAdvancesChain(w.quests, k);
  }

  /** Typing the PIN on the numpad and confirming it opens the parcel screen. */
  lemma CorrectPinOpensParcel(w: World)
    requires w.game.step == PinInput && w.game.pin == "" && w.game.error == NoError
    ensures var r := Play(w, [Number("1"), Number("2"), Number("3"), Number("4"), ConfirmPin]);
            r.game.step == ParcelInput && r.game.error == NoError && r.game.pin == CorrectPin
  {
    var w1 := Apply(w, Number("1"));
    var w2 := Apply(w1, Number("2"));
    var w3 := Apply(w2, Number("3"));
    var w4 := Apply(w3, Number("4"));
    assert w4.game.pin == CorrectPin;
    assert Play(w, [Number("1"), Number("2"), Number("3"), Number("4"), ConfirmPin]) == Apply(w4, ConfirmPin) by {
      assert [Number("1"), Number("2"), Number("3"), Number("4"), ConfirmPin][1..] == [Number("2"), Number("3"), Number("4"), ConfirmPin];
      assert [Number("2"), Number("3"), Number("4"), ConfirmPin][1..] == [Number("3"), Number("4"), ConfirmPin];
      assert [Number("3"), Number("4"), ConfirmPin][1..] == [Number("4"), ConfirmPin];
      assert [Number("4"), ConfirmPin][1..] == [ConfirmPin];
    }
  }
}

/** The closing test back at the depot (src/components/QuizGame.tsx): five
    questions of three options each, a 60-second countdown, 20 points per right
    answer plus a time bonus of up to 50, and quest-4 completed at the end. */
module Quiz {
  import opened Optional
  import opened Text
  import opened Score
  import opened Quests

  const QuestionCount: nat := 5
  const OptionCount: nat := 3
  /** The index of the right option of each question. */
  const Key: seq<nat> := [2, 1, 0, 1, 1]
  const TimeLimit: nat := 60
  const PointsPerCorrect: int := 20
  const MaxTimeBonus: int := 50

  datatype Step = Storytelling | Questions | Result

  /** A cell of the `selectedAnswers` array: a hole (never written), an explicit
      `undefined` (a hole copied by the spread `[...selectedAnswers]`), or the
      chosen option. */
  datatype Slot = Hole | Undefined | Chosen(option: nat)

  /** `selectedAnswers[i]` read as a value: holes, `undefined` and indices past
      the end all read as `undefined`. */
  function At(answers: seq<Slot>, i: nat): (r: Option<nat>)
    ensures r.Some? <==> i < |answers| && answers[i].Chosen?
  {
    if i < |answers| && answers[i].Chosen? then Some(answers[i].option) else None
  }

  /** `[...a]`: the spread reads every index, so holes become `undefined`. */
  function Spread(answers: seq<Slot>): (r: seq<Slot>)
    ensures |r| == |answers|
    ensures forall i :: 0 <= i < |r| ==> r[i] == (if answers[i] == Hole then Undefined else answers[i])
  {
    seq(|answers|, i requires 0 <= i < |answers| => if answers[i] == Hole then Undefined else answers[i])
  }

  function Holes(n: nat): (r: seq<Slot>)
    ensures |r| == n && forall i :: 0 <= i < n ==> r[i] == Hole
  {
    if n == 0 then [] else [Hole] + Holes(n - 1)
  }

  /** `handleAnswerSelect`: copy the answers, then write the option at the
      current question; writing past the end leaves holes in between. */
  function SetAnswer(answers: seq<Slot>, i: nat, option: nat): (r: seq<Slot>)
    ensures |r| == if i < |answers| then |answers| else i + 1
    ensures r[i] == Chosen(option)
    ensures forall j :: 0 <= j < |answers| && j != i ==> r[j] == (if answers[j] == Hole then Undefined else answers[j])
    ensures forall j :: |answers| <= j < i ==> r[j] == Hole
  {
    var copy := Spread(answers);
    if i < |copy| then copy[i := Chosen(option)] else copy + Holes(i - |copy|) + [Chosen(option)]
  }

  /** The answer under the current question reads the value just written, and
      every other question reads what it read before. */
  lemma SetAnswerReads(answers: seq<Slot>, i: nat, option: nat, j: nat)
    ensures At(SetAnswer(answers, i, option), j) == if j == i then Some(option) else At(answers, j)
  {
  }

  /** The finish button's condition as the source writes it:
      `selectedAnswers.length === 5 && selectedAnswers.every(a => a !== undefined)`,
      where `every` skips holes. */
  predicate AllAnsweredAsWritten(answers: seq<Slot>) {
    |answers| == QuestionCount && forall i :: 0 <= i < |answers| ==> !answers[i].Undefined?
  }

  /** What the condition is meant to say: every question has an option chosen. */
  predicate AllAnswered(answers: seq<Slot>) {
    |answers| == QuestionCount && forall i :: 0 <= i < |answers| ==> answers[i].Chosen?
  }

  /** The number of right answers among the first k questions. */
  function CountCorrect(answers: seq<Slot>, k: nat): (n: nat)
    requires k <= QuestionCount
    ensures n <= k
  {
    if k == 0 then 0
    else CountCorrect(answers, k - 1) + (if At(answers, k - 1) == Some(Key[k - 1]) then 1 else 0)
  }

  /** All right exactly when every question reads its key; none right exactly
      when none does. */
  lemma {:induction false} CountCorrectExtremes(answers: seq<Slot>, k: nat)
    requires k <= QuestionCount
    ensures CountCorrect(answers, k) == k <==> forall i :: 0 <= i < k ==> At(answers, i) == Some(Key[i])
    ensures CountCorrect(answers, k) == 0 <==> forall i :: 0 <= i < k ==> At(answers, i) != Some(Key[i])
    decreases k
  {
    if k > 0 {
      CountCorrectExtremes(answers, k - 1);
    }
  }

  /** The count is the number of questions among the first k whose answer
      reads as their key. */
  lemma {:induction false} CountCorrectIsSize(answers: seq<Slot>, k: nat)
    requires k <= QuestionCount
    ensures CountCorrect(answers, k) == |set i: nat | i < k && At(answers, i) == Some(Key[i])|
    decreases k
  {
    if k > 0 {
      CountCorrectIsSize(answers, k - 1);
      var before := set i: nat | i < k - 1 && At(answers, i) == Some(Key[i]);
      var after := set i: nat | i < k && At(answers, i) == Some(Key[i]);
      if At(answers, k - 1) == Some(Key[k - 1]) {
        assert after == before + {k - 1};
      } else {
        assert after == before;
      }
    }
  }

  /** `Math.round((timeRemaining / 60) * 50)`: `Math.round` is the floor of the
      value plus one half. */
  function TimeBonus(t: nat): int {
    ((t as real) / (TimeLimit as real) * (MaxTimeBonus as real) + 0.5).Floor
  }

  /** For whole seconds the bonus is (5t + 3) div 6: `Math.round` sends a half
      upwards, so the bonus is the floor of 5t/6 + 1/2; it lies between 0 and 50
      and grows with t. */
  lemma TimeBonusExact(t: nat)
    requires t <= TimeLimit
    ensures TimeBonus(t) == (5 * t + 3) / 6
    ensures 0 <= TimeBonus(t) <= MaxTimeBonus
  {
    var q := (5 * t + 3) / 6;
    var r := (5 * t + 3) % 6;
    assert 5 * t + 3 == 6 * q + r;
    var v := (t as real) / (TimeLimit as real) * (MaxTimeBonus as real) + 0.5;
    assert v == q as real + r as real / 6.0;
  }

  lemma TimeBonusMonotone(a: nat, b: nat)
    requires a <= b <= TimeLimit
    ensures TimeBonus(a) <= TimeBonus(b)
  {
    TimeBonusExact(a);
    TimeBonusExact(b);
  }

  /** `formatTime`: minutes, a colon, and the seconds padded to two digits. */
  function FormatTime(seconds: nat): string {
    NatToString(seconds / 60) + ":" + PadStart2(NatToString(seconds % 60))
  }

  /** Reads a `m:ss` string back into seconds. */
  function ParseTime(s: string): (r: Option<nat>)
  {
    if |s| >= 4 && s[|s| - 3] == ':' && AllDigits(s[..|s| - 3]) && AllDigits(s[|s| - 2..])
    then Some(ParseNat(s[..|s| - 3]) * 60 + ParseNat(s[|s| - 2..]))
    else None
  }

  /** Below 60 the decimal rendering has one or two digits. */
  lemma SmallRendering(n: nat)
    requires n < 60
    ensures 1 <= |NatToString(n)| <= 2
  {
    if n >= 10 {
      assert NatToString(n) == NatToString(n / 10) + [DigitChar(n % 10)];
    }
  }

  /** The clock text always has two-digit seconds and reads back as the number
      of seconds it shows; in particular distinct times show differently. */
  lemma FormatTimeRoundTrip(seconds: nat)
    ensures var s := FormatTime(seconds);
            |s| >= 4 && s[|s| - 3] == ':' && ParseTime(s) == Some(seconds)
  {
    var mins := NatToString(seconds / 60);
    var secs := PadStart2(NatToString(seconds % 60));
    var s := FormatTime(seconds);
    SmallRendering(seconds % 60);
    assert |secs| == 2;
    assert s[..|s| - 3] == mins;
    assert s[|s| - 2..] == secs;
    ParsePadStart2(NatToString(seconds % 60));
    ParseNatToString(seconds / 60);
    ParseNatToString(seconds % 60);
  }

  lemma FormatTimeInjective(a: nat, b: nat)
    requires FormatTime(a) == FormatTime(b)
    ensures a == b
  {
    FormatTimeRoundTrip(a);
    FormatTimeRoundTrip(b);
  }

  /** The message bands of the result screen, each rendered by its own test. */
  datatype Band = Perfect | Good | Fair | Poor

  function Bands(correct: nat): (r: set<Band>)
  {
    (if correct == QuestionCount then {Perfect} else {})
    + (if 4 <= correct < QuestionCount then {Good} else {})
    + (if 3 <= correct < 4 then {Fair} else {})
    + (if correct < 3 then {Poor} else {})
  }

  /** For every count a quiz can produce exactly one message shows. */
  lemma OneBand(correct: nat)
    requires correct <= QuestionCount
    ensures |Bands(correct)| == 1
    ensures Perfect in Bands(correct) <==> correct == 5
    ensures Poor in Bands(correct) <==> correct < 3
  {
    if correct == 5 {
      assert Bands(correct) == {Perfect};
    } else if correct == 4 {
      assert Bands(correct) == {Good};
    } else if correct == 3 {
      assert Bands(correct) == {Fair};
    } else {
      assert Bands(correct) == {Poor};
    }
  }

  datatype QuizState = QuizState(step: Step, index: nat, answers: seq<Slot>, time: nat,
                                 correctCount: nat, earned: int)

  /** The game together with the two contexts it updates. */
  datatype World = World(game: QuizState, score: ScoreData, quests: seq<Quest>)

  const InitialQuiz: QuizState := QuizState(Storytelling, 0, [], TimeLimit, 0, 0)

  /** `handleStartQuiz`; the start time it records is never read. */
  function StartQuiz(g: QuizState): (r: QuizState)
    ensures r.step == Questions && r.index == g.index && r.answers == g.answers && r.time == g.time
  {
    g.(step := Questions)
  }

  /** `handleQuizEnd`: 20 points per right answer plus the time bonus, added to
      the score without the mini-game flag; the current quest is completed only
      when it is quest-4. */
  function QuizEnd(w: World): (r: World)
    ensures r.game.step == Result && r.game.answers == w.game.answers && r.game.time == w.game.time
    ensures r.game.correctCount == |set i: nat | i < QuestionCount && At(w.game.answers, i) == Some(Key[i])|
    ensures r.game.correctCount <= QuestionCount
    ensures r.game.earned == PointsPerCorrect * r.game.correctCount + TimeBonus(w.game.time)
    ensures r.score == AddScore(w.score, r.game.earned)
    ensures var q := CurrentQuest(w.quests);
            r.quests == if q.Some? && q.value.id == "quest-4" then CompleteCurrentQuest(w.quests) else w.quests
  {
    CountCorrectIsSize(w.game.answers, QuestionCount);
    var correct := CountCorrect(w.game.answers, QuestionCount);
    var total := correct * PointsPerCorrect + TimeBonus(w.game.time);
    var q := CurrentQuest(w.quests);
    World(w.game.(correctCount := correct, earned := total, step := Result),
          AddScore(w.score, total),
          if q.Some? && q.value.id == "quest-4" then CompleteCurrentQuest(w.quests) else w.quests)
  }

  /** One second of the countdown: at one second or less the quiz ends and the
      clock shows zero; otherwise one second goes. */
  function Tick(w: World): (r: World)
    ensures w.game.time <= 1 ==> r == QuizEnd(w).(game := QuizEnd(w).game.(time := 0))
    ensures w.game.time > 1 ==> r == w.(game := w.game.(time := w.game.time - 1))
    ensures r.game.time <= w.game.time
  {
    if w.game.time <= 1 then
      var ended := QuizEnd(w);
      ended.(game := ended.game.(time := 0))
    else
      w.(game := w.game.(time := w.game.time - 1))
  }

  /** `handleNextQuestion`: on to the next question, or the end after the last. */
  function NextQuestion(w: World): (r: World)
    ensures w.game.index < QuestionCount - 1 ==> r == w.(game := w.game.(index := w.game.index + 1))
    ensures w.game.index >= QuestionCount - 1 ==> r == QuizEnd(w)
  {
    if w.game.index < QuestionCount - 1 then w.(game := w.game.(index := w.game.index + 1)) else QuizEnd(w)
  }

  /** `handlePrevQuestion`: back one question, never below the first. */
  function PrevQuestion(g: QuizState): (r: QuizState)
    ensures r.index == if g.index > 0 then g.index - 1 else g.index
    ensures r == g.(index := r.index)
  {
    if g.index > 0 then g.(index := g.index - 1) else g
  }

  /** What the player can do on screen: the start button, an option, the
      previous and next buttons, a dot, the finish button; and the timer. */
  datatype Event = Start | Choose(option: nat) | Prev | Next | Dot(i: nat) | Finish | Second

  predicate Available(w: World, e: Event) {
    var g := w.game;
    match e
    case Start => g.step == Storytelling
    case Choose(option) => g.step == Questions && option < OptionCount
    case Prev => g.step == Questions && g.index != 0
    case Next => g.step == Questions && g.index < QuestionCount - 1 && At(g.answers, g.index).Some?
    case Dot(i) => g.step == Questions && i < QuestionCount
    case Finish => g.step == Questions && g.index >= QuestionCount - 1 && AllAnsweredAsWritten(g.answers)
    case Second => g.step == Questions
  }

  function Apply(w: World, e: Event): (r: World)
    requires Available(w, e)
  {
    match e
    case Start => w.(game := StartQuiz(w.game))
    case Choose(option) => w.(game := w.game.(answers := SetAnswer(w.game.answers, w.game.index, option)))
    case Prev => w.(game := PrevQuestion(w.game))
    case Next => NextQuestion(w)
    case Dot(i) => w.(game := w.game.(index := i))
    case Finish => QuizEnd(w)
    case Second => Tick(w)
  }

  /** What every reachable state keeps: the question index on a question, the
      clock within the limit, no answer past the last question, every chosen
      option one of the three, and at most 150 points. */
  predicate Inv(g: QuizState) {
    && g.index < QuestionCount
    && g.time <= TimeLimit
    && |g.answers| <= QuestionCount
    && (forall i :: 0 <= i < |g.answers| && g.answers[i].Chosen? ==> g.answers[i].option < OptionCount)
    && g.correctCount <= QuestionCount
    && 0 <= g.earned <= PointsPerCorrect * QuestionCount + MaxTimeBonus
  }

  lemma InitialInv()
    ensures Inv(InitialQuiz)
  {
  }

  lemma QuizEndKeepsInv(w: World)
    requires Inv(w.game)
    ensures Inv(QuizEnd(w).game)
  {
    TimeBonusExact(w.game.time);
  }

  lemma ApplyKeepsInv(w: World, e: Event)
    requires Inv(w.game) && Available(w, e)
    ensures Inv(Apply(w, e).game)
  {
    match e
    case Finish => QuizEndKeepsInv(w);
    case Next => QuizEndKeepsInv(w);
    case Second => QuizEndKeepsInv(w);
    case Choose(option) =>
    case Start =>
    case Prev =>
    case Dot(i) =>
  }

  predicate AllAvailable(w: World, es: seq<Event>)
    decreases |es|
  {
    |es| == 0 || (Available(w, es[0]) && AllAvailable(Apply(w, es[0]), es[1..]))
  }

  function Play(w: World, es: seq<Event>): World
    requires AllAvailable(w, es)
    decreases |es|
  {
    if |es| == 0 then w else Play(Apply(w, es[0]), es[1..])
  }

  /** Any run of the quiz keeps the invariant. */
  lemma {:induction false} PlayKeepsInv(w: World, es: seq<Event>)
    requires Inv(w.game) && AllAvailable(w, es)
    ensures Inv(Play(w, es).game)
    decreases |es|
  {
    if |es| > 0 {
      ApplyKeepsInv(w, es[0]);
      PlayKeepsInv(Apply(w, es[0]), es[1..]);
    }
  }

  /** With the corrected condition the finish button is enabled exactly when
      every dot shows its question answered. */
  lemma AllAnsweredMeansEveryDot(answers: seq<Slot>)
    requires |answers| <= QuestionCount
    ensures AllAnswered(answers) <==> forall i :: 0 <= i < QuestionCount ==> At(answers, i).Some?
  {
    if AllAnswered(answers) {
      forall i | 0 <= i < QuestionCount ensures At(answers, i).Some? {
        assert answers[i].Chosen?;
      }
    }
    if forall i :: 0 <= i < QuestionCount ==> At(answers, i).Some? {
      assert At(answers, QuestionCount - 1).Some?;
      forall i | 0 <= i < |answers| ensures answers[i].Chosen? {
        assert At(answers, i).Some?;
      }
    }
  }

  /** As written, jumping to the last question and answering only it enables
      the finish button with four questions unanswered, and finishing then
      counts at most one right answer. */
  lemma AsWrittenFinishesEarly(w: World)
    requires w.game == InitialQuiz
    ensures var es := [Start, Dot(QuestionCount - 1), Choose(0)];
            && AllAvailable(w, es)
            && var answers := Play(w, es).game.answers;
               && AllAnsweredAsWritten(answers)
               && !AllAnswered(answers)
               && At(answers, 0).None?
               && Available(Play(w, es), Finish)
               && QuizEnd(Play(w, es)).game.correctCount <= 1
  {
    var es := [Start, Dot(QuestionCount - 1), Choose(0)];
    var w1 := Apply(w, Start);
    var w2 := Apply(w1, Dot(QuestionCount - 1));
    var w3 := Apply(w2, Choose(0));
    assert w3.game.answers == [Hole, Hole, Hole, Hole, Chosen(0)];
    assert es[1..] == [Dot(QuestionCount - 1), Choose(0)];
    assert es[1..][1..] == [Choose(0)];
    assert [Choose(0)][1..] == [];
    assert AllAvailable(w2, [Choose(0)]) && Play(w2, [Choose(0)]) == w3;
    assert AllAvailable(w1, es[1..]) && Play(w1, es[1..]) == w3;
    assert AllAvailable(w, es) && Play(w, es) == w3;
    var answers := w3.game.answers;
    assert forall i :: 0 <= i < |answers| ==> !answers[i].Undefined?;
    assert !answers[0].Chosen?;
    var right := set i: nat | i < QuestionCount && At(answers, i) == Some(Key[i]);
    assert right <= {QuestionCount - 1};
  }
}

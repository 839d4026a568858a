/** Handing out parcels at the shop (src/components/PackageDeliveryGame.tsx): the
    van holds twenty numbered packages, five of the numbers are wanted, and the
    player drags up to five packages to the counter. Each right package earns
    20 points; all five right completes the current quest, whichever it is. */
module PackageDelivery {
  import opened Optional
  import opened Sequences
  import opened Score
  import opened Quests
  import opened DragDrop

  const TotalPackages: nat := 20
  /** The counter's capacity, and how many numbers are wanted. */
  const RequiredPackages: nat := 5
  const PointsPerCorrectPackage: int := 20
  /** Package numbers are drawn from 1 to this. */
  const HighestNumber: nat := 50

  datatype Step = Storytelling | Game | Result

  /** `Array.from({ length: 50 }, (_, i) => i + 1)` */
  function AllNumbers(): (r: seq<int>)
    ensures |r| == HighestNumber
    ensures forall i :: 0 <= i < |r| ==> r[i] == i + 1
  {
    seq(HighestNumber, i requires 0 <= i < HighestNumber => i + 1)
  }

  /** The two shuffles of a round, each as a series of swaps: the fifty numbers,
      then the numbers of the twenty packages. */
  datatype Deal = Deal(numbers: seq<(nat, nat)>, required: seq<(nat, nat)>)

  predicate ValidDeal(d: Deal) {
    InRange(d.numbers, HighestNumber) && InRange(d.required, TotalPackages)
  }

  /** `packages.map(p => p.number)` */
  function Numbers(s: seq<Item<int>>): (r: seq<int>)
    ensures |r| == |s| && forall i :: 0 <= i < |s| ==> r[i] == s[i].tag
  {
    seq(|s|, i requires 0 <= i < |s| => s[i].tag)
  }

  /** The shuffled numbers are 1 to 50, each once. */
  lemma ShuffledNumbers(swaps: seq<(nat, nat)>)
    requires InRange(swaps, HighestNumber)
    ensures var s := Shuffle(AllNumbers(), swaps);
            NoDup(s) && forall i :: 0 <= i < |s| ==> 1 <= s[i] <= HighestNumber
  {
    var s := Shuffle(AllNumbers(), swaps);
    assert NoDup(AllNumbers());
    forall i | 0 <= i < |s| ensures 1 <= s[i] <= HighestNumber {
      assert s[i] in multiset(AllNumbers());
    }
  }

  /** Package i gets the i-th shuffled number. */
  function DealPackages(d: Deal): (r: seq<Item<int>>)
    requires ValidDeal(d)
    ensures |r| == TotalPackages
    ensures forall i :: 0 <= i < |r| ==> r[i].id == i && 1 <= r[i].tag <= HighestNumber
    ensures NoDup(Numbers(r))
  {
    var shuffled := Shuffle(AllNumbers(), d.numbers);
    ShuffledNumbers(d.numbers);
    var r := seq(TotalPackages, i requires 0 <= i < TotalPackages => Item(i, shuffled[i]));
    assert Numbers(r) == shuffled[..TotalPackages];
    r
  }

  /** `shuffledPackageNumbers.slice(0, 5)`: the first five of the package numbers
      reshuffled. */
  function DealRequired(pkgs: seq<Item<int>>, swaps: seq<(nat, nat)>): (r: seq<int>)
    requires |pkgs| == TotalPackages && InRange(swaps, TotalPackages)
    ensures |r| == RequiredPackages
    ensures NoDup(Numbers(pkgs)) ==> NoDup(r)
    ensures forall k :: 0 <= k < |r| ==> r[k] in Numbers(pkgs)
  {
    var shuffled := Shuffle(Numbers(pkgs), swaps);
    var r := shuffled[..RequiredPackages];
    assert forall k :: 0 <= k < |r| ==> r[k] in multiset(Numbers(pkgs)) by {
      forall k | 0 <= k < |r| ensures r[k] in multiset(Numbers(pkgs)) {
        assert r[k] == shuffled[k] && shuffled[k] in multiset(shuffled);
      }
    }
    r
  }

  /** The game's state; the board's first list is the van, its capped list the
      counter. `selected` on a package is never read and is not modelled. */
  datatype Delivery = Delivery(step: Step, board: Board<int>, required: seq<int>,
                               correctCount: nat, earned: int, hasPlayedBefore: bool)

  /** The game together with the two contexts it updates. */
  datatype World = World(game: Delivery, score: ScoreData, quests: seq<Quest>)

  /** The mount effect: a dealt round, the story first. */
  function NewGame(d: Deal): (g: Delivery)
    requires ValidDeal(d)
    ensures g.step == Storytelling && g.board.target == [] && !g.hasPlayedBefore
  {
    var pkgs := DealPackages(d);
    Delivery(Storytelling, Board(pkgs, [], None), DealRequired(pkgs, d.required), 0, 0, false)
  }

  /** `handleStartGame` */
  function StartGame(g: Delivery): (r: Delivery)
    ensures r.step == Game && r.board == g.board && r.required == g.required
  {
    g.(step := Game)
  }

  /** `selectedPackages.filter(pkg => requiredNumbers.includes(pkg.number)).length` */
  function CountRequired(s: seq<Item<int>>, required: seq<int>): (n: nat)
    ensures n <= |s|
    decreases |s|
  {
    if |s| == 0 then 0 else (if s[0].tag in required then 1 else 0) + CountRequired(s[1..], required)
  }

  /** `handleFinishDelivery`: 20 points per wanted package on the counter, added
      to the score without the mini-game flag, and the current quest completed
      when all five are right. */
  function Finish(w: World): (r: World)
    ensures r.game.step == Result && r.game.board == w.game.board && r.game.required == w.game.required
    ensures r.game.correctCount == |set i | 0 <= i < |w.game.board.target| && w.game.board.target[i].tag in w.game.required|
    ensures r.game.correctCount <= |w.game.board.target|
    ensures r.game.earned == PointsPerCorrectPackage * r.game.correctCount
    ensures r.score.totalScore == w.score.totalScore + r.game.earned
    ensures r.score.miniGamesCompleted == w.score.miniGamesCompleted
    ensures r.quests == if r.game.correctCount == RequiredPackages then CompleteCurrentQuest(w.quests) else w.quests
  {
    CountRequiredIsSize(w.game.board.target, w.game.required, 0);
    assert w.game.board.target[0..] == w.game.board.target;
    var correct := CountRequired(w.game.board.target, w.game.required);
    var points := correct * PointsPerCorrectPackage;
    World(w.game.(correctCount := correct, earned := points, step := Result),
          AddScore(w.score, points),
          if correct == RequiredPackages then CompleteCurrentQuest(w.quests) else w.quests)
  }

  /** `handlePlayAgain`: a fresh round straight into the game, the counter empty
      and the count and points cleared; the held package is left as it was. */
  function PlayAgain(g: Delivery, d: Deal): (r: Delivery)
    requires ValidDeal(d)
    ensures r.step == Game && r.board.target == [] && r.correctCount == 0 && r.earned == 0
    ensures r.hasPlayedBefore && r.board.dragged == g.board.dragged
  {
    var pkgs := DealPackages(d);
    Delivery(Game, Board(pkgs, [], g.board.dragged), DealRequired(pkgs, d.required), 0, 0, true)
  }

  /** What the player can do: the buttons and drags on screen. Finishing is
      disabled while the counter is empty. */
  datatype Event = Begin | Move(g: Gesture<int>) | Done | Again(d: Deal)

  predicate Available(w: World, e: Event) {
    match e
    case Begin => w.game.step == Storytelling
    case Move(g) => w.game.step == Game && CanStart(w.game.board, g)
    case Done => w.game.step == Game && |w.game.board.target| > 0
    case Again(d) => w.game.step == Result && ValidDeal(d)
  }

  function Apply(w: World, e: Event): (r: World)
    requires Available(w, e)
  {
    match e
    case Begin => w.(game := StartGame(w.game))
    case Move(g) => w.(game := w.game.(board := Perform(w.game.board, g, RequiredPackages)))
    case Done => Finish(w)
    case Again(d) => w.(game := PlayAgain(w.game, d))
  }

  /** No two packages share a number. */
  predicate UniqueNumbers(s: seq<Item<int>>) {
    forall x, y :: x in s && y in s && x.tag == y.tag ==> x == y
  }

  /** What every reachable state keeps: twenty packages with unique ids and
      numbers in 1..50 between van and counter, at most five on the counter, five
      distinct wanted numbers all carried by some package, and points matching
      the count. */
  predicate Inv(g: Delivery) {
    && Valid(g.board, RequiredPackages)
    && |g.board.source + g.board.target| == TotalPackages
    && UniqueNumbers(g.board.source + g.board.target)
    && (forall x :: x in g.board.source + g.board.target ==> 1 <= x.tag <= HighestNumber)
    && |g.required| == RequiredPackages && NoDup(g.required)
    && Carried(g.required, g.board.source + g.board.target)
    && g.correctCount <= RequiredPackages
    && g.earned == PointsPerCorrectPackage * g.correctCount
  }

  /** Every wanted number is on some package. */
  predicate Carried(required: seq<int>, s: seq<Item<int>>) {
    forall k :: 0 <= k < |required| ==> HasTag(s, required[k])
  }

  /** Some package carries number n. */
  predicate HasTag(s: seq<Item<int>>, n: int) {
    exists x :: x in s && x.tag == n
  }

  /** Dealt packages: ids 0 to 19 and distinct numbers. */
  lemma DealUnique(d: Deal)
    requires ValidDeal(d)
    ensures UniqueIds(DealPackages(d)) && UniqueNumbers(DealPackages(d))
  {
    var pkgs := DealPackages(d);
    forall i, j | 0 <= i < j < |pkgs| ensures pkgs[i] != pkgs[j] {
      assert pkgs[i].id != pkgs[j].id;
    }
    forall x, y | x in pkgs && y in pkgs && x.id == y.id ensures x == y {
      var i :| 0 <= i < |pkgs| && pkgs[i] == x;
      var j :| 0 <= j < |pkgs| && pkgs[j] == y;
    }
    forall x, y | x in pkgs && y in pkgs && x.tag == y.tag ensures x == y {
      var i :| 0 <= i < |pkgs| && pkgs[i] == x;
      var j :| 0 <= j < |pkgs| && pkgs[j] == y;
      assert Numbers(pkgs)[i] == Numbers(pkgs)[j];
    }
  }

  /** Every wanted number is on some package. */
  lemma DealRequiredCarried(pkgs: seq<Item<int>>, swaps: seq<(nat, nat)>)
    requires |pkgs| == TotalPackages && InRange(swaps, TotalPackages)
    ensures var req := DealRequired(pkgs, swaps);
            Carried(req, pkgs)
  {
    var req := DealRequired(pkgs, swaps);
    forall k | 0 <= k < |req| ensures HasTag(pkgs, req[k]) {
      var i :| 0 <= i < |pkgs| && Numbers(pkgs)[i] == req[k];
      assert pkgs[i] in pkgs;
    }
  }

  /** A dealt round satisfies the invariant. */
  lemma DealInv(d: Deal, g: Delivery)
    requires ValidDeal(d)
    requires g.board.source == DealPackages(d) && g.board.target == []
    requires g.required == DealRequired(DealPackages(d), d.required)
    requires g.correctCount == 0 && g.earned == 0
    ensures Inv(g)
  {
    var pkgs := DealPackages(d);
    assert g.board.source + g.board.target == pkgs;
    DealUnique(d);
    DealRequiredCarried(pkgs, d.required);
  }

  lemma NewGameInv(d: Deal)
    requires ValidDeal(d)
    ensures Inv(NewGame(d))
  {
    DealInv(d, NewGame(d));
  }

  /** A move keeps the invariant: the same packages, rearranged. */
  lemma MoveKeepsInv(g: Delivery, m: Gesture<int>)
    requires Inv(g) && CanStart(g.board, m)
    ensures Inv(g.(board := Perform(g.board, m, RequiredPackages)))
  {
    var b := Perform(g.board, m, RequiredPackages);
    GestureConserves(g.board, m, RequiredPackages);
    var before := g.board.source + g.board.target;
    var after := b.source + b.target;
    assert |after| == |multiset(after)| == |multiset(before)| == |before|;
    assert forall x :: x in after <==> x in before by {
      forall x ensures x in after <==> x in before {
        assert x in after <==> x in multiset(after);
        assert x in before <==> x in multiset(before);
      }
    }
    CarriedSubset(g.required, before, after);
  }

  /** Wanted numbers stay carried when every package is kept. */
  lemma CarriedSubset(required: seq<int>, s: seq<Item<int>>, t: seq<Item<int>>)
    requires Carried(required, s)
    requires forall x :: x in s ==> x in t
    ensures Carried(required, t)
  {
    forall k | 0 <= k < |required| ensures HasTag(t, required[k]) {
      assert HasTag(s, required[k]);
      var x :| x in s && x.tag == required[k];
      assert x in t;
    }
  }

  lemma ApplyKeepsInv(w: World, e: Event)
    requires Inv(w.game) && Available(w, e)
    ensures Inv(Apply(w, e).game)
  {
    match e
    case Move(m) => MoveKeepsInv(w.game, m);
    case Again(d) => DealInv(d, PlayAgain(w.game, d));
    case Done =>
      SplitUnique(w.game.board.source, w.game.board.target);
      var r := Finish(w).game;
      assert r.board == w.game.board && r.required == w.game.required;
      assert r.correctCount <= RequiredPackages;
    case Begin =>
  }

  predicate AllAvailable(w: World, es: seq<Event>)
    decreases |es|
  {
    |es| == 0 || (Available(w, es[0]) && AllAvailable(Apply(w, es[0]), es[1..]))
  }

  function Play(w: World, es: seq<Event>): World
    requires AllAvailable(w, es)
    decreases |es|
  {
    if |es| == 0 then w else Play(Apply(w, es[0]), es[1..])
  }

  /** Any run of the game keeps the invariant. */
  lemma {:induction false} PlayKeepsInv(w: World, es: seq<Event>)
    requires Inv(w.game) && AllAvailable(w, es)
    ensures Inv(Play(w, es).game)
    decreases |es|
  {
    if |es| > 0 {
      ApplyKeepsInv(w, es[0]);
      PlayKeepsInv(Apply(w, es[0]), es[1..]);
    }
  }

  /** Counting from position k on counts the positions from k on whose number
      is wanted. */
  lemma {:induction false} CountRequiredIsSize(s: seq<Item<int>>, required: seq<int>, k: nat)
    requires k <= |s|
    ensures CountRequired(s[k..], required) == |set i | k <= i < |s| && s[i].tag in required|
    decreases |s| - k
  {
    if k < |s| {
      CountRequiredIsSize(s, required, k + 1);
      assert s[k..][1..] == s[k + 1..];
      var later := set i | k + 1 <= i < |s| && s[i].tag in required;
      var here := set i | k <= i < |s| && s[i].tag in required;
      if s[k].tag in required {
        assert here == later + {k};
      } else {
        assert here == later;
      }
    }
  }

  /** The count is the whole list exactly when every number on it is wanted. */
  lemma {:induction false} CountRequiredAll(s: seq<Item<int>>, required: seq<int>)
    ensures CountRequired(s, required) == |s| <==> forall i :: 0 <= i < |s| ==> s[i].tag in required
    decreases |s|
  {
    if |s| > 0 {
      CountRequiredAll(s[1..], required);
      assert forall i :: 1 <= i < |s| ==> s[i] == s[1..][i - 1];
    }
  }

  /** Distinct packages with distinct numbers have as many numbers as packages. */
  lemma NumberCount(s: seq<Item<int>>)
    requires NoDup(s) && UniqueNumbers(s)
    ensures |set n | n in Numbers(s)| == |s|
  {
    forall i, j | 0 <= i < j < |s| ensures Numbers(s)[i] != Numbers(s)[j] {
      assert s[i] != s[j];
    }
    NoDupCard(Numbers(s));
  }

  lemma SubsetSameSize<T>(a: set<T>, b: set<T>)
    requires a <= b && |a| == |b|
    ensures a == b
  {
    assert b == a + (b - a);
    assert |b - a| == 0;
  }

  /** All five right means the numbers on the counter are exactly the wanted
      ones; then, and only then, the quest is completed. */
  lemma FinishExact(w: World)
    requires Inv(w.game) && Available(w, Done)
    ensures var selected := set n | n in Numbers(w.game.board.target);
            var wanted := set n | n in w.game.required;
            Finish(w).game.correctCount == RequiredPackages <==> selected == wanted
  {
    var target := w.game.board.target;
    var selected := set n | n in Numbers(target);
    var wanted := set n | n in w.game.required;
    SplitUnique(w.game.board.source, target);
    assert UniqueNumbers(target);
    NumberCount(target);
    NoDupCard(w.game.required);
    CountRequiredAll(target, w.game.required);
    if CountRequired(target, w.game.required) == RequiredPackages {
      assert selected <= wanted;
      SubsetSameSize(selected, wanted);
    }
    if selected == wanted {
      forall i | 0 <= i < |target| ensures target[i].tag in w.game.required {
        assert Numbers(target)[i] in selected;
      }
    }
  }
}

/** The morning loading game at the depot (src/components/PackageSortingGame.tsx):
    twelve packages, each labelled with a route, lie in the warehouse; the player
    loads exactly four into the van and the game counts how many carry the route
    assigned for the day. The game awards no score and completes no quest. */
module PackageSorting {
  import opened Optional
  import opened Random
  import opened Sequences
  import opened DragDrop

  /** The route labels 'A' to 'E'; the game only ever compares them. */
  datatype Route = A | B | C | D | E

  const Routes: seq<Route> := [A, B, C, D, E]
  const TotalPackages: nat := 12
  /** The van's capacity, and the number of packages the check wants. */
  const RequiredPackages: nat := 4

  datatype Step = Storytelling | Game | Result

  /** The random numbers of one round, in the order the source draws them: the
      route, the number of packages on it, one draw per package on another route,
      and the shuffle as a series of swaps. */
  datatype Deal = Deal(route: real, count: real, others: seq<real>, shuffle: seq<(nat, nat)>)

  /** `4 + Math.floor(Math.random() * 3)` */
  function CorrectRouteCount(u: real): (n: nat)
    requires Unit(u)
    ensures 4 <= n <= 6
  {
    4 + RandomIndex(3, u)
  }

  predicate ValidDeal(d: Deal) {
    && Unit(d.route) && Unit(d.count)
    && |d.others| == TotalPackages - CorrectRouteCount(d.count)
    && (forall i :: 0 <= i < |d.others| ==> Unit(d.others[i]))
    && InRange(d.shuffle, TotalPackages)
  }

  /** `Date.now()` as read once per package; the clock never runs backwards. */
  predicate ValidClock(clock: seq<int>) {
    |clock| == TotalPackages && forall i, j :: 0 <= i <= j < |clock| ==> clock[i] <= clock[j]
  }

  /** The first round numbers its packages from 0. */
  const StartClock: seq<int> := [0, 0, 0, 0, 0, 0, 0, 0, 0, 0, 0, 0]

  /** `rs.filter(r => r !== route)` */
  function Exclude(rs: seq<Route>, route: Route): seq<Route>
    decreases |rs|
  {
    if |rs| == 0 then []
    else (if rs[0] != route then [rs[0]] else []) + Exclude(rs[1..], route)
  }

  /** `ROUTES.filter(r => r !== randomRoute)`, written out per route. */
  function OtherRoutes(route: Route): (r: seq<Route>)
    ensures |r| == |Routes| - 1
  {
    match route
    case A => [B, C, D, E]
    case B => [A, C, D, E]
    case C => [A, B, D, E]
    case D => [A, B, C, E]
    case E => [A, B, C, D]
  }

  /** The table is the filter: the other four routes, in their order. */
  lemma OtherRoutesFilter(route: Route)
    ensures OtherRoutes(route) == Exclude(Routes, route)
  {
    match route
    case A =>
    case B =>
    case C =>
    case D =>
    case E =>
  }

  /** Every route but the assigned one can be drawn. */
  lemma OtherRoutesAll(route: Route)
    ensures forall x :: x in OtherRoutes(route) <==> x != route
  {
  }

  /** `otherRoutes[Math.floor(Math.random() * otherRoutes.length)]` */
  function OtherRoute(route: Route, u: real): (r: Route)
    requires Unit(u)
    ensures r != route
  {
    var others := OtherRoutes(route);
    others[RandomIndex(|others|, u)]
  }

  /** The packages before the shuffle: the first `count` on the assigned route,
      the rest on other routes; package i is numbered by the clock plus i. */
  function Unsorted(route: Route, count: nat, others: seq<real>, clock: seq<int>): (r: seq<Item<Route>>)
    requires count <= TotalPackages && |others| == TotalPackages - count
    requires forall i :: 0 <= i < |others| ==> Unit(others[i])
    requires |clock| == TotalPackages
    ensures |r| == TotalPackages
    ensures forall i :: 0 <= i < count ==> r[i] == Item(clock[i] + i, route)
    ensures forall i :: count <= i < TotalPackages ==> r[i] == Item(clock[i] + i, OtherRoute(route, others[i - count]))
  {
    seq(TotalPackages, i requires 0 <= i < TotalPackages =>
      Item(clock[i] + i, if i < count then route else OtherRoute(route, others[i - count])))
  }

  /** The assigned route and the shuffled packages of a round. */
  function DealRound(d: Deal, clock: seq<int>): (r: (Route, seq<Item<Route>>))
    requires ValidDeal(d) && ValidClock(clock)
    ensures |r.1| == TotalPackages
  {
    var route := Routes[RandomIndex(|Routes|, d.route)];
    var unsorted := Unsorted(route, CorrectRouteCount(d.count), d.others, clock);
    (route, Shuffle(unsorted, d.shuffle))
  }

  /** How many of the packages carry the route. */
  function CountRoute(s: seq<Item<Route>>, route: Route): (n: nat)
    ensures n <= |s|
    decreases |s|
  {
    if |s| == 0 then 0 else (if s[0].tag == route then 1 else 0) + CountRoute(s[1..], route)
  }

  /** Counting from position k on counts the positions from k on whose package
      carries the route. */
  lemma {:induction false} CountRouteIsSize(s: seq<Item<Route>>, route: Route, k: nat)
    requires k <= |s|
    ensures CountRoute(s[k..], route) == |set i | k <= i < |s| && s[i].tag == route|
    decreases |s| - k
  {
    if k < |s| {
      CountRouteIsSize(s, route, k + 1);
      assert s[k..][1..] == s[k + 1..];
      var later := set i | k + 1 <= i < |s| && s[i].tag == route;
      var here := set i | k <= i < |s| && s[i].tag == route;
      if s[k].tag == route {
        assert here == later + {k};
      } else {
        assert here == later;
      }
    }
  }

  lemma {:induction false} CountConcat(a: seq<Item<Route>>, c: seq<Item<Route>>, route: Route)
    ensures CountRoute(a + c, route) == CountRoute(a, route) + CountRoute(c, route)
    decreases |a|
  {
    if |a| == 0 {
      assert a + c == c;
    } else {
      assert (a + c)[1..] == a[1..] + c;
      CountConcat(a[1..], c, route);
    }
  }

  /** The count is full exactly when every package carries the route, and zero
      exactly when none does. */
  lemma {:induction false} CountExtremes(s: seq<Item<Route>>, route: Route)
    ensures CountRoute(s, route) == |s| <==> forall i :: 0 <= i < |s| ==> s[i].tag == route
    ensures CountRoute(s, route) == 0 <==> forall i :: 0 <= i < |s| ==> s[i].tag != route
    decreases |s|
  {
    if |s| > 0 {
      var tail := s[1..];
      CountExtremes(tail, route);
      assert forall i :: 1 <= i < |s| ==> s[i] == tail[i - 1];
    }
  }

  /** Taking one package out of the list takes its share out of the count. */
  lemma CountRemove(c: seq<Item<Route>>, k: nat, route: Route)
    requires k < |c|
    ensures CountRoute(c, route) == CountRoute(c[..k] + c[k + 1..], route) + (if c[k].tag == route then 1 else 0)
  {
    assert c == (c[..k] + [c[k]]) + c[k + 1..];
    CountConcat(c[..k] + [c[k]], c[k + 1..], route);
    CountConcat(c[..k], [c[k]], route);
    CountConcat(c[..k], c[k + 1..], route);
  }

  lemma RemoveMultiset<T>(c: seq<T>, k: nat)
    requires k < |c|
    ensures multiset(c[..k] + c[k + 1..]) == multiset(c) - multiset{c[k]}
  {
    assert c == c[..k] + [c[k]] + c[k + 1..];
  }

  /** Rearranging the packages does not change the count. */
  lemma {:induction false} CountOfSameMultiset(a: seq<Item<Route>>, c: seq<Item<Route>>, route: Route)
    requires multiset(a) == multiset(c)
    ensures CountRoute(a, route) == CountRoute(c, route)
    decreases |a|
  {
    if |a| == 0 {
      assert |c| == |multiset(c)| == 0;
    } else {
      var k := IndexOf(c, a[0]);
      var c' := c[..k] + c[k + 1..];
      RemoveMultiset(c, k);
      assert multiset(a[1..]) == multiset(a) - multiset{a[0]} by {
        assert a == [a[0]] + a[1..];
      }
      CountOfSameMultiset(a[1..], c', route);
      CountRemove(c, k, route);
    }
  }

  /** A position of an element of the multiset. */
  lemma IndexOf<T>(c: seq<T>, x: T) returns (k: nat)
    requires x in multiset(c)
    ensures k < |c| && c[k] == x
  {
    assert x in c;
    k :| 0 <= k < |c| && c[k] == x;
  }

  /** Package i is numbered by a clock reading plus i: with a clock that never
      runs backwards, the numbers strictly increase. */
  lemma UnsortedUnique(route: Route, count: nat, others: seq<real>, clock: seq<int>)
    requires count <= TotalPackages && |others| == TotalPackages - count
    requires forall i :: 0 <= i < |others| ==> Unit(others[i])
    requires ValidClock(clock)
    ensures UniqueIds(Unsorted(route, count, others, clock))
  {
    var u := Unsorted(route, count, others, clock);
    forall i, j | 0 <= i < j < |u| ensures u[i].id < u[j].id {
    }
  }

  /** Exactly the first `count` packages are on the assigned route. */
  lemma UnsortedCount(route: Route, count: nat, others: seq<real>, clock: seq<int>)
    requires count <= TotalPackages && |others| == TotalPackages - count
    requires forall i :: 0 <= i < |others| ==> Unit(others[i])
    requires |clock| == TotalPackages
    ensures CountRoute(Unsorted(route, count, others, clock), route) == count
  {
    var u := Unsorted(route, count, others, clock);
    assert u == u[..count] + u[count..];
    CountConcat(u[..count], u[count..], route);
    CountExtremes(u[..count], route);
    CountExtremes(u[count..], route);
  }

  /** The dealt packages: unique ids, and 4 to 6 of the twelve on the assigned
      route (the rest on other routes). */
  lemma DealShape(d: Deal, clock: seq<int>)
    requires ValidDeal(d) && ValidClock(clock)
    ensures var r := DealRound(d, clock);
            && UniqueIds(r.1)
            && CountRoute(r.1, r.0) == CorrectRouteCount(d.count)
            && 4 <= CountRoute(r.1, r.0) <= 6
  {
    var route := Routes[RandomIndex(|Routes|, d.route)];
    var count := CorrectRouteCount(d.count);
    var u := Unsorted(route, count, d.others, clock);
    var pkgs := Shuffle(u, d.shuffle);
    assert DealRound(d, clock) == (route, pkgs);
    UnsortedUnique(route, count, d.others, clock);
    UniqueOfSameMultiset(pkgs, u);
    UnsortedCount(route, count, d.others, clock);
    CountOfSameMultiset(pkgs, u, route);
  }

  /** The game's state; the board's first list is the warehouse, its capped list
      the van. */
  datatype Sorting = Sorting(step: Step, assignedRoute: Route, board: Board<Route>, correctCount: nat, hasPlayedBefore: bool)

  /** The mount effect: a dealt round, the story first. */
  function NewGame(d: Deal): (s: Sorting)
    requires ValidDeal(d)
  {
    var r := DealRound(d, StartClock);
    Sorting(Storytelling, r.0, Board(r.1, [], None), 0, false)
  }

  /** `handleStartGame` and `handleSkipStory` */
  function StartGame(s: Sorting): (r: Sorting)
    ensures r.step == Game && r.board == s.board && r.assignedRoute == s.assignedRoute
  {
    s.(step := Game)
  }

  /** `handleCheckResult`: the packages in the van on the assigned route. */
  function CheckResult(s: Sorting): (r: Sorting)
    ensures r.step == Result && r.hasPlayedBefore
    ensures r.board == s.board && r.assignedRoute == s.assignedRoute
    ensures r.correctCount == |set i | 0 <= i < |s.board.target| && s.board.target[i].tag == s.assignedRoute|
    ensures r.correctCount <= |s.board.target|
  {
    CountRouteIsSize(s.board.target, s.assignedRoute, 0);
    assert s.board.target[0..] == s.board.target;
    s.(correctCount := CountRoute(s.board.target, s.assignedRoute), step := Result, hasPlayedBefore := true)
  }

  /** `handlePlayAgain`: a fresh round with the story first and an empty van; the
      count on screen and the held package are left as they were. */
  function PlayAgain(s: Sorting, d: Deal, clock: seq<int>): (r: Sorting)
    requires ValidDeal(d) && ValidClock(clock)
    ensures r.step == Storytelling && r.board.target == [] && r.board.dragged == s.board.dragged
    ensures r.correctCount == s.correctCount && r.hasPlayedBefore == s.hasPlayedBefore
  {
    var r := DealRound(d, clock);
    Sorting(Storytelling, r.0, Board(r.1, [], s.board.dragged), s.correctCount, s.hasPlayedBefore)
  }

  datatype Grade = Success | Partial | Fail

  /** The result message: all four right, at least two, or fewer. */
  function GradeOf(correct: nat): (g: Grade)
  {
    if correct == RequiredPackages then Success
    else if correct >= 2 then Partial
    else Fail
  }

  /** Exactly one message per count; with at most four packages checked, success
      is four right, partial two or three, fail none or one. */
  lemma GradeBands(correct: nat)
    requires correct <= RequiredPackages
    ensures GradeOf(correct) == Success <==> correct == 4
    ensures GradeOf(correct) == Partial <==> 2 <= correct < 4
    ensures GradeOf(correct) == Fail <==> correct < 2
  {
  }

  /** What the player can do: the buttons and drags on screen. */
  datatype Event = Begin | Skip | Move(g: Gesture<Route>) | Check | Again(d: Deal, clock: seq<int>)

  predicate Available(s: Sorting, e: Event) {
    match e
    case Begin => s.step == Storytelling
    case Skip => s.step == Storytelling && s.hasPlayedBefore
    case Move(g) => s.step == Game && CanStart(s.board, g)
    case Check => s.step == Game && |s.board.target| == RequiredPackages
    case Again(d, clock) => s.step == Result && ValidDeal(d) && ValidClock(clock)
  }

  function Apply(s: Sorting, e: Event): (r: Sorting)
    requires Available(s, e)
  {
    match e
    case Begin => StartGame(s)
    case Skip => StartGame(s)
    case Move(g) => s.(board := Perform(s.board, g, RequiredPackages))
    case Check => CheckResult(s)
    case Again(d, clock) => PlayAgain(s, d, clock)
  }

  /** What every reachable state keeps: twelve packages with unique ids between
      warehouse and van, at most four in the van, 4 to 6 of them on the assigned
      route, and a checked count no larger than the van. */
  predicate Inv(s: Sorting) {
    && Valid(s.board, RequiredPackages)
    && |s.board.source| + |s.board.target| == TotalPackages
    && 4 <= CountRoute(s.board.source + s.board.target, s.assignedRoute) <= 6
    && s.correctCount <= RequiredPackages
  }

  lemma NewGameInv(d: Deal)
    requires ValidDeal(d)
    ensures Inv(NewGame(d)) && NewGame(d).step == Storytelling
  {
    DealShape(d, StartClock);
    assert DealRound(d, StartClock).1 + [] == DealRound(d, StartClock).1;
  }

  lemma ApplyKeepsInv(s: Sorting, e: Event)
    requires Inv(s) && Available(s, e)
    ensures Inv(Apply(s, e))
  {
    match e
    case Move(g) =>
      GestureConserves(s.board, g, RequiredPackages);
      var b := Perform(s.board, g, RequiredPackages);
      CountOfSameMultiset(b.source + b.target, s.board.source + s.board.target, s.assignedRoute);
      assert |b.source + b.target| == |multiset(b.source + b.target)|;
    case Check =>
    case Again(d, clock) =>
      DealShape(d, clock);
      assert DealRound(d, clock).1 + [] == DealRound(d, clock).1;
    case Begin =>
    case Skip =>
  }

  predicate AllAvailable(s: Sorting, es: seq<Event>)
    decreases |es|
  {
    |es| == 0 || (Available(s, es[0]) && AllAvailable(Apply(s, es[0]), es[1..]))
  }

  function Play(s: Sorting, es: seq<Event>): Sorting
    requires AllAvailable(s, es)
    decreases |es|
  {
    if |es| == 0 then s else Play(Apply(s, es[0]), es[1..])
  }

  /** Any run of the game keeps the invariant. */
  lemma {:induction false} PlayKeepsInv(s: Sorting, es: seq<Event>)
    requires Inv(s) && AllAvailable(s, es)
    ensures Inv(Play(s, es))
    decreases |es|
  {
    if |es| > 0 {
      ApplyKeepsInv(s, es[0]);
      PlayKeepsInv(Apply(s, es[0]), es[1..]);
    }
  }

  /** The check is offered with a full van, so the result is success exactly
      when every loaded package is on the assigned route. */
  lemma CheckGrades(s: Sorting)
    requires Inv(s) && Available(s, Check)
    ensures var r := CheckResult(s);
            && (GradeOf(r.correctCount) == Success <==>
                  forall i :: 0 <= i < |s.board.target| ==> s.board.target[i].tag == s.assignedRoute)
            && (GradeOf(r.correctCount) == Fail <==> r.correctCount < 2)
  {
    CountExtremes(s.board.target, s.assignedRoute);
  }
}

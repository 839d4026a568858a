/** Which mini-game an interaction point opens, given the quest flags
    (src/components/Scene.tsx). Rendering, lights and the interaction indicators
    are not modelled. */
module Scene {
  import opened Optional
  import opened Geometry
  import opened Quests
  import opened Interaction

  /** The four interaction points; all sit on the ground. */
  const DepotPosition: Vec3 := Vec3(50.0, 0.0, 0.0)
  const LockerPosition: Vec3 := Vec3(-50.0, 0.0, 0.0)
  const ShopPosition: Vec3 := Vec3(0.0, 0.0, 50.0)
  const PubPosition: Vec3 := Vec3(25.0, 0.0, 25.0)

  /** The radius the scene passes for every point. */
  const SceneRadius: real := 3.0

  /** Where the interaction points are and how close the van must come. */
  datatype Layout = Layout(depot: Vec3, locker: Vec3, shop: Vec3, pub: Vec3, radius: real)

  const SceneLayout: Layout := Layout(DepotPosition, LockerPosition, ShopPosition, PubPosition, SceneRadius)

  datatype Points = Points(depot: InteractionState, locker: InteractionState,
                           shop: InteractionState, pub: InteractionState)

  const IdlePoints: Points := Points(Idle, Idle, Idle, Idle)

  /** The callbacks fired in one render. */
  datatype Opened = Opened(sorting: bool, quiz: bool, courier: bool, shop: bool, pub: bool)

  /** `!quest?.completed`: a missing quest counts as not completed. */
  predicate NotCompleted(q: Option<Quest>) {
    !(q.Some? && q.value.completed)
  }

  /** `!quest?.locked`: a missing quest counts as not locked. */
  predicate NotLocked(q: Option<Quest>) {
    !(q.Some? && q.value.locked)
  }

  predicate Open(q: Option<Quest>) {
    NotCompleted(q) && NotLocked(q)
  }

  /** The per-frame distance checks of all four points; the game uses
      `SceneLayout`. */
  function CheckAll(l: Layout, p: Points, car: Vec3): (r: Points)
    ensures r.depot.isNearTarget <==> Within(car, l.depot, l.radius)
    ensures r.locker.isNearTarget <==> Within(car, l.locker, l.radius)
    ensures r.shop.isNearTarget <==> Within(car, l.shop, l.radius)
    ensures r.pub.isNearTarget <==> Within(car, l.pub, l.radius)
    ensures r.depot.canInteract == p.depot.canInteract && r.locker.canInteract == p.locker.canInteract
    ensures r.shop.canInteract == p.shop.canInteract && r.pub.canInteract == p.pub.canInteract
  {
    Points(CheckDistance(p.depot, car, l.depot, l.radius),
           CheckDistance(p.locker, car, l.locker, l.radius),
           CheckDistance(p.shop, car, l.shop, l.radius),
           CheckDistance(p.pub, car, l.pub, l.radius))
  }

  /** One render of the dispatch: the callbacks fired and the points after the
      resets. */
  function Dispatch(qs: seq<Quest>, p: Points): (r: (Opened, Points))
    ensures r.0.sorting <==> p.depot.canInteract && NotCompleted(FindById(qs, "quest-1"))
    ensures r.0.quiz <==> p.depot.canInteract && !NotCompleted(FindById(qs, "quest-1"))
                          && Open(FindById(qs, "quest-4"))
    ensures !(r.0.sorting && r.0.quiz)
    ensures r.0.courier <==> p.locker.canInteract && Open(FindById(qs, "quest-2"))
    ensures r.0.shop <==> p.shop.canInteract && Open(FindById(qs, "quest-3"))
    ensures r.0.pub <==> p.pub.isNearTarget
    ensures !r.1.depot.canInteract && !r.1.locker.canInteract && !r.1.shop.canInteract
    ensures r.1.depot.isNearTarget == p.depot.isNearTarget && r.1.locker.isNearTarget == p.locker.isNearTarget
    ensures r.1.shop.isNearTarget == p.shop.isNearTarget && r.1.pub == p.pub
  {
    var q1 := FindById(qs, "quest-1");
    var q2 := FindById(qs, "quest-2");
    var q3 := FindById(qs, "quest-3");
    var q4 := FindById(qs, "quest-4");
    var sorting := p.depot.canInteract && NotCompleted(q1);
    var quiz := p.depot.canInteract && !NotCompleted(q1) && Open(q4);
    var fired := Opened(sorting, quiz,
                         p.locker.canInteract && Open(q2),
                         p.shop.canInteract && Open(q3),
                         p.pub.isNearTarget);
    var after := Points(if p.depot.canInteract then ResetInteraction(p.depot) else p.depot,
                        if p.locker.canInteract then ResetInteraction(p.locker) else p.locker,
                        if p.shop.canInteract then ResetInteraction(p.shop) else p.shop,
                        p.pub);
    (fired, after)
  }

  /** A pub visit needs no key: driving next to the pub opens it. */
  lemma PubOnProximity(l: Layout, qs: seq<Quest>, p: Points, car: Vec3)
    requires Within(car, l.pub, l.radius)
    ensures Dispatch(qs, CheckAll(l, p, car)).0.pub
  {
  }

  function QuestId(i: nat): string
    requires i < 4
  {
    ["quest-1", "quest-2", "quest-3", "quest-4"][i]
  }

  /** The quest list holds quest-1 .. quest-4 in order, as the initial list does
      and as completion keeps it. */
  predicate StandardIds(qs: seq<Quest>) {
    |qs| == 4 && forall i :: 0 <= i < 4 ==> qs[i].id == QuestId(i)
  }

  lemma StandardIdsKept(qs: seq<Quest>)
    requires StandardIds(qs)
    ensures StandardIds(InitialQuests) && StandardIds(CompleteCurrentQuest(qs))
  {
  }

  lemma FindStandard(qs: seq<Quest>)
    requires StandardIds(qs)
    ensures FindById(qs, "quest-1") == Some(qs[0])
    ensures FindById(qs, "quest-2") == Some(qs[1])
    ensures FindById(qs, "quest-3") == Some(qs[2])
    ensures FindById(qs, "quest-4") == Some(qs[3])
  {
    assert qs[1..][1..] == qs[2..];
    assert qs[2..][1..] == qs[3..];
  }

  /** Along the quest chain, each point opens its game exactly when its quest is
      the current one: sorting for quest-1, the courier game for quest-2, the shop
      for quest-3, and the quiz for quest-4 back at the depot. */
  lemma DispatchFollowsChain(qs: seq<Quest>, k: nat, p: Points)
    requires StandardIds(qs) && ChainAt(qs, k)
    ensures Dispatch(qs, p).0.sorting <==> p.depot.canInteract && k == 0
    ensures Dispatch(qs, p).0.courier <==> p.locker.canInteract && k == 1
    ensures Dispatch(qs, p).0.shop <==> p.shop.canInteract && k == 2
    ensures Dispatch(qs, p).0.quiz <==> p.depot.canInteract && k == 3
  {
    FindStandard(qs);
  }
}

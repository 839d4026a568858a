/** The drag-and-drop moves both loading games share
    (src/components/PackageSortingGame.tsx, src/components/PackageDeliveryGame.tsx):
    a package is dragged from one of two lists and dropped on a list. The first
    list (the warehouse, or the van's load at the pick-up point) drags with the
    flag `fromVan` false; the second, capped list (the van, or the delivery
    counter) drags with it true. */
module DragDrop {
  import opened Optional
  import opened Sequences

  /** A package: its id and what the game checks (a route, or a number). */
  datatype Item<L> = Item(id: int, tag: L)

  /** `{ ...pkg, fromVan }` */
  datatype Dragged<L> = Dragged(item: Item<L>, fromVan: bool)

  datatype Board<L> = Board(source: seq<Item<L>>, target: seq<Item<L>>, dragged: Option<Dragged<L>>)

  /** No package twice, and no two packages with the same id. */
  predicate UniqueIds<L(==,!new)>(s: seq<Item<L>>) {
    && NoDup(s)
    && forall x, y :: x in s && y in s && x.id == y.id ==> x == y
  }

  /** `list.filter(p => p.id !== id)` */
  function Without<L(==,!new)>(s: seq<Item<L>>, id: int): (r: seq<Item<L>>)
    ensures forall x :: x in r <==> x in s && x.id != id
    ensures |r| <= |s|
    decreases |s|
  {
    if |s| == 0 then []
    else if s[0].id != id then [s[0]] + Without(s[1..], id)
    else Without(s[1..], id)
  }

  /** Unique ids stay unique in the tail, whose ids all differ from the head's. */
  lemma TailUnique<L(!new)>(s: seq<Item<L>>)
    requires |s| > 0 && UniqueIds(s)
    ensures UniqueIds(s[1..])
    ensures forall k :: 1 <= k < |s| ==> s[k].id != s[0].id
  {
    var tail := s[1..];
    forall i, j | 0 <= i < j < |tail| ensures tail[i] != tail[j] {
      assert s[i + 1] != s[j + 1];
    }
    forall k | 1 <= k < |s| ensures s[k].id != s[0].id {
      assert s[k] != s[0];
    }
  }

  /** With unique ids, filtering out a present package removes exactly it. */
  lemma {:induction false} WithoutOne<L(!new)>(s: seq<Item<L>>, x: Item<L>)
    requires x in s && UniqueIds(s)
    ensures multiset(Without(s, x.id)) + multiset{x} == multiset(s)
    decreases |s|
  {
    var tail := s[1..];
    assert s == [s[0]] + tail;
    TailUnique(s);
    if s[0] == x {
      WithoutNone(tail, x.id);
    } else {
      WithoutOne(tail, x);
      assert Without(s, x.id) == [s[0]] + Without(tail, x.id);
    }
  }

  /** Filtering out an absent id changes nothing. */
  lemma {:induction false} WithoutNone<L(!new)>(s: seq<Item<L>>, id: int)
    requires forall k :: 0 <= k < |s| ==> s[k].id != id
    ensures Without(s, id) == s
    decreases |s|
  {
    if |s| > 0 {
      WithoutNone(s[1..], id);
      assert s == [s[0]] + s[1..];
    }
  }

  /** `handleDragStart(pkg, fromVan)` */
  function DragStart<L(==,!new)>(b: Board<L>, item: Item<L>, fromVan: bool): (r: Board<L>)
    ensures r.source == b.source && r.target == b.target
    ensures r.dragged == Some(Dragged(item, fromVan))
  {
    b.(dragged := Some(Dragged(item, fromVan)))
  }

  /** The drop on the capped list: only a package dragged with the flag false is
      taken, and only while the list holds fewer than `cap`; a refused package
      is still let go when the list is full. */
  function DropToTarget<L(==,!new)>(b: Board<L>, cap: nat): (r: Board<L>)
    ensures b.dragged.None? || b.dragged.value.fromVan ==> r == b
    ensures b.dragged.Some? && !b.dragged.value.fromVan && |b.target| >= cap ==>
              r == b.(dragged := None)
    ensures b.dragged.Some? && !b.dragged.value.fromVan && |b.target| < cap ==>
              var x := b.dragged.value.item;
              r == Board(Without(b.source, x.id), b.target + [x], None)
  {
    match b.dragged
    case None => b
    case Some(d) =>
      if d.fromVan then b
      else if |b.target| < cap then Board(Without(b.source, d.item.id), b.target + [d.item], None)
      else b.(dragged := None)
  }

  /** The drop on the first list: only a package dragged with the flag true is
      taken back. */
  function DropToSource<L(==,!new)>(b: Board<L>): (r: Board<L>)
    ensures b.dragged.None? || !b.dragged.value.fromVan ==> r == b
    ensures b.dragged.Some? && b.dragged.value.fromVan ==>
              var x := b.dragged.value.item;
              r == Board(b.source + [x], Without(b.target, x.id), None)
  {
    match b.dragged
    case None => b
    case Some(d) =>
      if !d.fromVan then b
      else Board(b.source + [d.item], Without(b.target, d.item.id), None)
  }

  /** One drag-and-drop gesture: pick up `item` from the capped list (`fromTarget`)
      or the first list, and drop it on the capped list (`ontoTarget`) or the
      first one. */
  datatype Gesture<L> = Gesture(item: Item<L>, fromTarget: bool, ontoTarget: bool)

  function Perform<L(==,!new)>(b: Board<L>, g: Gesture<L>, cap: nat): Board<L> {
    var held := DragStart(b, g.item, g.fromTarget);
    if g.ontoTarget then DropToTarget(held, cap) else DropToSource(held)
  }

  /** A gesture starts on a package of the list it is dragged from. */
  predicate CanStart<L(==,!new)>(b: Board<L>, g: Gesture<L>) {
    if g.fromTarget then g.item in b.target else g.item in b.source
  }

  /** Unique ids over both lists and the cap respected. */
  predicate Valid<L(==,!new)>(b: Board<L>, cap: nat) {
    UniqueIds(b.source + b.target) && |b.target| <= cap
  }

  /** Rearranging the packages keeps their ids unique. */
  lemma UniqueOfSameMultiset<L(!new)>(a: seq<Item<L>>, c: seq<Item<L>>)
    requires multiset(a) == multiset(c) && UniqueIds(c)
    ensures UniqueIds(a)
  {
    NoDupOfSameMultiset(a, c);
    forall x | x in a ensures x in c {
      assert x in multiset(a);
    }
  }

  /** Unique ids over two lists are unique in each. */
  lemma SplitUnique<L(!new)>(a: seq<Item<L>>, c: seq<Item<L>>)
    requires UniqueIds(a + c)
    ensures UniqueIds(a) && UniqueIds(c)
  {
    var s := a + c;
    forall i, j | 0 <= i < j < |a| ensures a[i] != a[j] {
      assert s[i] != s[j];
    }
    forall i, j | 0 <= i < j < |c| ensures c[i] != c[j] {
      assert s[|a| + i] != s[|a| + j];
    }
  }

  /** A package moved over to the capped list. */
  lemma MoveOverConserves<L(!new)>(b: Board<L>, x: Item<L>, cap: nat)
    requires Valid(b, cap) && x in b.source && |b.target| < cap
    ensures var r := Board(Without(b.source, x.id), b.target + [x], None);
            Valid(r, cap) && multiset(r.source + r.target) == multiset(b.source + b.target)
  {
    var r := Board(Without(b.source, x.id), b.target + [x], None);
    SplitUnique(b.source, b.target);
    WithoutOne(b.source, x);
    assert multiset(r.source + r.target) == multiset(b.source + b.target);
    UniqueOfSameMultiset(r.source + r.target, b.source + b.target);
  }

  /** A package moved back from the capped list. */
  lemma MoveBackConserves<L(!new)>(b: Board<L>, x: Item<L>, cap: nat)
    requires Valid(b, cap) && x in b.target
    ensures var r := Board(b.source + [x], Without(b.target, x.id), None);
            Valid(r, cap) && multiset(r.source + r.target) == multiset(b.source + b.target)
  {
    var r := Board(b.source + [x], Without(b.target, x.id), None);
    SplitUnique(b.source, b.target);
    WithoutOne(b.target, x);
    assert multiset(r.source + r.target) == multiset(b.source + b.target);
    UniqueOfSameMultiset(r.source + r.target, b.source + b.target);
  }

  /** The two kinds of move: a package goes over to the capped list when it comes
      from the first list and there is room; it goes back when it comes from the
      capped list; every other gesture leaves both lists as they were. Either
      way no package is lost or duplicated and the cap holds. */
  lemma GestureConserves<L(!new)>(b: Board<L>, g: Gesture<L>, cap: nat)
    requires Valid(b, cap) && CanStart(b, g)
    ensures var r := Perform(b, g, cap);
            && Valid(r, cap)
            && multiset(r.source + r.target) == multiset(b.source + b.target)
            && (g.ontoTarget && !g.fromTarget && |b.target| < cap ==>
                  r.source == Without(b.source, g.item.id) && r.target == b.target + [g.item])
            && (!g.ontoTarget && g.fromTarget ==>
                  r.source == b.source + [g.item] && r.target == Without(b.target, g.item.id))
            && (g.ontoTarget == g.fromTarget || (g.ontoTarget && |b.target| >= cap) ==>
                  r.source == b.source && r.target == b.target)
  {
    if g.ontoTarget && !g.fromTarget && |b.target| < cap {
      MoveOverConserves(b, g.item, cap);
    } else if !g.ontoTarget && g.fromTarget {
      MoveBackConserves(b, g.item, cap);
    }
  }

  /** A full capped list refuses every package, whatever is dragged. */
  lemma FullTargetRefuses<L(!new)>(b: Board<L>, g: Gesture<L>, cap: nat)
    requires |b.target| >= cap && g.ontoTarget
    ensures Perform(b, g, cap).source == b.source && Perform(b, g, cap).target == b.target
  {
  }
}

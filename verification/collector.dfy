/** Packages scattered on the roads and picked up by driving over them
    (src/components/PackageCollector.tsx). The plink sound, the floating "+1"
    labels and rendering are not modelled; random numbers are passed in. */
module PackageCollector {
  import opened Geometry
  import opened RoadSystem
  import opened Text
  import opened Score
  import opened Sequences
  import opened Random

  /** A package is picked up closer than this. */
  const CollectionDistance: real := 2.0
  /** Packages float at this height. */
  const PackageHeight: real := 0.5
  /** The `packageCount` the scene passes; the component's own default of 10
      is never used. */
  const ScenePackageCount: nat := 14

  /** The three draws of one `generateRoadPosition` call, in call order. */
  datatype Draw = Draw(road: real, first: real, second: real)

  predicate UnitDraw(d: Draw) {
    Unit(d.road) && Unit(d.first) && Unit(d.second)
  }

  /** `generateRoadPosition`: a random road, a uniform point along it and a point
      across it drawn from the middle half of its width. */
  function GenerateRoadPosition(roads: seq<Road>, d: Draw): (p: Vec3)
    requires |roads| > 0 && UnitDraw(d)
    ensures p.y == PackageHeight
    ensures var r := roads[RandomIndex(|roads|, d.road)];
            WellFormed(r) && r.rotation == Horizontal ==>
              && r.x - r.length / 2.0 <= p.x <= r.x + r.length / 2.0
              && (r.length > 0.0 ==> p.x < r.x + r.length / 2.0)
              && Abs(p.z - r.z) <= r.width / 4.0
    ensures var r := roads[RandomIndex(|roads|, d.road)];
            WellFormed(r) && r.rotation == Vertical ==>
              && r.z - r.length / 2.0 <= p.z <= r.z + r.length / 2.0
              && (r.length > 0.0 ==> p.z < r.z + r.length / 2.0)
              && Abs(p.x - r.x) <= r.width / 4.0
  {
    var r := roads[RandomIndex(|roads|, d.road)];
    var halfLength := r.length / 2.0;
    var halfWidth := r.width / 2.0;
    UnitScaleLe(d.first, r.length);
    UnitScaleLe(d.first, r.width);
    UnitScaleLe(d.second, r.length);
    UnitScaleLe(d.second, r.width);
    UnitBelow(d.first, r.length);
    UnitBelow(d.second, r.length);
    if r.rotation == Horizontal then
      Vec3(r.x + (Mul(d.first, r.length) - halfLength), PackageHeight,
           r.z + (Mul(d.second, r.width) - halfWidth) * 0.5)
    else
      Vec3(r.x + (Mul(d.first, r.width) - halfWidth) * 0.5, PackageHeight,
           r.z + (Mul(d.second, r.length) - halfLength))
  }

  /** Every generated position is on a road, without any tolerance. */
  lemma GeneratedOnRoad(roads: seq<Road>, d: Draw)
    requires |roads| > 0 && UnitDraw(d) && AllWellFormed(roads)
    ensures var p := GenerateRoadPosition(roads, d); IsOnRoad(roads, p.x, p.z, 0.0)
  {
    var p := GenerateRoadPosition(roads, d);
    var k := RandomIndex(|roads|, d.road);
    assert WellFormed(roads[k]);
    assert Expand(Footprint(roads[k]), 0.0) == Footprint(roads[k]);
    assert Contains(Expand(Footprint(roads[k]), 0.0), p.x, p.z);
  }

  datatype Package = Package(id: string, position: Vec3, collected: bool)

  function Ids(pkgs: seq<Package>): (r: seq<string>)
    ensures |r| == |pkgs| && forall i :: 0 <= i < |pkgs| ==> r[i] == pkgs[i].id
  {
    seq(|pkgs|, i requires 0 <= i < |pkgs| => pkgs[i].id)
  }

  function PackageId(i: nat): string {
    "package-" + NatToString(i)
  }

  lemma PackageIdInjective(a: nat, b: nat)
    requires PackageId(a) == PackageId(b)
    ensures a == b
  {
    var prefix := "package-";
    assert PackageId(a)[|prefix|..] == NatToString(a);
    assert PackageId(b)[|prefix|..] == NatToString(b);
    NatToStringInjective(a, b);
  }

  /** The initial packages: ids `package-0` .. `package-(n-1)`, one generated
      position each, none collected. */
  function InitPackages(roads: seq<Road>, draws: seq<Draw>): (r: seq<Package>)
    requires |roads| > 0 && forall i :: 0 <= i < |draws| ==> UnitDraw(draws[i])
    ensures |r| == |draws|
    ensures forall i :: 0 <= i < |r| ==>
              r[i] == Package(PackageId(i), GenerateRoadPosition(roads, draws[i]), false)
  {
    seq(|draws|, i requires 0 <= i < |draws| => Package(PackageId(i), GenerateRoadPosition(roads, draws[i]), false))
  }

  /** Initial package ids are pairwise distinct. */
  lemma InitIdsDistinct(roads: seq<Road>, draws: seq<Draw>)
    requires |roads| > 0 && forall i :: 0 <= i < |draws| ==> UnitDraw(draws[i])
    ensures NoDup(Ids(InitPackages(roads, draws)))
  {
    var r := InitPackages(roads, draws);
    forall i, j | 0 <= i < j < |r|
      ensures Ids(r)[i] != Ids(r)[j]
    {
      if PackageId(i) == PackageId(j) {
        PackageIdInjective(i, j);
      }
    }
  }

  /** The per-package test of the frame loop. */
  predicate Pickable(p: Package, collecting: set<string>, car: Vec3) {
    !p.collected && p.id !in collecting && Within(car, p.position, CollectionDistance)
  }

  /** The frame loop: packages picked in order, each id added to the collecting
      set as soon as it is picked. */
  function Scan(pkgs: seq<Package>, collecting: set<string>, car: Vec3): (r: seq<string>)
    ensures NoDup(r)
    ensures forall k :: 0 <= k < |r| ==> r[k] !in collecting
    ensures forall id :: id in r <==> exists j :: 0 <= j < |pkgs| && pkgs[j].id == id && Pickable(pkgs[j], collecting, car)
    decreases |pkgs|
  {
    if |pkgs| == 0 then []
    else if Pickable(pkgs[0], collecting, car) then
      var rest := Scan(pkgs[1..], collecting + {pkgs[0].id}, car);
      assert forall id :: id in rest <==> exists j :: 1 <= j < |pkgs| && pkgs[j].id == id && Pickable(pkgs[j], collecting + {pkgs[0].id}, car) by {
        forall id ensures id in rest <==> exists j :: 1 <= j < |pkgs| && pkgs[j].id == id && Pickable(pkgs[j], collecting + {pkgs[0].id}, car) {
          if id in rest {
            var j :| 0 <= j < |pkgs[1..]| && pkgs[1..][j].id == id && Pickable(pkgs[1..][j], collecting + {pkgs[0].id}, car);
            assert pkgs[j + 1] == pkgs[1..][j];
          }
          if exists j :: 1 <= j < |pkgs| && pkgs[j].id == id && Pickable(pkgs[j], collecting + {pkgs[0].id}, car) {
            var j :| 1 <= j < |pkgs| && pkgs[j].id == id && Pickable(pkgs[j], collecting + {pkgs[0].id}, car);
            assert pkgs[1..][j - 1] == pkgs[j];
          }
        }
      }
      [pkgs[0].id] + rest
    else
      var rest := Scan(pkgs[1..], collecting, car);
      assert forall id :: id in rest <==> exists j :: 1 <= j < |pkgs| && pkgs[j].id == id && Pickable(pkgs[j], collecting, car) by {
        forall id ensures id in rest <==> exists j :: 1 <= j < |pkgs| && pkgs[j].id == id && Pickable(pkgs[j], collecting, car) {
          if id in rest {
            var j :| 0 <= j < |pkgs[1..]| && pkgs[1..][j].id == id && Pickable(pkgs[1..][j], collecting, car);
            assert pkgs[j + 1] == pkgs[1..][j];
          }
          if exists j :: 1 <= j < |pkgs| && pkgs[j].id == id && Pickable(pkgs[j], collecting, car) {
            var j :| 1 <= j < |pkgs| && pkgs[j].id == id && Pickable(pkgs[j], collecting, car);
            assert pkgs[1..][j - 1] == pkgs[j];
          }
        }
      }
      rest
  }

  /** The ids a frame picks: packages not collected, not being collected, and
      closer than the collection distance. */
  function PickedIds(pkgs: seq<Package>, collecting: set<string>, car: Vec3): set<string> {
    set j | 0 <= j < |pkgs| && Pickable(pkgs[j], collecting, car) :: pkgs[j].id
  }

  /** `prev.map(p => picked.some(c => c.id === p.id) ? {...p, collected: true} : p)` */
  function MarkCollected(pkgs: seq<Package>, ids: set<string>): (r: seq<Package>)
    ensures |r| == |pkgs|
    ensures forall i :: 0 <= i < |pkgs| ==> r[i].id == pkgs[i].id && r[i].position == pkgs[i].position
                                            && (r[i].collected <==> pkgs[i].collected || pkgs[i].id in ids)
  {
    seq(|pkgs|, i requires 0 <= i < |pkgs| => if pkgs[i].id in ids then pkgs[i].(collected := true) else pkgs[i])
  }

  /** The collector's state: the packages, the ids being collected (a ref that is
      never cleared) and the score. */
  datatype Collector = Collector(packages: seq<Package>, collecting: set<string>, score: ScoreData)

  /** One frame of pickup: every pickable package is picked, the score grows by the
      number picked, and the picked packages are marked collected by id. A frame
      that picks nothing changes nothing. */
  function PickupTick(c: Collector, car: Vec3): (r: Collector)
    ensures var picked := PickedIds(c.packages, c.collecting, car);
            && r.score.totalScore == c.score.totalScore + |picked|
            && r.score.miniGamesCompleted == c.score.miniGamesCompleted
            && r.collecting == c.collecting + picked
            && r.packages == MarkCollected(c.packages, picked)
    ensures PickedIds(c.packages, c.collecting, car) == {} ==> r == c
  {
    var picked := Scan(c.packages, c.collecting, car);
    var ids := set x | x in picked;
    assert ids == PickedIds(c.packages, c.collecting, car);
    NoDupCard(picked);
    if |picked| == 0 then
      assert forall i :: 0 <= i < |c.packages| ==> MarkCollected(c.packages, ids)[i] == c.packages[i];
      c
    else
      Collector(MarkCollected(c.packages, ids), c.collecting + ids, AddScore(c.score, |picked|))
  }

  /** With distinct ids a package is marked collected in a frame exactly when it
      was already collected or is pickable now. */
  lemma PickupPerPackage(c: Collector, car: Vec3, i: nat)
    requires NoDup(Ids(c.packages)) && i < |c.packages|
    ensures PickupTick(c, car).packages[i].collected <==>
              c.packages[i].collected || Pickable(c.packages[i], c.collecting, car)
  {
    var pkgs := c.packages;
    if pkgs[i].id in PickedIds(pkgs, c.collecting, car) {
      var j :| 0 <= j < |pkgs| && Pickable(pkgs[j], c.collecting, car) && pkgs[j].id == pkgs[i].id;
      assert Ids(pkgs)[i] == Ids(pkgs)[j];
    }
  }

  /** The ids of the collected packages. */
  function CollectedIds(pkgs: seq<Package>): (r: set<string>)
    ensures forall id :: id in r <==> exists i :: 0 <= i < |pkgs| && pkgs[i].collected && pkgs[i].id == id
  {
    set i | 0 <= i < |pkgs| && pkgs[i].collected :: pkgs[i].id
  }

  function CountCollected(pkgs: seq<Package>): (n: nat)
    ensures n <= |pkgs|
    decreases |pkgs|
  {
    if |pkgs| == 0 then 0 else (if pkgs[0].collected then 1 else 0) + CountCollected(pkgs[1..])
  }

  /** `packages.filter(pkg => !pkg.collected)`: the packages still to be picked,
      in their order. */
  function ActivePackages(pkgs: seq<Package>): (r: seq<Package>)
    ensures forall p :: p in r <==> p in pkgs && !p.collected
    ensures |r| + CountCollected(pkgs) == |pkgs|
    decreases |pkgs|
  {
    if |pkgs| == 0 then []
    else if pkgs[0].collected then ActivePackages(pkgs[1..])
    else [pkgs[0]] + ActivePackages(pkgs[1..])
  }

  lemma {:induction false} CollectedCard(pkgs: seq<Package>)
    requires NoDup(Ids(pkgs))
    ensures |CollectedIds(pkgs)| == CountCollected(pkgs)
    decreases |pkgs|
  {
    if |pkgs| > 0 {
      var rest := pkgs[1..];
      IdsTail(pkgs);
      CollectedCard(rest);
      CollectedIdsCons(pkgs);
      if pkgs[0].collected {
        assert CollectedIds(pkgs) == {pkgs[0].id} + CollectedIds(rest);
        assert pkgs[0].id !in CollectedIds(rest);
      } else {
        assert CollectedIds(pkgs) == CollectedIds(rest);
      }
    }
  }

  /** Distinct ids stay distinct in the tail, and the head's id is not among them. */
  lemma IdsTail(pkgs: seq<Package>)
    requires |pkgs| > 0 && NoDup(Ids(pkgs))
    ensures NoDup(Ids(pkgs[1..]))
    ensures pkgs[0].id !in CollectedIds(pkgs[1..])
  {
    var rest := pkgs[1..];
    forall i, j | 0 <= i < j < |rest| ensures Ids(rest)[i] != Ids(rest)[j] {
      assert Ids(pkgs)[i + 1] != Ids(pkgs)[j + 1];
    }
    forall i | 0 <= i < |rest| ensures rest[i].id != pkgs[0].id {
      assert Ids(pkgs)[0] != Ids(pkgs)[i + 1];
    }
  }

  /** The collected ids of a list: the head's, if collected, and the tail's. */
  lemma CollectedIdsCons(pkgs: seq<Package>)
    requires |pkgs| > 0
    ensures CollectedIds(pkgs) == (if pkgs[0].collected then {pkgs[0].id} else {}) + CollectedIds(pkgs[1..])
  {
    var rest := pkgs[1..];
    var head := if pkgs[0].collected then {pkgs[0].id} else {};
    forall id ensures id in CollectedIds(pkgs) <==> id in head + CollectedIds(rest) {
      if id in CollectedIds(pkgs) {
        var i :| 0 <= i < |pkgs| && pkgs[i].collected && pkgs[i].id == id;
        if i > 0 {
          assert rest[i - 1] == pkgs[i];
        }
      }
      if id in CollectedIds(rest) {
        var i :| 0 <= i < |rest| && rest[i].collected && rest[i].id == id;
        assert pkgs[i + 1] == rest[i];
      }
    }
  }

  /** The pickup invariant: ids distinct, the collecting set is exactly the ids of
      the collected packages, and the score has grown by exactly one point per
      collected id since `base`. */
  predicate Consistent(c: Collector, base: int) {
    && NoDup(Ids(c.packages))
    && c.collecting == CollectedIds(c.packages)
    && c.score.totalScore == base + |c.collecting|
  }

  /** The initial collector (nothing collected, nothing being collected) is
      consistent with its own score as the base. */
  function InitCollector(roads: seq<Road>, draws: seq<Draw>, score: ScoreData): (c: Collector)
    requires |roads| > 0 && forall i :: 0 <= i < |draws| ==> UnitDraw(draws[i])
    ensures Consistent(c, score.totalScore)
    ensures |c.packages| == |draws| && ActivePackages(c.packages) == c.packages
  {
    var pkgs := InitPackages(roads, draws);
    InitIdsDistinct(roads, draws);
    assert CollectedIds(pkgs) == {};
    ActiveOfFresh(pkgs);
    Collector(pkgs, {}, score)
  }

  lemma {:induction false} ActiveOfFresh(pkgs: seq<Package>)
    requires forall i :: 0 <= i < |pkgs| ==> !pkgs[i].collected
    ensures ActivePackages(pkgs) == pkgs
    decreases |pkgs|
  {
    if |pkgs| > 0 {
      ActiveOfFresh(pkgs[1..]);
      assert [pkgs[0]] + pkgs[1..] == pkgs;
    }
  }

  /** Marking a set of present ids collected adds exactly those ids. */
  lemma MarkedCollectedIds(pkgs: seq<Package>, ids: set<string>)
    requires forall id :: id in ids ==> exists j :: 0 <= j < |pkgs| && pkgs[j].id == id
    ensures CollectedIds(MarkCollected(pkgs, ids)) == CollectedIds(pkgs) + ids
  {
    var m := MarkCollected(pkgs, ids);
    forall id ensures id in CollectedIds(m) <==> id in CollectedIds(pkgs) + ids {
      if id in ids {
        var j :| 0 <= j < |pkgs| && pkgs[j].id == id;
        assert m[j].collected && m[j].id == id;
      }
      if id in CollectedIds(pkgs) {
        var j :| 0 <= j < |pkgs| && pkgs[j].collected && pkgs[j].id == id;
        assert m[j].collected && m[j].id == id;
      }
    }
  }

  /** Every frame keeps the invariant: a package is never counted twice. */
  lemma PickupKeepsConsistent(c: Collector, base: int, car: Vec3)
    requires Consistent(c, base)
    ensures Consistent(PickupTick(c, car), base)
  {
    var picked := PickedIds(c.packages, c.collecting, car);
    var r := PickupTick(c, car);
    assert Ids(r.packages) == Ids(c.packages);
    MarkedCollectedIds(c.packages, picked);
    assert c.collecting !! picked;
    assert |c.collecting + picked| == |c.collecting| + |picked|;
  }

  /** Under the invariant the points earned by pickups equal the number of
      collected packages, and with the packages still on the road they add up to
      the package count. */
  lemma PointsMatchPackages(c: Collector, base: int)
    requires Consistent(c, base)
    ensures c.score.totalScore - base == CountCollected(c.packages)
    ensures |ActivePackages(c.packages)| + (c.score.totalScore - base) == |c.packages|
  {
    CollectedCard(c.packages);
  }

  /** In the scene's collector, laid out with 14 packages, any drive earns at
      most 14 points, and the points earned and the packages still lying on
      the roads add up to 14. */
  lemma SceneDriveBounded(draws: seq<Draw>, score: ScoreData, cars: seq<Vec3>)
    requires |draws| == ScenePackageCount && forall i :: 0 <= i < |draws| ==> UnitDraw(draws[i])
    ensures var c := PickupRun(InitCollector(Roads, draws, score), cars);
            && c.score.totalScore - score.totalScore <= ScenePackageCount
            && |ActivePackages(c.packages)| + (c.score.totalScore - score.totalScore) == ScenePackageCount
  {
    var c0 := InitCollector(Roads, draws, score);
    PickupRunBounded(c0, score.totalScore, cars);
    PointsMatchPackages(PickupRun(c0, cars), score.totalScore);
  }

  function PickupRun(c: Collector, cars: seq<Vec3>): Collector
    decreases |cars|
  {
    if |cars| == 0 then c else PickupRun(PickupTick(c, cars[0]), cars[1..])
  }

  /** Over any drive, pickups earn at most one point per package. */
  lemma {:induction false} PickupRunBounded(c: Collector, base: int, cars: seq<Vec3>)
    requires Consistent(c, base)
    ensures Consistent(PickupRun(c, cars), base)
    ensures |PickupRun(c, cars).packages| == |c.packages|
    ensures PickupRun(c, cars).score.totalScore - base <= |c.packages|
    decreases |cars|
  {
    if |cars| > 0 {
      PickupKeepsConsistent(c, base, cars[0]);
      PickupRunBounded(PickupTick(c, cars[0]), base, cars[1..]);
    } else {
      PointsMatchPackages(c, base);
    }
  }
}

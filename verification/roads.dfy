/** The road network: axis-aligned road rectangles, the on-road test, the
    nearest-point-on-road query and the accept/snap/stay position policy
    (src/utils/roadSystem.ts). */
module RoadSystem {
  import opened Geometry

  datatype Rotation = Horizontal | Vertical

  /** A road centred on (x, z). A horizontal road runs along x (its length) and is
      `width` wide along z; a vertical road swaps the axes. */
  datatype Road = Road(x: real, z: real, width: real, length: real, rotation: Rotation)

  /** A point of the ground plane. */
  datatype Position = Position(x: real, z: real)

  /** The city grid: two main axes, six horizontal and six vertical roads. */
  const Roads: seq<Road> := [
    Road(0.0, 0.0, 6.0, 200.0, Horizontal),
    Road(0.0, 0.0, 6.0, 200.0, Vertical),
    Road(0.0, 25.0, 6.0, 160.0, Horizontal),
    Road(0.0, -25.0, 6.0, 160.0, Horizontal),
    Road(0.0, 50.0, 6.0, 120.0, Horizontal),
    Road(0.0, -50.0, 6.0, 120.0, Horizontal),
    Road(0.0, 75.0, 6.0, 80.0, Horizontal),
    Road(0.0, -75.0, 6.0, 80.0, Horizontal),
    Road(25.0, 0.0, 6.0, 160.0, Vertical),
    Road(-25.0, 0.0, 6.0, 160.0, Vertical),
    Road(50.0, 0.0, 6.0, 120.0, Vertical),
    Road(-50.0, 0.0, 6.0, 120.0, Vertical),
    Road(75.0, 0.0, 6.0, 80.0, Vertical),
    Road(-75.0, 0.0, 6.0, 80.0, Vertical)
  ]

  /** The default tolerance of `isOnRoad`. */
  const DefaultTolerance: real := 0.2
  /** The tolerance `getValidPosition` accepts a proposal with. */
  const AcceptTolerance: real := 0.3
  /** A proposal closer than this to the road is snapped onto it. */
  const SnapDistance: real := 2.0

  predicate WellFormed(r: Road) {
    r.width >= 0.0 && r.length >= 0.0
  }

  predicate AllWellFormed(roads: seq<Road>) {
    forall i :: 0 <= i < |roads| ==> WellFormed(roads[i])
  }

  /** The closed rectangle [minX, maxX] x [minZ, maxZ]. */
  datatype Rect = Rect(minX: real, maxX: real, minZ: real, maxZ: real)

  predicate Contains(b: Rect, x: real, z: real) {
    b.minX <= x <= b.maxX && b.minZ <= z <= b.maxZ
  }

  /** The rectangle grown by t on every side. */
  function Expand(b: Rect, t: real): Rect {
    Rect(b.minX - t, b.maxX + t, b.minZ - t, b.maxZ + t)
  }

  /** The ground the road covers, stated geometrically: half the length either side
      of the centre along the road's axis, half the width across it. */
  function Footprint(r: Road): Rect {
    var hl := r.length / 2.0;
    var hw := r.width / 2.0;
    match r.rotation
    case Horizontal => Rect(r.x - hl, r.x + hl, r.z - hw, r.z + hw)
    case Vertical => Rect(r.x - hw, r.x + hw, r.z - hl, r.z + hl)
  }

  /** The per-road test of `isOnRoad`, in the source's form: the lateral offset
      against the half width, the longitudinal coordinate against both ends. */
  predicate HitsRoad(r: Road, x: real, z: real, t: real) {
    var halfLength := r.length / 2.0;
    var halfWidth := r.width / 2.0;
    if r.rotation == Horizontal then
      Abs(z - r.z) <= halfWidth + t && x >= r.x - halfLength - t && x <= r.x + halfLength + t
    else
      Abs(x - r.x) <= halfWidth + t && z >= r.z - halfLength - t && z <= r.z + halfLength + t
  }

  /** The scan of `isOnRoad` from road i on: the first road that holds the point
      ends it with true. */
  function IsOnRoadFrom(roads: seq<Road>, i: nat, x: real, z: real, t: real): (b: bool)
    requires i <= |roads|
    ensures b <==> exists k :: i <= k < |roads| && Contains(Expand(Footprint(roads[k]), t), x, z)
    decreases |roads| - i
  {
    if i == |roads| then false
    else if HitsRoad(roads[i], x, z, t) then true
    else IsOnRoadFrom(roads, i + 1, x, z, t)
  }

  /** `isOnRoad(x, z, tolerance = 0.2)`: true iff some road's rectangle, grown by
      the tolerance on every side, contains (x, z). */
  function IsOnRoad(roads: seq<Road>, x: real, z: real, tolerance: real := DefaultTolerance): (b: bool)
    ensures b <==> exists k :: 0 <= k < |roads| && Contains(Expand(Footprint(roads[k]), tolerance), x, z)
  {
    IsOnRoadFrom(roads, 0, x, z, tolerance)
  }

  /** A larger tolerance never takes a point off the road. */
  lemma IsOnRoadMonotone(roads: seq<Road>, x: real, z: real, t1: real, t2: real)
    requires t1 <= t2
    requires IsOnRoad(roads, x, z, t1)
    ensures IsOnRoad(roads, x, z, t2)
  {
    var k :| 0 <= k < |roads| && Contains(Expand(Footprint(roads[k]), t1), x, z);
    assert Contains(Expand(Footprint(roads[k]), t2), x, z);
  }

  /** The clamp of (x, z) into one road: each coordinate clamped into the road's
      extent along that axis. */
  function ClampToRoad(r: Road, x: real, z: real): (p: Position)
    ensures WellFormed(r) ==> Contains(Footprint(r), p.x, p.z)
    ensures Contains(Footprint(r), x, z) ==> p == Position(x, z)
  {
    var halfLength := r.length / 2.0;
    var halfWidth := r.width / 2.0;
    if r.rotation == Horizontal then
      Position(Clamp(r.x - halfLength, r.x + halfLength, x), Clamp(r.z - halfWidth, r.z + halfWidth, z))
    else
      Position(Clamp(r.x - halfWidth, r.x + halfWidth, x), Clamp(r.z - halfLength, r.z + halfLength, z))
  }

  /** Squared distance from (x, z) to its clamp into road r. */
  function RoadDist2(r: Road, x: real, z: real): real {
    var p := ClampToRoad(r, x, z);
    PlaneDist2(x, z, p.x, p.z)
  }

  /** The index the loop of `getNearestRoadPosition` holds after visiting the first
      n roads: it moves to a later road only when that road is strictly closer. */
  function NearestIndex(roads: seq<Road>, x: real, z: real, n: nat): (k: nat)
    requires 0 < n <= |roads|
    ensures k < n
    ensures forall j :: 0 <= j < n ==> RoadDist2(roads[k], x, z) <= RoadDist2(roads[j], x, z)
    ensures forall j :: 0 <= j < k ==> RoadDist2(roads[j], x, z) > RoadDist2(roads[k], x, z)
  {
    if n == 1 then 0
    else
      var k := NearestIndex(roads, x, z, n - 1);
      if RoadDist2(roads[n - 1], x, z) < RoadDist2(roads[k], x, z) then n - 1 else k
  }

  /** `getNearestRoadPosition`: the clamp into the closest road, the earliest one
      on ties; the origin when there are no roads. */
  function NearestRoadPosition(roads: seq<Road>, x: real, z: real): (p: Position)
    ensures |roads| == 0 ==> p == Position(0.0, 0.0)
    ensures |roads| > 0 ==> exists k :: 0 <= k < |roads| && p == ClampToRoad(roads[k], x, z)
    ensures forall j :: 0 <= j < |roads| ==> PlaneDist2(x, z, p.x, p.z) <= RoadDist2(roads[j], x, z)
  {
    if |roads| == 0 then Position(0.0, 0.0)
    else ClampToRoad(roads[NearestIndex(roads, x, z, |roads|)], x, z)
  }

  /** With well-formed roads the nearest position lies on a road, with no tolerance. */
  lemma NearestIsOnRoad(roads: seq<Road>, x: real, z: real)
    requires AllWellFormed(roads)
    requires |roads| > 0
    ensures var p := NearestRoadPosition(roads, x, z); IsOnRoad(roads, p.x, p.z, 0.0)
  {
    var p := NearestRoadPosition(roads, x, z);
    var k :| 0 <= k < |roads| && p == ClampToRoad(roads[k], x, z);
    assert Expand(Footprint(roads[k]), 0.0) == Footprint(roads[k]);
    assert Contains(Expand(Footprint(roads[k]), 0.0), p.x, p.z);
  }

  /** A point already inside a road rectangle is its own nearest road position. */
  lemma NearestOfInsidePoint(roads: seq<Road>, x: real, z: real)
    requires exists k :: 0 <= k < |roads| && Contains(Footprint(roads[k]), x, z)
    ensures NearestRoadPosition(roads, x, z) == Position(x, z)
  {
    var k :| 0 <= k < |roads| && Contains(Footprint(roads[k]), x, z);
    var p := NearestRoadPosition(roads, x, z);
    assert ClampToRoad(roads[k], x, z) == Position(x, z);
    PlaneDist2Zero(x, z, x, z);
    assert RoadDist2(roads[k], x, z) == 0.0;
    PlaneDist2Zero(x, z, p.x, p.z);
  }

  /** `getValidPosition(currentX, currentZ, newX, newZ)`: keep a proposal that is on
      the road (tolerance 0.3); otherwise snap to the nearest road position when it
      is closer than 2; otherwise stay where the car is. */
  function ValidPosition(roads: seq<Road>, currentX: real, currentZ: real, newX: real, newZ: real): (p: Position)
    ensures IsOnRoad(roads, newX, newZ, AcceptTolerance) ==> p == Position(newX, newZ)
    ensures p == Position(newX, newZ) || p == NearestRoadPosition(roads, newX, newZ) || p == Position(currentX, currentZ)
    ensures !IsOnRoad(roads, newX, newZ, AcceptTolerance) && p != Position(currentX, currentZ) ==>
              p == NearestRoadPosition(roads, newX, newZ) && PlaneDist2(newX, newZ, p.x, p.z) < Sq(SnapDistance)
  {
    if IsOnRoad(roads, newX, newZ, AcceptTolerance) then Position(newX, newZ)
    else
      var nearest := NearestRoadPosition(roads, newX, newZ);
      if PlaneDist2(newX, newZ, nearest.x, nearest.z) < Sq(SnapDistance) then nearest
      else Position(currentX, currentZ)
  }

  /** The off-road cases in full: snap when the nearest road point is closer than 2,
      stay put otherwise. */
  lemma ValidPositionOffRoad(roads: seq<Road>, currentX: real, currentZ: real, newX: real, newZ: real)
    requires !IsOnRoad(roads, newX, newZ, AcceptTolerance)
    ensures var n := NearestRoadPosition(roads, newX, newZ);
            var p := ValidPosition(roads, currentX, currentZ, newX, newZ);
            (PlaneDist2(newX, newZ, n.x, n.z) < Sq(SnapDistance) ==> p == n)
            && (PlaneDist2(newX, newZ, n.x, n.z) >= Sq(SnapDistance) ==> p == Position(currentX, currentZ))
  {
  }

  /** A car that is on the road stays on the road: whatever the proposal, the
      position `getValidPosition` returns is on the road (tolerance 0.3). */
  lemma ValidPositionKeepsOnRoad(roads: seq<Road>, currentX: real, currentZ: real, newX: real, newZ: real)
    requires AllWellFormed(roads)
    requires IsOnRoad(roads, currentX, currentZ, AcceptTolerance)
    ensures var p := ValidPosition(roads, currentX, currentZ, newX, newZ);
            IsOnRoad(roads, p.x, p.z, AcceptTolerance)
  {
    var p := ValidPosition(roads, currentX, currentZ, newX, newZ);
    if !IsOnRoad(roads, newX, newZ, AcceptTolerance) && p != Position(currentX, currentZ) {
      NearestIsOnRoad(roads, newX, newZ);
      IsOnRoadMonotone(roads, p.x, p.z, 0.0, AcceptTolerance);
    }
  }

  /** Accepting a proposal is idempotent: an on-road point proposed again is kept. */
  lemma ValidPositionIdempotent(roads: seq<Road>, currentX: real, currentZ: real, x: real, z: real, t: real)
    requires t <= AcceptTolerance
    requires IsOnRoad(roads, x, z, t)
    ensures ValidPosition(roads, currentX, currentZ, x, z) == Position(x, z)
  {
    IsOnRoadMonotone(roads, x, z, t, AcceptTolerance);
  }

  lemma RoadsWellFormed()
    ensures AllWellFormed(Roads)
    ensures |Roads| == 14
  {
  }

  /** A car at x = 26.5 on the vertical road at x = 25 (half width 3) is on the road,
      so a proposal there is accepted unchanged. */
  lemma EdgeOfRoadAccepted(currentX: real, currentZ: real)
    ensures IsOnRoad(Roads, 26.5, 0.0, AcceptTolerance)
    ensures ValidPosition(Roads, currentX, currentZ, 26.5, 0.0) == Position(26.5, 0.0)
  {
    assert Contains(Expand(Footprint(Roads[8]), AcceptTolerance), 26.5, 0.0);
  }
}

/** The compass text, the distance bar and the quest locations of the on-screen
    navigator (src/components/QuestNavigatorUI.tsx). The distance itself is a
    square root rounded to an integer; it enters the model as a parameter. */
module QuestNavigator {
  import opened Optional
  import opened Geometry
  import opened Quests
  import Scene

  /** The letter for the north/south component: positive dz is south. */
  function NorthSouth(dz: real): char {
    if dz > 0.0 then 'S' else 'N'
  }

  /** The letter for the east/west component: positive dx is east. */
  function EastWest(dx: real): char {
    if dx > 0.0 then 'E' else 'W'
  }

  /** The compass text for the offset (dx, dz) from the car to the target: the
      dominant axis gives the main letter; the other axis adds its letter only
      beyond 10 units. Ties count as east/west. */
  function CompassDirection(dx: real, dz: real): (d: string)
    ensures d in {"N", "S", "E", "W", "NE", "NW", "SE", "SW"}
    ensures Abs(dz) > Abs(dx) ==>
              d[0] == NorthSouth(dz) && (|d| == 2 <==> Abs(dx) > 10.0) && (|d| == 2 ==> d[1] == EastWest(dx))
    ensures Abs(dz) <= Abs(dx) ==>
              d[|d| - 1] == EastWest(dx) && (|d| == 2 <==> Abs(dz) > 10.0) && (|d| == 2 ==> d[0] == NorthSouth(dz))
  {
    if Abs(dz) > Abs(dx) then
      if Abs(dx) > 10.0 then Pair(NorthSouth(dz), EastWest(dx)) else [NorthSouth(dz)]
    else
      if Abs(dz) > 10.0 then Pair(NorthSouth(dz), EastWest(dx)) else [EastWest(dx)]
  }

  /** The two-letter texts: north/south first, then east/west. */
  function Pair(ns: char, ew: char): (d: string)
    requires ns == 'N' || ns == 'S'
    requires ew == 'E' || ew == 'W'
    ensures d in {"NE", "NW", "SE", "SW"} && d == [ns, ew]
  {
    if ns == 'N' then (if ew == 'E' then "NE" else "NW")
    else (if ew == 'E' then "SE" else "SW")
  }

  function Opposite(c: char): char {
    match c
    case 'N' => 'S'
    case 'S' => 'N'
    case 'E' => 'W'
    case 'W' => 'E'
    case _ => c
  }

  /** Turning round reverses the compass text letter by letter, as long as neither
      component of the offset is zero (a zero component reads as N or W). */
  lemma OppositeDirection(dx: real, dz: real)
    requires dx != 0.0 && dz != 0.0
    ensures var d := CompassDirection(dx, dz);
            var e := CompassDirection(-dx, -dz);
            |d| == |e| && forall i :: 0 <= i < |d| ==> e[i] == Opposite(d[i])
  {
  }

  /** At the target itself the text reads "W". */
  lemma AtTargetReadsWest()
    ensures CompassDirection(0.0, 0.0) == "W"
  {
  }

  /** The width of the distance bar in percent: full at the target, empty from 100
      units away. */
  function ProgressWidth(distance: real): (w: real)
    ensures 0.0 <= w <= 100.0
    ensures 0.0 <= distance <= 100.0 ==> w == 100.0 - distance
  {
    Max(0.0, Min(100.0, 100.0 - (distance / 100.0) * 100.0))
  }

  /** The bar never grows as the distance grows. */
  lemma ProgressMonotone(d1: real, d2: real)
    requires d1 <= d2
    ensures ProgressWidth(d2) <= ProgressWidth(d1)
  {
  }

  /** `QUEST_LOCATIONS`: only quests 1 to 3 have a place on the map. */
  function QuestLocation(id: string): (r: Option<Vec3>)
    ensures r.Some? <==> id == "quest-1" || id == "quest-2" || id == "quest-3"
  {
    if id == "quest-1" then Some(Vec3(50.0, 0.0, 0.0))
    else if id == "quest-2" then Some(Vec3(-50.0, 0.0, 0.0))
    else if id == "quest-3" then Some(Vec3(0.0, 0.0, 50.0))
    else None
  }

  /** The navigator shows only for a current quest that has a location. */
  predicate Shown(qs: seq<Quest>) {
    var q := CurrentQuest(qs);
    q.Some? && QuestLocation(q.value.id).Some?
  }

  /** The navigator points each quest to the place where the scene opens its game. */
  lemma LocationsMatchScene()
    ensures QuestLocation("quest-1") == Some(Scene.DepotPosition)
    ensures QuestLocation("quest-2") == Some(Scene.LockerPosition)
    ensures QuestLocation("quest-3") == Some(Scene.ShopPosition)
    ensures QuestLocation("quest-4").None?
  {
  }

  /** Along the chain the navigator shows for quests 1 to 3 and disappears for the
      final quiz and once everything is done. */
  lemma ShownAlongChain(qs: seq<Quest>, k: nat)
    requires Scene.StandardIds(qs) && ChainAt(qs, k)
    ensures Shown(qs) <==> k < 3
  {
    CurrentOfChain(qs, k);
    if k < 4 {
      assert qs[k].id == Scene.QuestId(k);
    }
  }
}

/** A model of the editor tool that snaps selected scene objects onto terrain.
    A vertical probe through the object's position yields a list of hits; the
    tool keeps the closest terrain hit whose height is within
    MaxVerticalDistance of the object, and moves the object to that height. */
module AlignToTerrain {

  /** How far above and below the object terrain is searched for, and how far
      a terrain hit may lie from the object's height before it is rejected. */
  const MaxVerticalDistance: real := 100.0

  datatype Option<T> = None | Some(value: T)

  datatype Vec3 = Vec3(x: real, y: real, z: real)

  /** One intersection reported by the vertical probe: where it is, whether the
      surface hit is a terrain collider, and its distance from the probe's origin. */
  datatype Hit = Hit(point: Vec3, isTerrain: bool, distance: real)

  /** The scene object whose position the tool updates in place. */
  class Transform {
    var position: Vec3

    constructor (p: Vec3)
      ensures position == p
    {
      position := p;
    }
  }

  /** What the batch command reports once it has processed the selection. */
  datatype Report = NoSelection | Moved(count: nat) | NoTerrainNearby

  function Abs(r: real): (a: real)
    ensures 0.0 <= a && (a == r || a == -r)
  {
    if r < 0.0 then -r else r
  }

  /** A hit may be chosen: it is terrain, and its height is within the
      (inclusive) vertical bound of the object's original height. */
  predicate Qualifies(origin: Vec3, h: Hit)
  {
    h.isTerrain && Abs(h.point.y - origin.y) <= MaxVerticalDistance
  }

  /** Index i is the hit the rule keeps once it has looked at the first n
      hits: it qualifies, no qualifying hit among the first n is closer, and
      every qualifying hit before it is strictly farther, so among equally
      close hits the earliest one wins. */
  predicate IsClosestAmong(origin: Vec3, hits: seq<Hit>, n: int, i: int)
  {
    && 0 <= i < n <= |hits|
    && Qualifies(origin, hits[i])
    && (forall j :: 0 <= j < n && Qualifies(origin, hits[j]) ==> hits[i].distance <= hits[j].distance)
    && (forall j :: 0 <= j < i && Qualifies(origin, hits[j]) ==> hits[i].distance < hits[j].distance)
  }

  /** Index i is the hit the rule must choose from the whole hit list. */
  predicate IsSelected(origin: Vec3, hits: seq<Hit>, i: int)
  {
    IsClosestAmong(origin, hits, |hits|, i)
  }

  /** The index of the hit the sequential pass has kept after the first n hits,
      if any: a hit replaces the best one so far only when it qualifies and is
      strictly closer. */
  function SelectAmong(origin: Vec3, hits: seq<Hit>, n: nat): (r: Option<nat>)
    requires n <= |hits|
    ensures r.None? <==> forall j :: 0 <= j < n ==> !Qualifies(origin, hits[j])
    ensures r.Some? ==> IsClosestAmong(origin, hits, n, r.value)
    decreases n
  {
    if n == 0 then None
    else
      var prev := SelectAmong(origin, hits, n - 1);
      if Qualifies(origin, hits[n - 1]) && (prev.None? || hits[n - 1].distance < hits[prev.value].distance)
      then Some(n - 1)
      else prev
  }

  /** The index of the hit the pass keeps from the whole hit list. */
  function Select(origin: Vec3, hits: seq<Hit>): Option<nat>
  {
    SelectAmong(origin, hits, |hits|)
  }

  /** The position the object is moved to, if the probe found qualifying terrain. */
  function SnapPosition(origin: Vec3, hits: seq<Hit>): (r: Option<Vec3>)
    ensures r.None? <==> forall j :: 0 <= j < |hits| ==> !Qualifies(origin, hits[j])
    ensures r.Some? ==> r.value.x == origin.x && r.value.z == origin.z
  {
    match Select(origin, hits)
    case None => None
    case Some(i) => Some(Vec3(origin.x, hits[i].point.y, origin.z))
  }

  /** Where the object ends up: snapped if terrain qualified, otherwise where it was. */
  function Aligned(origin: Vec3, hits: seq<Hit>): Vec3
  {
    match SnapPosition(origin, hits)
    case None => origin
    case Some(p) => p
  }

  /** The selection rule picks exactly the index that IsSelected describes. */
  lemma SelectCharacterized(origin: Vec3, hits: seq<Hit>, i: int)
    ensures IsSelected(origin, hits, i) <==> Select(origin, hits) == Some(i)
  {
    if IsSelected(origin, hits, i) {
      assert Select(origin, hits).Some?;
    }
  }

  /** The object is moved to the height of the hit IsSelected describes, and
      only its height changes. */
  lemma SnapsToSelectedHeight(origin: Vec3, hits: seq<Hit>, i: int)
    requires IsSelected(origin, hits, i)
    ensures SnapPosition(origin, hits) == Some(Vec3(origin.x, hits[i].point.y, origin.z))
  {
    SelectCharacterized(origin, hits, i);
  }

  /** A hit that does not qualify (not terrain, or too far vertically) never
      influences the result, wherever it sits in the list and however close it is. */
  lemma {:induction false} NonQualifyingIgnored(origin: Vec3, a: seq<Hit>, h: Hit, b: seq<Hit>)
    requires !Qualifies(origin, h)
    ensures SnapPosition(origin, a + [h] + b) == SnapPosition(origin, a + b)
  {
    var s, t := a + [h] + b, a + b;
    assert forall k :: 0 <= k < |t| ==> t[k] == s[if k < |a| then k else k + 1];
    match Select(origin, s)
    case None =>
      forall k | 0 <= k < |t|
        ensures !Qualifies(origin, t[k])
      {
        assert t[k] == s[if k < |a| then k else k + 1];
      }
    case Some(i) =>
      assert i != |a|;
      var k := if i < |a| then i else i - 1;
      assert t[k] == s[i];
      forall j | 0 <= j < |t| && Qualifies(origin, t[j])
        ensures t[k].distance <= t[j].distance
        ensures j < k ==> t[k].distance < t[j].distance
      {
        var sj := if j < |a| then j else j + 1;
        assert t[j] == s[sj] && Qualifies(origin, s[sj]);
      }
      assert IsSelected(origin, t, k);
      SelectCharacterized(origin, t, k);
  }

  /** The vertical bound is inclusive at both ends: a lone terrain hit is used
      exactly when its height differs from the object's by at most the bound. */
  lemma BoundIsInclusive(origin: Vec3, h: Hit)
    requires h.isTerrain
    ensures SnapPosition(origin, [h]).Some?
        <==> -MaxVerticalDistance <= h.point.y - origin.y <= MaxVerticalDistance
  {
    assert [h][0] == h;
  }

  /** On a tie in distance, a later hit never displaces an earlier qualifying one. */
  lemma TiesGoToEarliest(origin: Vec3, hits: seq<Hit>, i: nat, j: nat)
    requires i < j < |hits|
    requires Qualifies(origin, hits[i]) && Qualifies(origin, hits[j])
    requires hits[i].distance == hits[j].distance
    ensures Select(origin, hits) != Some(j)
  {
  }

  /** A closer non-terrain hit is passed over in favour of the terrain hit below it. */
  lemma CloserNonTerrainHitPassedOver()
    ensures SnapPosition(Vec3(0.0, 50.0, 0.0),
                         [Hit(Vec3(0.0, 49.0, 0.0), false, 1.0), Hit(Vec3(0.0, 10.0, 0.0), true, 40.0)])
         == Some(Vec3(0.0, 10.0, 0.0))
  {
    var o := Vec3(0.0, 50.0, 0.0);
    var hits := [Hit(Vec3(0.0, 49.0, 0.0), false, 1.0), Hit(Vec3(0.0, 10.0, 0.0), true, 40.0)];
    assert IsSelected(o, hits, 1);
    SelectCharacterized(o, hits, 1);
  }

  /** A hit as the tool's own probe reports it: the ray starts
      MaxVerticalDistance above the object, points straight down and is
      2 * MaxVerticalDistance long, so the distance is fixed by the height. */
  predicate FromDownwardProbe(origin: Vec3, h: Hit)
  {
    && 0.0 <= h.distance <= 2.0 * MaxVerticalDistance
    && h.distance == origin.y + MaxVerticalDistance - h.point.y
  }

  /** Every terrain hit of the tool's own probe passes the vertical filter. */
  lemma ProbeTerrainHitsQualify(origin: Vec3, h: Hit)
    requires FromDownwardProbe(origin, h) && h.isTerrain
    ensures Qualifies(origin, h)
  {
  }

  /** With the tool's own probe, the hit kept is the highest terrain hit, not
      the one nearest the object's height. */
  lemma KeepsHighestTerrainHit(origin: Vec3, hits: seq<Hit>, i: nat)
    requires forall j :: 0 <= j < |hits| ==> FromDownwardProbe(origin, hits[j])
    requires Select(origin, hits) == Some(i)
    ensures i < |hits| && hits[i].isTerrain
    ensures forall j :: 0 <= j < |hits| && hits[j].isTerrain ==> hits[j].point.y <= hits[i].point.y
  {
    forall j | 0 <= j < |hits| && hits[j].isTerrain
      ensures hits[j].point.y <= hits[i].point.y
    {
      ProbeTerrainHitsQualify(origin, hits[j]);
    }
  }

  /** Object at height 0 with terrain 90 above and 5 below: the tool snaps up
      to 90, although the terrain below is nearer the object. */
  lemma HigherTerrainWinsOverNearerTerrain()
    ensures SnapPosition(Vec3(0.0, 0.0, 0.0),
                         [Hit(Vec3(0.0, 90.0, 0.0), true, 10.0), Hit(Vec3(0.0, -5.0, 0.0), true, 105.0)])
         == Some(Vec3(0.0, 90.0, 0.0))
  {
    var o := Vec3(0.0, 0.0, 0.0);
    var hits := [Hit(Vec3(0.0, 90.0, 0.0), true, 10.0), Hit(Vec3(0.0, -5.0, 0.0), true, 105.0)];
    assert IsSelected(o, hits, 0);
    SelectCharacterized(o, hits, 0);
  }

  /** Number of objects among the first n that move, object i being at ps[i]
      with probe hits probes[i]. */
  function CountMoved(ps: seq<Vec3>, probes: seq<seq<Hit>>, n: nat): (c: nat)
    requires n <= |ps| == |probes|
    ensures c <= n
    decreases n
  {
    if n == 0 then 0
    else CountMoved(ps, probes, n - 1) + (if SnapPosition(ps[n - 1], probes[n - 1]).Some? then 1 else 0)
  }

  /** The batch reports that nothing moved exactly when no object's probe
      found qualifying terrain. */
  lemma {:induction false} NothingMovedIff(ps: seq<Vec3>, probes: seq<seq<Hit>>, n: nat)
    requires n <= |ps| == |probes|
    ensures CountMoved(ps, probes, n) == 0 <==> forall i :: 0 <= i < n ==> SnapPosition(ps[i], probes[i]).None?
    decreases n
  {
    if n > 0 {
      NothingMovedIff(ps, probes, n - 1);
    }
  }

  /** The current positions of a list of objects. */
  function Positions(ts: seq<Transform>): (ps: seq<Vec3>)
    reads ts
    ensures |ps| == |ts|
    ensures forall i :: 0 <= i < |ts| ==> ps[i] == ts[i].position
  {
    seq(|ts|, i requires 0 <= i < |ts| reads ts => ts[i].position)
  }

  /** Snaps one object, given the hits of the vertical probe cast from its
      position: keeps the closest qualifying terrain hit in a single pass and
      moves the object to that hit's height. */
  method AlignTransformToTerrain(t: Transform, hits: seq<Hit>) returns (moved: bool)
    modifies t
    ensures moved <==> SnapPosition(old(t.position), hits).Some?
    ensures t.position == Aligned(old(t.position), hits)
  {
    var originalPos := t.position;
    if |hits| == 0 {
      return false;
    }

    var foundTerrain := false;
    var closestDistance: real := 0.0;  // meaningful only once foundTerrain holds
    var bestPoint := originalPos;

    for i := 0 to |hits|
      invariant foundTerrain <==> SelectAmong(originalPos, hits, i).Some?
      invariant foundTerrain ==>
        var k := SelectAmong(originalPos, hits, i).value;
        closestDistance == hits[k].distance && bestPoint == Vec3(originalPos.x, hits[k].point.y, originalPos.z)
      invariant !foundTerrain ==> bestPoint == originalPos
    {
      var hit := hits[i];
      if !hit.isTerrain {
        continue;
      }
      var verticalDelta := Abs(hit.point.y - originalPos.y);
      if verticalDelta > MaxVerticalDistance {
        continue;
      }
      if !foundTerrain || hit.distance < closestDistance {
        closestDistance := hit.distance;
        bestPoint := Vec3(originalPos.x, hit.point.y, originalPos.z);
        foundTerrain := true;
      }
    }

    if !foundTerrain {
      return false;
    }
    t.position := bestPoint;
    return true;
  }

  /** Snaps every selected object in turn and reports how many of them moved;
      probes[i] holds the hits of the probe cast from targets[i]. */
  method AlignSelectedToTerrain(targets: seq<Transform>, probes: seq<seq<Hit>>) returns (report: Report)
    requires |probes| == |targets|
    requires forall i, j :: 0 <= i < j < |targets| ==> targets[i] != targets[j]
    modifies targets
    ensures forall i :: 0 <= i < |targets| ==> targets[i].position == Aligned(old(targets[i].position), probes[i])
    ensures |targets| == 0 ==> report == NoSelection
    ensures |targets| > 0 ==>
      var n := CountMoved(old(Positions(targets)), probes, |targets|);
      report == if n > 0 then Moved(n) else NoTerrainNearby
  {
    if |targets| == 0 {
      return NoSelection;
    }
    ghost var before := Positions(targets);
    assert forall j :: 0 <= j < |targets| ==> before[j] == old(targets[j].position);
    var movedCount := 0;
    for i := 0 to |targets|
      invariant forall j :: 0 <= j < i ==> targets[j].position == Aligned(before[j], probes[j])
      invariant forall j :: i <= j < |targets| ==> targets[j].position == before[j]
      invariant movedCount == CountMoved(before, probes, i)
    {
      var t := targets[i];
      var moved := AlignTransformToTerrain(t, probes[i]);
      assert forall j :: 0 <= j < |targets| && j != i ==> targets[j] != t;
      if moved {
        movedCount := movedCount + 1;
      }
    }
    report := if movedCount > 0 then Moved(movedCount) else NoTerrainNearby;
  }
}

/** The data operations of the drought-warning backend: scoring a reading,
    selecting stressed readings, and dispatching the nearest tanker. */
module Crud {
  import opened Records
  import opened Rounding
  import opened Sorting

  /** Threshold `get_stressed_villages` uses when the caller gives none. */
  const DefaultStressThreshold: real := 7.0

  /** Search radius `dispatch_tanker` uses when the caller gives none. */
  const DefaultRadiusKm: real := 500.0

  // ---------------------------------------------------------------------
  // Stress scorer

  /** Python's `max(0, v)`. */
  function ClampAtZero(v: real): (r: real)
    ensures r >= 0.0 && r >= v
    ensures r == v || r == 0.0
  {
    if v > 0.0 then v else 0.0
  }

  /** The 0–10 drought-stress index of a reading: a rainfall deficit adds
      0.05 per millimetre, groundwater depth adds 0.1 per metre, the sum is
      rounded to two decimals and saturates at 10. */
  function StressIndex(rainfallDeviationMm: real, groundwaterLevelM: real): (r: real)
    ensures 0.0 <= r <= 10.0
  {
    var rainStress := ClampAtZero(-rainfallDeviationMm * 0.05);
    var groundwaterStress := ClampAtZero(groundwaterLevelM * 0.1);
    var total := rainStress + groundwaterStress;
    RoundToNonNegative(total, 100.0);
    if 10.0 < RoundTo(total, 100.0) then 10.0 else RoundTo(total, 100.0)
  }

  /** Surplus rain (a non-negative deviation) adds no stress at all. */
  lemma StressIndexSurplusIgnored(rainfallDeviationMm: real, groundwaterLevelM: real)
    requires rainfallDeviationMm >= 0.0
    ensures StressIndex(rainfallDeviationMm, groundwaterLevelM) == StressIndex(0.0, groundwaterLevelM)
  {
  }

  /** A deeper rainfall deficit never lowers the index. */
  lemma StressIndexMonotoneInDeficit(deviation1: real, deviation2: real, groundwaterLevelM: real)
    requires deviation2 <= deviation1
    ensures StressIndex(deviation1, groundwaterLevelM) <= StressIndex(deviation2, groundwaterLevelM)
  {
    var g := ClampAtZero(groundwaterLevelM * 0.1);
    RoundToMonotone(ClampAtZero(-deviation1 * 0.05) + g, ClampAtZero(-deviation2 * 0.05) + g, 100.0);
  }

  /** A deeper water table never lowers the index. */
  lemma StressIndexMonotoneInDepth(rainfallDeviationMm: real, level1: real, level2: real)
    requires level1 <= level2
    ensures StressIndex(rainfallDeviationMm, level1) <= StressIndex(rainfallDeviationMm, level2)
  {
    var rain := ClampAtZero(-rainfallDeviationMm * 0.05);
    RoundToMonotone(rain + ClampAtZero(level1 * 0.1), rain + ClampAtZero(level2 * 0.1), 100.0);
  }

  /** Two worked readings: a heavy deficit over a deep table, and a surplus
      over a shallow one. */
  lemma StressIndexExamples()
    ensures StressIndex(-80.0, 55.0) == 9.5
    ensures StressIndex(10.0, 5.0) == 0.5
  {
  }

  // ---------------------------------------------------------------------
  // Stressed-reading selector

  /** One row of the village/reading join. */
  datatype StressedRow = StressedRow(village: Village, reading: WaterData)

  /** The sort key of the selector: the reading's stress index. */
  function StressKey(row: StressedRow): real
  {
    row.reading.stressIndex
  }

  /** The join of readings with their village, restricted to readings at or
      above `threshold`, in reading-table order. */
  function Qualifying(villages: seq<Village>, readings: seq<WaterData>, threshold: real): (r: seq<StressedRow>)
    ensures |r| <= |readings|
  {
    if |readings| == 0 then []
    else
      var w := readings[0];
      var rest := Qualifying(villages, readings[1..], threshold);
      match FindVillage(villages, w.villageId)
      case Some(v) => if w.stressIndex >= threshold then [StressedRow(v, w)] + rest else rest
      case None => rest
  }

  /** Every reading at or above the threshold, joined with its village and
      ordered by stress index, highest first. */
  function StressedVillages(villages: seq<Village>, readings: seq<WaterData>, threshold: real := DefaultStressThreshold): (r: seq<StressedRow>)
    ensures |r| == |Qualifying(villages, readings, threshold)|
  {
    SortDesc(Qualifying(villages, readings, threshold), StressKey)
  }

  /** A row belongs to the join exactly when its reading is stored, reaches
      the threshold and refers to that village. */
  lemma {:induction false} QualifyingMembership(villages: seq<Village>, readings: seq<WaterData>, threshold: real, row: StressedRow)
    ensures row in Qualifying(villages, readings, threshold)
        <==> row.reading in readings && row.reading.stressIndex >= threshold
             && FindVillage(villages, row.reading.villageId) == Some(row.village)
  {
    if |readings| > 0 {
      QualifyingMembership(villages, readings[1..], threshold, row);
      assert readings == [readings[0]] + readings[1..];
    }
  }

  /** The join holds one row per qualifying reading: a row occurs as often
      as its reading occurs in the table if it qualifies, and never otherwise. */
  lemma {:induction false} QualifyingCount(villages: seq<Village>, readings: seq<WaterData>, threshold: real, row: StressedRow)
    ensures multiset(Qualifying(villages, readings, threshold))[row]
         == if row.reading.stressIndex >= threshold && FindVillage(villages, row.reading.villageId) == Some(row.village)
            then multiset(readings)[row.reading] else 0
  {
    if |readings| > 0 {
      QualifyingCount(villages, readings[1..], threshold, row);
      assert readings == [readings[0]] + readings[1..];
    }
  }

  /** The selector returns each qualifying reading exactly as often as it is
      stored, paired with its village. */
  lemma StressedVillagesCount(villages: seq<Village>, readings: seq<WaterData>, threshold: real, row: StressedRow)
    ensures multiset(StressedVillages(villages, readings, threshold))[row]
         == if row.reading.stressIndex >= threshold && FindVillage(villages, row.reading.villageId) == Some(row.village)
            then multiset(readings)[row.reading] else 0
  {
    StressedVillagesOrdered(villages, readings, threshold);
    QualifyingCount(villages, readings, threshold, row);
  }

  /** The selector's rows are ordered by stress index, highest first, and
      are exactly the rows of the join (a permutation of them). */
  lemma StressedVillagesOrdered(villages: seq<Village>, readings: seq<WaterData>, threshold: real)
    ensures SortedDesc(StressedVillages(villages, readings, threshold), StressKey)
    ensures multiset(StressedVillages(villages, readings, threshold)) == multiset(Qualifying(villages, readings, threshold))
  {
    SortDescSorted(Qualifying(villages, readings, threshold), StressKey);
  }

  /** Every returned row reaches the threshold and pairs a stored reading
      with its own village; every stored reading that reaches the threshold
      and has a village is returned, not only the latest per village. */
  lemma StressedVillagesMembership(villages: seq<Village>, readings: seq<WaterData>, threshold: real, row: StressedRow)
    ensures row in StressedVillages(villages, readings, threshold)
        <==> row.reading in readings && row.reading.stressIndex >= threshold
             && FindVillage(villages, row.reading.villageId) == Some(row.village)
  {
    StressedVillagesOrdered(villages, readings, threshold);
    var q := Qualifying(villages, readings, threshold);
    assert row in StressedVillages(villages, readings, threshold) <==> row in multiset(q);
    QualifyingMembership(villages, readings, threshold, row);
  }

  // ---------------------------------------------------------------------
  // Dispatch matcher

  /** Great-circle distance in km from (lat1, lon1) to (lat2, lon2). */
  type Distance = (real, real, real, real) -> real

  /** The tanker has reported both coordinates. */
  predicate Positioned(t: Tanker)
  {
    t.currentLatitude.Some? && t.currentLongitude.Some?
  }

  /** Distance from the village to a positioned tanker. */
  function DistanceTo(t: Tanker, v: Village, dist: Distance): real
    requires Positioned(t)
  {
    dist(v.latitude, v.longitude, t.currentLatitude.value, t.currentLongitude.value)
  }

  /** The tanker may be sent to `v`: available, positioned, within the radius. */
  predicate InRange(t: Tanker, v: Village, radiusKm: real, dist: Distance)
  {
    t.isAvailable && Positioned(t) && DistanceTo(t, v, dist) <= radiusKm
  }

  /** Index of the tanker a front-to-back scan of `ts` keeps: an in-range
      tanker replaces the one kept so far only when strictly closer. */
  function Nearest(ts: seq<Tanker>, v: Village, radiusKm: real, dist: Distance): (r: Option<nat>)
    ensures r.Some? ==> r.value < |ts| && InRange(ts[r.value], v, radiusKm, dist)
  {
    if |ts| == 0 then None
    else
      var best := Nearest(ts[..|ts| - 1], v, radiusKm, dist);
      var k := |ts| - 1;
      if InRange(ts[k], v, radiusKm, dist)
         && (best.None? || DistanceTo(ts[k], v, dist) < DistanceTo(ts[best.value], v, dist))
      then Some(k)
      else best
  }

  /** `k` is the in-range tanker closest to `v`, and the first in scan order
      among those at that distance. */
  ghost predicate IsNearest(ts: seq<Tanker>, k: int, v: Village, radiusKm: real, dist: Distance)
  {
    0 <= k < |ts| && InRange(ts[k], v, radiusKm, dist)
    && (forall j :: 0 <= j < |ts| && InRange(ts[j], v, radiusKm, dist) ==>
          DistanceTo(ts[k], v, dist) <= DistanceTo(ts[j], v, dist))
    && (forall j :: 0 <= j < k && InRange(ts[j], v, radiusKm, dist) ==>
          DistanceTo(ts[k], v, dist) < DistanceTo(ts[j], v, dist))
  }

  /** The scan picks the nearest in-range tanker, the earliest on a tie. */
  lemma {:induction false} NearestIsNearest(ts: seq<Tanker>, v: Village, radiusKm: real, dist: Distance)
    ensures Nearest(ts, v, radiusKm, dist).Some? ==> IsNearest(ts, Nearest(ts, v, radiusKm, dist).value, v, radiusKm, dist)
  {
    if |ts| > 0 {
      var n := |ts| - 1;
      var init := ts[..n];
      NearestIsNearest(init, v, radiusKm, dist);
      NearestNone(init, v, radiusKm, dist);
      var best := Nearest(init, v, radiusKm, dist);
      assert forall j :: 0 <= j < n ==> init[j] == ts[j];
      if InRange(ts[n], v, radiusKm, dist)
         && (best.None? || DistanceTo(ts[n], v, dist) < DistanceTo(ts[best.value], v, dist)) {
        assert Nearest(ts, v, radiusKm, dist) == Some(n);
        assert IsNearest(ts, n, v, radiusKm, dist);
      } else if best.Some? {
        assert Nearest(ts, v, radiusKm, dist) == best;
        assert IsNearest(ts, best.value, v, radiusKm, dist);
      }
    }
  }

  /** The scan finds nothing exactly when no tanker is in range. */
  lemma {:induction false} NearestNone(ts: seq<Tanker>, v: Village, radiusKm: real, dist: Distance)
    ensures Nearest(ts, v, radiusKm, dist).None? <==> forall j :: 0 <= j < |ts| ==> !InRange(ts[j], v, radiusKm, dist)
  {
    if |ts| > 0 {
      var init := ts[..|ts| - 1];
      NearestNone(init, v, radiusKm, dist);
      assert forall j :: 0 <= j < |init| ==> init[j] == ts[j];
    }
  }

  /** At most one tanker is the nearest one: the choice is deterministic. */
  lemma IsNearestUnique(ts: seq<Tanker>, k1: int, k2: int, v: Village, radiusKm: real, dist: Distance)
    requires IsNearest(ts, k1, v, radiusKm, dist) && IsNearest(ts, k2, v, radiusKm, dist)
    ensures k1 == k2
  {
  }

  /** `ts` with the tanker at `k` marked unavailable. */
  function MarkDispatched(ts: seq<Tanker>, k: nat): (r: seq<Tanker>)
    requires k < |ts|
    ensures |r| == |ts| && !r[k].isAvailable
    ensures r[k].(isAvailable := ts[k].isAvailable) == ts[k]
    ensures forall j :: 0 <= j < |ts| && j != k ==> r[j] == ts[j]
  {
    ts[k := ts[k].(isAvailable := false)]
  }

  /** Number of available tankers. */
  function AvailableCount(ts: seq<Tanker>): (n: nat)
    ensures n <= |ts|
  {
    if |ts| == 0 then 0
    else AvailableCount(ts[..|ts| - 1]) + (if ts[|ts| - 1].isAvailable then 1 else 0)
  }

  /** Dispatching an available tanker removes exactly one from the pool. */
  lemma {:induction false} MarkDispatchedCount(ts: seq<Tanker>, k: nat)
    requires k < |ts| && ts[k].isAvailable
    ensures AvailableCount(MarkDispatched(ts, k)) == AvailableCount(ts) - 1
  {
    var r := MarkDispatched(ts, k);
    var n := |ts| - 1;
    if k == n {
      assert r[..n] == ts[..n];
    } else {
      MarkDispatchedCount(ts[..n], k);
      assert r[..n] == MarkDispatched(ts[..n], k);
    }
  }

  /** A tanker just dispatched cannot be chosen again by a later request
      before it is released. */
  lemma NoRedispatch(ts: seq<Tanker>, k: nat, v: Village, w: Village, radiusKm: real, radius2: real, dist: Distance)
    requires Nearest(ts, v, radiusKm, dist) == Some(k)
    ensures Nearest(MarkDispatched(ts, k), w, radius2, dist) != Some(k)
  {
  }

  /** Result of a dispatch request. */
  datatype DispatchOutcome =
    | VillageNotFound
    | NoTankerInRange(radiusKm: real, villageName: string)
    | Dispatched(tankerLicense: string, distanceKm: real)

  /** The store's three tables, held in memory. */
  class Database {
    var villages: seq<Village>
    var readings: seq<WaterData>
    var tankers: seq<Tanker>

    /** Every stored stress index lies in [0, 10]. */
    ghost predicate Valid()
      reads this
    {
      forall w :: w in readings ==> 0.0 <= w.stressIndex <= 10.0
    }

    constructor (villages: seq<Village>, tankers: seq<Tanker>)
      ensures Valid()
      ensures this.villages == villages && this.tankers == tankers && readings == []
    {
      this.villages := villages;
      this.tankers := tankers;
      readings := [];
    }

    /** Stores a new reading with its stress index derived from its own
        rainfall deviation and groundwater level. */
    method AddWaterData(villageId: int, rainfallDeviationMm: real, groundwaterLevelM: real, now: int)
      returns (stored: WaterData)
      requires Valid()
      modifies this`readings
      ensures Valid()
      ensures readings == old(readings) + [stored]
      ensures stored.villageId == villageId && stored.recordDate == now
      ensures stored.rainfallDeviationMm == rainfallDeviationMm
      ensures stored.groundwaterLevelM == groundwaterLevelM
      ensures stored.stressIndex == StressIndex(rainfallDeviationMm, groundwaterLevelM)
      ensures stored.predictedStressIndex == None
    {
      var stress := StressIndex(rainfallDeviationMm, groundwaterLevelM);
      stored := WaterData(villageId, now, rainfallDeviationMm, groundwaterLevelM, stress, None);
      readings := readings + [stored];
    }

    /** Sends the nearest available, positioned tanker within `radiusKm` of
        the village and marks it unavailable; on failure nothing changes. */
    method DispatchTanker(villageId: int, dist: Distance, radiusKm: real := DefaultRadiusKm) returns (outcome: DispatchOutcome)
      modifies this`tankers
      ensures FindVillage(villages, villageId).None? ==>
                outcome == VillageNotFound && tankers == old(tankers)
      ensures FindVillage(villages, villageId).Some? ==>
                var v := FindVillage(villages, villageId).value;
                var choice := Nearest(old(tankers), v, radiusKm, dist);
                if choice.None? then
                  outcome == NoTankerInRange(radiusKm, v.name) && tankers == old(tankers)
                else
                  var t := old(tankers)[choice.value];
                  && outcome == Dispatched(t.licensePlate, RoundTo(DistanceTo(t, v, dist), 10.0))
                  && tankers == MarkDispatched(old(tankers), choice.value)
    {
      var found := FindVillage(villages, villageId);
      if found.None? {
        return VillageNotFound;
      }
      var village := found.value;
      // `nearest == None` plays the part of an infinite nearest distance.
      var nearest: Option<nat> := None;
      var nearestDistance := 0.0;
      var i := 0;
      while i < |tankers|
        invariant 0 <= i <= |tankers|
        invariant nearest == Nearest(tankers[..i], village, radiusKm, dist)
        invariant nearest.Some? ==> nearestDistance == DistanceTo(tankers[nearest.value], village, dist)
      {
        var t := tankers[i];
        assert tankers[..i + 1][..i] == tankers[..i];
        if t.isAvailable && t.currentLatitude.Some? && t.currentLongitude.Some? {
          var d := dist(village.latitude, village.longitude, t.currentLatitude.value, t.currentLongitude.value);
          if (nearest.None? || d < nearestDistance) && d <= radiusKm {
            nearestDistance := d;
            nearest := Some(i);
          }
        }
        i := i + 1;
      }
      assert tankers[..|tankers|] == tankers;
      if nearest.Some? {
        var k := nearest.value;
        outcome := Dispatched(tankers[k].licensePlate, RoundTo(nearestDistance, 10.0));
        tankers := MarkDispatched(tankers, k);
      } else {
        outcome := NoTankerInRange(radiusKm, village.name);
      }
    }
  }
}

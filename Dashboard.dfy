/** The crisis dashboard: every stressed reading becomes a record with a
    population-weighted triage priority, and the records are ranked by that
    priority, highest first. */
module Dashboard {
  import opened Records
  import opened Rounding
  import opened Sorting
  import opened Crud

  /** Threshold the dashboard uses when the caller gives none. */
  const DefaultDashboardThreshold: real := 6.0

  /** Population scale factor: 1 plus one per hundred thousand people. */
  function PopulationFactor(population: int): real
  {
    1.0 + population as real / 100000.0
  }

  /** Triage priority of a reading: its stress index scaled by the
      population factor, rounded to two decimals, capped at 100. */
  function Priority(stressIndex: real, population: int): (r: real)
    ensures r <= 100.0
  {
    var scaled := RoundTo(stressIndex * PopulationFactor(population), 100.0);
    if 100.0 < scaled then 100.0 else scaled
  }

  /** With the stress fixed and non-negative, a larger population never
      lowers the priority. */
  lemma PriorityMonotoneInPopulation(stressIndex: real, population1: int, population2: int)
    requires stressIndex >= 0.0 && population1 <= population2
    ensures Priority(stressIndex, population1) <= Priority(stressIndex, population2)
  {
    DivideMonotone(population1 as real, population2 as real, 100000.0);
    ScaleMonotone(PopulationFactor(population1), PopulationFactor(population2), stressIndex);
    RoundToMonotone(stressIndex * PopulationFactor(population1), stressIndex * PopulationFactor(population2), 100.0);
  }

  /** A non-negative stress index of a populated village gets a
      non-negative priority. */
  lemma PriorityNonNegative(stressIndex: real, population: int)
    requires stressIndex >= 0.0 && population >= 0
    ensures Priority(stressIndex, population) >= 0.0
  {
    ScaleMonotone(0.0, PopulationFactor(population), stressIndex);
    RoundToNonNegative(stressIndex * PopulationFactor(population), 100.0);
  }

  /** One dashboard record. */
  datatype DashboardEntry = DashboardEntry(
    villageId: int,
    villageName: string,
    district: string,
    population: int,
    latitude: real,
    longitude: real,
    stressIndex: real,
    predictedStressIndex: Option<real>,
    priorityScore: real,
    lastRecorded: int)

  /** The record built from one village/reading row. */
  function EntryOf(row: StressedRow): (e: DashboardEntry)
    ensures e.villageId == row.village.id && e.population == row.village.population
    ensures e.stressIndex == row.reading.stressIndex
    ensures e.priorityScore == Priority(row.reading.stressIndex, row.village.population)
    ensures e.priorityScore <= 100.0
  {
    var v, w := row.village, row.reading;
    DashboardEntry(v.id, v.name, v.district, v.population, v.latitude, v.longitude,
                   w.stressIndex, w.predictedStressIndex,
                   Priority(w.stressIndex, v.population), w.recordDate)
  }

  /** One record per row, in row order. */
  function Entries(rows: seq<StressedRow>): (r: seq<DashboardEntry>)
    ensures |r| == |rows|
  {
    seq(|rows|, i requires 0 <= i < |rows| => EntryOf(rows[i]))
  }

  /** The ranking key: the triage priority. */
  function PriorityKey(e: DashboardEntry): real
  {
    e.priorityScore
  }

  /** The stress index a record carries. */
  function EntryStress(e: DashboardEntry): real
  {
    e.stressIndex
  }

  /** The dashboard for `threshold`: one record per stressed row, ranked by
      priority, highest first; records of equal priority stay in the
      stress-descending order the selector produced. */
  method CrisisDashboard(villages: seq<Village>, readings: seq<WaterData>, threshold: real := DefaultDashboardThreshold)
    returns (dashboard: seq<DashboardEntry>)
    ensures dashboard == SortDesc(Entries(StressedVillages(villages, readings, threshold)), PriorityKey)
    ensures |dashboard| == |StressedVillages(villages, readings, threshold)|
    ensures multiset(dashboard) == multiset(Entries(StressedVillages(villages, readings, threshold)))
    ensures SortedDesc(dashboard, PriorityKey)
    ensures TiesOrderedBy(dashboard, PriorityKey, EntryStress)
    ensures forall e :: e in dashboard ==> e.priorityScore <= 100.0 && e.stressIndex >= threshold
  {
    var results := StressedVillages(villages, readings, threshold);
    var dashboardData: seq<DashboardEntry> := [];
    var i := 0;
    while i < |results|
      invariant 0 <= i <= |results|
      invariant |dashboardData| == i
      invariant forall j :: 0 <= j < i ==> dashboardData[j] == EntryOf(results[j])
    {
      var v, w := results[i].village, results[i].reading;
      var triageScore := Priority(w.stressIndex, v.population);
      dashboardData := dashboardData + [DashboardEntry(
        v.id, v.name, v.district, v.population, v.latitude, v.longitude,
        w.stressIndex, w.predictedStressIndex, triageScore, w.recordDate)];
      i := i + 1;
    }
    assert dashboardData == Entries(results);
    var a := new DashboardEntry[|dashboardData|](j requires 0 <= j < |dashboardData| => dashboardData[j]);
    assert a[..] == dashboardData;
    SortDescInPlace(a, PriorityKey);
    dashboard := a[..];
    RankingProperties(villages, readings, threshold);
  }

  /** The ranked records are sorted by priority, are exactly the built
      records, keep ties in stress order, and each stems from a stressed row. */
  lemma RankingProperties(villages: seq<Village>, readings: seq<WaterData>, threshold: real)
    ensures var entries := Entries(StressedVillages(villages, readings, threshold));
            var ranked := SortDesc(entries, PriorityKey);
            && SortedDesc(ranked, PriorityKey)
            && multiset(ranked) == multiset(entries)
            && TiesOrderedBy(ranked, PriorityKey, EntryStress)
            && forall e :: e in ranked ==> e.priorityScore <= 100.0 && e.stressIndex >= threshold
  {
    var results := StressedVillages(villages, readings, threshold);
    var entries := Entries(results);
    var ranked := SortDesc(entries, PriorityKey);
    SortDescSorted(entries, PriorityKey);
    StressedVillagesOrdered(villages, readings, threshold);
    assert SortedDesc(entries, EntryStress) by {
      forall i, j | 0 <= i < j < |entries|
        ensures EntryStress(entries[i]) >= EntryStress(entries[j])
      {
        assert StressKey(results[i]) >= StressKey(results[j]);
      }
    }
    SortDescTiesOrdered(entries, PriorityKey, EntryStress);
    forall e | e in ranked
      ensures e.priorityScore <= 100.0 && e.stressIndex >= threshold
    {
      assert e in multiset(entries);
      var i :| 0 <= i < |entries| && entries[i] == e;
      StressedVillagesMembership(villages, readings, threshold, results[i]);
    }
  }
}

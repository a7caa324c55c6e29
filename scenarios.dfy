/** Worked examples of the KPI engine on small tables. */
module Scenarios {
  import opened Values
  import opened NanStats
  import opened Tables
  import opened Shelves
  import opened Latest
  import opened Kpis

  const ItemA := Placement("A", Some("L1"), Some(5.0), None, None, None)
  const ItemB := Placement("B", Some(Unplaced), None, None, None, None)
  const ShelfL1 := LayoutRow("L1", Some(3.0), Some(4.0), Some(5.0), Some(10.0), None)
  const OneShelf := Layout(true, true, [ShelfL1])
  const JoinedA := Joined(ItemA, Some(5.0), Some(10.0), None)
  const JoinedB := Joined(ItemB, None, None, None)

  lemma OneShelfJoin()
    ensures Join([ItemA, ItemB], OneShelf) == [JoinedA, JoinedB]
    ensures Placed([JoinedA, JoinedB]) == [JoinedA]
  {
    assert Matches(ItemA.location, OneShelf.rows) == [ShelfL1];
    assert Matches(ItemB.location, OneShelf.rows) == [];
    assert JoinOne(ItemA, OneShelf) == [JoinedA];
    assert Join([ItemB], OneShelf) == [JoinedB];
  }

  lemma OneShelfUtilization()
    ensures AvgCubeUtilization([JoinedA]) == Some(0.5)
    ensures FragmentationRate([JoinedA]) == Some(0.0)
    ensures TotalAllocatedVolume([JoinedA]) == 5.0
  {
    assert AllocRows([JoinedA]) == [JoinedA];
    assert GroupKeys([JoinedA]) == ["L1"];
    assert GroupVolume([JoinedA], "L1") == 5.0;
    assert GroupMaxSize([JoinedA], "L1") == Some(10.0);
    assert Utilizations([JoinedA], ["L1"]) == [Some(0.5)];
    assert CountFragmented([Some(0.5)]) == 0;
    assert [JoinedA][1..] == [];
    TotalVolumeCons([JoinedA]);
    assert TotalVolume([JoinedA]) == 5.0;
  }

  lemma OneShelfRatios()
    ensures AvgDistance([JoinedA]) == Some(5.0)
    ensures UnplacedRate([JoinedA, JoinedB]) == Some(0.5)
    ensures CapacityColsRatio([ItemA, ItemB]) == Some(0.5)
    ensures TotalCapacity(OneShelf) == 10.0
    ensures FreeEffectiveCapacityRatio([ItemA, ItemB], 10.0) == None
  {
    assert Distances([JoinedA]) == [Some(5.0)];
    assert [Some(5.0)][1..] == [];
    assert SumDefined([Some(5.0)]) == 5.0 && CountDefined([Some(5.0)]) == 1;
    assert MaxSizes(OneShelf) == [Some(10.0)];
    assert [Some(10.0)][1..] == [];
    assert SumDefined([Some(10.0)]) == 10.0;
    assert CountUnplaced([JoinedA, JoinedB]) == 1;
    assert CountAllocated([ItemA, ItemB]) == 1;
    assert !IsLatest([ItemA, ItemB], 0) && !IsLatest([ItemA, ItemB], 1);
  }

  /**
   * One item on shelf L1 (capacity 10 at (3, 4)), one unplaced item:
   * distance 5, half the rows unplaced, the shelf half full and not fragmented.
   */
  lemma OneShelfOneUnplaced()
    ensures ComputeKpis([ItemA, ItemB], OneShelf, None, "t") ==
      Ok(Snapshot("t", 2, 1, Some(5.0), None, Some(0.5), Some(0.5), Some(0.0), 5.0, Some(0.5), None, Some(0.5)))
  {
    assert RadiusAgrees(ShelfL1);
    OneShelfJoin();
    OneShelfUtilization();
    OneShelfRatios();
  }

  /** Shelf L1 of capacity 10, without coordinates. */
  const TenUnitShelf := LayoutRow("L1", None, None, None, Some(10.0), None)
  const TenUnitLayout := Layout(false, true, [TenUnitShelf])

  /** A single placement of volume `v` on L1 joins to one placed row carrying capacity 10. */
  lemma SingleShelfJoin(v: real)
    ensures
      var j := Joined(Placement("A", Some("L1"), Some(v), None, None, None), None, Some(10.0), None);
      Placed(Join([j.row], TenUnitLayout)) == [j] && AllocRows([j]) == [j]
  {
    var a := Placement("A", Some("L1"), Some(v), None, None, None);
    assert Matches(a.location, TenUnitLayout.rows) == [TenUnitShelf];
    var j := Joined(a, None, Some(10.0), None);
    assert JoinOne(a, TenUnitLayout) == [j];
    assert [a][1..] == [];
    assert Join([a], TenUnitLayout) == [j];
    assert [j][1..] == [];
  }

  /** That row forms the one shelf L1, used at v/10. */
  lemma SingleShelfUtilization(v: real)
    ensures
      var j := Joined(Placement("A", Some("L1"), Some(v), None, None, None), None, Some(10.0), None);
      GroupKeys([j]) == ["L1"] && Utilizations([j], ["L1"]) == [Some(v / 10.0)]
  {
    var j := Joined(Placement("A", Some("L1"), Some(v), None, None, None), None, Some(10.0), None);
    assert [j][1..] == [] && [j][..0] == [];
    assert GroupVolume([j], "L1") == v;
    assert GroupMaxSize([j], "L1") == Some(10.0);
    assert Utilization([j], "L1") == Some(v / 10.0);
    assert ["L1"][1..] == [];
  }

  /** One placement of volume `v` on a shelf of capacity 10: fragmented exactly when 0 < v/10 < 0.1. */
  lemma SingleShelfFragmentation(v: real)
    ensures
      FragmentationRate(Placed(Join([Placement("A", Some("L1"), Some(v), None, None, None)], TenUnitLayout))) ==
        Some(if 0.0 < v / 10.0 < FragmentCeiling then 1.0 else 0.0)
  {
    var j := Joined(Placement("A", Some("L1"), Some(v), None, None, None), None, Some(10.0), None);
    SingleShelfJoin(v);
    SingleShelfUtilization(v);
    var u := Some(v / 10.0);
    assert [u][1..] == [];
    assert CountFragmented([u]) == if Fragmented(u) then 1 else 0;
    assert ShelfCount([j]) == 1;
  }

  /** A shelf at exactly 0.1 utilization is not fragmented; one at 0.05 is. */
  lemma FragmentationBoundary()
    ensures FragmentationRate(Placed(Join([Placement("A", Some("L1"), Some(1.0), None, None, None)], TenUnitLayout))) == Some(0.0)
    ensures FragmentationRate(Placed(Join([Placement("A", Some("L1"), Some(0.5), None, None, None)], TenUnitLayout))) == Some(1.0)
  {
    SingleShelfFragmentation(1.0);
    SingleShelfFragmentation(0.5);
  }

  /** The log of `LatestObservationWins`. */
  const Log := [
    Placement("A", Some("L1"), None, None, Some(8.0), None),
    Placement("B", Some(Unplaced), None, None, Some(2.0), None),
    Placement("C", None, None, None, Some(100.0), None),
    Placement("D", Some("L1"), None, None, Some(3.0), None)]

  /** The first L1 row is superseded, the row without a location is dropped, the others are latest. */
  lemma LatestFlagsOfLog()
    ensures !IsLatest(Log, 0) && IsLatest(Log, 1) && !IsLatest(Log, 2) && IsLatest(Log, 3)
  {
    assert Observes(Log[3]) && Log[3].location == Log[0].location;
  }

  /** From the row without a location on, only the later L1 row survives. */
  lemma LatestOfLogTail()
    ensures LatestFrom(Log, 2) == [Log[3]]
  {
    LatestFlagsOfLog();
    assert LatestFrom(Log, 4) == [];
    assert LatestFrom(Log, 3) == [Log[3]];
  }

  /** `tail(1)` keeps the UNPLACED row and the later L1 row, in file order. */
  lemma LatestOfLog()
    ensures LatestRows(Log) == [Log[1], Log[3]]
  {
    LatestFlagsOfLog();
    LatestOfLogTail();
    assert LatestFrom(Log, 1) == [Log[1], Log[3]];
  }

  /** The overwrite-on-newer ledger of the log. */
  lemma LedgerOfLog()
    ensures Ledger(Log) == map["L1" := 3.0, Unplaced := 2.0]
  {
    var ps := Log;
    assert ps[..3][..2][..1] == [ps[0]];
    assert ps[..3][..2] == [ps[0], ps[1]];
    assert ps[..3] == [ps[0], ps[1], ps[2]];
    assert [ps[0]][..0] == [];
    assert Ledger([ps[0]]) == map["L1" := 8.0];
    assert Ledger([ps[0], ps[1]]) == map["L1" := 8.0, Unplaced := 2.0];
    assert Ledger([ps[0], ps[1], ps[2]]) == map["L1" := 8.0, Unplaced := 2.0];
  }

  /**
   * A log where L1 is observed twice (8 then 3), UNPLACED once (2) and one row
   * has no location (100): the latest values 3 and 2 survive, over capacity 10.
   */
  lemma LatestObservationWins()
    ensures LatestRows(Log) == [Log[1], Log[3]]
    ensures Ledger(Log) == map["L1" := 3.0, Unplaced := 2.0]
    ensures FreeEffectiveCapacityRatio(Log, 10.0) == Some(0.5)
  {
    LatestOfLog();
    LedgerOfLog();
    assert IsLatest(Log, 1);
    assert [Log[1], Log[3]][1..] == [Log[3]] && [Log[3]][1..] == [];
    SumRemainingCons([Log[3]]);
    SumRemainingCons([Log[1], Log[3]]);
    assert SumRemaining([Log[3]]) == 3.0;
    assert SumRemaining([Log[1], Log[3]]) == 5.0;
  }
}

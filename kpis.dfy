/** The KPI engine: one snapshot of warehouse metrics from placements, layout and inventory. */
module Kpis {
  import opened Values
  import opened NanStats
  import opened Tables
  import opened Shelves
  import opened Latest

  /** One row of the metrics history, in the history table's column order. */
  datatype Snapshot = Snapshot(
    timestamp: string,
    rows: nat,
    placedRows: nat,
    avgDistance: Option<real>,
    weightedDistance: Option<real>,
    unplacedRate: Option<real>,
    avgCubeUtilization: Option<real>,
    fragmentationRate: Option<real>,
    totalAllocatedVolume: real,
    capacityRatio: Option<real>,
    freeEffectiveCapacityRatio: Option<real>,
    placementsWithCapacityColsRatio: Option<real>)

  /** Selecting the layout's location_id, distance, max_size and max_weight columns raises when one is absent. */
  datatype KpiError = MissingLayoutColumn

  /** A ratio that is in [0, 1] whenever it is defined. */
  predicate InUnitInterval(r: Option<real>)
  {
    r.Some? ==> 0.0 <= r.value <= 1.0
  }

  // ---------------------------------------------------------------- distance

  /** The distance column of the placed rows. */
  function Distances(placed: seq<Joined>): (ds: seq<Option<real>>)
    ensures |ds| == |placed|
    ensures forall i :: 0 <= i < |placed| ==> ds[i] == placed[i].distance
  {
    seq(|placed|, i requires 0 <= i < |placed| => placed[i].distance)
  }

  /** `placed["distance"].mean()`, undefined when no placed row has a defined distance. */
  function AvgDistance(placed: seq<Joined>): (r: Option<real>)
    ensures r.None? <==> forall i :: 0 <= i < |placed| ==> placed[i].distance.None?
    ensures r.Some? ==> IsMean(r.value, Distances(placed))
  {
    if |placed| == 0 then None else MeanDefined(Distances(placed))
  }

  // ---------------------------------------------------------------- counting ratios

  /** Rows whose location is exactly the UNPLACED sentinel (a missing location does not count). */
  function CountUnplaced(merged: seq<Joined>): (n: nat)
    ensures n <= |merged|
    ensures n > 0 <==> exists i :: 0 <= i < |merged| && merged[i].row.location == Some(Unplaced)
  {
    if |merged| == 0 then 0
    else
      assert forall i :: 1 <= i < |merged| ==> merged[1..][i - 1] == merged[i];
      (if merged[0].row.location == Some(Unplaced) then 1 else 0) + CountUnplaced(merged[1..])
  }

  /** `(merged.recommended_location == "UNPLACED").mean()`, undefined on an empty table. */
  function UnplacedRate(merged: seq<Joined>): (r: Option<real>)
    ensures r.None? <==> |merged| == 0
    ensures InUnitInterval(r)
    ensures r.Some? ==> (r.value > 0.0 <==> exists i :: 0 <= i < |merged| && merged[i].row.location == Some(Unplaced))
    ensures r.Some? ==> (r.value == 1.0 <==> forall i :: 0 <= i < |merged| ==> merged[i].row.location == Some(Unplaced))
    ensures r.Some? ==> IsRatio(r.value, CountUnplaced(merged), |merged|)
  {
    var n := CountUnplaced(merged);
    var r := Fraction(n, |merged|);
    if n < |merged| then
      OneBelowTotal(merged);
      r
    else
      AllUnplaced(merged);
      r
  }

  /** The UNPLACED count is the row count exactly when every row is UNPLACED. */
  lemma {:induction false} AllUnplaced(merged: seq<Joined>)
    ensures CountUnplaced(merged) == |merged| <==> forall i :: 0 <= i < |merged| ==> merged[i].row.location == Some(Unplaced)
  {
    if |merged| > 0 {
      var rest := merged[1..];
      AllUnplaced(rest);
      assert forall i :: 1 <= i < |merged| ==> merged[i] == rest[i - 1];
    }
  }

  /** The UNPLACED count is below the row count exactly when some row is not UNPLACED. */
  lemma OneBelowTotal(merged: seq<Joined>)
    ensures CountUnplaced(merged) < |merged| <==> exists i :: 0 <= i < |merged| && merged[i].row.location != Some(Unplaced)
  {
    AllUnplaced(merged);
  }

  /** Placement rows that carry an allocated volume. */
  function CountAllocated(ps: seq<Placement>): (n: nat)
    ensures n <= |ps|
    ensures n > 0 <==> exists i :: 0 <= i < |ps| && ps[i].allocatedVolume.Some?
  {
    if |ps| == 0 then 0
    else
      assert forall i :: 1 <= i < |ps| ==> ps[1..][i - 1] == ps[i];
      (if ps[0].allocatedVolume.Some? then 1 else 0) + CountAllocated(ps[1..])
  }

  /** `placements["allocated_volume"].notna().mean()`, undefined on an empty table. */
  function CapacityColsRatio(ps: seq<Placement>): (r: Option<real>)
    ensures r.None? <==> |ps| == 0
    ensures InUnitInterval(r)
    ensures r.Some? ==> (r.value > 0.0 <==> exists i :: 0 <= i < |ps| && ps[i].allocatedVolume.Some?)
    ensures r.Some? ==> IsRatio(r.value, CountAllocated(ps), |ps|)
  {
    Fraction(CountAllocated(ps), |ps|)
  }

  // ---------------------------------------------------------------- shelf utilization

  /** Every row of the placed subset is placed. */
  predicate AllPlaced(placed: seq<Joined>)
  {
    forall j :: j in placed ==> IsPlaced(j.row)
  }

  /** `shelf_util["utilization"].mean()`: average over shelves with a defined utilization. */
  function AvgCubeUtilization(placed: seq<Joined>): (r: Option<real>)
    ensures r.Some? <==>
      exists i :: 0 <= i < |GroupKeys(AllocRows(placed))| && Utilization(AllocRows(placed), GroupKeys(AllocRows(placed))[i]).Some?
    ensures r.Some? ==> IsMean(r.value, Utilizations(AllocRows(placed), GroupKeys(AllocRows(placed))))
  {
    var alloc := AllocRows(placed);
    if |alloc| == 0 then None else MeanDefined(Utilizations(alloc, GroupKeys(alloc)))
  }

  /** The number of shelves holding allocated volume: the distinct locations of the allocation rows. */
  function ShelfCount(placed: seq<Joined>): (n: nat)
    requires AllPlaced(placed)
    ensures n > 0 <==> |AllocRows(placed)| > 0
    ensures n == |set j | j in AllocRows(placed) && j.row.location.Some? :: j.row.location.value|
  {
    var alloc := AllocRows(placed);
    var ks := GroupKeys(alloc);
    GroupCount(alloc);
    if |alloc| > 0 then
      assert alloc[0] in alloc && alloc[0] in placed;
      assert alloc[0].row.location.value in ks;
      |ks|
    else
      |ks|
  }

  /** The number of those shelves that are fragmented: exactly the shelves whose utilization lies in (0, 0.1). */
  function FragmentedCount(placed: seq<Joined>): (n: nat)
    requires AllPlaced(placed)
    ensures n <= ShelfCount(placed)
    ensures n > 0 <==> AnyFragmented(AllocRows(placed))
    ensures n == |FragmentedKeys(AllocRows(placed), GroupKeys(AllocRows(placed)))|
  {
    var alloc := AllocRows(placed);
    FragmentedShelves(alloc);
    CountFragmentedShelves(alloc, GroupKeys(alloc));
    CountFragmented(Utilizations(alloc, GroupKeys(alloc)))
  }

  /** The share of shelves whose utilization lies strictly inside (0, 0.1); undefined with no shelf. */
  function FragmentationRate(placed: seq<Joined>): (r: Option<real>)
    requires AllPlaced(placed)
    ensures r.None? <==> |AllocRows(placed)| == 0
    ensures InUnitInterval(r)
    ensures r.Some? ==> (r.value > 0.0 <==> AnyFragmented(AllocRows(placed)))
    ensures r.Some? ==> IsRatio(r.value, FragmentedCount(placed), ShelfCount(placed))
  {
    Fraction(FragmentedCount(placed), ShelfCount(placed))
  }

  /**
   * `alloc_rows["allocated_volume"].sum()`, or 0.0 when no placed row has a volume;
   * it equals the sum of the per-shelf volumes.
   */
  function TotalAllocatedVolume(placed: seq<Joined>): (t: real)
    requires AllPlaced(placed)
    ensures t == SumOverKeys(AllocRows(placed), GroupKeys(AllocRows(placed)))
  {
    var alloc := AllocRows(placed);
    var ks := GroupKeys(alloc);
    assert forall i :: 0 <= i < |alloc| ==> alloc[i].row.location.Some? && alloc[i].row.location.value in ks by {
      forall i | 0 <= i < |alloc| ensures alloc[i].row.location.Some? && alloc[i].row.location.value in ks {
        assert alloc[i] in alloc && alloc[i] in placed;
      }
    }
    GroupVolumesPartitionTotal(alloc, ks);
    if |alloc| == 0 then 0.0 else TotalVolume(alloc)
  }

  // ---------------------------------------------------------------- capacity

  /** The max_size column of the layout. */
  function MaxSizes(layout: Layout): (ms: seq<Option<real>>)
    ensures |ms| == |layout.rows|
    ensures forall i :: 0 <= i < |layout.rows| ==> ms[i] == layout.rows[i].maxSize
  {
    seq(|layout.rows|, i requires 0 <= i < |layout.rows| => layout.rows[i].maxSize)
  }

  /** `layout["max_size"].sum()` over every shelf, skipping missing capacities. */
  function TotalCapacity(layout: Layout): (c: real)
    ensures (forall i :: 0 <= i < |layout.rows| ==> layout.rows[i].maxSize.None?) ==> c == 0.0
  {
    SumDefined(MaxSizes(layout))
  }

  /** Non-negative max_size values give a non-negative total capacity. */
  lemma TotalCapacityNonNegative(layout: Layout)
    requires forall i :: 0 <= i < |layout.rows| && layout.rows[i].maxSize.Some? ==> 0.0 <= layout.rows[i].maxSize.value
    ensures 0.0 <= TotalCapacity(layout)
  {
    SumDefinedNonNegative(MaxSizes(layout));
  }

  /** `total_allocated_volume / total_capacity`, defined only for a positive capacity. */
  function CapacityRatio(volume: real, capacity: real): (r: Option<real>)
    ensures r.Some? <==> capacity > 0.0
    ensures r.Some? ==> r.value * capacity == volume
    ensures r.Some? && 0.0 <= volume ==> 0.0 <= r.value
  {
    if capacity > 0.0 then Some(volume / capacity) else None
  }

  /**
   * Sum of the latest remaining size per location over the total capacity,
   * undefined when the capacity is not positive or no row observes a remaining size.
   */
  function FreeEffectiveCapacityRatio(ps: seq<Placement>, capacity: real): (r: Option<real>)
    ensures r.Some? <==> capacity > 0.0 && exists i :: IsLatest(ps, i)
    ensures r.Some? ==> r.value * capacity == SumRemaining(LatestRows(ps))
  {
    var latest := LatestRows(ps);
    assert |latest| > 0 <==> exists i :: IsLatest(ps, i) by {
      if exists i :: IsLatest(ps, i) {
        var i :| IsLatest(ps, i);
        assert ps[i] in latest;
      }
      if |latest| > 0 {
        assert latest[0] in latest;
      }
    }
    if capacity > 0.0 && |latest| > 0 then Some(SumRemaining(latest) / capacity) else None
  }

  // ---------------------------------------------------------------- demand-weighted distance

  /** A placed row joined to an inventory row with a defined demand. */
  datatype Observation = Observation(distance: Option<real>, demand: real)

  /**
   * Reference column for placed row `j`: one cell per inventory row, its demand where
   * its item_id is `j`'s and missing otherwise. pandas' merged column instead has one
   * cell per match (or one missing cell when nothing matches); both have the same
   * defined cells, so their skip-NaN count and sum agree, which is all that is used.
   */
  function MatchDemand(j: Joined, inv: seq<InventoryRow>): (col: seq<Option<real>>)
    ensures |col| == |inv|
    ensures forall b :: 0 <= b < |inv| ==> col[b] == if inv[b].itemId == j.row.itemId then inv[b].demand else None
  {
    seq(|inv|, b requires 0 <= b < |inv| => if inv[b].itemId == j.row.itemId then inv[b].demand else None)
  }

  /** pandas' product of two cells: missing when either factor is. */
  function Product(x: Option<real>, y: Option<real>): Option<real>
  {
    if x.Some? && y.Some? then Some(x.value * y.value) else None
  }

  /** Reference column for `distance * demand_frequency`, laid out like `MatchDemand`. */
  function MatchProduct(j: Joined, inv: seq<InventoryRow>): (col: seq<Option<real>>)
    ensures |col| == |inv|
    ensures forall b :: 0 <= b < |inv| ==>
      col[b] == if inv[b].itemId == j.row.itemId then Product(j.distance, inv[b].demand) else None
  {
    seq(|inv|, b requires 0 <= b < |inv| => if inv[b].itemId == j.row.itemId then Product(j.distance, inv[b].demand) else None)
  }

  /**
   * The `MatchDemand` reference columns of every placed row, one after another: one
   * cell per pair of placed row and inventory row, missing where the item_ids differ.
   * It has the same defined cells as the demand_frequency column of the left merge
   * `placed.merge(inventory, on="item_id", how="left")`.
   */
  function MergedDemand(placed: seq<Joined>, inv: seq<InventoryRow>): seq<Option<real>>
  {
    if |placed| == 0 then [] else MatchDemand(placed[0], inv) + MergedDemand(placed[1..], inv)
  }

  /** The `MatchProduct` reference columns of every placed row, laid out like `MergedDemand`. */
  function MergedProduct(placed: seq<Joined>, inv: seq<InventoryRow>): seq<Option<real>>
  {
    if |placed| == 0 then [] else MatchProduct(placed[0], inv) + MergedProduct(placed[1..], inv)
  }

  /**
   * The inventory matches of one placed row that carry a demand: one per such
   * inventory row, so their count, demand sum and distance·demand sum are those
   * of the merged columns.
   */
  function ObservationsFor(j: Joined, inv: seq<InventoryRow>): (r: seq<Observation>)
    ensures |r| > 0 <==> exists b :: 0 <= b < |inv| && inv[b].itemId == j.row.itemId && inv[b].demand.Some?
    ensures forall o :: o in r ==> o.distance == j.distance
    ensures |r| == CountDefined(MatchDemand(j, inv))
    ensures DemandSum(r) == SumDefined(MatchDemand(j, inv))
    ensures WeightedSum(r) == SumDefined(MatchProduct(j, inv))
  {
    if |inv| == 0 then []
    else
      var rest := ObservationsFor(j, inv[1..]);
      assert forall b :: 1 <= b < |inv| ==> inv[1..][b - 1] == inv[b];
      ObservationsStep(j, inv, rest);
      if inv[0].itemId == j.row.itemId && inv[0].demand.Some? then
        [Observation(j.distance, inv[0].demand.value)] + rest
      else rest
  }

  /** The first inventory row adds one observation exactly when it matches with a demand, and the sums follow. */
  lemma ObservationsStep(j: Joined, inv: seq<InventoryRow>, rest: seq<Observation>)
    requires |inv| > 0
    requires |rest| == CountDefined(MatchDemand(j, inv[1..]))
    requires DemandSum(rest) == SumDefined(MatchDemand(j, inv[1..]))
    requires WeightedSum(rest) == SumDefined(MatchProduct(j, inv[1..]))
    ensures var r := if inv[0].itemId == j.row.itemId && inv[0].demand.Some?
                     then [Observation(j.distance, inv[0].demand.value)] + rest else rest;
            |r| == CountDefined(MatchDemand(j, inv)) &&
            DemandSum(r) == SumDefined(MatchDemand(j, inv)) &&
            WeightedSum(r) == SumDefined(MatchProduct(j, inv))
  {
    assert forall b :: 1 <= b < |inv| ==> inv[1..][b - 1] == inv[b];
    assert MatchDemand(j, inv)[1..] == MatchDemand(j, inv[1..]);
    assert MatchProduct(j, inv)[1..] == MatchProduct(j, inv[1..]);
    if inv[0].itemId == j.row.itemId && inv[0].demand.Some? {
      var o := Observation(j.distance, inv[0].demand.value);
      assert ([o] + rest)[1..] == rest;
    }
  }

  /** Demand sums over stacked observations add up. */
  lemma {:induction false} DemandSumAppend(a: seq<Observation>, b: seq<Observation>)
    ensures DemandSum(a + b) == DemandSum(a) + DemandSum(b)
  {
    if |a| > 0 {
      assert (a + b)[1..] == a[1..] + b;
      DemandSumAppend(a[1..], b);
    } else {
      assert a + b == b;
    }
  }

  /** Distance·demand sums over stacked observations add up. */
  lemma {:induction false} WeightedSumAppend(a: seq<Observation>, b: seq<Observation>)
    ensures WeightedSum(a + b) == WeightedSum(a) + WeightedSum(b)
  {
    if |a| > 0 {
      assert (a + b)[1..] == a[1..] + b;
      WeightedSumAppend(a[1..], b);
    } else {
      assert a + b == b;
    }
  }

  /**
   * `placed.merge(inventory, on="item_id", how="left")` restricted to rows with a demand:
   * its count and sums are those of the merged demand and product columns.
   */
  function DemandObservations(placed: seq<Joined>, inv: seq<InventoryRow>): (r: seq<Observation>)
    ensures |r| > 0 <==> exists a, b :: 0 <= a < |placed| && 0 <= b < |inv| && inv[b].itemId == placed[a].row.itemId && inv[b].demand.Some?
    ensures forall o :: o in r ==> exists a :: 0 <= a < |placed| && o.distance == placed[a].distance
    ensures |r| == CountDefined(MergedDemand(placed, inv))
    ensures DemandSum(r) == SumDefined(MergedDemand(placed, inv))
    ensures WeightedSum(r) == SumDefined(MergedProduct(placed, inv))
  {
    if |placed| == 0 then []
    else
      var here := ObservationsFor(placed[0], inv);
      var rest := DemandObservations(placed[1..], inv);
      assert forall a :: 1 <= a < |placed| ==> placed[1..][a - 1] == placed[a];
      MergedSumsStep(placed, inv, here, rest);
      here + rest
  }

  /** The count and sums of one placed row's matches followed by the rest's, as the merged columns have them. */
  lemma MergedSumsStep(placed: seq<Joined>, inv: seq<InventoryRow>, here: seq<Observation>, rest: seq<Observation>)
    requires |placed| > 0
    requires |here| == CountDefined(MatchDemand(placed[0], inv))
    requires DemandSum(here) == SumDefined(MatchDemand(placed[0], inv))
    requires WeightedSum(here) == SumDefined(MatchProduct(placed[0], inv))
    requires |rest| == CountDefined(MergedDemand(placed[1..], inv))
    requires DemandSum(rest) == SumDefined(MergedDemand(placed[1..], inv))
    requires WeightedSum(rest) == SumDefined(MergedProduct(placed[1..], inv))
    ensures |here + rest| == CountDefined(MergedDemand(placed, inv))
    ensures DemandSum(here + rest) == SumDefined(MergedDemand(placed, inv))
    ensures WeightedSum(here + rest) == SumDefined(MergedProduct(placed, inv))
  {
    DemandSumAppend(here, rest);
    WeightedSumAppend(here, rest);
    SumDefinedAppend(MatchDemand(placed[0], inv), MergedDemand(placed[1..], inv));
    CountDefinedAppend(MatchDemand(placed[0], inv), MergedDemand(placed[1..], inv));
    SumDefinedAppend(MatchProduct(placed[0], inv), MergedProduct(placed[1..], inv));
  }

  /** Σ distance·demand; a missing distance makes its product missing, and the sum skips it. */
  function WeightedSum(obs: seq<Observation>): real
  {
    if |obs| == 0 then 0.0
    else
      ValueOr0(Product(obs[0].distance, Some(obs[0].demand))) + WeightedSum(obs[1..])
  }

  /** Σ demand, over every observation, with or without a distance. */
  function DemandSum(obs: seq<Observation>): real
  {
    if |obs| == 0 then 0.0
    else
      obs[0].demand + DemandSum(obs[1..])
  }

  /**
   * Σ(distance·demand) / Σ demand, defined only when the inventory has a demand column,
   * some placed row meets an inventory row with a demand, and the demand sum is positive.
   */
  function WeightedDistance(placed: seq<Joined>, inventory: Option<Inventory>): (r: Option<real>)
    ensures r.Some? <==>
      inventory.Some? && inventory.value.hasDemand &&
      |DemandObservations(placed, inventory.value.rows)| > 0 &&
      DemandSum(DemandObservations(placed, inventory.value.rows)) > 0.0
    ensures r.Some? ==>
      IsQuotient(r.value, WeightedSum(DemandObservations(placed, inventory.value.rows)), DemandSum(DemandObservations(placed, inventory.value.rows)))
    ensures r.Some? <==>
      inventory.Some? && inventory.value.hasDemand &&
      CountDefined(MergedDemand(placed, inventory.value.rows)) > 0 &&
      SumDefined(MergedDemand(placed, inventory.value.rows)) > 0.0
    ensures r.Some? ==>
      IsQuotient(r.value, SumDefined(MergedProduct(placed, inventory.value.rows)), SumDefined(MergedDemand(placed, inventory.value.rows)))
  {
    if inventory.None? || !inventory.value.hasDemand then None
    else
      var obs := DemandObservations(placed, inventory.value.rows);
      if |obs| == 0 then None
      else
        var den := DemandSum(obs);
        if den > 0.0 then Some(Quotient(WeightedSum(obs), den)) else None
  }

  /** Observations without a distance add nothing to Σ distance·demand. */
  lemma {:induction false} WeightedSumWithoutDistances(obs: seq<Observation>)
    requires forall i :: 0 <= i < |obs| ==> obs[i].distance.None?
    ensures WeightedSum(obs) == 0.0
  {
    if |obs| > 0 {
      assert forall i :: 0 <= i < |obs[1..]| ==> obs[1..][i] == obs[i + 1];
      WeightedSumWithoutDistances(obs[1..]);
    }
  }

  /** Non-negative demands have a non-negative sum. */
  lemma {:induction false} DemandSumNonNegative(obs: seq<Observation>)
    requires forall i :: 0 <= i < |obs| ==> 0.0 <= obs[i].demand
    ensures 0.0 <= DemandSum(obs)
  {
    if |obs| > 0 {
      assert forall i :: 0 <= i < |obs[1..]| ==> obs[1..][i] == obs[i + 1];
      DemandSumNonNegative(obs[1..]);
    }
  }

  /** With one common distance `d`, Σ distance·demand = d × Σ demand. */
  lemma {:induction false} WeightedSumUniform(obs: seq<Observation>, d: real)
    requires forall i :: 0 <= i < |obs| ==> obs[i].distance == Some(d)
    ensures WeightedSum(obs) == d * DemandSum(obs)
  {
    if |obs| == 0 {
      ScaleZero(d);
    } else {
      assert forall i :: 0 <= i < |obs[1..]| ==> obs[1..][i] == obs[i + 1];
      WeightedSumUniform(obs[1..], d);
      WeightedSumUniformStep(obs, d);
    }
  }

  /** An observation at distance `d` contributes `d` × its demand. */
  lemma ProductAtDistance(o: Observation, d: real)
    requires o.distance == Some(d)
    ensures ValueOr0(Product(o.distance, Some(o.demand))) == d * o.demand
  {
  }

  /** One observation at distance `d` in front of a tail that already scales. */
  lemma WeightedSumUniformStep(obs: seq<Observation>, d: real)
    requires |obs| > 0 && obs[0].distance == Some(d)
    requires WeightedSum(obs[1..]) == d * DemandSum(obs[1..])
    ensures WeightedSum(obs) == d * DemandSum(obs)
  {
    ProductAtDistance(obs[0], d);
    ScaleSum(d, obs[0].demand, DemandSum(obs[1..]), DemandSum(obs),
      ValueOr0(Product(obs[0].distance, Some(obs[0].demand))), WeightedSum(obs[1..]));
  }

  /** Σ distance·demand / Σ demand over observations at one distance `d` is `d`. */
  lemma CommonQuotient(obs: seq<Observation>, d: real, q: real)
    requires forall i :: 0 <= i < |obs| ==> obs[i].distance == Some(d)
    requires DemandSum(obs) > 0.0 && IsQuotient(q, WeightedSum(obs), DemandSum(obs))
    ensures q == d
  {
    WeightedSumUniform(obs, d);
    QuotientOf(q, WeightedSum(obs), d, DemandSum(obs));
  }

  /** The demand-weighted mean of one common distance is that distance. */
  lemma WeightedDistanceOfCommonDistance(placed: seq<Joined>, inventory: Option<Inventory>, d: real)
    requires forall a :: 0 <= a < |placed| ==> placed[a].distance == Some(d)
    ensures WeightedDistance(placed, inventory).Some? ==> WeightedDistance(placed, inventory).value == d
  {
    var r := WeightedDistance(placed, inventory);
    if r.Some? {
      var obs := DemandObservations(placed, inventory.value.rows);
      assert forall i :: 0 <= i < |obs| ==> obs[i] in obs;
      CommonQuotient(obs, d, r.value);
    }
  }

  /**
   * Missing distances drop out of the numerator while their demand stays in the
   * denominator: with no distance at all the weighted distance is 0.0, not undefined.
   */
  lemma WeightedDistanceWithoutDistances(placed: seq<Joined>, inventory: Option<Inventory>)
    requires forall a :: 0 <= a < |placed| ==> placed[a].distance.None?
    ensures WeightedDistance(placed, inventory).Some? ==> WeightedDistance(placed, inventory).value == 0.0
  {
    var r := WeightedDistance(placed, inventory);
    if r.Some? {
      var obs := DemandObservations(placed, inventory.value.rows);
      assert forall o :: o in obs ==> o.distance.None?;
      assert forall i :: 0 <= i < |obs| ==> obs[i] in obs;
      WeightedSumWithoutDistances(obs);
      QuotientOfZero(r.value, DemandSum(obs));
    }
  }

  // ---------------------------------------------------------------- the snapshot

  /**
   * `compute_kpis`: the full snapshot, or an error when the layout lacks a
   * capacity column. `now` is the capture time the source reads from the clock.
   */
  function ComputeKpis(ps: seq<Placement>, layout: Layout, inventory: Option<Inventory>, now: string): (r: Result<Snapshot, KpiError>)
    ensures r.Err? <==> !layout.hasCapacityColumns
    ensures r.Ok? ==> r.value.timestamp == now && r.value.rows == |ps|
    ensures r.Ok? ==> (r.value.unplacedRate.None? <==> |ps| == 0)
    ensures r.Ok? ==> (r.value.placementsWithCapacityColsRatio.None? <==> |ps| == 0)
    ensures r.Ok? ==> InUnitInterval(r.value.unplacedRate) && InUnitInterval(r.value.fragmentationRate)
    ensures r.Ok? ==> InUnitInterval(r.value.placementsWithCapacityColsRatio)
    ensures r.Ok? ==> (r.value.capacityRatio.Some? <==> TotalCapacity(layout) > 0.0)
    ensures r.Ok? && r.value.freeEffectiveCapacityRatio.Some? ==> TotalCapacity(layout) > 0.0
    ensures r.Ok? && (inventory.None? || !inventory.value.hasDemand) ==> r.value.weightedDistance.None?
  {
    if !layout.hasCapacityColumns then Err(MissingLayoutColumn)
    else
      var merged := Join(ps, layout);
      var placed := Placed(merged);
      var volume := TotalAllocatedVolume(placed);
      var capacity := TotalCapacity(layout);
      Ok(Snapshot(
        now,
        |ps|,
        |placed|,
        AvgDistance(placed),
        WeightedDistance(placed, inventory),
        UnplacedRate(merged),
        AvgCubeUtilization(placed),
        FragmentationRate(placed),
        volume,
        CapacityRatio(volume, capacity),
        FreeEffectiveCapacityRatio(ps, capacity),
        CapacityColsRatio(ps)))
  }

  // ---------------------------------------------------------------- properties of the snapshot

  /** With unique location ids, `placed_rows` never exceeds `rows`. */
  lemma PlacedRowsAtMostRows(ps: seq<Placement>, layout: Layout, inventory: Option<Inventory>, now: string)
    requires UniqueIds(layout.rows) && layout.hasCapacityColumns
    ensures ComputeKpis(ps, layout, inventory, now).value.placedRows <= ComputeKpis(ps, layout, inventory, now).value.rows
  {
    JoinOnUniqueIds(ps, layout);
  }

  /**
   * A layout without x/y gives every row a missing distance, yet the demand still
   * counts: with any positive demand the weighted distance is 0.0, not undefined.
   */
  lemma WeightedDistanceWithoutCoordinates(ps: seq<Placement>, layout: Layout, inv: Inventory, now: string)
    requires !layout.hasCoordinates && layout.hasCapacityColumns && inv.hasDemand
    ensures var obs := DemandObservations(Placed(Join(ps, layout)), inv.rows);
            |obs| > 0 && DemandSum(obs) > 0.0 ==>
              ComputeKpis(ps, layout, Some(inv), now).value.weightedDistance == Some(0.0)
  {
    var placed := Placed(Join(ps, layout));
    assert forall a :: 0 <= a < |placed| ==> placed[a] in placed;
    WeightedDistanceWithoutDistances(placed, Some(inv));
  }

  /** One placement with a demand of 2.0 on a layout without coordinates: the weighted distance is 0.0. */
  lemma ZeroWithoutCoordinates()
    ensures var ps := [Placement("A", Some("L1"), Some(5.0), None, None, None)];
            var layout := Layout(false, true, [LayoutRow("L1", None, None, None, Some(10.0), None)]);
            var inv := Inventory(true, [InventoryRow("A", Some(2.0))]);
            ComputeKpis(ps, layout, Some(inv), "t").value.weightedDistance == Some(0.0)
  {
    var p := Placement("A", Some("L1"), Some(5.0), None, None, None);
    var shelf := LayoutRow("L1", None, None, None, Some(10.0), None);
    var layout := Layout(false, true, [shelf]);
    var inv := Inventory(true, [InventoryRow("A", Some(2.0))]);
    var j := Joined(p, None, Some(10.0), None);
    assert [shelf][1..] == [] && [p][1..] == [] && [j][1..] == [];
    assert Matches(p.location, layout.rows) == [shelf];
    assert Distance(layout, shelf) == None;
    assert JoinOne(p, layout) == [j];
    assert Join([p], layout) == [j];
    assert Placed([j]) == [j];
    var o := Observation(None, 2.0);
    assert inv.rows[1..] == [] && [o][1..] == [];
    assert ObservationsFor(j, inv.rows) == [o];
    assert DemandObservations([j], inv.rows) == [o];
    assert DemandSum([o]) == 2.0;
    WeightedDistanceWithoutCoordinates([p], layout, inv, "t");
  }

  /** Without unique ids the left join multiplies rows: one placement on a twice-listed shelf counts as two placed rows. */
  lemma DuplicateIdsInflatePlacedRows()
    ensures var ps := [Placement("A", Some("L1"), Some(5.0), None, None, None)];
            var shelf := LayoutRow("L1", None, None, None, Some(10.0), None);
            var r := ComputeKpis(ps, Layout(false, true, [shelf, shelf]), None, "t");
            r.Ok? && r.value.rows == 1 && r.value.placedRows == 2
  {
    var p := Placement("A", Some("L1"), Some(5.0), None, None, None);
    var shelf := LayoutRow("L1", None, None, None, Some(10.0), None);
    var layout := Layout(false, true, [shelf, shelf]);
    assert [shelf, shelf][1..] == [shelf] && [shelf][1..] == [];
    assert Matches(p.location, [shelf]) == [shelf];
    assert Matches(p.location, layout.rows) == [shelf, shelf];
    var j := Joined(p, None, Some(10.0), None);
    assert JoinOne(p, layout) == [j, j];
    assert [p][1..] == [];
    assert Join([p], layout) == [j, j];
    assert [j, j][1..] == [j] && [j][1..] == [];
    assert Placed([j]) == [j];
    assert Placed([j, j]) == [j, j];
  }

  /** With unique ids, every joined row naming shelf `k` carries shelf `k`'s max_size. */
  lemma JoinedRowsCarryShelfCapacity(ps: seq<Placement>, layout: Layout, k: nat)
    requires UniqueIds(layout.rows) && k < |layout.rows|
    ensures forall j :: j in Join(ps, layout) && j.row.location == Some(layout.rows[k].locationId) ==>
      j.maxSize == layout.rows[k].maxSize
  {
    var merged := Join(ps, layout);
    JoinOnUniqueIds(ps, layout);
    forall j | j in merged && j.row.location == Some(layout.rows[k].locationId)
      ensures j.maxSize == layout.rows[k].maxSize
    {
      CarriedCapacity(merged, ps, layout, k, j);
    }
  }

  /** A row of a one-row-per-placement join that names shelf `k` carries `k`'s max_size. */
  lemma CarriedCapacity(merged: seq<Joined>, ps: seq<Placement>, layout: Layout, k: nat, j: Joined)
    requires UniqueIds(layout.rows) && k < |layout.rows|
    requires |merged| == |ps| && forall i :: 0 <= i < |ps| ==> merged[i] == JoinedFor(ps[i], layout)
    requires j in merged && j.row.location == Some(layout.rows[k].locationId)
    ensures j.maxSize == layout.rows[k].maxSize
  {
    var a :| 0 <= a < |merged| && merged[a] == j;
    JoinedForShelf(ps[a], layout, k);
  }

  /**
   * With unique ids, a shelf's utilization is its summed allocated volume over
   * its own max_size, and undefined when that capacity is 0 or missing.
   */
  lemma ShelfUtilizationUsesShelfCapacity(ps: seq<Placement>, layout: Layout, k: nat)
    requires UniqueIds(layout.rows) && k < |layout.rows|
    ensures var alloc := AllocRows(Placed(Join(ps, layout)));
            var id := layout.rows[k].locationId;
            var m := layout.rows[k].maxSize;
            id in GroupKeys(alloc) ==>
              Utilization(alloc, id) == if m.None? || m.value == 0.0 then None else Some(GroupVolume(alloc, id) / m.value)
  {
    var merged := Join(ps, layout);
    var placed := Placed(merged);
    var alloc := AllocRows(placed);
    var id := layout.rows[k].locationId;
    if id !in GroupKeys(alloc) {
      return;
    }
    JoinedRowsCarryShelfCapacity(ps, layout, k);
    forall i | 0 <= i < |alloc| && alloc[i].row.location == Some(id)
      ensures alloc[i].maxSize == layout.rows[k].maxSize
    {
      assert alloc[i] in alloc;
      assert alloc[i] in placed;
      assert alloc[i] in merged;
    }
    GroupMaxSizeUniform(alloc, id, layout.rows[k].maxSize);
  }

  /**
   * A layout without coordinate columns leaves every distance missing, so
   * `avg_distance` is undefined, while `weighted_distance` is undefined or 0.0.
   */
  lemma NoCoordinates(ps: seq<Placement>, layout: Layout, inventory: Option<Inventory>, now: string)
    requires !layout.hasCoordinates && layout.hasCapacityColumns
    ensures ComputeKpis(ps, layout, inventory, now).value.avgDistance.None?
    ensures var w := ComputeKpis(ps, layout, inventory, now).value.weightedDistance;
            w.None? || w == Some(0.0)
  {
    var placed := Placed(Join(ps, layout));
    assert forall a :: 0 <= a < |placed| ==> placed[a].distance.None? by {
      forall a | 0 <= a < |placed| ensures placed[a].distance.None? {
        assert placed[a] in placed;
      }
    }
    WeightedDistanceWithoutDistances(placed, inventory);
  }

  /** Non-negative allocated volumes give a non-negative total. */
  lemma TotalVolumeNonNegative(rows: seq<Joined>)
    requires forall i :: 0 <= i < |rows| && rows[i].row.allocatedVolume.Some? ==> 0.0 <= rows[i].row.allocatedVolume.value
    ensures 0.0 <= TotalVolume(rows)
  {
    SumDefinedNonNegative(Volumes(rows));
  }

  /** Non-negative allocated volumes give a non-negative `total_allocated_volume`. */
  lemma AllocatedVolumeNonNegative(ps: seq<Placement>, layout: Layout)
    requires forall i :: 0 <= i < |ps| && ps[i].allocatedVolume.Some? ==> 0.0 <= ps[i].allocatedVolume.value
    ensures 0.0 <= TotalAllocatedVolume(Placed(Join(ps, layout)))
  {
    var merged := Join(ps, layout);
    var placed := Placed(merged);
    var alloc := AllocRows(placed);
    forall i | 0 <= i < |alloc| && alloc[i].row.allocatedVolume.Some?
      ensures 0.0 <= alloc[i].row.allocatedVolume.value
    {
      assert alloc[i] in alloc;
      assert alloc[i] in placed;
      assert alloc[i] in merged;
      assert alloc[i].row in ps;
    }
    TotalVolumeNonNegative(alloc);
  }
}

/** The three input tables, the left join of placements onto the layout, and the placed subset. */
module Tables {
  import opened Values

  /** The sentinel the placement process writes for an item it could not place. */
  const Unplaced: string := "UNPLACED"

  /**
   * One row of the placements table. The four capacity columns are defaulted to
   * missing when the table lacks them, so an absent column is a column of `None`.
   */
  datatype Placement = Placement(
    itemId: string,
    location: Option<string>,
    allocatedVolume: Option<real>,
    allocatedWeight: Option<real>,
    remainingSize: Option<real>,
    remainingWeight: Option<real>)

  /**
   * One shelf of the layout. `radius` is the Euclidean distance of (x, y) from
   * the origin as the source derives it; the model has no square root, so the
   * value is supplied with the row and `RadiusAgrees` says what it must be.
   */
  datatype LayoutRow = LayoutRow(
    locationId: string,
    x: Option<real>,
    y: Option<real>,
    radius: Option<real>,
    maxSize: Option<real>,
    maxWeight: Option<real>)

  /** The layout table with the column-presence facts the source branches on. */
  datatype Layout = Layout(hasCoordinates: bool, hasCapacityColumns: bool, rows: seq<LayoutRow>)

  /** One row of the optional inventory table. */
  datatype InventoryRow = InventoryRow(itemId: string, demand: Option<real>)

  /** The inventory table; `hasDemand` says whether it has a demand_frequency column. */
  datatype Inventory = Inventory(hasDemand: bool, rows: seq<InventoryRow>)

  /** A placement row with the layout columns the join pulls in. */
  datatype Joined = Joined(row: Placement, distance: Option<real>, maxSize: Option<real>, maxWeight: Option<real>)

  /** `radius` is the square root of x² + y², and is missing exactly when a coordinate is. */
  predicate RadiusAgrees(l: LayoutRow)
  {
    (l.radius.Some? <==> l.x.Some? && l.y.Some?) &&
    (l.radius.Some? ==>
      0.0 <= l.radius.value && l.radius.value * l.radius.value == l.x.value * l.x.value + l.y.value * l.y.value)
  }

  /** The distance column: derived from the coordinates when both columns exist, otherwise all missing. */
  function Distance(layout: Layout, l: LayoutRow): (d: Option<real>)
    ensures !layout.hasCoordinates ==> d.None?
    ensures layout.hasCoordinates ==> d == l.radius
    ensures layout.hasCoordinates && RadiusAgrees(l) ==> (d.Some? <==> l.x.Some? && l.y.Some?)
    ensures RadiusAgrees(l) && d.Some? ==>
      0.0 <= d.value && d.value * d.value == l.x.value * l.x.value + l.y.value * l.y.value
  {
    if layout.hasCoordinates then l.radius else None
  }

  /** Location ids are a key of the layout. */
  predicate UniqueIds(rows: seq<LayoutRow>)
  {
    forall i, j :: 0 <= i < j < |rows| ==> rows[i].locationId != rows[j].locationId
  }

  /** The layout rows whose id equals the placement's location, in layout order. */
  function Matches(loc: Option<string>, rows: seq<LayoutRow>): (r: seq<LayoutRow>)
    ensures forall l :: l in r ==> l in rows && loc == Some(l.locationId)
    ensures forall l :: l in rows && loc == Some(l.locationId) ==> l in r
  {
    if |rows| == 0 then []
    else if loc == Some(rows[0].locationId) then [rows[0]] + Matches(loc, rows[1..])
    else Matches(loc, rows[1..])
  }

  /** A key matches exactly the one row that carries it when ids are unique. */
  lemma {:induction false} MatchesUnique(rows: seq<LayoutRow>, k: nat)
    requires UniqueIds(rows) && k < |rows|
    ensures Matches(Some(rows[k].locationId), rows) == [rows[k]]
  {
    var rest := rows[1..];
    assert UniqueIds(rest) by {
      forall i, j | 0 <= i < j < |rest| ensures rest[i].locationId != rest[j].locationId {
        assert rest[i] == rows[i + 1] && rest[j] == rows[j + 1];
      }
    }
    if k == 0 {
      NoMatch(Some(rows[0].locationId), rest);
    } else {
      assert rest[k - 1] == rows[k];
      MatchesUnique(rest, k - 1);
    }
  }

  /** No row matches a key that no row carries. */
  lemma NoMatch(loc: Option<string>, rows: seq<LayoutRow>)
    requires forall i :: 0 <= i < |rows| ==> loc != Some(rows[i].locationId)
    ensures Matches(loc, rows) == []
  {
  }

  /** The joined rows of one placement: one per matching shelf, or one with missing layout columns. */
  function JoinOne(p: Placement, layout: Layout): (r: seq<Joined>)
    ensures |r| >= 1
    ensures forall j :: j in r ==> j.row == p
    ensures !layout.hasCoordinates ==> forall j :: j in r ==> j.distance.None?
  {
    var ms := Matches(p.location, layout.rows);
    if |ms| == 0 then [Joined(p, None, None, None)]
    else seq(|ms|, i requires 0 <= i < |ms| => Joined(p, Distance(layout, ms[i]), ms[i].maxSize, ms[i].maxWeight))
  }

  /** `placements.merge(layout, left_on="recommended_location", right_on="location_id", how="left")`. */
  function Join(ps: seq<Placement>, layout: Layout): (r: seq<Joined>)
    ensures |r| >= |ps|
    ensures |r| == 0 <==> |ps| == 0
    ensures forall j :: j in r ==> j.row in ps
    ensures !layout.hasCoordinates ==> forall j :: j in r ==> j.distance.None?
    ensures forall i :: 0 <= i < |ps| ==> exists j :: j in r && j.row == ps[i]
  {
    if |ps| == 0 then []
    else
      var here := JoinOne(ps[0], layout);
      var rest := Join(ps[1..], layout);
      assert here[0] in here + rest;
      assert forall i :: 1 <= i < |ps| ==> ps[1..][i - 1] == ps[i];
      assert forall j :: j in rest ==> j in here + rest;
      here + rest
  }

  /** What the join attaches to one placement, as a function of its location alone. */
  function JoinedFor(p: Placement, layout: Layout): Joined
  {
    var ms := Matches(p.location, layout.rows);
    if |ms| == 0 then Joined(p, None, None, None)
    else Joined(p, Distance(layout, ms[0]), ms[0].maxSize, ms[0].maxWeight)
  }

  /** With unique ids, a placement naming shelf `k` is joined to shelf `k`'s columns. */
  lemma JoinedForShelf(p: Placement, layout: Layout, k: nat)
    requires UniqueIds(layout.rows) && k < |layout.rows| && p.location == Some(layout.rows[k].locationId)
    ensures JoinedFor(p, layout) == Joined(p, Distance(layout, layout.rows[k]), layout.rows[k].maxSize, layout.rows[k].maxWeight)
  {
    MatchesUnique(layout.rows, k);
  }

  /** With unique ids, the join yields exactly one row for each placement. */
  lemma JoinOneUnique(p: Placement, layout: Layout)
    requires UniqueIds(layout.rows)
    ensures JoinOne(p, layout) == [JoinedFor(p, layout)]
  {
    if k :| 0 <= k < |layout.rows| && p.location == Some(layout.rows[k].locationId) {
      MatchesUnique(layout.rows, k);
    } else {
      NoMatch(p.location, layout.rows);
    }
  }

  /** With unique location ids the left join keeps one row per placement, in order. */
  lemma {:induction false} JoinOnUniqueIds(ps: seq<Placement>, layout: Layout)
    requires UniqueIds(layout.rows)
    ensures |Join(ps, layout)| == |ps|
    ensures forall i :: 0 <= i < |ps| ==> Join(ps, layout)[i] == JoinedFor(ps[i], layout)
  {
    if |ps| > 0 {
      JoinOnUniqueIds(ps[1..], layout);
      JoinOneUnique(ps[0], layout);
      assert forall i :: 0 < i < |ps| ==> ps[1..][i - 1] == ps[i];
    }
  }

  /**
   * With unique location ids each joined row carries the distance and capacities
   * of the shelf its placement names, or missing values when no shelf has that id.
   */
  lemma JoinCarriesShelf(ps: seq<Placement>, layout: Layout)
    requires UniqueIds(layout.rows)
    ensures |Join(ps, layout)| == |ps|
    ensures forall i, k :: 0 <= i < |ps| && 0 <= k < |layout.rows| && ps[i].location == Some(layout.rows[k].locationId) ==>
      Join(ps, layout)[i] == Joined(ps[i], Distance(layout, layout.rows[k]), layout.rows[k].maxSize, layout.rows[k].maxWeight)
    ensures forall i :: 0 <= i < |ps| && (forall k :: 0 <= k < |layout.rows| ==> ps[i].location != Some(layout.rows[k].locationId)) ==>
      Join(ps, layout)[i] == Joined(ps[i], None, None, None)
  {
    JoinOnUniqueIds(ps, layout);
    forall i, k | 0 <= i < |ps| && 0 <= k < |layout.rows| && ps[i].location == Some(layout.rows[k].locationId)
      ensures Join(ps, layout)[i] == Joined(ps[i], Distance(layout, layout.rows[k]), layout.rows[k].maxSize, layout.rows[k].maxWeight)
    {
      JoinedForShelf(ps[i], layout, k);
    }
    forall i | 0 <= i < |ps| && (forall k :: 0 <= k < |layout.rows| ==> ps[i].location != Some(layout.rows[k].locationId))
      ensures Join(ps, layout)[i] == Joined(ps[i], None, None, None)
    {
      NoMatch(ps[i].location, layout.rows);
    }
  }

  /** A row is placed iff its location is present and is not the UNPLACED sentinel. */
  predicate IsPlaced(p: Placement)
  {
    p.location.Some? && p.location.value != Unplaced
  }

  /** `merged[merged.recommended_location.notna() & (merged.recommended_location != "UNPLACED")]`. */
  function Placed(merged: seq<Joined>): (r: seq<Joined>)
    ensures |r| <= |merged|
    ensures forall j :: j in r <==> j in merged && IsPlaced(j.row)
    ensures forall j :: multiset(r)[j] == if IsPlaced(j.row) then multiset(merged)[j] else 0
  {
    if |merged| == 0 then []
    else
      assert merged == [merged[0]] + merged[1..];
      (if IsPlaced(merged[0].row) then [merged[0]] else []) + Placed(merged[1..])
  }
}

/**
 * Shelf utilization: placed rows with an allocated volume, grouped by location,
 * summing the volume and taking the group's first defined max_size.
 */
module Shelves {
  import opened Values
  import opened NanStats
  import opened Tables

  /** Upper end of the near-empty band that fragmentation counts (exclusive). */
  const FragmentCeiling: real := 0.1

  /** `placed[placed.allocated_volume.notna()]`. */
  function AllocRows(placed: seq<Joined>): (r: seq<Joined>)
    ensures |r| <= |placed|
    ensures forall j :: j in r <==> j in placed && j.row.allocatedVolume.Some?
    ensures forall j :: multiset(r)[j] == if j.row.allocatedVolume.Some? then multiset(placed)[j] else 0
  {
    if |placed| == 0 then []
    else
      assert placed == [placed[0]] + placed[1..];
      (if placed[0].row.allocatedVolume.Some? then [placed[0]] else []) + AllocRows(placed[1..])
  }

  /** No key occurs twice. */
  predicate NoDup(ks: seq<string>)
  {
    forall i, j :: 0 <= i < j < |ks| ==> ks[i] != ks[j]
  }

  /** The groups of `groupby("recommended_location")`: each present location once. */
  function GroupKeys(rows: seq<Joined>): (ks: seq<string>)
    ensures NoDup(ks)
    ensures forall i :: 0 <= i < |rows| && rows[i].row.location.Some? ==> rows[i].row.location.value in ks
    ensures forall k :: k in ks ==> exists i :: 0 <= i < |rows| && rows[i].row.location == Some(k)
  {
    if |rows| == 0 then []
    else
      var init := rows[..|rows| - 1];
      var ks := GroupKeys(init);
      var loc := rows[|rows| - 1].row.location;
      assert forall i :: 0 <= i < |init| ==> init[i] == rows[i];
      if loc.None? || loc.value in ks then ks else ks + [loc.value]
  }

  /** The group's summed allocated volume (`agg` "sum"). */
  function GroupVolume(rows: seq<Joined>, k: string): (v: real)
    ensures (forall i :: 0 <= i < |rows| ==> rows[i].row.location != Some(k)) ==> v == 0.0
  {
    if |rows| == 0 then 0.0
    else
      assert forall i :: 1 <= i < |rows| ==> rows[1..][i - 1] == rows[i];
      (if rows[0].row.location == Some(k) then ValueOr0(rows[0].row.allocatedVolume) else 0.0) + GroupVolume(rows[1..], k)
  }

  /** The group's first defined max_size (`agg` "first", which skips missing values). */
  function GroupMaxSize(rows: seq<Joined>, k: string): (m: Option<real>)
    ensures m.Some? ==>
      exists i :: 0 <= i < |rows| && rows[i].row.location == Some(k) && rows[i].maxSize == m &&
        forall h :: 0 <= h < i && rows[h].row.location == Some(k) ==> rows[h].maxSize.None?
    ensures m.None? <==> forall i :: 0 <= i < |rows| && rows[i].row.location == Some(k) ==> rows[i].maxSize.None?
  {
    if |rows| == 0 then None
    else if rows[0].row.location == Some(k) && rows[0].maxSize.Some? then rows[0].maxSize
    else
      var m := GroupMaxSize(rows[1..], k);
      assert forall i :: 1 <= i < |rows| ==> rows[1..][i - 1] == rows[i];
      if m.Some? then
        var i :| 0 <= i < |rows| - 1 && rows[1..][i].row.location == Some(k) && rows[1..][i].maxSize == m &&
          forall h :: 0 <= h < i && rows[1..][h].row.location == Some(k) ==> rows[1..][h].maxSize.None?;
        assert rows[i + 1].row.location == Some(k) && rows[i + 1].maxSize == m;
        assert forall h :: 0 <= h < i + 1 && rows[h].row.location == Some(k) ==> rows[h].maxSize.None?;
        m
      else
        m
  }

  /** `allocated_volume / max_size.replace(0, nan)`: undefined when the capacity is 0 or missing. */
  function Utilization(rows: seq<Joined>, k: string): (u: Option<real>)
    ensures u.Some? <==> GroupMaxSize(rows, k).Some? && GroupMaxSize(rows, k).value != 0.0
    ensures u.Some? ==> u.value * GroupMaxSize(rows, k).value == GroupVolume(rows, k)
  {
    var m := GroupMaxSize(rows, k);
    if m.None? || m.value == 0.0 then None else Some(GroupVolume(rows, k) / m.value)
  }

  /** The utilization column, one entry per group. */
  function Utilizations(rows: seq<Joined>, ks: seq<string>): (us: seq<Option<real>>)
    ensures |us| == |ks|
    ensures forall i :: 0 <= i < |ks| ==> us[i] == Utilization(rows, ks[i])
  {
    if |ks| == 0 then [] else [Utilization(rows, ks[0])] + Utilizations(rows, ks[1..])
  }

  /** A shelf counts as fragmented when its utilization is defined and strictly inside (0, 0.1). */
  predicate Fragmented(u: Option<real>)
  {
    u.Some? && 0.0 < u.value < FragmentCeiling
  }

  /** The number of fragmented shelves. */
  function CountFragmented(us: seq<Option<real>>): (n: nat)
    ensures n <= |us|
    ensures n > 0 <==> exists i :: 0 <= i < |us| && Fragmented(us[i])
  {
    if |us| == 0 then 0
    else
      assert forall i :: 1 <= i < |us| ==> us[1..][i - 1] == us[i];
      (if Fragmented(us[0]) then 1 else 0) + CountFragmented(us[1..])
  }

  /** The shelves among `ks` whose utilization is fragmented. */
  function FragmentedKeys(rows: seq<Joined>, ks: seq<string>): set<string>
  {
    set k | k in ks && Fragmented(Utilization(rows, k))
  }

  /** Over duplicate-free keys, the fragmented count is the number of fragmented shelves, no more and no less. */
  lemma {:induction false} CountFragmentedShelves(rows: seq<Joined>, ks: seq<string>)
    requires NoDup(ks)
    ensures CountFragmented(Utilizations(rows, ks)) == |FragmentedKeys(rows, ks)|
  {
    if |ks| == 0 {
      assert FragmentedKeys(rows, ks) == {};
    } else {
      var rest := ks[1..];
      assert forall i :: 0 <= i < |rest| ==> rest[i] == ks[i + 1];
      assert NoDup(rest);
      CountFragmentedShelves(rows, rest);
      var us := Utilizations(rows, ks);
      assert us[1..] == Utilizations(rows, rest);
      assert ks[0] !in rest;
      FragmentedKeysCons(rows, ks);
    }
  }

  /** Splitting off the first of duplicate-free keys splits off at most one fragmented shelf. */
  lemma FragmentedKeysCons(rows: seq<Joined>, ks: seq<string>)
    requires |ks| > 0 && ks[0] !in ks[1..]
    ensures |FragmentedKeys(rows, ks)| ==
      (if Fragmented(Utilization(rows, ks[0])) then 1 else 0) + |FragmentedKeys(rows, ks[1..])|
  {
    var here: set<string> := if Fragmented(Utilization(rows, ks[0])) then {ks[0]} else {};
    assert FragmentedKeys(rows, ks) == here + FragmentedKeys(rows, ks[1..]);
    assert here !! FragmentedKeys(rows, ks[1..]);
  }

  /** Duplicate-free keys name as many distinct shelves as there are keys. */
  lemma {:induction false} NoDupCardinality(ks: seq<string>)
    requires NoDup(ks)
    ensures |set k | k in ks| == |ks|
  {
    if |ks| > 0 {
      var rest := ks[1..];
      assert forall i :: 0 <= i < |rest| ==> rest[i] == ks[i + 1];
      assert NoDup(rest);
      NoDupCardinality(rest);
      assert ks[0] !in rest;
      assert (set k | k in ks) == {ks[0]} + (set k | k in rest);
    }
  }

  /** There are as many groups as distinct present locations among the rows. */
  lemma GroupCount(rows: seq<Joined>)
    ensures |GroupKeys(rows)| == |set j | j in rows && j.row.location.Some? :: j.row.location.value|
  {
    var ks := GroupKeys(rows);
    NoDupCardinality(ks);
    var locs := set j | j in rows && j.row.location.Some? :: j.row.location.value;
    forall j | j in rows && j.row.location.Some? ensures j.row.location.value in ks {
      var i :| 0 <= i < |rows| && rows[i] == j;
    }
    forall k | k in ks ensures k in locs {
      var i :| 0 <= i < |rows| && rows[i].row.location == Some(k);
      assert rows[i] in rows;
    }
    assert locs == set k | k in ks;
  }

  /** Some shelf of `rows` is fragmented. */
  predicate AnyFragmented(rows: seq<Joined>)
  {
    exists i :: 0 <= i < |GroupKeys(rows)| && Fragmented(Utilization(rows, GroupKeys(rows)[i]))
  }

  /** The fragmentation count is positive exactly when some shelf is fragmented. */
  lemma FragmentedShelves(rows: seq<Joined>)
    ensures CountFragmented(Utilizations(rows, GroupKeys(rows))) > 0 <==> AnyFragmented(rows)
  {
    var ks := GroupKeys(rows);
    var us := Utilizations(rows, ks);
    if AnyFragmented(rows) {
      var i :| 0 <= i < |ks| && Fragmented(Utilization(rows, ks[i]));
      assert Fragmented(us[i]);
    }
  }

  /** The allocated_volume column of `rows`. */
  function Volumes(rows: seq<Joined>): (col: seq<Option<real>>)
    ensures |col| == |rows|
    ensures forall i :: 0 <= i < |rows| ==> col[i] == rows[i].row.allocatedVolume
  {
    seq(|rows|, i requires 0 <= i < |rows| => rows[i].row.allocatedVolume)
  }

  /** `alloc_rows["allocated_volume"].sum()`. */
  function TotalVolume(rows: seq<Joined>): real
  {
    SumDefined(Volumes(rows))
  }

  /** The total splits into the first row's volume and the rest's total. */
  lemma TotalVolumeCons(rows: seq<Joined>)
    requires |rows| > 0
    ensures TotalVolume(rows) == ValueOr0(rows[0].row.allocatedVolume) + TotalVolume(rows[1..])
  {
    assert Volumes(rows)[1..] == Volumes(rows[1..]);
  }

  /** Sum of the per-group volumes over keys `ks`. */
  function SumOverKeys(rows: seq<Joined>, ks: seq<string>): real
  {
    if |ks| == 0 then 0.0 else GroupVolume(rows, ks[0]) + SumOverKeys(rows, ks[1..])
  }

  /** What row `j` contributes to the groups `ks`. */
  function Contribution(j: Joined, ks: seq<string>): real
  {
    if |ks| == 0 then 0.0
    else (if j.row.location == Some(ks[0]) then ValueOr0(j.row.allocatedVolume) else 0.0) + Contribution(j, ks[1..])
  }

  lemma {:induction false} ContributionAbsent(j: Joined, ks: seq<string>)
    requires forall i :: 0 <= i < |ks| ==> j.row.location != Some(ks[i])
    ensures Contribution(j, ks) == 0.0
  {
    if |ks| > 0 {
      assert forall i :: 0 <= i < |ks| - 1 ==> ks[1..][i] == ks[i + 1];
      ContributionAbsent(j, ks[1..]);
    }
  }

  lemma {:induction false} ContributionOnce(j: Joined, ks: seq<string>)
    requires NoDup(ks) && j.row.location.Some? && j.row.location.value in ks
    ensures Contribution(j, ks) == ValueOr0(j.row.allocatedVolume)
  {
    var rest := ks[1..];
    assert forall i :: 0 <= i < |rest| ==> rest[i] == ks[i + 1];
    if j.row.location == Some(ks[0]) {
      ContributionAbsent(j, rest);
    } else {
      assert NoDup(rest);
      ContributionOnce(j, rest);
    }
  }

  lemma {:induction false} SumOverKeysSplit(j: Joined, rest: seq<Joined>, ks: seq<string>)
    ensures SumOverKeys([j] + rest, ks) == Contribution(j, ks) + SumOverKeys(rest, ks)
  {
    if |ks| > 0 {
      SumOverKeysSplit(j, rest, ks[1..]);
      assert ([j] + rest)[1..] == rest;
    }
  }

  lemma {:induction false} SumOverKeysOfNothing(ks: seq<string>)
    ensures SumOverKeys([], ks) == 0.0
  {
    if |ks| > 0 {
      SumOverKeysOfNothing(ks[1..]);
    }
  }

  /**
   * The shelves partition the allocated volume: summing the per-shelf volumes
   * over every shelf gives back the total.
   */
  lemma {:induction false} GroupVolumesPartitionTotal(rows: seq<Joined>, ks: seq<string>)
    requires NoDup(ks)
    requires forall i :: 0 <= i < |rows| ==> rows[i].row.location.Some? && rows[i].row.location.value in ks
    ensures SumOverKeys(rows, ks) == TotalVolume(rows)
  {
    if |rows| == 0 {
      SumOverKeysOfNothing(ks);
    } else {
      var rest := rows[1..];
      assert rows == [rows[0]] + rest;
      assert forall i :: 0 <= i < |rest| ==> rest[i] == rows[i + 1];
      GroupVolumesPartitionTotal(rest, ks);
      SumOverKeysSplit(rows[0], rest, ks);
      ContributionOnce(rows[0], ks);
      TotalVolumeCons(rows);
      calc {
        SumOverKeys(rows, ks);
        SumOverKeys([rows[0]] + rest, ks);
        Contribution(rows[0], ks) + SumOverKeys(rest, ks);
        ValueOr0(rows[0].row.allocatedVolume) + TotalVolume(rest);
        TotalVolume(rows);
      }
    }
  }

  /** If every row of group `k` carries capacity `m`, the group's first defined capacity is `m`. */
  lemma {:induction false} GroupMaxSizeUniform(rows: seq<Joined>, k: string, m: Option<real>)
    requires forall i :: 0 <= i < |rows| && rows[i].row.location == Some(k) ==> rows[i].maxSize == m
    requires exists i :: 0 <= i < |rows| && rows[i].row.location == Some(k)
    ensures GroupMaxSize(rows, k) == m
  {
    var g := GroupMaxSize(rows, k);
    if g.Some? {
      var i :| 0 <= i < |rows| && rows[i].row.location == Some(k) && rows[i].maxSize == g;
    } else {
      var i :| 0 <= i < |rows| && rows[i].row.location == Some(k);
      assert rows[i].maxSize.None?;
    }
  }
}

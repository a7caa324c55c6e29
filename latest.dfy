/**
 * The latest residual-capacity observation per location, as
 * `placements[remaining_size.notna()].groupby("recommended_location").tail(1)`
 * selects it, and the overwrite-on-newer ledger that it agrees with.
 */
module Latest {
  import opened Values
  import opened NanStats
  import opened Tables

  /**
   * A row takes part when it carries a remaining size and a location key;
   * groupby drops rows whose key is missing, and "UNPLACED" is a key like any other.
   */
  predicate Observes(p: Placement)
  {
    p.remainingSize.Some? && p.location.Some?
  }

  /** Row `i` is the last observation of its location in file order. */
  predicate IsLatest(ps: seq<Placement>, i: int)
  {
    0 <= i < |ps| && Observes(ps[i]) &&
    forall j :: i < j < |ps| ==> !(Observes(ps[j]) && ps[j].location == ps[i].location)
  }

  /** The rows from index `i` on that survive `tail(1)`, in file order. */
  function LatestFrom(ps: seq<Placement>, i: nat): (r: seq<Placement>)
    requires i <= |ps|
    decreases |ps| - i
    ensures forall q :: q in r <==> exists k :: i <= k < |ps| && IsLatest(ps, k) && ps[k] == q
    ensures forall x, y :: 0 <= x < y < |r| ==> r[x] != r[y]
  {
    if i == |ps| then []
    else
      var rest := LatestFrom(ps, i + 1);
      assert IsLatest(ps, i) ==> ps[i] !in rest;
      (if IsLatest(ps, i) then [ps[i]] else []) + rest
  }

  /** The rows that survive `tail(1)`. */
  function LatestRows(ps: seq<Placement>): seq<Placement>
  {
    LatestFrom(ps, 0)
  }

  /** The remaining_size column of `rows`. */
  function RemainingSizes(rows: seq<Placement>): (col: seq<Option<real>>)
    ensures |col| == |rows|
    ensures forall i :: 0 <= i < |rows| ==> col[i] == rows[i].remainingSize
  {
    seq(|rows|, i requires 0 <= i < |rows| => rows[i].remainingSize)
  }

  /** `latest_last["remaining_size"].sum()`. */
  function SumRemaining(rows: seq<Placement>): (s: real)
    ensures (forall i :: 0 <= i < |rows| && rows[i].remainingSize.Some? ==> 0.0 <= rows[i].remainingSize.value) ==> 0.0 <= s
  {
    var sizes := RemainingSizes(rows);
    assert (forall i :: 0 <= i < |rows| && rows[i].remainingSize.Some? ==> 0.0 <= rows[i].remainingSize.value) ==>
      0.0 <= SumDefined(sizes) by {
      if forall i :: 0 <= i < |rows| && rows[i].remainingSize.Some? ==> 0.0 <= rows[i].remainingSize.value {
        SumDefinedNonNegative(sizes);
      }
    }
    SumDefined(sizes)
  }

  /** The sum splits into the first row's remaining size and the rest's sum. */
  lemma SumRemainingCons(rows: seq<Placement>)
    requires |rows| > 0
    ensures SumRemaining(rows) == ValueOr0(rows[0].remainingSize) + SumRemaining(rows[1..])
  {
    assert RemainingSizes(rows)[1..] == RemainingSizes(rows[1..]);
  }

  /** Scanning the log in file order, each observation overwrites its location's entry. */
  function Ledger(ps: seq<Placement>): map<string, real>
  {
    if |ps| == 0 then map[]
    else
      var m := Ledger(ps[..|ps| - 1]);
      var p := ps[|ps| - 1];
      if Observes(p) then m[p.location.value := p.remainingSize.value] else m
  }

  /**
   * `tail(1)` and the ledger agree: each surviving row is its location's final
   * ledger entry, every ledger entry comes from a surviving row, and no two
   * surviving rows share a location.
   */
  lemma {:induction false} LatestAgreesWithLedger(ps: seq<Placement>)
    ensures forall i :: IsLatest(ps, i) ==>
      ps[i].location.value in Ledger(ps) && Ledger(ps)[ps[i].location.value] == ps[i].remainingSize.value
    ensures forall k :: k in Ledger(ps) ==> exists i :: IsLatest(ps, i) && ps[i].location == Some(k)
    ensures forall i, j :: IsLatest(ps, i) && IsLatest(ps, j) && ps[i].location == ps[j].location ==> i == j
  {
    if |ps| > 0 {
      var n := |ps| - 1;
      var init := ps[..n];
      var last := ps[n];
      assert forall i :: 0 <= i < n ==> init[i] == ps[i];
      LatestAgreesWithLedger(init);
      forall i | IsLatest(ps, i) && i < n ensures IsLatest(init, i) {
      }
      forall k | k in Ledger(ps) ensures exists i :: IsLatest(ps, i) && ps[i].location == Some(k) {
        if Observes(last) && last.location == Some(k) {
          assert IsLatest(ps, n);
        } else {
          assert k in Ledger(init);
          var i :| IsLatest(init, i) && init[i].location == Some(k);
          assert IsLatest(ps, i);
        }
      }
    }
  }
}

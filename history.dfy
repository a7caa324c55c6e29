/** The append-only metrics history: the table is read, one snapshot appended, and the table rewritten. */
module History {
  import opened Values
  import opened Kpis

  /** The table after one append: the old rows then `row`, or just `row` when there was no table. */
  function Appended(history: Option<seq<Snapshot>>, row: Snapshot): (r: seq<Snapshot>)
    ensures |r| == (if history.Some? then |history.value| else 0) + 1
    ensures r[|r| - 1] == row
    ensures history.Some? ==> r[..|r| - 1] == history.value
  {
    if history.None? then [row] else history.value + [row]
  }

  /** The table after appending `rows` one call at a time, in order. */
  function AppendAll(history: Option<seq<Snapshot>>, rows: seq<Snapshot>): (r: Option<seq<Snapshot>>)
    ensures r.None? <==> history.None? && |rows| == 0
    ensures r.Some? ==> |r.value| == (if history.Some? then |history.value| else 0) + |rows|
    decreases |rows|
  {
    if |rows| == 0 then history else AppendAll(Some(Appended(history, rows[0])), rows[1..])
  }

  /** Appending to an existing table never changes or drops its rows. */
  lemma {:induction false} AppendAllExtends(history: seq<Snapshot>, rows: seq<Snapshot>)
    ensures AppendAll(Some(history), rows) == Some(history + rows)
    decreases |rows|
  {
    if |rows| == 0 {
      assert history + rows == history;
    } else {
      assert Appended(Some(history), rows[0]) == history + [rows[0]];
      AppendAllExtends(history + [rows[0]], rows[1..]);
      assert history + [rows[0]] + rows[1..] == history + rows;
    }
  }

  /** Appending one more row after a batch is one more `Appended`. */
  lemma {:induction false} AppendAllSnoc(history: Option<seq<Snapshot>>, rows: seq<Snapshot>, row: Snapshot)
    ensures AppendAll(history, rows + [row]) == Some(Appended(AppendAll(history, rows), row))
    decreases |rows|
  {
    if |rows| == 0 {
      assert rows + [row] == [row];
      assert [row][1..] == [];
    } else {
      assert (rows + [row])[0] == rows[0];
      assert (rows + [row])[1..] == rows[1..] + [row];
      AppendAllSnoc(Some(Appended(history, rows[0])), rows[1..], row);
    }
  }

  /** After N appends to a missing table it holds exactly those N rows, in call order. */
  lemma AppendAllFromNothing(rows: seq<Snapshot>)
    requires |rows| > 0
    ensures AppendAll(None, rows) == Some(rows)
  {
    AppendAllExtends([rows[0]], rows[1..]);
    assert [rows[0]] + rows[1..] == rows;
  }

  /** The history file: `None` while it does not exist. */
  class MetricsHistory {
    var table: Option<seq<Snapshot>>

    constructor (existing: Option<seq<Snapshot>>)
      ensures table == existing
    {
      table := existing;
    }

    /** `append_metrics`. */
    method Append(row: Snapshot)
      modifies this
      ensures table == Some(Appended(old(table), row))
      ensures old(table).None? ==> table == Some([row])
      ensures old(table).Some? ==> table == Some(old(table).value + [row])
    {
      if table.None? {
        table := Some([row]);
      } else {
        table := Some(table.value + [row]);
      }
    }

    /** `append_metrics` called once per row of `rows`, in order. */
    method AppendEach(rows: seq<Snapshot>)
      modifies this
      ensures table == AppendAll(old(table), rows)
      ensures old(table).Some? ==> table == Some(old(table).value + rows)
      ensures old(table).None? && |rows| > 0 ==> table == Some(rows)
    {
      ghost var start := table;
      for i := 0 to |rows|
        invariant table == AppendAll(start, rows[..i])
      {
        AppendAllSnoc(start, rows[..i], rows[i]);
        assert rows[..i + 1] == rows[..i] + [rows[i]];
        Append(rows[i]);
      }
      assert rows[..|rows|] == rows;
      if start.Some? {
        AppendAllExtends(start.value, rows);
      } else if |rows| > 0 {
        AppendAllFromNothing(rows);
      }
    }
  }

  /** Two appends to a missing history leave exactly the two snapshots, oldest first. */
  method AppendTwice(first: Snapshot, second: Snapshot) returns (rows: seq<Snapshot>)
    ensures rows == [first, second]
  {
    var h := new MetricsHistory(None);
    h.Append(first);
    h.Append(second);
    rows := h.table.value;
  }
}

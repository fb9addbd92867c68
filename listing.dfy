/**
  The numbering scheme of the conflict listing, independent of what is listed: every
  scanned row is checked against Oracle and then against SQL Server, each check takes
  the next temporary list id whether or not it reports anything, and only the checks
  that report something appear in the list.
*/
module Listing {
  import opened Wrappers

  /** A replica the scan compares MySQL against. */
  datatype Target = OracleTarget | SqlServerTarget {
    function Name(): string
    {
      match this
      case OracleTarget => "Oracle"
      case SqlServerTarget => "SQL Server"
    }

    /** The Oracle check of a row takes its even list id, the SQL Server check the one after it. */
    function Offset(): int
    {
      if this == OracleTarget then 0 else 1
    }

    /** This target's copy out of a pair of copies. */
    function Pick<X>(oracle: X, sqlServer: X): X
    {
      if this == OracleTarget then oracle else sqlServer
    }
  }

  /** An item of the list with the temporary id it was given. */
  datatype Entry<F> = Entry(id: int, item: F)

  /** What the two checks of one scanned row found: against Oracle, then against SQL Server. */
  datatype Row<F> = Row(oracle: Option<F>, sqlServer: Option<F>) {
    function For(t: Target): Option<F>
    {
      t.Pick(oracle, sqlServer)
    }
  }

  /** `list.add(new ...(tempId, ...))` when a check found something, nothing otherwise. */
  function Emit<F>(tempId: int, f: Option<F>): seq<Entry<F>>
  {
    match f
    case None => []
    case Some(x) => [Entry(tempId, x)]
  }

  lemma EmitIds<F>(tempId: int, f: Option<F>)
    ensures forall e :: e in Emit(tempId, f) ==> e.id == tempId
  {
  }

  /** The entries one row contributes under list ids `tempId` (Oracle) and `tempId + 1` (SQL Server). */
  function RowEntries<F>(row: Row<F>, tempId: int): seq<Entry<F>>
  {
    Emit(tempId, row.oracle) + Emit(tempId + 1, row.sqlServer)
  }

  /**
    The list produced by a scan whose counter starts at `first`: the head row takes list
    ids `first` and `first + 1`, and the rest of the scan continues from `first + 2`.
  */
  function Number<F>(rows: seq<Row<F>>, first: int): seq<Entry<F>>
  {
    if |rows| == 0 then []
    else RowEntries(rows[0], first) + Number(rows[1..], first + 2)
  }

  /** One turn of a scan loop: appending row i's entries to `done` moves the rest of the scan on by one row. */
  lemma NumberStep<F>(done: seq<Entry<F>>, found: seq<Entry<F>>, rows: seq<Row<F>>, i: nat, tempId: int)
    requires i < |rows|
    requires found == RowEntries(rows[i], tempId)
    ensures (done + found) + Number(rows[i + 1..], tempId + 2) == done + Number(rows[i..], tempId)
  {
    assert rows[i..][1..] == rows[i + 1..];
  }

  // ---------------------------------------------------------------
  // Selecting by list id
  // ---------------------------------------------------------------

  /** The entries of `es` that carry list id `id`. */
  function WithId<F>(es: seq<Entry<F>>, id: int): seq<Entry<F>>
  {
    if |es| == 0 then []
    else (if es[0].id == id then [es[0]] else []) + WithId(es[1..], id)
  }

  lemma {:induction false} WithIdConcat<F>(a: seq<Entry<F>>, b: seq<Entry<F>>, id: int)
    ensures WithId(a + b, id) == WithId(a, id) + WithId(b, id)
  {
    if |a| > 0 {
      var head := if a[0].id == id then [a[0]] else [];
      assert (a + b)[0] == a[0];
      assert (a + b)[1..] == a[1..] + b;
      WithIdConcat(a[1..], b, id);
      calc {
        WithId(a + b, id);
        head + WithId(a[1..] + b, id);
        head + (WithId(a[1..], id) + WithId(b, id));
        (head + WithId(a[1..], id)) + WithId(b, id);
        WithId(a, id) + WithId(b, id);
      }
    } else {
      assert a + b == b;
    }
  }

  lemma {:induction false} WithIdNone<F>(es: seq<Entry<F>>, id: int)
    requires forall e :: e in es ==> e.id != id
    ensures WithId(es, id) == []
  {
    if |es| > 0 {
      assert es[0] in es;
      WithIdNone(es[1..], id);
    }
  }

  lemma {:induction false} WithIdAll<F>(es: seq<Entry<F>>, id: int)
    requires forall e :: e in es ==> e.id == id
    ensures WithId(es, id) == es
  {
    if |es| > 0 {
      assert es[0] in es;
      WithIdAll(es[1..], id);
      assert es == [es[0]] + es[1..];
    }
  }

  /** When `b` holds nothing under `id`, the entries of `a + b` under `id` are those of `a`. */
  lemma WithIdLeft<F>(a: seq<Entry<F>>, b: seq<Entry<F>>, id: int)
    requires forall e :: e in b ==> e.id != id
    ensures WithId(a + b, id) == WithId(a, id)
  {
    WithIdConcat(a, b, id);
    WithIdNone(b, id);
    assert WithId(a, id) + [] == WithId(a, id);
  }

  /** When `a` holds nothing under `id`, the entries of `a + b` under `id` are those of `b`. */
  lemma WithIdRight<F>(a: seq<Entry<F>>, b: seq<Entry<F>>, id: int)
    requires forall e :: e in a ==> e.id != id
    ensures WithId(a + b, id) == WithId(b, id)
  {
    WithIdConcat(a, b, id);
    WithIdNone(a, id);
    assert [] + WithId(b, id) == WithId(b, id);
  }

  // ---------------------------------------------------------------
  // Properties of the numbering
  // ---------------------------------------------------------------

  /** The list ids of `es` strictly increase. */
  predicate Increasing<F>(es: seq<Entry<F>>)
  {
    forall i, j :: 0 <= i < j < |es| ==> es[i].id < es[j].id
  }

  lemma IncreasingConcat<F>(a: seq<Entry<F>>, b: seq<Entry<F>>, bound: int)
    requires Increasing(a) && Increasing(b)
    requires forall e :: e in a ==> e.id < bound
    requires forall e :: e in b ==> e.id >= bound
    ensures Increasing(a + b)
  {
    var es := a + b;
    forall i, j | 0 <= i < j < |es| ensures es[i].id < es[j].id {
      if i < |a| && j >= |a| {
        assert es[i] == a[i] && es[j] == b[j - |a|];
      } else if j < |a| {
        assert es[i] == a[i] && es[j] == a[j];
      } else {
        assert es[i] == b[i - |a|] && es[j] == b[j - |a|];
      }
    }
  }

  /** One row's entries carry list ids `tempId` and `tempId + 1` only. */
  lemma RowIdsInRange<F>(row: Row<F>, tempId: int)
    ensures forall e :: e in RowEntries(row, tempId) ==> tempId <= e.id <= tempId + 1
  {
    EmitIds(tempId, row.oracle);
    EmitIds(tempId + 1, row.sqlServer);
  }

  /** A row's Oracle entry comes before its SQL Server entry. */
  lemma RowIncreasing<F>(row: Row<F>, tempId: int)
    ensures Increasing(RowEntries(row, tempId))
  {
    EmitIds(tempId, row.oracle);
    EmitIds(tempId + 1, row.sqlServer);
    IncreasingConcat(Emit(tempId, row.oracle), Emit(tempId + 1, row.sqlServer), tempId + 1);
  }

  /** Of one row's entries, list id `tempId + t.Offset()` holds exactly the finding against `t`. */
  lemma RowReports<F>(row: Row<F>, tempId: int, t: Target)
    ensures WithId(RowEntries(row, tempId), tempId + t.Offset()) == Emit(tempId + t.Offset(), row.For(t))
  {
    var a, b := Emit(tempId, row.oracle), Emit(tempId + 1, row.sqlServer);
    EmitIds(tempId, row.oracle);
    EmitIds(tempId + 1, row.sqlServer);
    if t == OracleTarget {
      WithIdLeft(a, b, tempId);
      WithIdAll(a, tempId);
    } else {
      WithIdRight(a, b, tempId + 1);
      WithIdAll(b, tempId + 1);
    }
  }

  /** Every list id of a scan lies in `[first, first + 2 * |rows|)`. */
  lemma {:induction false} NumberIdsInRange<F>(rows: seq<Row<F>>, first: int)
    ensures forall e :: e in Number(rows, first) ==> first <= e.id < first + 2 * |rows|
  {
    if |rows| > 0 {
      NumberIdsInRange(rows[1..], first + 2);
      RowIdsInRange(rows[0], first);
    }
  }

  /**
    The list ids of a scan strictly increase: the temporary ids are unique and in
    scanning order, with gaps where a check reported nothing.
  */
  lemma {:induction false} NumberIncreasing<F>(rows: seq<Row<F>>, first: int)
    ensures Increasing(Number(rows, first))
  {
    if |rows| > 0 {
      NumberIncreasing(rows[1..], first + 2);
      NumberIdsInRange(rows[1..], first + 2);
      RowIdsInRange(rows[0], first);
      RowIncreasing(rows[0], first);
      IncreasingConcat(RowEntries(rows[0], first), Number(rows[1..], first + 2), first + 2);
    }
  }

  /** The first row's finding against `t` is what the list holds under `first + t.Offset()`. */
  lemma NumberReportsHead<F>(rows: seq<Row<F>>, first: int, t: Target)
    requires 0 < |rows|
    ensures WithId(Number(rows, first), first + t.Offset()) == Emit(first + t.Offset(), rows[0].For(t))
  {
    var head, rest := RowEntries(rows[0], first), Number(rows[1..], first + 2);
    assert Number(rows, first) == head + rest;
    NumberIdsInRange(rows[1..], first + 2);
    WithIdLeft(head, rest, first + t.Offset());
    RowReports(rows[0], first, t);
  }

  /** List ids past the first row's two are looked up in the rest of the scan. */
  lemma NumberReportsTail<F>(rows: seq<Row<F>>, first: int, id: int)
    requires 0 < |rows| && first + 2 <= id
    ensures WithId(Number(rows, first), id) == WithId(Number(rows[1..], first + 2), id)
  {
    var head, rest := RowEntries(rows[0], first), Number(rows[1..], first + 2);
    assert Number(rows, first) == head + rest;
    RowIdsInRange(rows[0], first);
    WithIdRight(head, rest, id);
  }

  /** Row i's finding against `t` is exactly what the list holds under id `first + 2i + t.Offset()`. */
  lemma {:induction false} NumberReports<F>(rows: seq<Row<F>>, first: int, i: nat, t: Target)
    requires i < |rows|
    ensures WithId(Number(rows, first), first + 2 * i + t.Offset()) == Emit(first + 2 * i + t.Offset(), rows[i].For(t))
  {
    if i == 0 {
      NumberReportsHead(rows, first, t);
    } else {
      NumberReportsTail(rows, first, first + 2 * i + t.Offset());
      NumberReports(rows[1..], first + 2, i - 1, t);
      assert rows[1..][i - 1] == rows[i];
    }
  }

  /** An entry of the list that is not among the first row's entries is in the rest of the scan. */
  lemma NumberMember<F>(rows: seq<Row<F>>, first: int, e: Entry<F>)
    requires e in Number(rows, first)
    ensures e in RowEntries(rows[0], first) || e in Number(rows[1..], first + 2)
  {
  }

  /** Every entry of the list comes from the findings of one of the scanned rows: row `i`. */
  lemma {:induction false} NumberSource<F>(rows: seq<Row<F>>, first: int, e: Entry<F>) returns (i: nat)
    requires e in Number(rows, first)
    ensures i < |rows| && e in RowEntries(rows[i], first + 2 * i)
  {
    NumberMember(rows, first, e);
    if e in RowEntries(rows[0], first) {
      i := 0;
    } else {
      var j := NumberSource(rows[1..], first + 2, e);
      i := j + 1;
      assert rows[1..][j] == rows[i];
    }
  }
}

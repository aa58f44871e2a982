/** Tables keyed by MAG id, and the pandas outer join on `mag` that the
    report merger folds over its inputs. A table keeps its column order;
    each row maps column names to cells. The `mag` key column is the map's
    key and is not listed among the columns. */
module Tables {
  import Text

  /** One cell of a data frame; `Null` is NaN. */
  datatype Cell = Null | Num(x: real) | Text(s: string)

  type Row = map<string, Cell>

  datatype Table = Table(columns: seq<string>, rows: map<string, Row>)

  predicate Distinct(cs: seq<string>) {
    forall i, j :: 0 <= i < j < |cs| ==> cs[i] != cs[j]
  }

  /** Column names are distinct and every row has exactly the table's columns. */
  predicate WellFormed(t: Table) {
    && Distinct(t.columns)
    && forall m :: m in t.rows ==> t.rows[m].Keys == (set c | c in t.columns)
  }

  /** A row of NaNs over the given columns. */
  function NullRow(columns: seq<string>): (r: Row)
    ensures r.Keys == (set c | c in columns)
    ensures forall c :: c in r ==> r[c] == Null
  {
    map c | c in columns :: Null
  }

  /** The row of `m` in `t`, or NaNs when `t` has no row for `m`. */
  function RowOrNull(t: Table, m: string): Row {
    if m in t.rows then t.rows[m] else NullRow(t.columns)
  }

  /** The cell of column `c` for MAG `m` in `t`; NaN when `t` lacks it. */
  function CellOf(t: Table, m: string, c: string): Cell {
    if m in t.rows && c in t.rows[m] then t.rows[m][c] else Null
  }

  /** A row whose i-th column holds the i-th cell. */
  function RowOf(columns: seq<string>, cells: seq<Cell>): (r: Row)
    requires Distinct(columns) && |cells| == |columns|
    ensures r.Keys == (set c | c in columns)
    ensures forall i :: 0 <= i < |columns| ==> r[columns[i]] == cells[i]
  {
    map i | 0 <= i < |columns| :: columns[i] := cells[i]
  }

  /** A data frame read from records: the i-th record, keyed by the i-th
      MAG id, fills one row. */
  function FromRecords(columns: seq<string>, keys: seq<string>, cells: seq<seq<Cell>>): (t: Table)
    requires Distinct(columns) && Distinct(keys) && |cells| == |keys|
    requires forall i :: 0 <= i < |cells| ==> |cells[i]| == |columns|
    ensures WellFormed(t) && t.columns == columns
    ensures t.rows.Keys == (set m | m in keys)
    decreases |keys|
  {
    if keys == [] then Table(columns, map[])
    else
      var n := |keys| - 1;
      assert Distinct(keys[..n]);
      var t := FromRecords(columns, keys[..n], cells[..n]);
      assert keys[n] !in t.rows;
      assert (set m | m in keys) == (set m | m in keys[..n]) + {keys[n]} by {
        assert keys == keys[..n] + [keys[n]];
      }
      Table(columns, t.rows[keys[n] := RowOf(columns, cells[n])])
  }

  /** The row of the i-th key holds the i-th record's cells. */
  lemma FromRecordsCell(columns: seq<string>, keys: seq<string>, cells: seq<seq<Cell>>, i: nat, j: nat)
    requires Distinct(columns) && Distinct(keys) && |cells| == |keys|
    requires forall i :: 0 <= i < |cells| ==> |cells[i]| == |columns|
    requires i < |keys| && j < |columns|
    ensures FromRecords(columns, keys, cells).rows[keys[i]][columns[j]] == cells[i][j]
  {
    FromRecordsRow(columns, keys, cells, i);
  }

  /** The row of the i-th key is made of the i-th record. */
  lemma {:induction false} FromRecordsRow(columns: seq<string>, keys: seq<string>, cells: seq<seq<Cell>>, i: nat)
    requires Distinct(columns) && Distinct(keys) && |cells| == |keys|
    requires forall i :: 0 <= i < |cells| ==> |cells[i]| == |columns|
    requires i < |keys|
    ensures FromRecords(columns, keys, cells).rows[keys[i]] == RowOf(columns, cells[i])
    decreases |keys|
  {
    var n := |keys| - 1;
    var init := FromRecordsLast(columns, keys, cells);
    if i < n {
      FromRecordsRow(columns, keys[..n], cells[..n], i);
      assert keys[..n][i] == keys[i] && cells[..n][i] == cells[i];
      assert keys[i] != keys[n];
    }
  }

  /** The last record is the last row added. */
  lemma FromRecordsLast(columns: seq<string>, keys: seq<string>, cells: seq<seq<Cell>>) returns (init: Table)
    requires Distinct(columns) && Distinct(keys) && |cells| == |keys| && |keys| > 0
    requires forall i :: 0 <= i < |cells| ==> |cells[i]| == |columns|
    ensures var n := |keys| - 1;
            && Distinct(keys[..n])
            && init == FromRecords(columns, keys[..n], cells[..n])
            && FromRecords(columns, keys, cells).rows == init.rows[keys[n] := RowOf(columns, cells[n])]
  {
    var n := |keys| - 1;
    assert Distinct(keys[..n]);
    init := FromRecords(columns, keys[..n], cells[..n]);
  }

  /** Two lists of distinct names with no name in common concatenate to one. */
  lemma DistinctAppend(a: seq<string>, b: seq<string>)
    requires Distinct(a) && Distinct(b)
    requires forall c :: c in a ==> c !in b
    ensures Distinct(a + b)
  {
    forall i, j | 0 <= i < j < |a + b| ensures (a + b)[i] != (a + b)[j] {
      if j < |a| {
      } else if i < |a| {
        assert a[i] in a && b[j - |a|] in b;
      }
    }
  }

  lemma DistinctPrefix(a: seq<string>, b: seq<string>)
    requires Distinct(a + b)
    ensures Distinct(a) && Distinct(b)
    ensures forall c :: c in a ==> c !in b
  {
    forall i, j | 0 <= i < j < |a| ensures a[i] != a[j] {
      assert (a + b)[i] == a[i] && (a + b)[j] == a[j];
    }
    forall i, j | 0 <= i < j < |b| ensures b[i] != b[j] {
      assert (a + b)[|a| + i] == b[i] && (a + b)[|a| + j] == b[j];
    }
    forall i, j | 0 <= i < |a| && 0 <= j < |b| ensures a[i] != b[j] {
      assert (a + b)[i] == a[i] && (a + b)[|a| + j] == b[j];
    }
  }

  /** A row over columns `a` extended by one over columns `b`. */
  lemma RowUnion(a: seq<string>, b: seq<string>, row: Row, extra: Row)
    requires Distinct(a + b)
    requires row.Keys == (set c | c in a) && extra.Keys == (set c | c in b)
    ensures (row + extra).Keys == (set c | c in a + b)
    ensures forall c :: c in a ==> (row + extra)[c] == row[c]
  {
    DistinctPrefix(a, b);
    forall c | c in a + b ensures c in a || c in b {
    }
    assert (set c | c in a + b) == (set c | c in a) + (set c | c in b);
  }

  /** `pd.merge(a, b, on='mag', how='outer')` for tables with unique keys
      and no shared column: every MAG of either table gets one row, holding
      its cells from each table, or NaN where a table has no row for it. */
  function OuterJoin(a: Table, b: Table): (r: Table)
    requires WellFormed(a) && WellFormed(b) && Distinct(a.columns + b.columns)
    ensures WellFormed(r)
    ensures r.columns == a.columns + b.columns
    ensures r.rows.Keys == a.rows.Keys + b.rows.Keys
    ensures forall m, c :: m in r.rows && c in a.columns ==> r.rows[m][c] == CellOf(a, m, c)
    ensures forall m, c :: m in r.rows && c in b.columns ==> r.rows[m][c] == CellOf(b, m, c)
  {
    DistinctPrefix(a.columns, b.columns);
    var r := Table(a.columns + b.columns,
                   map m | m in a.rows.Keys + b.rows.Keys :: RowOrNull(a, m) + RowOrNull(b, m));
    assert forall m :: m in r.rows ==> JoinedRow(a, b, m) by {
      forall m | m in r.rows ensures JoinedRow(a, b, m) {
        JoinedRowFacts(a, b, m);
      }
    }
    r
  }

  /** The row the join builds for `m` has both tables' columns, with each
      table's cell for `m` or NaN. */
  predicate JoinedRow(a: Table, b: Table, m: string) {
    var row := RowOrNull(a, m) + RowOrNull(b, m);
    && row.Keys == (set c | c in a.columns + b.columns)
    && (forall c :: c in a.columns ==> row[c] == CellOf(a, m, c))
    && (forall c :: c in b.columns ==> row[c] == CellOf(b, m, c))
  }

  lemma JoinedRowFacts(a: Table, b: Table, m: string)
    requires WellFormed(a) && WellFormed(b)
    requires forall c :: c in a.columns ==> c !in b.columns
    ensures JoinedRow(a, b, m)
  {
    var ra, rb := RowOrNull(a, m), RowOrNull(b, m);
    assert ra.Keys == (set c | c in a.columns);
    assert rb.Keys == (set c | c in b.columns);
    forall c | c in a.columns ensures (ra + rb)[c] == CellOf(a, m, c) {
      assert c !in rb;
    }
  }

  /** A cell of the left table's columns after the join. */
  lemma JoinCellLeft(a: Table, b: Table, m: string, c: string)
    requires WellFormed(a) && WellFormed(b) && Distinct(a.columns + b.columns)
    requires c in a.columns
    ensures CellOf(OuterJoin(a, b), m, c) == CellOf(a, m, c)
  {
    var r := OuterJoin(a, b);
    if m in r.rows {
      assert c in r.rows[m];
    } else {
      assert m !in a.rows;
    }
  }

  /** A cell of the right table's columns after the join. */
  lemma JoinCellRight(a: Table, b: Table, m: string, c: string)
    requires WellFormed(a) && WellFormed(b) && Distinct(a.columns + b.columns)
    requires c in b.columns
    ensures CellOf(OuterJoin(a, b), m, c) == CellOf(b, m, c)
  {
    var r := OuterJoin(a, b);
    if m in r.rows {
      assert c in r.rows[m];
    } else {
      assert m !in b.rows;
    }
  }

  /** All column names of a list of tables, in order. */
  function AllColumns(ts: seq<Table>): (cs: seq<string>)
    ensures forall k, c :: 0 <= k < |ts| && c in ts[k].columns ==> c in cs
    decreases |ts|
  {
    if ts == [] then [] else ts[0].columns + AllColumns(ts[1..])
  }

  /** All MAG ids of a list of tables. */
  function AllKeys(ts: seq<Table>): (ks: set<string>)
    ensures forall m :: m in ks <==> exists k :: 0 <= k < |ts| && m in ts[k].rows
    decreases |ts|
  {
    if ts == [] then {} else ts[0].rows.Keys + AllKeys(ts[1..])
  }

  /** Seven well-formed tables as a list. */
  function Seven(t0: Table, t1: Table, t2: Table, t3: Table, t4: Table, t5: Table, t6: Table): (ts: seq<Table>)
    requires WellFormed(t0) && WellFormed(t1) && WellFormed(t2) && WellFormed(t3)
    requires WellFormed(t4) && WellFormed(t5) && WellFormed(t6)
    ensures |ts| == 7 && AllWellFormed(ts)
    ensures ts[0] == t0 && ts[1] == t1 && ts[2] == t2 && ts[3] == t3
    ensures ts[4] == t4 && ts[5] == t5 && ts[6] == t6
  {
    [t0, t1, t2, t3, t4, t5, t6]
  }

  /** The columns of a list of seven tables, written out. */
  lemma AllColumnsOfSeven(ts: seq<Table>)
    requires |ts| == 7
    ensures AllColumns(ts) == ts[0].columns + (ts[1].columns + (ts[2].columns + (ts[3].columns
                              + (ts[4].columns + (ts[5].columns + ts[6].columns)))))
  {
    var c6 := AllColumnsFrom(ts, 6);
    assert AllColumns(ts[7..]) == [] by { assert ts[7..] == []; }
    assert c6 == ts[6].columns;
    var c5 := AllColumnsFrom(ts, 5);
    var c4 := AllColumnsFrom(ts, 4);
    var c3 := AllColumnsFrom(ts, 3);
    var c2 := AllColumnsFrom(ts, 2);
    var c1 := AllColumnsFrom(ts, 1);
    var c0 := AllColumnsFrom(ts, 0);
    assert ts[0..] == ts;
  }

  /** `AllColumns` of a suffix, one table at a time. */
  lemma AllColumnsFrom(ts: seq<Table>, k: nat) returns (cs: seq<string>)
    requires k < |ts|
    ensures cs == AllColumns(ts[k..]) == ts[k].columns + AllColumns(ts[k + 1..])
  {
    assert ts[k..][0] == ts[k] && ts[k..][1..] == ts[k + 1..];
    cs := AllColumns(ts[k..]);
  }

  /** The ids of a list of seven tables, written out. */
  lemma AllKeysOfSeven(ts: seq<Table>)
    requires |ts| == 7
    ensures AllKeys(ts) == ts[0].rows.Keys + (ts[1].rows.Keys + (ts[2].rows.Keys + (ts[3].rows.Keys
                           + (ts[4].rows.Keys + (ts[5].rows.Keys + ts[6].rows.Keys)))))
  {
    var k6 := AllKeysFrom(ts, 6);
    assert AllKeys(ts[7..]) == {} by { assert ts[7..] == []; }
    assert k6 == ts[6].rows.Keys;
    var k5 := AllKeysFrom(ts, 5);
    var k4 := AllKeysFrom(ts, 4);
    var k3 := AllKeysFrom(ts, 3);
    var k2 := AllKeysFrom(ts, 2);
    var k1 := AllKeysFrom(ts, 1);
    var k0 := AllKeysFrom(ts, 0);
    assert ts[0..] == ts;
  }

  lemma AllKeysFrom(ts: seq<Table>, k: nat) returns (ks: set<string>)
    requires k < |ts|
    ensures ks == AllKeys(ts[k..]) == ts[k].rows.Keys + AllKeys(ts[k + 1..])
  {
    assert ts[k..][0] == ts[k] && ts[k..][1..] == ts[k + 1..];
    ks := AllKeys(ts[k..]);
  }

  predicate AllWellFormed(ts: seq<Table>) {
    forall i :: 0 <= i < |ts| ==> WellFormed(ts[i])
  }

  /** The report merger's loop `for df in ts: acc = pd.merge(acc, df, ...)`:
      a left fold of outer joins. Its rows are keyed by the union of all
      the tables' MAG ids. */
  function MergeAll(acc: Table, ts: seq<Table>): (r: Table)
    requires WellFormed(acc) && AllWellFormed(ts)
    requires Distinct(acc.columns + AllColumns(ts))
    ensures WellFormed(r)
    ensures r.columns == acc.columns + AllColumns(ts)
    ensures r.rows.Keys == acc.rows.Keys + AllKeys(ts)
    decreases |ts|
  {
    if ts == [] then
      assert acc.columns + AllColumns(ts) == acc.columns;
      acc
    else
      assert acc.columns + AllColumns(ts) == (acc.columns + ts[0].columns) + AllColumns(ts[1..]);
      DistinctPrefix(acc.columns + ts[0].columns, AllColumns(ts[1..]));
      MergeAll(OuterJoin(acc, ts[0]), ts[1..])
  }

  /** One step of the fold: join the first table, then fold the rest. */
  lemma MergeAllStep(acc: Table, ts: seq<Table>) returns (j: Table)
    requires WellFormed(acc) && AllWellFormed(ts)
    requires Distinct(acc.columns + AllColumns(ts)) && ts != []
    ensures Distinct(acc.columns + ts[0].columns) && WellFormed(ts[0])
    ensures j == OuterJoin(acc, ts[0])
    ensures AllWellFormed(ts[1..]) && Distinct(j.columns + AllColumns(ts[1..]))
    ensures MergeAll(acc, ts) == MergeAll(j, ts[1..])
    ensures forall k :: 0 < k < |ts| ==> ts[1..][k - 1] == ts[k]
  {
    Text.AppendRegroup(acc.columns, ts[0].columns, AllColumns(ts[1..]));
    DistinctPrefix(acc.columns + ts[0].columns, AllColumns(ts[1..]));
    j := OuterJoin(acc, ts[0]);
  }

  /** After the fold, the cells of the first table's columns are its own
      cells, or NaN for MAGs it has no row for. */
  lemma {:induction false} MergeAllKeepsAcc(acc: Table, ts: seq<Table>, m: string, c: string)
    requires WellFormed(acc) && AllWellFormed(ts)
    requires Distinct(acc.columns + AllColumns(ts))
    requires m in MergeAll(acc, ts).rows && c in acc.columns
    ensures MergeAll(acc, ts).rows[m][c] == CellOf(acc, m, c)
    decreases |ts|
  {
    if ts != [] {
      var j := MergeAllStep(acc, ts);
      MergeAllKeepsAcc(j, ts[1..], m, c);
      JoinCellLeft(acc, ts[0], m, c);
    }
  }

  /** After the fold, the cells of the k-th joined table's columns are that
      table's cells, or NaN for MAGs it has no row for. */
  lemma {:induction false} MergeAllCell(acc: Table, ts: seq<Table>, k: nat, m: string, c: string)
    requires WellFormed(acc) && AllWellFormed(ts)
    requires Distinct(acc.columns + AllColumns(ts))
    requires k < |ts| && m in MergeAll(acc, ts).rows && c in ts[k].columns
    ensures MergeAll(acc, ts).rows[m][c] == CellOf(ts[k], m, c)
    decreases k, 1
  {
    if k == 0 {
      MergeAllFirstCell(acc, ts, m, c);
    } else {
      MergeAllLaterCell(acc, ts, k, m, c);
    }
  }

  /** `MergeAllCell` for a later table: it is one of the tables joined to
      the first join. */
  lemma {:induction false} MergeAllLaterCell(acc: Table, ts: seq<Table>, k: nat, m: string, c: string)
    requires WellFormed(acc) && AllWellFormed(ts)
    requires Distinct(acc.columns + AllColumns(ts))
    requires 0 < k < |ts| && m in MergeAll(acc, ts).rows && c in ts[k].columns
    ensures MergeAll(acc, ts).rows[m][c] == CellOf(ts[k], m, c)
    decreases k, 0
  {
    var j := MergeAllStep(acc, ts);
    MergeAllCell(j, ts[1..], k - 1, m, c);
  }

  /** `MergeAllCell` for the first joined table. */
  lemma MergeAllFirstCell(acc: Table, ts: seq<Table>, m: string, c: string)
    requires WellFormed(acc) && AllWellFormed(ts)
    requires Distinct(acc.columns + AllColumns(ts))
    requires 0 < |ts| && m in MergeAll(acc, ts).rows && c in ts[0].columns
    ensures MergeAll(acc, ts).rows[m][c] == CellOf(ts[0], m, c)
  {
    var j := MergeAllStep(acc, ts);
    assert c in j.columns;
    MergeAllKeepsAcc(j, ts[1..], m, c);
    JoinCellRight(acc, ts[0], m, c);
  }
}

/** The rows of a list of compound values, from the columns a search returns. */
module Columns {
  import opened Wrappers

  /** A flattened entry: a list, or a single value standing for a list of one. */
  datatype Cell<V> = One(value: V) | Many(values: seq<V>)
  datatype Column<V> = Column(key: string, cell: Cell<V>)

  function Values<V>(c: Column<V>): seq<V> {
    match c.cell
    case One(v) => [v]
    case Many(vs) => vs
  }

  predicate Keyed<V>(columns: seq<Column<V>>) {
    forall i, j :: 0 <= i < j < |columns| ==> columns[i].key != columns[j].key
  }

  /** All columns have as many values as the first. */
  predicate Even<V>(columns: seq<Column<V>>) {
    forall k :: 0 <= k < |columns| ==> |Values(columns[k])| == |Values(columns[0])|
  }

  predicate HasKey<V>(columns: seq<Column<V>>, key: string) {
    exists k :: 0 <= k < |columns| && columns[k].key == key
  }

  /** Each row has exactly the columns' keys, and column `k` of the rows is column `k`. */
  ghost predicate Transposed<V>(columns: seq<Column<V>>, rows: seq<map<string, V>>) {
    && (columns == [] ==> rows == [])
    && (forall k :: 0 <= k < |columns| ==> |Values(columns[k])| == |rows|)
    && (forall i, key :: 0 <= i < |rows| ==> (key in rows[i] <==> HasKey(columns, key)))
    && (forall i, k :: 0 <= i < |rows| && 0 <= k < |columns| ==>
          columns[k].key in rows[i] && rows[i][columns[k].key] == Values(columns[k])[i])
  }

  /** The rows are determined by the columns. */
  lemma TransposedOnce<V>(columns: seq<Column<V>>, a: seq<map<string, V>>, b: seq<map<string, V>>)
    requires Transposed(columns, a) && Transposed(columns, b)
    ensures a == b
  {
    if columns != [] {
      assert |Values(columns[0])| == |a| == |b|;
      forall i | 0 <= i < |a| ensures a[i] == b[i] {
        forall key ensures (key in a[i] <==> key in b[i]) && (key in a[i] && key in b[i] ==> a[i][key] == b[i][key]) {
          if HasKey(columns, key) {
            var k :| 0 <= k < |columns| && columns[k].key == key;
          }
        }
      }
    }
  }

  /** One row per value of the first column. */
  method FirstColumn<V>(column: Column<V>) returns (rows: seq<map<string, V>>)
    ensures Transposed([column], rows)
  {
    var val := Values(column);
    rows := [];
    for i := 0 to |val|
      invariant |rows| == i && forall j :: 0 <= j < i ==> rows[j] == map[column.key := val[j]]
    {
      rows := rows + [map[column.key := val[i]]];
    }
    assert HasKey([column], [column][0].key);
  }

  /** Fill in one more column, row by row. */
  method NextColumn<V>(ghost before: seq<Column<V>>, column: Column<V>, rows: seq<map<string, V>>)
    returns (filled: seq<map<string, V>>)
    requires before != [] && Transposed(before, rows) && |Values(column)| == |rows| && Keyed(before + [column])
    ensures Transposed(before + [column], filled)
  {
    var val := Values(column);
    filled := rows;
    for i := 0 to |val|
      invariant |filled| == |rows|
      invariant forall j :: 0 <= j < i ==> filled[j] == rows[j][column.key := val[j]]
      invariant forall j :: i <= j < |rows| ==> filled[j] == rows[j]
    {
      filled := filled[i := filled[i][column.key := val[i]]];
    }
    ColumnAdded(before, column, rows, filled);
  }

  lemma ColumnAdded<V>(before: seq<Column<V>>, column: Column<V>, rows: seq<map<string, V>>,
                       filled: seq<map<string, V>>)
    requires before != [] && Transposed(before, rows) && |Values(column)| == |rows| && Keyed(before + [column])
    requires |filled| == |rows| && forall j :: 0 <= j < |rows| ==> filled[j] == rows[j][column.key := Values(column)[j]]
    ensures Transposed(before + [column], filled)
  {
    var all := before + [column];
    forall key ensures HasKey(all, key) <==> HasKey(before, key) || key == column.key {
      if HasKey(before, key) {
        var k :| 0 <= k < |before| && before[k].key == key;
        assert all[k].key == key;
      }
      assert all[|before|].key == column.key;
    }
    forall k | 0 <= k < |before| ensures all[k].key != column.key {
      assert all[|before|] == column;
    }
  }

  /** The dictionary branch of `List.check`; `None` stands for the exception. Nothing is lost, and the columns are
      refused exactly when their lengths differ. */
  method Rows<V>(columns: seq<Column<V>>) returns (r: Option<seq<map<string, V>>>)
    requires Keyed(columns)
    ensures r.Some? <==> Even(columns)
    ensures r.Some? ==> Transposed(columns, r.value)
  {
    var rows: seq<map<string, V>> := [];
    for k := 0 to |columns|
      invariant Transposed(columns[..k], rows)
    {
      assert columns[..k + 1] == columns[..k] + [columns[k]];
      if k == 0 {
        rows := FirstColumn(columns[0]);
        assert columns[..1] == [columns[0]];
      } else if |Values(columns[k])| != |rows| {
        assert |Values(columns[..k][0])| == |rows|;
        return None;
      } else {
        rows := NextColumn(columns[..k], columns[k], rows);
      }
    }
    assert columns[..|columns|] == columns;
    return Some(rows);
  }
}

/** The raw field map both sites build from a detail page's first table:
    every row `[k, v, ...]` stores `lower(norm(k))` -> `norm(v)`, where `norm`
    is the site's `drop_extra`, and a later row overwrites an earlier one. */
module RawFields {
  import opened Values
  import opened Text

  /** The texts of one table row's `td` cells. */
  type Row = seq<string>

  type FieldMap = map<string, Value>

  /** `item[1]` is read for every row; a row with fewer cells aborts the run. */
  predicate WellFormedTable(rows: seq<Row>)
  {
    forall i :: 0 <= i < |rows| ==> |rows[i]| >= 2
  }

  function RowKey(row: Row, norm: string -> string): string
    requires |row| >= 1
  {
    Lower(norm(row[0]))
  }

  function RowValue(row: Row, norm: string -> string): Value
    requires |row| >= 2
  {
    Text(norm(row[1]))
  }

  /** Some row of the table has key `k`. */
  predicate HasRow(rows: seq<Row>, norm: string -> string, k: string)
    requires WellFormedTable(rows)
  {
    exists i :: 0 <= i < |rows| && RowKey(rows[i], norm) == k
  }

  /** Every key `keys` lists mapped to `None`. */
  function Seed(keys: seq<string>): (m: FieldMap)
    ensures forall j :: 0 <= j < |keys| ==> keys[j] in m && m[keys[j]] == Null
  {
    map k | k in keys :: Null
  }

  /** One more pass of the seeding loop adds one more key. */
  lemma SeedStep(keys: seq<string>, i: nat)
    requires i < |keys|
    ensures Seed(keys[..i + 1]) == Seed(keys[..i])[keys[i] := Null]
  {
    assert keys[..i + 1] == keys[..i] + [keys[i]];
  }

  /** The map after the rows have been stored in order into `m`. */
  function ApplyRows(m: FieldMap, rows: seq<Row>, norm: string -> string): FieldMap
    requires WellFormedTable(rows)
    decreases |rows|
  {
    if rows == [] then m
    else
      var last := rows[|rows| - 1];
      ApplyRows(m, rows[..|rows| - 1], norm)[RowKey(last, norm) := RowValue(last, norm)]
  }

  /** The stored keys are the seeded ones plus the key of every row. */
  lemma {:induction false} ApplyRowsKeys(m: FieldMap, rows: seq<Row>, norm: string -> string, k: string)
    requires WellFormedTable(rows)
    ensures k in ApplyRows(m, rows, norm) <==> k in m || HasRow(rows, norm, k)
    decreases |rows|
  {
    if rows != [] {
      var init := rows[..|rows| - 1];
      ApplyRowsKeys(m, init, norm, k);
      if HasRow(rows, norm, k) && k != RowKey(rows[|rows| - 1], norm) {
        var i :| 0 <= i < |rows| && RowKey(rows[i], norm) == k;
        assert rows[i] == init[i];
      }
      if HasRow(init, norm, k) {
        var i :| 0 <= i < |init| && RowKey(init[i], norm) == k;
        assert rows[i] == init[i];
      }
    }
  }

  /** The row that last mentions a key decides its value. */
  lemma {:induction false} LastWriteWins(m: FieldMap, rows: seq<Row>, norm: string -> string, j: nat)
    requires WellFormedTable(rows)
    requires j < |rows|
    requires forall i :: j < i < |rows| ==> RowKey(rows[i], norm) != RowKey(rows[j], norm)
    ensures RowKey(rows[j], norm) in ApplyRows(m, rows, norm)
    ensures ApplyRows(m, rows, norm)[RowKey(rows[j], norm)] == RowValue(rows[j], norm)
    decreases |rows|
  {
    if j < |rows| - 1 {
      var init := rows[..|rows| - 1];
      assert init[j] == rows[j];
      assert forall i :: j < i < |init| ==> init[i] == rows[i];
      LastWriteWins(m, init, norm, j);
    }
  }

  /** A key no row mentions keeps its seeded state: present with the same
      value, or absent. */
  lemma {:induction false} NoRowKeepsSeed(m: FieldMap, rows: seq<Row>, norm: string -> string, k: string)
    requires WellFormedTable(rows)
    requires !HasRow(rows, norm, k)
    ensures k in ApplyRows(m, rows, norm) <==> k in m
    ensures k in m ==> ApplyRows(m, rows, norm)[k] == m[k]
    decreases |rows|
  {
    if rows != [] {
      var init := rows[..|rows| - 1];
      assert RowKey(rows[|rows| - 1], norm) != k;
      NoRowKeepsSeed(m, init, norm, k);
    }
  }

  /** The loop `for item in list_items: res[item[0].lower()] = item[1]`. */
  method StoreRows(res: FieldMap, rows: seq<Row>, norm: string -> string) returns (r: FieldMap)
    requires WellFormedTable(rows)
    ensures r == ApplyRows(res, rows, norm)
  {
    r := res;
    var i := 0;
    while i < |rows|
      invariant 0 <= i <= |rows|
      invariant r == ApplyRows(res, rows[..i], norm)
    {
      assert rows[..i + 1][..i] == rows[..i];
      r := r[RowKey(rows[i], norm) := RowValue(rows[i], norm)];
      i := i + 1;
    }
    assert rows[..i] == rows;
  }
}

/** Schema reconciliation, the body of the script's main block
    (transform.py:105-128): collect the distinct column names of all loaded
    tables, sort them, and build one column per name by walking the tables in
    input order, appending each table's own cells or, where the table lacks the
    column, `row_count` fillers ("" for "D" columns, the string "0" otherwise). */
module SchemaMerge {
  import opened Tables
  import opened Coercion
  import opened ColumnNames

  predicate AllValid(ds: seq<Table>)
  {
    forall i :: 0 <= i < |ds| ==> ValidTable(ds[i])
  }

  /** Every table has a first column to count its rows from. */
  predicate AllNonEmpty(ds: seq<Table>)
  {
    forall i :: 0 <= i < |ds| ==> ds[i].order != []
  }

  predicate AllRectangular(ds: seq<Table>)
  {
    forall i :: 0 <= i < |ds| ==> Rectangular(ds[i])
  }

  /** Table `i` is the first one without a column. */
  predicate FirstEmptyAt(ds: seq<Table>, i: nat)
  {
    i < |ds| && ds[i].order == [] && AllNonEmpty(ds[..i])
  }

  /** The column names of all tables. */
  function ColumnSet(ds: seq<Table>): (names: set<string>)
    ensures forall n :: n in names <==> exists i :: 0 <= i < |ds| && n in ds[i].columns
  {
    if ds == [] then {}
    else
      var init := ds[..|ds| - 1];
      assert forall i :: 0 <= i < |init| ==> init[i] == ds[i];
      ColumnSet(init) + ds[|ds| - 1].columns.Keys
  }

  /** The number of columns summed over the tables. */
  function ColumnCount(ds: seq<Table>): nat
  {
    if ds == [] then 0 else ColumnCount(ds[..|ds| - 1]) + |ds[|ds| - 1].columns|
  }

  predicate AllNamesWellFormed(ds: seq<Table>)
  {
    forall n :: n in ColumnSet(ds) ==> WellFormed(n)
  }

  /** Tables that share no column contribute all their columns to the union. */
  lemma {:induction false} DisjointUnionSize(ds: seq<Table>)
    requires forall i, j :: 0 <= i < j < |ds| ==> ds[i].columns.Keys !! ds[j].columns.Keys
    ensures |ColumnSet(ds)| == ColumnCount(ds)
  {
    if ds != [] {
      var init := ds[..|ds| - 1];
      var last := ds[|ds| - 1];
      assert forall i :: 0 <= i < |init| ==> init[i] == ds[i];
      DisjointUnionSize(init);
      assert ColumnSet(ds) == ColumnSet(init) + last.columns.Keys;
      forall n | n in ColumnSet(init) ensures n !in last.columns.Keys {
        var i :| 0 <= i < |init| && n in init[i].columns;
        assert ds[i].columns.Keys !! last.columns.Keys;
      }
    }
  }

  /** Line 110, `list(set(names))`: the names without repetitions, in the
      arbitrary order in which a set yields them. */
  method SetToList(names: seq<string>) returns (keys: seq<string>)
    ensures NoDuplicates(keys)
    ensures forall n :: n in keys <==> n in names
  {
    var remaining := set n | n in names;
    keys := [];
    while remaining != {}
      invariant NoDuplicates(keys)
      invariant forall n :: n in keys ==> n !in remaining
      invariant forall n :: n in names <==> n in keys || n in remaining
      decreases remaining
    {
      var n :| n in remaining;
      keys := keys + [n];
      remaining := remaining - {n};
    }
  }

  /** Lines 105-110: the distinct column names of all tables. */
  method UnionKeys(datasets: seq<Table>) returns (keys: seq<string>)
    requires AllValid(datasets)
    ensures NoDuplicates(keys)
    ensures forall n :: n in keys <==> n in ColumnSet(datasets)
    ensures |keys| == |ColumnSet(datasets)|
  {
    var allKeys: seq<string> := [];
    var i := 0;
    while i < |datasets|
      invariant 0 <= i <= |datasets|
      invariant forall n :: n in allKeys <==> n in ColumnSet(datasets[..i])
    {
      assert datasets[..i + 1][..i] == datasets[..i];
      allKeys := allKeys + datasets[i].order;
      i := i + 1;
    }
    assert datasets[..i] == datasets;
    keys := SetToList(allKeys);
    NoDuplicatesCardinality(keys);
    assert (set n | n in keys) == ColumnSet(datasets);
  }

  /** The filler cell of a column a table lacks. */
  function FillValue(c: string): string
  {
    if IsDimension(c) then "" else "0"
  }

  function Filler(c: string, n: nat): seq<string>
  {
    seq(n, _ => FillValue(c))
  }

  /** What table `d` contributes to column `c`. */
  function Segment(d: Table, c: string): seq<string>
  {
    if c in d.columns then d.columns[c] else Filler(c, RowCount(d))
  }

  /** Specification of a merged column: the tables' segments, in input order. */
  function MergedColumn(ds: seq<Table>, c: string): seq<string>
  {
    if ds == [] then []
    else MergedColumn(ds[..|ds| - 1], c) + Segment(ds[|ds| - 1], c)
  }

  /** Merging one more table appends its segment. */
  lemma MergedColumnStep(ds: seq<Table>, i: nat, c: string)
    requires i < |ds|
    ensures MergedColumn(ds[..i + 1], c) == MergedColumn(ds[..i], c) + Segment(ds[i], c)
  {
    assert ds[..i + 1][..i] == ds[..i];
  }

  /** The row counts summed over the tables. */
  function TotalRows(ds: seq<Table>): nat
  {
    if ds == [] then 0 else TotalRows(ds[..|ds| - 1]) + RowCount(ds[|ds| - 1])
  }

  /** Lines 116-125 for one table: every key's column is extended by the
      table's own cells or by `row_count` fillers. */
  method AppendTable(result: map<string, seq<string>>, sortedKeys: seq<string>, dataset: Table)
    returns (result': map<string, seq<string>>)
    requires ValidTable(dataset) && dataset.order != []
    requires NoDuplicates(sortedKeys)
    requires forall c :: c in result <==> c in sortedKeys
    ensures forall c :: c in result' <==> c in sortedKeys
    ensures forall c :: c in result' ==> result'[c] == result[c] + Segment(dataset, c)
  {
    var rowCount := |dataset.columns[dataset.order[0]]|;
    result' := result;
    var j := 0;
    while j < |sortedKeys|
      invariant 0 <= j <= |sortedKeys|
      invariant forall c :: c in result' <==> c in sortedKeys
      invariant forall k :: 0 <= k < j ==> result'[sortedKeys[k]] == result[sortedKeys[k]] + Segment(dataset, sortedKeys[k])
      invariant forall k :: j <= k < |sortedKeys| ==> result'[sortedKeys[k]] == result[sortedKeys[k]]
    {
      var column := sortedKeys[j];
      if column in dataset.columns {
        result' := result'[column := result'[column] + dataset.columns[column]];
      } else if IsDimension(column) {
        assert seq(rowCount, _ => "") == Filler(column, rowCount);
        result' := result'[column := result'[column] + seq(rowCount, _ => "")];
      } else {
        assert seq(rowCount, _ => "0") == Filler(column, rowCount);
        result' := result'[column := result'[column] + seq(rowCount, _ => "0")];
      }
      j := j + 1;
    }
    forall c | c in result' ensures result'[c] == result[c] + Segment(dataset, c) {
      var k :| 0 <= k < |sortedKeys| && sortedKeys[k] == c;
    }
  }

  /** Lines 114-125: one column per key, extended table by table. A table
      without columns stops the merge. */
  method Merge(datasets: seq<Table>, sortedKeys: seq<string>)
    returns (r: Result<map<string, seq<string>>>)
    requires AllValid(datasets)
    requires NoDuplicates(sortedKeys)
    ensures r.Ok? <==> AllNonEmpty(datasets)
    ensures r.Err? ==> exists i :: FirstEmptyAt(datasets, i) && r.error == EmptyTable(i)
    ensures r.Ok? ==> forall c :: c in r.value <==> c in sortedKeys
    ensures r.Ok? ==> forall c :: c in r.value ==> r.value[c] == MergedColumn(datasets, c)
  {
    var result: map<string, seq<string>> := map c | c in sortedKeys :: [];
    var i := 0;
    while i < |datasets|
      invariant 0 <= i <= |datasets|
      invariant AllNonEmpty(datasets[..i])
      invariant forall c :: c in result <==> c in sortedKeys
      invariant forall c :: c in result ==> result[c] == MergedColumn(datasets[..i], c)
    {
      if datasets[i].order == [] {
        assert FirstEmptyAt(datasets, i);
        return Err(EmptyTable(i));
      }
      var prefix := datasets[..i + 1];
      assert prefix[..i] == datasets[..i];
      assert AllNonEmpty(prefix);
      result := AppendTable(result, sortedKeys, datasets[i]);
      forall c | c in result ensures result[c] == MergedColumn(prefix, c) {
        MergedColumnStep(datasets, i, c);
      }
      i := i + 1;
    }
    assert datasets[..i] == datasets;
    return Ok(result);
  }

  /** Lines 126-128: the merged columns copied into an ordered dictionary in
      key order. */
  method CopyInOrder(keys: seq<string>, columns: map<string, seq<string>>) returns (t: Table)
    requires NoDuplicates(keys)
    requires forall c :: c in keys ==> c in columns
    ensures ValidTable(t)
    ensures t.order == keys
    ensures forall c :: c in t.columns ==> t.columns[c] == columns[c]
  {
    var order: seq<string> := [];
    var sortedResult: map<string, seq<string>> := map[];
    for i := 0 to |keys|
      invariant order == keys[..i]
      invariant forall c :: c in sortedResult <==> c in order
      invariant forall c :: c in sortedResult ==> sortedResult[c] == columns[c]
    {
      order := order + [keys[i]];
      sortedResult := sortedResult[keys[i] := columns[keys[i]]];
    }
    assert keys[..|keys|] == keys;
    t := Table(order, sortedResult);
  }

  /** Lines 105-128: union, sort, merge and copy. Fails on the first column
      name without a sort key or, after sorting, on the first table without
      a column. */
  method Reconcile(datasets: seq<Table>) returns (r: Result<Table>)
    requires AllValid(datasets)
    ensures r.Ok? <==> AllNamesWellFormed(datasets) && AllNonEmpty(datasets)
    ensures r.Err? ==>
              || (exists n :: n in ColumnSet(datasets) && !WellFormed(n) && r.error == NameError(n))
              || (AllNamesWellFormed(datasets) && exists i :: FirstEmptyAt(datasets, i) && r.error == EmptyTable(i))
    ensures r.Ok? ==> ValidTable(r.value)
    ensures r.Ok? ==> forall n :: n in r.value.columns <==> n in ColumnSet(datasets)
    ensures r.Ok? ==> AllWellFormed(r.value.order) && SortedByKey(r.value.order)
    ensures r.Ok? ==> forall c :: c in r.value.columns ==> r.value.columns[c] == MergedColumn(datasets, c)
  {
    var allKeys := UnionKeys(datasets);
    var sorted := SortKeys(allKeys);
    if sorted.Err? {
      var i :| 0 <= i < |allKeys| && !WellFormed(allKeys[i]) && sorted.error == NameError(allKeys[i]);
      assert allKeys[i] in ColumnSet(datasets);
      return Err(sorted.error);
    }
    var sortedKeys := sorted.value;
    assert AllNamesWellFormed(datasets) by {
      forall n | n in ColumnSet(datasets) ensures WellFormed(n) {
        var i :| 0 <= i < |allKeys| && allKeys[i] == n;
      }
    }
    PermutationKeepsNoDuplicates(allKeys, sortedKeys);
    var merged := Merge(datasets, sortedKeys);
    if merged.Err? {
      return Err(merged.error);
    }
    var sortedResult := CopyInOrder(sortedKeys, merged.value);
    assert forall n :: n in sortedKeys <==> n in allKeys by {
      forall n ensures n in sortedKeys <==> n in allKeys {
        assert n in sortedKeys <==> n in multiset(sortedKeys);
        assert n in allKeys <==> n in multiset(allKeys);
      }
    }
    return Ok(sortedResult);
  }

  /** Row accounting: when every table is rectangular, every merged column has
      one cell per row of every table. */
  lemma {:induction false} MergedColumnLength(ds: seq<Table>, c: string)
    requires AllValid(ds) && AllNonEmpty(ds) && AllRectangular(ds)
    ensures |MergedColumn(ds, c)| == TotalRows(ds)
  {
    if ds != [] {
      var init := ds[..|ds| - 1];
      var last := ds[|ds| - 1];
      assert forall i :: 0 <= i < |init| ==> init[i] == ds[i];
      MergedColumnLength(init, c);
      assert last.order[0] in last.columns;
    }
  }

  /** The merge of the first `j` tables is a prefix of the merge of all. */
  lemma {:induction false} MergedColumnPrefix(ds: seq<Table>, c: string, j: nat)
    requires AllValid(ds) && AllNonEmpty(ds) && j <= |ds|
    ensures MergedColumn(ds[..j], c) <= MergedColumn(ds, c)
  {
    if j < |ds| {
      var init := ds[..|ds| - 1];
      assert init[..j] == ds[..j];
      MergedColumnPrefix(init, c, j);
    } else {
      assert ds[..j] == ds;
    }
  }

  /** A rectangular table contributes one cell per row to every column. */
  lemma SegmentLength(d: Table, c: string)
    requires ValidTable(d) && d.order != [] && Rectangular(d)
    ensures |Segment(d, c)| == RowCount(d)
  {
    assert d.order[0] in d.columns;
  }

  /** The number of rows contributed by the tables before table `i`. */
  function RowsBefore(ds: seq<Table>, i: nat): nat
    requires i <= |ds|
  {
    TotalRows(ds[..i])
  }

  /** The first `i` tables keep the properties of all of them. */
  lemma PrefixTables(ds: seq<Table>, i: nat)
    requires AllValid(ds) && AllNonEmpty(ds) && AllRectangular(ds) && i <= |ds|
    ensures AllValid(ds[..i]) && AllNonEmpty(ds[..i]) && AllRectangular(ds[..i])
  {
  }

  /** The rows of table `i` occupy the slice right after the rows of the
      tables before it, and hold that table's segment. */
  lemma MergedColumnSlice(ds: seq<Table>, c: string, i: nat)
    requires AllValid(ds) && AllNonEmpty(ds) && AllRectangular(ds)
    requires i < |ds|
    ensures RowsBefore(ds, i) + RowCount(ds[i]) <= |MergedColumn(ds, c)|
    ensures MergedColumn(ds, c)[RowsBefore(ds, i)..RowsBefore(ds, i) + RowCount(ds[i])] == Segment(ds[i], c)
  {
    var head, seg := MergedColumn(ds[..i], c), Segment(ds[i], c);
    MergedColumnStep(ds, i, c);
    PrefixTables(ds, i);
    MergedColumnLength(ds[..i], c);
    SegmentLength(ds[i], c);
    MergedColumnPrefix(ds, c, i + 1);
    SliceOfPrefix(MergedColumn(ds, c), head, seg);
  }

  /** When `head + seg` is a prefix of `s`, `seg` sits right after `head`. */
  lemma SliceOfPrefix(s: seq<string>, head: seq<string>, seg: seq<string>)
    requires head + seg <= s
    ensures |head| + |seg| <= |s| && s[|head|..|head| + |seg|] == seg
  {
    assert s[..|head| + |seg|] == head + seg;
  }

  /** Source order and back-fill: table `i`'s rows come right after the rows
      of the tables before it; there column `c` holds the table's own cells in
      their order or, if the table lacks `c`, one filler per row: "" for a "D"
      column and "0" for any other. */
  lemma MergedColumnSegment(ds: seq<Table>, c: string, i: nat)
    requires AllValid(ds) && AllNonEmpty(ds) && AllRectangular(ds)
    requires i < |ds|
    ensures RowsBefore(ds, i) + RowCount(ds[i]) <= |MergedColumn(ds, c)|
    ensures c in ds[i].columns ==>
              MergedColumn(ds, c)[RowsBefore(ds, i)..RowsBefore(ds, i) + RowCount(ds[i])] == ds[i].columns[c]
    ensures c !in ds[i].columns ==>
              forall k :: RowsBefore(ds, i) <= k < RowsBefore(ds, i) + RowCount(ds[i]) ==>
                MergedColumn(ds, c)[k] == (if IsDimension(c) then "" else "0")
  {
    MergedColumnSlice(ds, c, i);
    if c !in ds[i].columns {
      var lo, n := RowsBefore(ds, i), RowCount(ds[i]);
      assert Segment(ds[i], c) == seq(n, _ => FillValue(c));
      ConstantSlice(MergedColumn(ds, c), lo, n, FillValue(c));
    }
  }

  /** A slice that repeats one value holds that value at every index. */
  lemma ConstantSlice(s: seq<string>, lo: nat, n: nat, v: string)
    requires lo + n <= |s| && s[lo..lo + n] == seq(n, _ => v)
    ensures forall k :: lo <= k < lo + n ==> s[k] == v
  {
    forall k | lo <= k < lo + n ensures s[k] == v {
      assert s[k] == s[lo..lo + n][k - lo];
    }
  }

  /** A measure column's fillers coerce to zeros. */
  lemma MeasureFillerIsZero(c: string, n: nat)
    requires !IsDimension(c)
    ensures FormatData(Filler(c, n)) == Ok(seq(n, _ => 0))
  {
    assert ParseInt("0") == Some(0);
    var r := FormatData(Filler(c, n));
    assert r.value == seq(n, _ => 0);
  }

  /** A dimension column's fillers do not coerce: `int("")` raises. */
  lemma DimensionFillerIsNotNumeric(c: string, n: nat)
    requires IsDimension(c) && n > 0
    ensures FormatData(Filler(c, n)) == Err(NonNumericValue(""))
  {
    assert ParseInt("") == None;
  }

  /** The three tables {D1: [a, b]}, {D1: [a, b], M1: [1, 2]} and {M1: [3, 4]}. */
  function ExampleTables(): (ds: seq<Table>)
    ensures AllValid(ds) && AllNonEmpty(ds)
  {
    [Table(["D1"], map["D1" := ["a", "b"]]),
     Table(["D1", "M1"], map["D1" := ["a", "b"], "M1" := ["1", "2"]]),
     Table(["M1"], map["M1" := ["3", "4"]])]
  }

  /** In the example the third table lacks D1, which is back-filled with "". */
  lemma MergeExampleDimension()
    ensures MergedColumn(ExampleTables(), "D1") == ["a", "b", "a", "b", "", ""]
  {
    var ds := ExampleTables();
    assert ds[..2][..1] == ds[..1] && ds[..1][..0] == [] && ds[..3] == ds;
    assert RowCount(ds[2]) == 2;
    assert Filler("D1", 2) == ["", ""];
    assert MergedColumn(ds[..1], "D1") == ["a", "b"];
    assert MergedColumn(ds[..2], "D1") == ["a", "b", "a", "b"];
  }

  /** In the example the first table lacks M1, which is back-filled with "0". */
  lemma MergeExampleMeasure()
    ensures MergedColumn(ExampleTables(), "M1") == ["0", "0", "1", "2", "3", "4"]
  {
    var ds := ExampleTables();
    assert ds[..2][..1] == ds[..1] && ds[..1][..0] == [] && ds[..3] == ds;
    assert RowCount(ds[0]) == 2;
    assert Filler("M1", 2) == ["0", "0"];
    assert MergedColumn(ds[..1], "M1") == ["0", "0"];
    assert MergedColumn(ds[..2], "M1") == ["0", "0", "1", "2"];
  }
}

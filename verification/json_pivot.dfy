/** The in-memory part of `load_json` (transform.py:28-39): a list of records
    (JSON objects) is pivoted into a table, one column per key, the column
    created on the key's first encounter. */
module JsonPivot {
  import opened Tables

  /** One JSON object: its key/value pairs in document order. */
  type Record = seq<(string, string)>

  /** A JSON object has every key once. */
  predicate DistinctKeys(r: Record)
  {
    forall i, j :: 0 <= i < j < |r| ==> r[i].0 != r[j].0
  }

  /** Every pair of every record, records in order. */
  function Flatten(records: seq<Record>): seq<(string, string)>
  {
    if records == [] then [] else Flatten(records[..|records| - 1]) + records[|records| - 1]
  }

  /** The keys of `pairs` in order of first occurrence, each once. */
  function FirstSeen(pairs: seq<(string, string)>): (keys: seq<string>)
    ensures NoDuplicates(keys)
  {
    if pairs == [] then []
    else
      var keys := FirstSeen(pairs[..|pairs| - 1]);
      var last := pairs[|pairs| - 1].0;
      if last in keys then keys else keys + [last]
  }

  /** The first-seen keys are exactly the keys that occur. */
  lemma {:induction false} FirstSeenKeys(pairs: seq<(string, string)>, k: string)
    ensures k in FirstSeen(pairs) <==> exists i :: 0 <= i < |pairs| && pairs[i].0 == k
  {
    if pairs != [] {
      var init := pairs[..|pairs| - 1];
      FirstSeenKeys(init, k);
      assert forall i :: 0 <= i < |init| ==> init[i] == pairs[i];
    }
  }

  /** The first pair's key heads the key order, so it names the first column
      of a pivoted table. */
  lemma {:induction false} FirstSeenHead(pairs: seq<(string, string)>)
    requires pairs != []
    ensures |FirstSeen(pairs)| > 0 && FirstSeen(pairs)[0] == pairs[0].0
  {
    if |pairs| > 1 {
      var init := pairs[..|pairs| - 1];
      FirstSeenHead(init);
    }
  }

  /** The values paired with `k`, in order. */
  function ValuesFor(pairs: seq<(string, string)>, k: string): seq<string>
  {
    if pairs == [] then []
    else
      var last := pairs[|pairs| - 1];
      ValuesFor(pairs[..|pairs| - 1], k) + (if last.0 == k then [last.1] else [])
  }

  /** The columns pivoted from `pairs`: each key's values, in order. */
  function PivotColumns(pairs: seq<(string, string)>): (columns: map<string, seq<string>>)
    ensures forall k :: k in columns <==> k in FirstSeen(pairs)
  {
    map k | k in FirstSeen(pairs) :: ValuesFor(pairs, k)
  }

  /** One more pair appends its value to its key's values and to no other. */
  lemma ValuesForStep(pairs: seq<(string, string)>, key: string, value: string, k: string)
    ensures ValuesFor(pairs + [(key, value)], k) == ValuesFor(pairs, k) + (if key == k then [value] else [])
  {
    assert (pairs + [(key, value)])[..|pairs|] == pairs;
  }

  /** How one more pair extends the key order and the columns: a new key is
      appended to the order with an empty column, and the value is appended to
      the key's column. */
  lemma PivotStep(pairs: seq<(string, string)>, key: string, value: string)
    ensures FirstSeen(pairs + [(key, value)])
            == if key in FirstSeen(pairs) then FirstSeen(pairs) else FirstSeen(pairs) + [key]
    ensures PivotColumns(pairs + [(key, value)])
            == PivotColumns(pairs)[key := (if key in PivotColumns(pairs) then PivotColumns(pairs)[key] else []) + [value]]
  {
    var next := pairs + [(key, value)];
    assert next[..|pairs|] == pairs;
    var before, after := PivotColumns(pairs), PivotColumns(next);
    var column := if key in before then before[key] else [];
    if key !in FirstSeen(pairs) {
      ValuesForNotSeen(pairs, key);
    }
    ValuesForStep(pairs, key, value, key);
    forall k | k in after && k != key ensures after[k] == before[k] {
      ValuesForStep(pairs, key, value, k);
    }
    var updated := before[key := column + [value]];
    assert after.Keys == updated.Keys;
    assert forall k :: k in after ==> after[k] == updated[k];
    assert after == updated;
  }

  lemma AppendNext<T>(prefix: seq<T>, s: seq<T>, j: nat)
    requires j < |s|
    ensures prefix + s[..j + 1] == (prefix + s[..j]) + [s[j]]
  {
    assert s[..j + 1] == s[..j] + [s[j]];
  }

  /** The inner loop of `load_json`: appends each pair of one record, creating
      a column the first time its key is met. */
  method PivotRecord(order: seq<string>, data: map<string, seq<string>>, field: Record,
                     ghost done: seq<(string, string)>)
    returns (order': seq<string>, data': map<string, seq<string>>)
    requires order == FirstSeen(done) && data == PivotColumns(done)
    ensures order' == FirstSeen(done + field) && data' == PivotColumns(done + field)
  {
    order', data' := order, data;
    ghost var seen := done;
    var j := 0;
    while j < |field|
      invariant 0 <= j <= |field|
      invariant seen == done + field[..j]
      invariant order' == FirstSeen(seen) && data' == PivotColumns(seen)
    {
      var key, value := field[j].0, field[j].1;
      PivotStep(seen, key, value);
      AppendNext(done, field, j);
      ghost var column := if key in data' then data'[key] else [];
      if key !in data' {
        data' := data'[key := []];
        order' := order' + [key];
      }
      assert data'[key] == column;
      data' := data'[key := data'[key] + [value]];
      seen := seen + [(key, value)];
      j := j + 1;
    }
    assert field[..|field|] == field;
  }

  /** Pivots the records as the nested loops of `load_json` do. */
  method Pivot(records: seq<Record>) returns (t: Table)
    ensures ValidTable(t)
    ensures t.order == FirstSeen(Flatten(records))
    ensures forall k :: k in t.columns ==> t.columns[k] == ValuesFor(Flatten(records), k)
    ensures forall k :: k in t.columns ==> |t.columns[k]| > 0
  {
    var order: seq<string> := [];
    var data: map<string, seq<string>> := map[];
    var i := 0;
    while i < |records|
      invariant 0 <= i <= |records|
      invariant order == FirstSeen(Flatten(records[..i]))
      invariant data == PivotColumns(Flatten(records[..i]))
    {
      assert records[..i + 1][..i] == records[..i];
      order, data := PivotRecord(order, data, records[i], Flatten(records[..i]));
      i := i + 1;
    }
    assert records[..|records|] == records;
    t := Table(order, data);
    forall k | k in t.columns ensures |t.columns[k]| > 0 {
      ValuesForPresent(Flatten(records), k);
    }
  }

  /** `record[k]`, where the record has distinct keys. */
  function Lookup(r: Record, k: string): Option<string>
  {
    if r == [] then None
    else if r[|r| - 1].0 == k then Some(r[|r| - 1].1)
    else Lookup(r[..|r| - 1], k)
  }

  /** Reference definition of a pivoted column: one value for each record that
      has the key, records in order. */
  function Gather(records: seq<Record>, k: string): seq<string>
  {
    if records == [] then []
    else
      var last := records[|records| - 1];
      Gather(records[..|records| - 1], k)
        + (match Lookup(last, k) case Some(v) => [v] case None => [])
  }

  lemma {:induction false} ValuesForAbsent(pairs: seq<(string, string)>, k: string)
    requires forall i :: 0 <= i < |pairs| ==> pairs[i].0 != k
    ensures ValuesFor(pairs, k) == []
  {
    if pairs != [] {
      ValuesForAbsent(pairs[..|pairs| - 1], k);
    }
  }

  lemma {:induction false} ValuesForNotSeen(pairs: seq<(string, string)>, k: string)
    requires k !in FirstSeen(pairs)
    ensures ValuesFor(pairs, k) == []
  {
    if pairs != [] {
      ValuesForNotSeen(pairs[..|pairs| - 1], k);
    }
  }

  lemma {:induction false} ValuesForPresent(pairs: seq<(string, string)>, k: string)
    requires k in FirstSeen(pairs)
    ensures |ValuesFor(pairs, k)| > 0
  {
    var init := pairs[..|pairs| - 1];
    if pairs[|pairs| - 1].0 != k {
      assert k in FirstSeen(init);
      ValuesForPresent(init, k);
    }
  }

  lemma {:induction false} ValuesForRecord(r: Record, k: string)
    requires DistinctKeys(r)
    ensures ValuesFor(r, k) == match Lookup(r, k) case Some(v) => [v] case None => []
  {
    if r != [] {
      var init := r[..|r| - 1];
      if r[|r| - 1].0 == k {
        ValuesForAbsent(init, k);
      } else {
        ValuesForRecord(init, k);
      }
    }
  }

  lemma {:induction false} ValuesForAppend(p: seq<(string, string)>, q: seq<(string, string)>, k: string)
    ensures ValuesFor(p + q, k) == ValuesFor(p, k) + ValuesFor(q, k)
  {
    if q != [] {
      var init := q[..|q| - 1];
      assert (p + q)[..|p + q| - 1] == p + init;
      ValuesForAppend(p, init, k);
    } else {
      assert p + q == p;
    }
  }

  /** A pivoted column holds, in record order, the value of the key in each
      record that has it. */
  lemma {:induction false} PivotedColumnByRecord(records: seq<Record>, k: string)
    requires forall i :: 0 <= i < |records| ==> DistinctKeys(records[i])
    ensures ValuesFor(Flatten(records), k) == Gather(records, k)
  {
    if records != [] {
      var init := records[..|records| - 1];
      var last := records[|records| - 1];
      PivotedColumnByRecord(init, k);
      ValuesForAppend(Flatten(init), last, k);
      ValuesForRecord(last, k);
    }
  }
}

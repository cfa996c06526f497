# Schema reconciliation of `data_transform`, modelled in Dafny

`transform.py` loads several tables. Each table is a dictionary from a column name to
a list of cells. The script merges these tables into one table in its main block.
This project models that reconciliation step and proves its bookkeeping.

The step has four parts:

- **Column-name ordering** (`sort_keys`). Names are sorted by the pair (first character,
  `int` of the rest). A name whose rest is not an integer raises an error.
- **Schema union and merge with back-fill** (main block). The script collects the
  distinct names of all tables and sorts them. It then walks the tables in input order
  and extends every result column. A table that has the column contributes its own
  cells. A table that lacks it contributes `row_count` fillers: `""` for a name starting
  with `D`, and the string `"0"` for any other name. `row_count` is the length of the
  table's first column. Finally the columns are copied into an ordered dictionary in
  sorted-name order.
- **Record-to-column pivot** (`load_json`, without the file reading). A list of JSON
  records becomes one column per key. A column is created the first time its key is
  met.
- **Integer coercion** (`format_data`). Every cell of a list goes through `int()`.

Modules, one per part plus a shared one:

- `Tables` (`tables.dfy`): the `Table` datatype, the error datatype, and facts about
  sequences without repeats. A `Table` is a dictionary: its insertion order plus a map.
- `Coercion` (`coercion.dfy`): a model of Python's `int()` on strings, and `format_data`.
- `ColumnNames` (`column_names.dfy`): `sort_keys`, as a stable insertion sort over the
  key.
- `JsonPivot` (`json_pivot.dfy`): the pivot loops of `load_json`, as methods.
- `SchemaMerge` (`schema_merge.dfy`): the main block's union, merge and copy loops, as
  methods. These are proved against `MergedColumn`, a function that specifies a merged
  column as the tables' segments in input order. Lemmas about `MergedColumn` give the
  row accounting, source order and back-fill properties.

Python exceptions become `Err` values of `Result`:

- `IndexError` from `name[0]` on an empty name becomes `EmptyColumnName`.
- `ValueError` from `int()` on a name suffix becomes `MalformedColumnName`.
- `ValueError` from `int()` on a cell becomes `NonNumericValue`.
- `IndexError` from `list(dataset.values())[0]` on a table without columns becomes
  `EmptyTable`.

Tables are immutable values here. That the merge leaves its input tables unchanged is
therefore true by construction.

Points of behaviour worth noting, each as the code does it:

- The filler for a column not starting with `D` is the string `"0"`, not the integer 0.
  `MeasureFillerIsZero` shows that it coerces to 0. `DimensionFillerIsNotNumeric` shows
  that the `""` filler of a `D` column does not coerce.
- A table without columns stops the whole merge with an error. The code does not skip
  that table and continue.
- A name suffix may carry a sign, because `int()` accepts one. So `M-1` is a valid name
  with index -1; it is not a malformed name.
- Composing rows, sorting rows by a key column, and group-by summation do not appear in
  `transform.py`. They are not modelled.

## Model

| member | source | states |
|---|---|---|
| `ColumnNames.SortKeys` | transform.py:81-82 | The result is Ok exactly when every name has a key: the name is non-empty and its rest is accepted by `int()`. Then the output is a permutation of the input (equal multisets) and is non-decreasing under the key (first character, integer suffix). Otherwise the error names the first name, in input order, that has no key. |
| `ColumnNames.FirstMalformed` | transform.py:82 | Returns None exactly when every name has a key. Otherwise it returns the position of a name without a key such that every earlier name has one. |
| `ColumnNames.InsertionSort` | transform.py:82 | The output has the same multiset of names as the input and is sorted by key. |
| `ColumnNames.InsertKeepsSorted` | transform.py:82 | Inserting a name into a key-sorted list keeps it sorted. |
| `ColumnNames.MalformedSuffixRejected` | transform.py:82 | `sort_keys(["Dx"])` fails with a malformed-name error for "Dx". |
| `ColumnNames.EqualKeysForDistinctNames` | transform.py:82 | "D1" and "D01" are distinct names with equal keys. So the order is non-decreasing, not strict. |
| `ColumnNames.DimensionsPrecedeLaterPrefixes` | transform.py:81-82 | In key-sorted order, every name before a `D` name has a first character at most 'D'. So if no prefix sorts below 'D', the `D` columns come first. |
| `ColumnNames.DimensionsFirstExactly` | transform.py:81-82 | For a key-sorted list that holds at least one `D` name: every name before a `D` name is itself a `D` name exactly when no prefix sorts below 'D'. |
| `Coercion.ParseInt` | transform.py:86 | A parsed value implies a non-empty string, and a negative value implies a leading '-'. |
| `Coercion.ParseShow` | transform.py:86 | `int(str(n)) == n` for every integer `n`. |
| `Coercion.FormatData` | transform.py:85-86 | Ok exactly when every cell parses. Then the result has the input's length and element `i` is `int(data[i])`. Otherwise the error carries the first cell that does not parse. |
| `Coercion.FormatDataRoundTrip` | transform.py:85-86 | Coercing the decimal renderings of a list of integers gives back that list. |
| `Tables.PermutationKeepsNoDuplicates` | transform.py:110-112 | A reordering of a list without repeats has no repeats. So the sorted key list stays duplicate-free. |
| `JsonPivot.FirstSeen` | transform.py:34-35 | The keys in order of first occurrence, each exactly once. |
| `JsonPivot.FirstSeenHead` | transform.py:32-36 | For a non-empty list of pairs, the first pair's key heads the key order. So a pivoted table's first column, the one whose length is its `row_count`, belongs to the first key of the first record that has keys. |
| `JsonPivot.FirstSeenKeys` | transform.py:34-35 | A key is in the first-seen order exactly when some pair carries it. |
| `JsonPivot.PivotStep` | transform.py:33-36 | One more pair adds its key to the key order only if the key is new. It appends its value to that key's column and to no other column. |
| `JsonPivot.PivotRecord` | transform.py:33-36 | Processing one record's pairs takes the pivot state of the pairs seen so far to the pivot state of those pairs followed by the record's pairs. |
| `JsonPivot.Pivot` | transform.py:32-36 | The result is a valid table. Its key order is the first-occurrence order of the keys over all records. Each column is the subsequence of values for that key, in record order, and is non-empty. |
| `JsonPivot.PivotedColumnByRecord` | transform.py:32-36 | For records with distinct keys, a pivoted column holds the key's value from each record that has the key, in record order. |
| `SchemaMerge.ColumnSet` | transform.py:105-110 | A name is in the union exactly when some table has a column with that name. |
| `SchemaMerge.DisjointUnionSize` | transform.py:105-110 | For tables that share no column names, the union has as many names as the tables have columns in total. |
| `Tables.NoDuplicatesCardinality` | transform.py:110 | A list without repeats has as many elements as the set of its elements, so `list(set(...))` keeps the set's size. |
| `SchemaMerge.SetToList` | transform.py:110 | `list(set(names))`: the result has no duplicates and holds exactly the names of the input. |
| `SchemaMerge.UnionKeys` | transform.py:105-110 | The key list has no duplicates. It contains exactly the column names of all tables, in set order, and its length is the number of distinct names. With `DisjointUnionSize`, tables sharing no names give as many keys as they have columns in total. |
| `SchemaMerge.AppendTable` | transform.py:116-125 | For one table, each key's column is extended by that table's segment: its own cells if it has the column, otherwise `row_count` fillers. No key is added or removed. |
| `SchemaMerge.Merge` | transform.py:114-125 | Ok exactly when every table has a column. Otherwise the error names the first table without one. On Ok, the keys are exactly the sorted keys, and each column equals `MergedColumn`: the tables' segments concatenated in input order. |
| `SchemaMerge.CopyInOrder` | transform.py:126-128 | The ordered result has exactly the given keys, in the given order, each with the same list. |
| `SchemaMerge.Reconcile` | transform.py:105-128 | Ok exactly when every column name has a key and every table has a column. A name error names a malformed name of some table. An empty-table error is raised only when all names are well-formed, and names the first empty table. On Ok, the result's keys are exactly the tables' column names, without duplicates and non-decreasing by key, and each column is `MergedColumn`. |
| `SchemaMerge.MergedColumnLength` | transform.py:114-125 | Row accounting: if every table is rectangular, every merged column's length is the sum of the tables' row counts. |
| `SchemaMerge.MergedColumnPrefix` | transform.py:115-120 | Merging the first `j` tables gives a prefix of merging all of them. Later tables only extend. |
| `SchemaMerge.SegmentLength` | transform.py:116-125 | A rectangular table contributes `row_count` cells to every column, whether its own cells or fillers. |
| `SchemaMerge.MergedColumnSlice` | transform.py:115-125 | Table `i`'s segment fits inside the merged column and occupies the rows right after the rows of the tables before it. |
| `SchemaMerge.MergedColumnSegment` | transform.py:115-125 | Source order and back-fill: table `i`'s rows sit right after the rows of the tables before it (`RowsBefore`). There the column holds the table's own cells in their order or, if the table lacks the column, `""` for a `D` name and `"0"` otherwise. |
| `SchemaMerge.MeasureFillerIsZero` | transform.py:124-125 | Fillers of a column not starting with `D` coerce to zeros under `format_data`. |
| `SchemaMerge.DimensionFillerIsNotNumeric` | transform.py:122-123 | Fillers of a `D` column do not coerce, because `int("")` raises. |
| `SchemaMerge.MergeExampleDimension` | transform.py:114-125 | For {D1:[a,b]}, {D1:[a,b], M1:[1,2]}, {M1:[3,4]}, the merged D1 is [a,b,a,b,"",""]: the third table lacks D1 and gets `""` fillers. |
| `SchemaMerge.MergeExampleMeasure` | transform.py:114-125 | For the same tables, the merged M1 is ["0","0",1,2,3,4]: the first table lacks M1 and gets `"0"` fillers. |

## Left out

- File reading and parsing are not modelled. This covers `ET.parse` in `load_xml`, `open`/`json.load` in `load_json`, and `csv.reader` with its transpose in `load_csv` (transform.py:11-25, 30-31, 42-50). These are library calls. The pivot takes the records that `json.load` would return.
- `load_by_extension` and `load_all` (transform.py:53-78) are not modelled. They dispatch on the file extension and print diagnostics. The merge takes the list of loaded tables as a parameter.
- `print` and `pprint` output is not modelled.
- The output block (transform.py:131-133) is not modelled. It passes a path string to `csv.writer` and iterates a stale loop variable, so it writes nothing meaningful.
- JsonPivot.Pivot: JSON values are taken as strings. Numbers are represented by their text, and the original Python type of a value is not modelled.
- Coercion.ParseInt: models `int()` on an optional sign followed by ASCII digits. Surrounding whitespace, underscores between digits and non-ASCII digits, which Python also accepts, are rejected here.
- ColumnNames.SortKeys: stability is not stated. The insertion sort is stable like Python's `sorted`, but its input order comes from a set and is arbitrary. Only permutation and non-decreasing order are proved.
- SchemaMerge.UnionKeys: the order of `list(set(...))` is not determined. The model picks elements in an arbitrary order and states only membership, absence of duplicates and length.

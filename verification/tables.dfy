/** Shared vocabulary of the schema-reconciliation step: the column-oriented
    table every loader returns, the errors the step raises, and facts about
    sequences without repeated elements. */
module Tables {

  /** The exceptions the reconciliation code can raise, as values. */
  datatype Error =
    | EmptyColumnName                    // `name[0]` on an empty column name (IndexError)
    | MalformedColumnName(name: string)  // `int(name[1:])` rejects the suffix (ValueError)
    | NonNumericValue(cell: string)      // `int(cell)` rejects a cell (ValueError)
    | EmptyTable(index: nat)             // a loaded table has no column to count rows from (IndexError)

  datatype Result<T> = Ok(value: T) | Err(error: Error)

  datatype Option<T> = None | Some(value: T)

  /** A loaded table: a dictionary from column name to the list of its cells.
      `order` is the dictionary's insertion order, which decides which column
      is "the first one". */
  datatype Table = Table(order: seq<string>, columns: map<string, seq<string>>)

  predicate NoDuplicates<T(==)>(s: seq<T>)
  {
    forall i, j :: 0 <= i < j < |s| ==> s[i] != s[j]
  }

  /** The dictionary invariant: every key once, and the order lists exactly the keys. */
  predicate ValidTable(t: Table)
  {
    && NoDuplicates(t.order)
    && (forall n :: n in t.columns ==> n in t.order)
    && (forall n :: n in t.order ==> n in t.columns)
  }

  /** `len(list(dataset.values())[0])`: the length of the first column in
      insertion order. A table without columns has none to measure; the code
      raises there, and this function gives 0. */
  function RowCount(t: Table): nat
  {
    if t.order != [] && t.order[0] in t.columns then |t.columns[t.order[0]]| else 0
  }

  /** All columns of the table have the same length. */
  predicate Rectangular(t: Table)
  {
    forall n, m :: n in t.columns && m in t.columns ==> |t.columns[n]| == |t.columns[m]|
  }

  /** A sequence has no repeated element exactly when no element occurs twice in its multiset. */
  lemma {:induction false} NoDuplicatesCount<T>(s: seq<T>)
    ensures NoDuplicates(s) <==> forall x :: multiset(s)[x] <= 1
  {
    if s != [] {
      var t := s[1..];
      NoDuplicatesCount(t);
      assert s == [s[0]] + t;
      assert multiset(s) == multiset{s[0]} + multiset(t);
      assert NoDuplicates(s) <==> s[0] !in t && NoDuplicates(t) by {
        if NoDuplicates(s) {
          forall i, j | 0 <= i < j < |t| ensures t[i] != t[j] {
            assert t[i] == s[i + 1] && t[j] == s[j + 1];
          }
          assert forall k :: 0 <= k < |t| ==> t[k] == s[k + 1];
        }
        if s[0] !in t && NoDuplicates(t) {
          forall i, j | 0 <= i < j < |s| ensures s[i] != s[j] {
            if i == 0 {
              assert s[j] == t[j - 1];
            } else {
              assert s[i] == t[i - 1] && s[j] == t[j - 1];
            }
          }
        }
      }
      assert (forall x :: multiset(s)[x] <= 1) <==> s[0] !in t && forall x :: multiset(t)[x] <= 1 by {
        if forall x :: multiset(s)[x] <= 1 {
          assert multiset(s)[s[0]] == 1 + multiset(t)[s[0]];
          forall x ensures multiset(t)[x] <= 1 {
            assert multiset(t)[x] <= multiset(s)[x];
          }
        }
      }
    }
  }

  /** Reordering a sequence without repetitions leaves it without repetitions. */
  lemma PermutationKeepsNoDuplicates<T>(a: seq<T>, b: seq<T>)
    requires multiset(a) == multiset(b)
    requires NoDuplicates(a)
    ensures NoDuplicates(b)
  {
    NoDuplicatesCount(a);
    NoDuplicatesCount(b);
  }

  /** A list without repeats has as many elements as the set of its elements. */
  lemma {:induction false} NoDuplicatesCardinality<T>(s: seq<T>)
    requires NoDuplicates(s)
    ensures |set x | x in s| == |s|
  {
    if s != [] {
      var rest := s[1..];
      NoDuplicatesCardinality(rest);
      assert (set x | x in s) == (set x | x in rest) + {s[0]};
      assert s[0] !in rest by {
        forall k | 0 <= k < |rest| ensures rest[k] != s[0] {
          assert rest[k] == s[k + 1];
        }
      }
    }
  }
}

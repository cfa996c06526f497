/** Column-name ordering, `sort_keys` (transform.py:81-82): names are sorted
    by the pair (first character, integer value of the rest). */
module ColumnNames {
  import opened Tables
  import opened Coercion

  /** The sort key `(name[0], int(name[1:]))`. */
  datatype ColumnKey = ColumnKey(prefix: char, index: int)

  /** A name whose sort key can be computed: it has a first character and the
      rest is accepted by `int()`. */
  predicate WellFormed(name: string)
  {
    |name| > 0 && ParseInt(name[1..]).Some?
  }

  predicate AllWellFormed(names: seq<string>)
  {
    forall i :: 0 <= i < |names| ==> WellFormed(names[i])
  }

  function KeyOf(name: string): ColumnKey
    requires WellFormed(name)
  {
    ColumnKey(name[0], ParseInt(name[1..]).value)
  }

  /** The exception computing the key of `name` raises. */
  function NameError(name: string): Error
  {
    if name == [] then EmptyColumnName else MalformedColumnName(name)
  }

  /** Tuple comparison: by prefix character, then by index. */
  predicate KeyLe(a: ColumnKey, b: ColumnKey)
  {
    a.prefix < b.prefix || (a.prefix == b.prefix && a.index <= b.index)
  }

  predicate SortedByKey(names: seq<string>)
    requires AllWellFormed(names)
  {
    forall i, j :: 0 <= i < j < |names| ==> KeyLe(KeyOf(names[i]), KeyOf(names[j]))
  }

  /** The position of the first name whose key cannot be computed, if any:
      `sorted` computes the keys left to right and stops at the first failure. */
  function FirstMalformed(names: seq<string>): (r: Option<nat>)
    ensures r.None? <==> AllWellFormed(names)
    ensures r.Some? ==> r.value < |names| && !WellFormed(names[r.value])
                        && AllWellFormed(names[..r.value])
  {
    if names == [] then None
    else if !WellFormed(names[0]) then Some(0)
    else match FirstMalformed(names[1..])
      case None => None
      case Some(i) => Some(i + 1)
  }

  /** Places `x` before the first element whose key is not below it. */
  function Insert(x: string, s: seq<string>): (r: seq<string>)
    requires WellFormed(x) && AllWellFormed(s)
    ensures AllWellFormed(r)
    ensures multiset(r) == multiset(s) + multiset{x}
  {
    if s == [] then [x]
    else if KeyLe(KeyOf(x), KeyOf(s[0])) then [x] + s
    else
      assert s == [s[0]] + s[1..];
      [s[0]] + Insert(x, s[1..])
  }

  /** A key below `x` and below every element of `s` is below every element
      of `Insert(x, s)`. */
  lemma {:induction false} InsertLowerBound(x: string, s: seq<string>, y: string)
    requires WellFormed(x) && AllWellFormed(s) && WellFormed(y)
    requires KeyLe(KeyOf(y), KeyOf(x))
    requires forall k :: 0 <= k < |s| ==> KeyLe(KeyOf(y), KeyOf(s[k]))
    ensures forall k :: 0 <= k < |Insert(x, s)| ==> KeyLe(KeyOf(y), KeyOf(Insert(x, s)[k]))
  {
    if s != [] && !KeyLe(KeyOf(x), KeyOf(s[0])) {
      InsertLowerBound(x, s[1..], y);
    }
  }

  lemma {:induction false} InsertKeepsSorted(x: string, s: seq<string>)
    requires WellFormed(x) && AllWellFormed(s) && SortedByKey(s)
    ensures SortedByKey(Insert(x, s))
  {
    if s != [] && !KeyLe(KeyOf(x), KeyOf(s[0])) {
      var rest := Insert(x, s[1..]);
      InsertKeepsSorted(x, s[1..]);
      InsertLowerBound(x, s[1..], s[0]);
      var r := [s[0]] + rest;
      forall i, j | 0 <= i < j < |r| ensures KeyLe(KeyOf(r[i]), KeyOf(r[j])) {
        if i == 0 {
          assert r[j] == rest[j - 1];
        } else {
          assert r[i] == rest[i - 1] && r[j] == rest[j - 1];
        }
      }
    }
  }

  function InsertionSort(s: seq<string>): (r: seq<string>)
    requires AllWellFormed(s)
    ensures AllWellFormed(r)
    ensures multiset(r) == multiset(s)
    ensures SortedByKey(r)
  {
    if s == [] then []
    else
      var rest := InsertionSort(s[1..]);
      assert s == [s[0]] + s[1..];
      InsertKeepsSorted(s[0], rest);
      Insert(s[0], rest)
  }

  /** `sort_keys(names)`: a reordering of the names by key, or the error the
      first name without a key raises. The order is non-decreasing, not strict:
      distinct names such as "D1" and "D01" share a key. */
  function SortKeys(names: seq<string>): (r: Result<seq<string>>)
    ensures r.Ok? <==> AllWellFormed(names)
    ensures r.Ok? ==> AllWellFormed(r.value) && multiset(r.value) == multiset(names)
                      && SortedByKey(r.value)
    ensures r.Err? ==> exists i :: 0 <= i < |names| && !WellFormed(names[i])
                         && AllWellFormed(names[..i]) && r.error == NameError(names[i])
  {
    match FirstMalformed(names)
    case Some(i) => Err(NameError(names[i]))
    case None => Ok(InsertionSort(names))
  }

  predicate IsDimension(name: string)
  {
    |name| > 0 && name[0] == 'D'
  }

  /** In sorted order a dimension column ("D" prefix) never follows a column
      whose prefix sorts after 'D'; so dimensions come first exactly when no
      prefix sorts before 'D'. */
  lemma DimensionsPrecedeLaterPrefixes(names: seq<string>)
    requires AllWellFormed(names) && SortedByKey(names)
    ensures forall i, j :: 0 <= i < j < |names| && IsDimension(names[j]) ==> names[i][0] <= 'D'
  {
  }

  /** When there is a dimension column, the dimension columns come first in
      sorted order exactly when no prefix sorts before 'D'. */
  lemma DimensionsFirstExactly(names: seq<string>, d: nat)
    requires AllWellFormed(names) && SortedByKey(names)
    requires d < |names| && IsDimension(names[d])
    ensures (forall i :: 0 <= i < |names| ==> names[i][0] >= 'D')
            <==> (forall i, j :: 0 <= i < j < |names| && IsDimension(names[j]) ==> IsDimension(names[i]))
  {
    if forall i, j :: 0 <= i < j < |names| && IsDimension(names[j]) ==> IsDimension(names[i]) {
      forall i | 0 <= i < |names| ensures names[i][0] >= 'D' {
        if i < d {
          assert IsDimension(names[i]);
        } else if d < i {
          assert KeyLe(KeyOf(names[d]), KeyOf(names[i]));
        }
      }
    }
  }

  /** A name whose suffix is not an integer, such as "Dx", has no key. */
  lemma MalformedSuffixRejected()
    ensures SortKeys(["Dx"]) == Err(MalformedColumnName("Dx"))
  {
    assert !WellFormed("Dx") by {
      assert "Dx"[1..] == "x";
      assert !AllDigits("x") by { assert !IsDigit("x"[0]); }
    }
    assert FirstMalformed(["Dx"]) == Some(0);
  }

  /** "D1" and "D01" are distinct names with the same key. */
  lemma EqualKeysForDistinctNames()
    ensures WellFormed("D1") && WellFormed("D01") && "D1" != "D01"
    ensures KeyOf("D1") == KeyOf("D01")
  {
    assert "D01"[1..] == "01";
    assert DigitsValue("01") == DigitsValue("0") * 10 + 1;
  }
}

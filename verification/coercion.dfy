/** Integer coercion: Python's `int()` on a string, and `format_data`,
    which applies it to every cell of a column (transform.py:85-86). */
module Coercion {
  import opened Tables

  predicate IsDigit(c: char)
  {
    '0' <= c <= '9'
  }

  predicate AllDigits(s: string)
  {
    forall i :: 0 <= i < |s| ==> IsDigit(s[i])
  }

  /** The decimal value of a string of ASCII digits, most significant digit first. */
  function DigitsValue(s: string): nat
    requires AllDigits(s)
  {
    if s == [] then 0 else DigitsValue(s[..|s| - 1]) * 10 + (s[|s| - 1] as int - '0' as int)
  }

  /** `int(s)`: an optional sign followed by at least one ASCII digit; `None`
      where Python raises ValueError. */
  function ParseInt(s: string): (r: Option<int>)
    ensures r.Some? ==> |s| > 0
    ensures r.Some? && r.value < 0 ==> s[0] == '-'
  {
    if |s| > 1 && s[0] == '-' && AllDigits(s[1..]) then Some(-(DigitsValue(s[1..]) as int))
    else if |s| > 1 && s[0] == '+' && AllDigits(s[1..]) then Some(DigitsValue(s[1..]))
    else if |s| > 0 && AllDigits(s) then Some(DigitsValue(s))
    else None
  }

  function DigitChar(d: nat): (c: char)
    requires d < 10
    ensures IsDigit(c) && c as int - '0' as int == d
  {
    ('0' as int + d) as char
  }

  /** The decimal rendering of a natural number, `str(n)` for `n >= 0`. */
  function ShowNat(n: nat): (s: string)
    ensures |s| > 0 && AllDigits(s)
  {
    if n < 10 then [DigitChar(n)] else ShowNat(n / 10) + [DigitChar(n % 10)]
  }

  /** The decimal rendering of an integer, `str(n)`. */
  function Show(n: int): string
  {
    if n < 0 then "-" + ShowNat(-n) else ShowNat(n)
  }

  lemma {:induction false} ShowNatValue(n: nat)
    ensures DigitsValue(ShowNat(n)) == n
  {
    if n >= 10 {
      var s := ShowNat(n);
      assert s[..|s| - 1] == ShowNat(n / 10);
      ShowNatValue(n / 10);
    }
  }

  /** `int(str(n)) == n` for every integer. */
  lemma ParseShow(n: int)
    ensures ParseInt(Show(n)) == Some(n)
  {
    if n < 0 {
      var s := Show(n);
      assert s[1..] == ShowNat(-n);
      ShowNatValue(-n);
    } else {
      ShowNatValue(n);
    }
  }

  /** `format_data(data)`: every cell coerced with `int()`, in order; the first
      cell `int()` rejects raises. */
  function FormatData(data: seq<string>): (r: Result<seq<int>>)
    ensures r.Ok? <==> forall i :: 0 <= i < |data| ==> ParseInt(data[i]).Some?
    ensures r.Ok? ==> |r.value| == |data|
    ensures r.Ok? ==> forall i :: 0 <= i < |data| ==> Some(r.value[i]) == ParseInt(data[i])
    ensures r.Err? ==> exists i :: 0 <= i < |data| && ParseInt(data[i]).None?
                         && r.error == NonNumericValue(data[i])
                         && forall k :: 0 <= k < i ==> ParseInt(data[k]).Some?
  {
    if data == [] then Ok([])
    else match ParseInt(data[0])
      case None => Err(NonNumericValue(data[0]))
      case Some(v) =>
        match FormatData(data[1..])
        case Err(e) => Err(e)
        case Ok(rest) => Ok([v] + rest)
  }

  /** The rendering of each integer, `[str(x) for x in xs]`. */
  function ShowAll(xs: seq<int>): (r: seq<string>)
    ensures |r| == |xs|
  {
    seq(|xs|, i requires 0 <= i < |xs| => Show(xs[i]))
  }

  /** Coercing a column of rendered integers gives the integers back. */
  lemma FormatDataRoundTrip(xs: seq<int>)
    ensures FormatData(ShowAll(xs)) == Ok(xs)
  {
    var cells := ShowAll(xs);
    forall i | 0 <= i < |xs| ensures ParseInt(cells[i]) == Some(xs[i]) {
      ParseShow(xs[i]);
    }
    var r := FormatData(cells);
    assert r.value == xs;
  }
}

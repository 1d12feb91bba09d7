/**
 * Context paths of the list binding: a row context of index i has the path
 * "<collection path>/<i>", and `fetchAbsoluteValue` splits such a path back into
 * the row index and the path inside the row.
 */
module Paths {
  import opened Results

  predicate IsDigit(c: char) {
    '0' <= c <= '9'
  }

  predicate AllDigits(s: string) {
    forall i :: 0 <= i < |s| ==> IsDigit(s[i])
  }

  function Digit(d: nat): (c: char)
    requires d < 10
    ensures IsDigit(c) && c as int - '0' as int == d
  {
    (d + '0' as int) as char
  }

  /** Decimal notation of a natural number, as JavaScript's `String(n)` writes it. */
  function NatToString(n: nat): (s: string)
    ensures |s| > 0 && AllDigits(s)
  {
    if n < 10 then [Digit(n)] else NatToString(n / 10) + [Digit(n % 10)]
  }

  /** `String(i)` for a row index, which is -1 for the created row. */
  function IndexString(i: int): (s: string)
    ensures |s| > 0 && '/' !in s
  {
    if i < 0 then "-" + NatToString(-i) else NatToString(i)
  }

  /** The value of a run of decimal digits. */
  function DigitsValue(s: string): nat
    requires AllDigits(s)
  {
    if |s| == 0 then 0 else DigitsValue(s[..|s| - 1]) * 10 + (s[|s| - 1] as int - '0' as int)
  }

  /** The length of the run of digits that starts the string. */
  function LeadingDigits(s: string): (k: nat)
    ensures k <= |s| && AllDigits(s[..k])
    ensures k < |s| ==> !IsDigit(s[k])
  {
    if |s| == 0 || !IsDigit(s[0]) then 0 else 1 + LeadingDigits(s[1..])
  }

  /** The value of the leading digits of `s`; `None` when it does not start with a digit. */
  function LeadingValue(s: string): Option<nat> {
    var k := LeadingDigits(s);
    if k == 0 then None else Some(DigitsValue(s[..k]))
  }

  /**
   * JavaScript's `parseInt(s, 10)` for a string without leading white space: an
   * optional sign followed by the leading digits; `None` stands for NaN.
   */
  function ParseInt(s: string): Option<int> {
    if |s| > 0 && s[0] == '-' then
      var v := LeadingValue(s[1..]);
      if v.Some? then Some(-(v.value as int)) else None
    else if |s| > 0 && s[0] == '+' then
      var v := LeadingValue(s[1..]);
      if v.Some? then Some(v.value as int) else None
    else
      var v := LeadingValue(s);
      if v.Some? then Some(v.value as int) else None
  }

  lemma {:induction false} NatToStringValue(n: nat)
    ensures DigitsValue(NatToString(n)) == n
  {
    var s := NatToString(n);
    if n >= 10 {
      NatToStringValue(n / 10);
      assert s[..|s| - 1] == NatToString(n / 10);
    }
  }

  lemma {:induction false} LeadingDigitsOfJoin(d: string, t: string)
    requires AllDigits(d)
    requires t == [] || !IsDigit(t[0])
    ensures LeadingDigits(d + t) == |d|
  {
    if |d| > 0 {
      assert (d + t)[1..] == d[1..] + t;
      LeadingDigitsOfJoin(d[1..], t);
    }
  }

  /** A run of digits followed by a non-digit has the value of the digits. */
  lemma LeadingValueOfDigits(d: string, t: string)
    requires |d| > 0 && AllDigits(d)
    requires t == [] || !IsDigit(t[0])
    ensures LeadingValue(d + t) == Some(DigitsValue(d))
  {
    LeadingDigitsOfJoin(d, t);
    assert (d + t)[..|d|] == d;
  }

  /** Parsing the index written by `IndexString` gives it back, whatever non-digit text follows. */
  lemma ParseIndexString(i: int, t: string)
    requires t == [] || !IsDigit(t[0])
    ensures ParseInt(IndexString(i) + t) == Some(i)
  {
    if i < 0 {
      ParseNegativeIndex(-i, t);
    } else {
      ParseNonNegativeIndex(i, t);
    }
  }

  lemma ParseNonNegativeIndex(n: nat, t: string)
    requires t == [] || !IsDigit(t[0])
    ensures ParseInt(NatToString(n) + t) == Some(n)
  {
    var d := NatToString(n);
    NatToStringValue(n);
    LeadingValueOfDigits(d, t);
    assert (d + t)[0] == d[0];
  }

  lemma ParseNegativeIndex(n: nat, t: string)
    requires n > 0
    requires t == [] || !IsDigit(t[0])
    ensures ParseInt("-" + NatToString(n) + t) == Some(-(n as int))
  {
    var d := NatToString(n);
    NatToStringValue(n);
    LeadingValueOfDigits(d, t);
    ParseMinus(d + t);
    assert "-" + d + t == "-" + (d + t);
  }

  /** A leading minus sign negates the value of the digits that follow it. */
  lemma ParseMinus(x: string)
    ensures ParseInt("-" + x) ==
            if LeadingValue(x).Some? then Some(-(LeadingValue(x).value as int)) else None
  {
    assert ("-" + x)[1..] == x;
  }

  lemma IndexStringInjective(i: int, j: int)
    requires IndexString(i) == IndexString(j)
    ensures i == j
  {
    ParseIndexString(i, []);
    ParseIndexString(j, []);
    assert IndexString(i) + [] == IndexString(j) + [];
  }

  /** The part of a path after its last slash. */
  function LastSegment(s: string): (r: string)
    ensures '/' !in r
  {
    if |s| == 0 || s[|s| - 1] == '/' then "" else LastSegment(s[..|s| - 1]) + [s[|s| - 1]]
  }

  lemma {:induction false} LastSegmentOfJoin(a: string, b: string)
    requires '/' !in b
    ensures LastSegment(a + "/" + b) == b
  {
    var s := a + "/" + b;
    if |b| > 0 {
      var b' := b[..|b| - 1];
      assert s[..|s| - 1] == a + "/" + b';
      LastSegmentOfJoin(a, b');
      assert b == b' + [b[|b| - 1]];
    } else {
      assert s[|s| - 1] == '/';
    }
  }

  /** The path of the row with index `i` below the collection path `base`. */
  function RowPath(base: string, i: int): (p: string)
    ensures LastSegment(p) == IndexString(i)
  {
    LastSegmentOfJoin(base, IndexString(i));
    base + "/" + IndexString(i)
  }

  /** Below one collection path, the row paths of different indices differ. */
  lemma RowPathInjective(base: string, i: int, j: int)
    requires RowPath(base, i) == RowPath(base, j)
    ensures i == j
  {
    IndexStringInjective(i, j);
  }

  /** `s.indexOf(c)`: the first position of `c`, or -1. */
  function IndexOf(s: string, c: char): (k: int)
    ensures -1 <= k < |s|
    ensures k >= 0 ==> s[k] == c && c !in s[..k]
    ensures k == -1 ==> c !in s
  {
    if |s| == 0 then -1
    else if s[0] == c then 0
    else
      var k := IndexOf(s[1..], c);
      if k < 0 then -1 else (assert s[..k + 1] == [s[0]] + s[1..][..k]; k + 1)
  }

  predicate StartsWith(s: string, prefix: string) {
    |prefix| <= |s| && s[..|prefix|] == prefix
  }

  /** `sub` occurs in `s` at position `j`. */
  predicate OccursAt(s: string, sub: string, j: int) {
    0 <= j && j + |sub| <= |s| && s[j..j + |sub|] == sub
  }

  /**
   * `s.lastIndexOf(sub)`: the last position at which `sub` occurs in `s`, or -1
   * exactly when it occurs nowhere.
   */
  function LastIndexOf(s: string, sub: string): (k: int)
    ensures k == -1 || OccursAt(s, sub, k)
    ensures forall j :: OccursAt(s, sub, j) ==> j <= k
    ensures k == -1 <==> forall j :: !OccursAt(s, sub, j)
  {
    LastIndexFrom(s, sub, |s| - |sub|)
  }

  /** The last occurrence of `sub` in `s` at a position up to `k`, or -1. */
  function LastIndexFrom(s: string, sub: string, k: int): (r: int)
    requires k + |sub| <= |s|
    ensures r == -1 || (OccursAt(s, sub, r) && r <= k)
    ensures forall j :: j <= k && OccursAt(s, sub, j) ==> j <= r
    decreases k + 1
  {
    if k < 0 then -1 else if s[k..k + |sub|] == sub then k else LastIndexFrom(s, sub, k - 1)
  }

  /** Where `fetchAbsoluteValue` takes a value from. */
  datatype ValueSource =
    | OwnCache(index: Option<int>, path: string) // this.fetchValue(path, undefined, index); None is NaN
    | ParentContext(path: string)                // this.oContext.fetchAbsoluteValue(path)
    | NoValue                                    // a promise resolved with undefined

  /** The row index and the path inside the row, for the part of a path after the collection path. */
  function RowValue(rest: string): ValueSource {
    var pos := IndexOf(rest, '/');
    OwnCache(ParseInt(rest), if pos > 0 then rest[pos + 1..] else "")
  }

  /**
   * `fetchAbsoluteValue` with the evident intent of its prefix test: a path that starts
   * with the resolved collection path and a slash is read from the binding's own cache.
   */
  function AbsoluteValueSource(path: string, hasCache: bool, resolvedPath: string,
                               contextFetches: bool): ValueSource
  {
    var prefix := resolvedPath + "/";
    if hasCache && StartsWith(path, prefix) then RowValue(path[|prefix|..])
    else if contextFetches then ParentContext(path)
    else NoValue
  }

  /** `fetchAbsoluteValue` as written: the prefix test is `lastIndexOf(prefix) === 0`. */
  function AbsoluteValueSourceAsWritten(path: string, hasCache: bool, resolvedPath: string,
                                        contextFetches: bool): ValueSource
  {
    var prefix := resolvedPath + "/";
    if hasCache && LastIndexOf(path, prefix) == 0 then RowValue(path[|prefix|..])
    else if contextFetches then ParentContext(path)
    else NoValue
  }

  /** The first slash of `d + "/" + rest`, where `d` has none, is the one after `d`. */
  lemma IndexOfFirstSlash(d: string, rest: string)
    requires '/' !in d
    ensures IndexOf(d + "/" + rest, '/') == |d|
  {
    var s := d + "/" + rest;
    assert s[|d|] == '/';
    assert forall j :: 0 <= j < |d| ==> s[j] == d[j];
    assert forall k :: |d| < k <= |s| ==> s[..k][|d|] == '/';
  }

  /** The part after the collection path names row `i` and the path `rest` inside it. */
  lemma RowValueOfTail(i: int, rest: string)
    ensures RowValue(IndexString(i) + "/" + rest) == OwnCache(Some(i), rest)
  {
    var d := IndexString(i);
    var tail := d + "/" + rest;
    assert tail == d + ("/" + rest);
    ParseIndexString(i, "/" + rest);
    IndexOfFirstSlash(d, rest);
    assert tail[|d| + 1..] == rest;
  }

  /** A path that starts with the collection path and a slash is read from the own cache. */
  lemma AbsoluteValueOfPrefixed(resolvedPath: string, tail: string, contextFetches: bool)
    ensures AbsoluteValueSource(resolvedPath + "/" + tail, true, resolvedPath, contextFetches)
            == RowValue(tail)
  {
    var prefix := resolvedPath + "/";
    var path := prefix + tail;
    assert path[..|prefix|] == prefix;
    assert path[|prefix|..] == tail;
  }

  /** A path inside row `i` is read from the own cache at index `i` with the rest of the path. */
  lemma AbsoluteValueOfRowPath(resolvedPath: string, i: int, rest: string, contextFetches: bool)
    ensures AbsoluteValueSource(RowPath(resolvedPath, i) + "/" + rest, true, resolvedPath,
                                contextFetches) == OwnCache(Some(i), rest)
  {
    var tail := IndexString(i) + "/" + rest;
    assert RowPath(resolvedPath, i) + "/" + rest == resolvedPath + "/" + tail;
    AbsoluteValueOfPrefixed(resolvedPath, tail, contextFetches);
    RowValueOfTail(i, rest);
  }

  /** The path of row `i` itself is read from the own cache at index `i` with an empty path. */
  lemma AbsoluteValueOfRow(resolvedPath: string, i: int, contextFetches: bool)
    ensures AbsoluteValueSource(RowPath(resolvedPath, i), true, resolvedPath, contextFetches)
            == OwnCache(Some(i), "")
  {
    var prefix := resolvedPath + "/";
    var path := RowPath(resolvedPath, i);
    assert path[..|prefix|] == prefix;
    assert path[|prefix|..] == IndexString(i);
    ParseIndexString(i, []);
    assert IndexString(i) + [] == IndexString(i);
  }

  /**
   * As written, a path in which the collection path occurs a second time is not read
   * from the own cache: for the collection "/A", the path "/A/0/A/" of property "A/"
   * of row 0 goes to the parent context instead.
   */
  lemma AbsoluteValueAsWrittenMissesRow()
    ensures AbsoluteValueSourceAsWritten("/A/0/A/", true, "/A", true) == ParentContext("/A/0/A/")
    ensures AbsoluteValueSource("/A/0/A/", true, "/A", true) == OwnCache(Some(0), "A/")
  {
    var path := "/A/0/A/";
    assert path[4..7] == "/A/";
    assert LastIndexFrom(path, "/A/", 4) == 4;
    assert IndexString(0) == "0";
    assert RowPath("/A", 0) + "/" + "A/" == path;
    AbsoluteValueOfRowPath("/A", 0, "A/", true);
  }
}

/**
 * `getReadRange`: the range a list binding reads for a request of `length` rows
 * from `start`, widened by the maximum prefetch size on each side where rows are
 * missing nearby.
 */
module Prefetch {
  import opened Projection

  /** `isDataMissing(lo, hi)`: some index of `[lo, hi)` has no context. */
  predicate DataMissing(rows: Rows, lo: int, hi: int) {
    exists i :: lo <= i < hi && rows.At(i).None?
  }

  /**
   * The probe after the range, `[start + length, start + length + prefetch / 2)`: the
   * loop runs over whole indices, so an odd prefetch size probes `(prefetch + 1) / 2`
   * indices.
   */
  predicate MissingAfter(rows: Rows, start: int, length: int, prefetch: nat) {
    DataMissing(rows, start + length, start + length + (prefetch + 1) / 2)
  }

  /**
   * The probe before the range, from `Math.max(start - prefetch / 2, 0)` up to `start`.
   * With an odd prefetch size and `2 * start > prefetch` the probe starts at a
   * fractional index, where the array never holds a context, so it always reports
   * missing data.
   */
  predicate MissingBefore(rows: Rows, start: int, prefetch: nat) {
    if prefetch % 2 == 1 && 2 * start > prefetch then true
    else DataMissing(rows, Max(start - prefetch / 2, 0), start)
  }

  /**
   * The range `getReadRange` computes: the end moves out by the prefetch size when
   * data is missing after the range, the start moves back by it when data is missing
   * before the range, and a start below 0 is cut off at 0.
   */
  function ReadRange(rows: Rows, start: int, length: int, prefetch: nat): (r: Range)
    ensures r.start <= start && start + length <= r.start + r.length
    ensures r.start + r.length ==
            start + length + (if MissingAfter(rows, start, length, prefetch) then prefetch else 0)
    ensures r.start == if MissingBefore(rows, start, prefetch) then Max(start - prefetch, 0) else start
    ensures r.start >= 0 || r.start == start
  {
    var length1 := if MissingAfter(rows, start, length, prefetch) then length + prefetch else length;
    if MissingBefore(rows, start, prefetch) then
      var start2, length2 := start - prefetch, length1 + prefetch;
      if start2 < 0 then Range(0, length2 + start2) else Range(start2, length2)
    else
      Range(start, length1)
  }

  /** Without prefetching the requested range is read as it is. */
  lemma ReadRangeNoPrefetch(rows: Rows, start: int, length: int)
    ensures ReadRange(rows, start, length, 0) == Range(start, length)
  {
    assert !MissingAfter(rows, start, length, 0);
    assert !MissingBefore(rows, start, 0);
  }

  /**
   * A request whose neighbourhood is fully loaded on both sides, with an even
   * prefetch size, is read as it is.
   */
  lemma ReadRangeLoaded(rows: Rows, start: int, length: int, prefetch: nat)
    requires prefetch % 2 == 0
    requires forall i :: Max(start - prefetch / 2, 0) <= i < start ==> rows.At(i).Some?
    requires forall i :: start + length <= i < start + length + prefetch / 2 ==> rows.At(i).Some?
    ensures ReadRange(rows, start, length, prefetch) == Range(start, length)
  {
  }

  /**
   * The range read starts at 0 or later unless the request itself starts before 0,
   * and the read never reaches further than one prefetch size beyond either end.
   */
  lemma ReadRangeWithinPrefetch(rows: Rows, start: int, length: int, prefetch: nat)
    ensures var r := ReadRange(rows, start, length, prefetch);
      && (r.start >= 0 || r.start == start)
      && start - prefetch <= r.start
      && r.start + r.length <= start + length + prefetch
  {
  }

  /** `isDataMissing`: the loop stops at the first index without a context. */
  method IsDataMissing(rows: Rows, lo: int, hi: int) returns (missing: bool)
    ensures missing == DataMissing(rows, lo, hi)
  {
    var i := lo;
    while i < hi
      invariant lo <= i || hi <= lo
      invariant forall k :: lo <= k < i ==> rows.At(k).Some?
    {
      if rows.At(i).None? {
        return true;
      }
      i := i + 1;
    }
    return false;
  }

  /** `getReadRange` over the binding's contexts. */
  method GetReadRange(rows: Rows, start: int, length: int, prefetch: nat) returns (r: Range)
    ensures r == ReadRange(rows, start, length, prefetch)
  {
    var iStart, iLength := start, length;
    var missing := IsDataMissing(rows, start + length, start + length + (prefetch + 1) / 2);
    if missing {
      iLength := iLength + prefetch;
    }
    if prefetch % 2 == 1 && 2 * start > prefetch {
      missing := true;
    } else {
      missing := IsDataMissing(rows, Max(start - prefetch / 2, 0), start);
    }
    if missing {
      iLength := iLength + prefetch;
      iStart := iStart - prefetch;
      if iStart < 0 {
        iLength := iLength + iStart;
        iStart := 0;
      }
    }
    r := Range(iStart, iLength);
  }
}

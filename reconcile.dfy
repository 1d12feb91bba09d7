/**
 * `createContexts`: after a read of `n` rows for a range, every index of
 * `[start, start + n)` gets a context (a previous context with the same path is
 * reused, else a new one is made), then the length bound and `bLengthFinal` follow.
 */
module Reconcile {
  import opened Results
  import opened Paths
  import opened Projection

  /** What the fill loop of `createContexts` carries from one index to the next. */
  datatype Fill = Fill(rows: Rows, previous: map<string, Context>, nextId: nat, changed: bool)

  /** The invariant of the projection, for the state of the fill loop. */
  ghost predicate FillCoherent(f: Fill) {
    Coherent(Projection(f.rows, f.previous, f.nextId, Infinity, false))
  }

  /** One iteration of the fill loop, at index `i` below the collection path `base`. */
  function FillAt(f: Fill, base: string, i: int): Fill
    requires i >= -1
  {
    if f.rows.At(i).Some? then f
    else
      var key := RowPath(base, i);
      if key in f.previous then
        Fill(f.rows.Set(i, f.previous[key]), f.previous - {key}, f.nextId, true)
      else
        Fill(f.rows.Set(i, Context(f.nextId, key, i)), f.previous, f.nextId + 1, true)
  }

  /** The fill loop over the indices `[lo, hi)`. */
  function FillRange(f: Fill, base: string, lo: int, hi: int): Fill
    requires lo >= -1
    decreases hi - lo
  {
    if hi <= lo then f else FillAt(FillRange(f, base, lo, hi - 1), base, hi - 1)
  }

  /** The paths of the holes in `[lo, hi)`: the keys the fill loop takes out of the table. */
  ghost function Holes(rows: Rows, base: string, lo: int, hi: int): set<string>
    decreases hi - lo
  {
    if hi <= lo then {}
    else Holes(rows, base, lo, hi - 1) + (if rows.At(hi - 1).None? then {RowPath(base, hi - 1)} else {})
  }

  /** The fill loop defines index `j` of its range. */
  lemma {:induction false} FillRangeDefines(f: Fill, base: string, lo: int, hi: int, j: int)
    requires lo >= -1 && lo <= j < hi
    ensures FillRange(f, base, lo, hi).rows.At(j).Some?
    decreases hi - lo
  {
    if j < hi - 1 {
      FillRangeDefines(f, base, lo, hi - 1, j);
    }
  }

  /** The fill loop keeps the context of a slot that was defined. */
  lemma {:induction false} FillRangeKeeps(f: Fill, base: string, lo: int, hi: int, j: int)
    requires lo >= -1 && f.rows.At(j).Some?
    ensures FillRange(f, base, lo, hi).rows.At(j) == f.rows.At(j)
    decreases hi - lo
  {
    if hi > lo {
      FillRangeKeeps(f, base, lo, hi - 1, j);
    }
  }

  /** The fill loop reports a change exactly when its range holds a hole. */
  lemma {:induction false} FillRangeChanged(f: Fill, base: string, lo: int, hi: int)
    requires lo >= -1
    ensures FillRange(f, base, lo, hi).changed <==>
            f.changed || exists j :: lo <= j < hi && f.rows.At(j).None?
    decreases hi - lo
  {
    if hi > lo {
      FillRangeChanged(f, base, lo, hi - 1);
      FillRangeOutside(f, base, lo, hi - 1, hi - 1);
    }
  }

  /** The fill loop grows the array up to the end of a non-empty range. */
  lemma {:induction false} FillRangeLength(f: Fill, base: string, lo: int, hi: int)
    requires lo >= -1
    ensures |FillRange(f, base, lo, hi).rows.slots| ==
            if lo < hi && hi > |f.rows.slots| then hi else |f.rows.slots|
    decreases hi - lo
  {
    if hi > lo {
      FillRangeLength(f, base, lo, hi - 1);
      FillRangeOutside(f, base, lo, hi - 1, hi - 1);
    }
  }

  /**
   * The fill loop defines every index of the range, keeps every defined slot, touches
   * nothing outside the range, and reports a change exactly when it filled a hole.
   */
  lemma FillRangeSlots(f: Fill, base: string, lo: int, hi: int)
    requires lo >= -1
    ensures var r := FillRange(f, base, lo, hi);
      && (forall j :: lo <= j < hi ==> r.rows.At(j).Some?)
      && (forall j :: f.rows.At(j).Some? ==> r.rows.At(j) == f.rows.At(j))
      && (forall j :: j < lo || hi <= j ==> r.rows.At(j) == f.rows.At(j))
      && (r.changed <==> f.changed || exists j :: lo <= j < hi && f.rows.At(j).None?)
      && |r.rows.slots| == (if lo < hi && hi > |f.rows.slots| then hi else |f.rows.slots|)
      && r.nextId >= f.nextId
  {
    var r := FillRange(f, base, lo, hi);
    forall j | lo <= j < hi ensures r.rows.At(j).Some? {
      FillRangeDefines(f, base, lo, hi, j);
    }
    forall j | f.rows.At(j).Some? ensures r.rows.At(j) == f.rows.At(j) {
      FillRangeKeeps(f, base, lo, hi, j);
    }
    forall j | j < lo || hi <= j ensures r.rows.At(j) == f.rows.At(j) {
      FillRangeOutside(f, base, lo, hi, j);
    }
    FillRangeChanged(f, base, lo, hi);
    FillRangeLength(f, base, lo, hi);
    FillRangeNextId(f, base, lo, hi);
  }

  /** The fill loop leaves every slot outside its range as it was. */
  lemma {:induction false} FillRangeOutside(f: Fill, base: string, lo: int, hi: int, j: int)
    requires lo >= -1 && (j < lo || hi <= j)
    ensures FillRange(f, base, lo, hi).rows.At(j) == f.rows.At(j)
    decreases hi - lo
  {
    if hi > lo {
      FillRangeOutside(f, base, lo, hi - 1, j);
    }
  }

  /** The fill loop never lowers the next identity. */
  lemma {:induction false} FillRangeNextId(f: Fill, base: string, lo: int, hi: int)
    requires lo >= -1
    ensures FillRange(f, base, lo, hi).nextId >= f.nextId
    decreases hi - lo
  {
    if hi > lo {
      FillRangeNextId(f, base, lo, hi - 1);
    }
  }

  /** The path of index `i` is not among the paths of the holes before it. */
  lemma {:induction false} PathNotInEarlierHoles(rows: Rows, base: string, lo: int, i: int, hi: int)
    requires hi <= i
    ensures RowPath(base, i) !in Holes(rows, base, lo, hi)
    decreases hi - lo
  {
    if hi > lo {
      PathNotInEarlierHoles(rows, base, lo, i, hi - 1);
      if RowPath(base, hi - 1) == RowPath(base, i) {
        RowPathInjective(base, hi - 1, i);
      }
    }
  }

  /** The fill loop takes exactly the paths of the holes out of the table of previous contexts. */
  lemma {:induction false} FillRangePrevious(f: Fill, base: string, lo: int, hi: int)
    requires lo >= -1
    ensures FillRange(f, base, lo, hi).previous == f.previous - Holes(f.rows, base, lo, hi)
    decreases hi - lo
  {
    if hi <= lo {
      assert Holes(f.rows, base, lo, hi) == {};
    } else {
      var i := hi - 1;
      FillRangePrevious(f, base, lo, i);
      FillRangeOutside(f, base, lo, i, i);
      var m := FillRange(f, base, lo, i);
      var key := RowPath(base, i);
      if f.rows.At(i).None? {
        assert FillAt(m, base, i).previous == m.previous - {key};
      }
    }
  }

  /** One iteration at a hole fills it from the table, or else with a new context. */
  lemma FillAtHole(f: Fill, base: string, i: int)
    requires i >= -1 && f.rows.At(i).None?
    ensures var key := RowPath(base, i);
      if key in f.previous then
        FillAt(f, base, i).rows.At(i) == Some(f.previous[key]) && FillAt(f, base, i).nextId == f.nextId
      else
        FillAt(f, base, i).rows.At(i) == Some(Context(f.nextId, key, i)) &&
        FillAt(f, base, i).nextId == f.nextId + 1
  {
  }

  /** A hole whose path the table of previous contexts holds gets that very context. */
  lemma {:induction false} FillRangeReused(f: Fill, base: string, lo: int, hi: int, j: int)
    requires lo >= -1 && lo <= j < hi && f.rows.At(j).None?
    requires RowPath(base, j) in f.previous
    ensures FillRange(f, base, lo, hi).rows.At(j) == Some(f.previous[RowPath(base, j)])
    decreases hi - lo
  {
    var i := hi - 1;
    var m := FillRange(f, base, lo, i);
    if j < i {
      FillRangeReused(f, base, lo, i, j);
    } else {
      FillRangeOutside(f, base, lo, i, i);
      FillRangePrevious(f, base, lo, i);
      PathNotInEarlierHoles(f.rows, base, lo, i, i);
      FillAtHole(m, base, i);
    }
  }

  /**
   * A hole whose path the table does not hold gets a new context with that path and
   * index, whose identity was never used before.
   */
  lemma {:induction false} FillRangeFresh(f: Fill, base: string, lo: int, hi: int, j: int)
    requires lo >= -1 && lo <= j < hi && f.rows.At(j).None?
    requires RowPath(base, j) !in f.previous
    ensures var r := FillRange(f, base, lo, hi);
      r.rows.At(j).Some? && r.rows.At(j).value.path == RowPath(base, j) &&
      r.rows.At(j).value.index == j && f.nextId <= r.rows.At(j).value.id < r.nextId
    decreases hi - lo
  {
    var i := hi - 1;
    var m := FillRange(f, base, lo, i);
    FillRangeNextId(f, base, lo, i);
    if j < i {
      FillRangeFresh(f, base, lo, i, j);
    } else {
      FillRangeOutside(f, base, lo, i, i);
      FillRangePrevious(f, base, lo, i);
      FillAtHole(m, base, i);
    }
  }

  /** Filling a hole with the previous context of its path keeps the state coherent. */
  lemma FillAtReusedCoherent(f: Fill, base: string, i: int)
    requires i >= -1 && FillCoherent(f) && f.rows.At(i).None? && RowPath(base, i) in f.previous
    ensures FillCoherent(FillAt(f, base, i))
  {
    var key := RowPath(base, i);
    var c := f.previous[key];
    assert c.path == key && Owned(c, f.nextId);
    IndexStringInjective(c.index, i);
    var g := FillAt(f, base, i);
    assert g == Fill(f.rows.Set(i, c), f.previous - {key}, f.nextId, true);
    forall j | g.rows.At(j).Some?
      ensures g.rows.At(j).value.index == j && Owned(g.rows.At(j).value, g.nextId)
    {
      if j != i {
        assert g.rows.At(j) == f.rows.At(j);
      }
    }
  }

  /** Filling a hole with a new context keeps the state coherent. */
  lemma FillAtFreshCoherent(f: Fill, base: string, i: int)
    requires i >= -1 && FillCoherent(f) && f.rows.At(i).None? && RowPath(base, i) !in f.previous
    ensures FillCoherent(FillAt(f, base, i))
  {
    var key := RowPath(base, i);
    var c := Context(f.nextId, key, i);
    var g := FillAt(f, base, i);
    assert g == Fill(f.rows.Set(i, c), f.previous, f.nextId + 1, true);
    assert Owned(c, g.nextId);
    forall j | g.rows.At(j).Some?
      ensures g.rows.At(j).value.index == j && Owned(g.rows.At(j).value, g.nextId)
    {
      if j != i {
        assert g.rows.At(j) == f.rows.At(j);
      }
    }
    forall k | k in g.previous
      ensures g.previous[k].path == k && Owned(g.previous[k], g.nextId)
    {
      assert g.previous[k] == f.previous[k];
    }
  }

  lemma FillAtCoherent(f: Fill, base: string, i: int)
    requires i >= -1 && FillCoherent(f)
    ensures FillCoherent(FillAt(f, base, i))
  {
    if f.rows.At(i).None? {
      if RowPath(base, i) in f.previous {
        FillAtReusedCoherent(f, base, i);
      } else {
        FillAtFreshCoherent(f, base, i);
      }
    }
  }

  lemma {:induction false} FillRangeCoherent(f: Fill, base: string, lo: int, hi: int)
    requires lo >= -1 && FillCoherent(f)
    ensures FillCoherent(FillRange(f, base, lo, hi))
    decreases hi - lo
  {
    if hi > lo {
      FillRangeCoherent(f, base, lo, hi - 1);
      FillAtCoherent(FillRange(f, base, lo, hi - 1), base, hi - 1);
    }
  }

  /** `createContexts(oRange, n)`: the new projection and whether a change event is due. */
  function Reconcile(p: Projection, base: string, range: Range, n: nat): (Projection, bool)
    requires range.start >= -1 && range.start + n >= 0
  {
    var f := FillRange(Fill(p.rows, p.previous, p.nextId, false), base, range.start,
                       range.start + n);
    var length := |f.rows.slots|;
    var bound := if p.maxLength.Below(length) then Infinity else p.maxLength;
    var short := n < range.length;
    var bound' := if short then Finite(range.start + n) else bound;
    var slots := if short && length > range.start + n then f.rows.slots[..range.start + n]
                 else f.rows.slots;
    var lengthFinal := Finite(|slots|) == bound';
    (Projection(Rows(slots, f.rows.created), f.previous, f.nextId, bound', lengthFinal),
     f.changed || lengthFinal != p.lengthFinal)
  }

  /** The fill loop of `createContexts`, started from the projection's own state. */
  function Filled(p: Projection, base: string, range: Range, n: nat): Fill
    requires range.start >= -1
  {
    FillRange(Fill(p.rows, p.previous, p.nextId, false), base, range.start, range.start + n)
  }

  /**
   * Every index of `[start, start + n)` holds a context afterwards, and every slot
   * that survives the truncation and was defined or lies outside the range keeps its
   * context.
   */
  lemma ReconcileFills(p: Projection, base: string, range: Range, n: nat)
    requires range.start >= -1 && range.start + n >= 0
    ensures var q := Reconcile(p, base, range, n).0;
      && (forall j :: range.start <= j < range.start + n ==> q.rows.At(j).Some?)
      && (forall j :: j < |q.rows.slots| && p.rows.At(j).Some? ==> q.rows.At(j) == p.rows.At(j))
      && (forall j :: j < |q.rows.slots| && (j < range.start || range.start + n <= j) ==>
                      q.rows.At(j) == p.rows.At(j))
  {
    var f := Filled(p, base, range, n);
    FillRangeSlots(Fill(p.rows, p.previous, p.nextId, false), base, range.start, range.start + n);
    var q := Reconcile(p, base, range, n).0;
    assert |q.rows.slots| <= |f.rows.slots|;
    forall j | j < |q.rows.slots| ensures q.rows.At(j) == f.rows.At(j) {
    }
    forall j | range.start <= j < range.start + n ensures q.rows.At(j).Some? {
      assert f.rows.At(j).Some?;
      if j >= 0 {
        assert j < |q.rows.slots|;
      }
    }
  }

  /**
   * A hole of the range gets the previous context of its path, which leaves the
   * table; a hole whose path the table does not hold gets a new context with that path
   * and index and an identity never used before.
   */
  lemma ReconcileReuse(p: Projection, base: string, range: Range, n: nat, j: int)
    requires range.start >= -1 && range.start + n >= 0
    requires range.start <= j < range.start + n && p.rows.At(j).None?
    ensures var q := Reconcile(p, base, range, n).0;
      var key := RowPath(base, j);
      && key !in q.previous
      && (key in p.previous ==> q.rows.At(j) == Some(p.previous[key]))
      && (key !in p.previous ==>
            q.rows.At(j).Some? && q.rows.At(j).value.path == key &&
            q.rows.At(j).value.index == j && p.nextId <= q.rows.At(j).value.id < q.nextId)
  {
    var f0 := Fill(p.rows, p.previous, p.nextId, false);
    ReconcileInRange(p, base, range, n, j);
    FillRangePrevious(f0, base, range.start, range.start + n);
    HoleInHoles(p.rows, base, range.start, j, range.start + n);
    if RowPath(base, j) in p.previous {
      FillRangeReused(f0, base, range.start, range.start + n, j);
    } else {
      FillRangeFresh(f0, base, range.start, range.start + n, j);
    }
  }

  /** Inside the range the result holds what the fill loop put there; the table and identities are the loop's. */
  lemma ReconcileInRange(p: Projection, base: string, range: Range, n: nat, j: int)
    requires range.start >= -1 && range.start + n >= 0
    requires range.start <= j < range.start + n
    ensures var q := Reconcile(p, base, range, n).0;
      var f := Filled(p, base, range, n);
      q.rows.At(j) == f.rows.At(j) && q.previous == f.previous && q.nextId == f.nextId
  {
    var f0 := Fill(p.rows, p.previous, p.nextId, false);
    FillRangeLength(f0, base, range.start, range.start + n);
  }

  /** The path of a hole of the range is among the paths of the holes. */
  lemma {:induction false} HoleInHoles(rows: Rows, base: string, lo: int, j: int, hi: int)
    requires lo <= j < hi && rows.At(j).None?
    ensures RowPath(base, j) in Holes(rows, base, lo, hi)
    decreases hi - lo
  {
    if j < hi - 1 {
      HoleInHoles(rows, base, lo, j, hi - 1);
    }
  }

  /** Exactly the paths of the holes of the range leave the table of previous contexts. */
  lemma ReconcilePrevious(p: Projection, base: string, range: Range, n: nat)
    requires range.start >= -1 && range.start + n >= 0
    ensures Reconcile(p, base, range, n).0.previous ==
            p.previous - Holes(p.rows, base, range.start, range.start + n)
  {
    FillRangePrevious(Fill(p.rows, p.previous, p.nextId, false), base, range.start,
                      range.start + n);
  }

  /**
   * The length bound: a bound the array outgrew becomes `Infinity`; a short read
   * fixes it at `start + n` and cuts the array there; afterwards the bound is an
   * upper bound of the array's length, and the length is final exactly when the two
   * meet.
   */
  lemma ReconcileBound(p: Projection, base: string, range: Range, n: nat)
    requires range.start >= -1 && range.start + n >= 0
    ensures var q := Reconcile(p, base, range, n).0;
      var length := |Filled(p, base, range, n).rows.slots|;
      && (n < range.length ==>
            && q.maxLength == Finite(range.start + n)
            && |q.rows.slots| == Min(length, range.start + n))
      && (n >= range.length ==>
            && q.rows.slots == Filled(p, base, range, n).rows.slots
            && q.maxLength == if p.maxLength.Below(length) then Infinity else p.maxLength)
      && (q.maxLength.Finite? ==> |q.rows.slots| <= q.maxLength.n)
      && (q.lengthFinal <==> q.maxLength == Finite(|q.rows.slots|))
  {
  }

  /**
   * `createContexts` reports a change exactly when it filled a hole of the range or
   * the length became final or stopped being final.
   */
  lemma ReconcileChanged(p: Projection, base: string, range: Range, n: nat)
    requires range.start >= -1 && range.start + n >= 0
    ensures var (q, changed) := Reconcile(p, base, range, n);
      changed <==> (exists j :: range.start <= j < range.start + n && p.rows.At(j).None?) ||
                   q.lengthFinal != p.lengthFinal
  {
    FillRangeSlots(Fill(p.rows, p.previous, p.nextId, false), base, range.start, range.start + n);
  }

  /** Cutting the array of a coherent projection keeps it coherent. */
  lemma CoherentPrefix(p: Projection, q: Projection)
    requires Coherent(p)
    requires q.previous == p.previous && q.nextId == p.nextId && q.rows.created == p.rows.created
    requires |q.rows.slots| <= |p.rows.slots| && q.rows.slots == p.rows.slots[..|q.rows.slots|]
    ensures Coherent(q)
  {
    forall j | q.rows.At(j).Some?
      ensures q.rows.At(j).value.index == j && Owned(q.rows.At(j).value, q.nextId)
    {
      assert q.rows.At(j) == p.rows.At(j);
    }
  }

  /** `createContexts` keeps the projection coherent. */
  lemma ReconcileCoherent(p: Projection, base: string, range: Range, n: nat)
    requires range.start >= -1 && range.start + n >= 0 && Coherent(p)
    ensures Coherent(Reconcile(p, base, range, n).0)
  {
    var f0 := Fill(p.rows, p.previous, p.nextId, false);
    FillRangeCoherent(f0, base, range.start, range.start + n);
    var f := Filled(p, base, range, n);
    var q := Reconcile(p, base, range, n).0;
    assert q.rows.slots == f.rows.slots[..|q.rows.slots|];
    CoherentPrefix(Projection(f.rows, f.previous, f.nextId, Infinity, false), q);
  }

  /**
   * A short read that reaches its end makes the length final: the array then ends
   * exactly at `start + n`.
   */
  lemma ReconcileShortRead(p: Projection, base: string, range: Range, n: nat)
    requires range.start >= -1 && range.start + n >= 0
    requires n < range.length && (n > 0 || |p.rows.slots| >= range.start)
    ensures var q := Reconcile(p, base, range, n).0;
      q.lengthFinal && |q.rows.slots| == range.start + n
  {
    FillRangeSlots(Fill(p.rows, p.previous, p.nextId, false), base, range.start, range.start + n);
  }

  /** The fill loop over a range without holes changes nothing. */
  lemma {:induction false} FillRangeNoHoles(f: Fill, base: string, lo: int, hi: int)
    requires lo >= -1
    requires forall j :: lo <= j < hi ==> f.rows.At(j).Some?
    ensures FillRange(f, base, lo, hi) == f
    decreases hi - lo
  {
    if hi > lo {
      FillRangeNoHoles(f, base, lo, hi - 1);
    }
  }

  /**
   * Reconciling the same read a second time changes nothing and reports no change:
   * the range is filled, the bound and the array already agree with the read.
   */
  lemma ReconcileIdempotent(p: Projection, base: string, range: Range, n: nat)
    requires range.start >= -1 && range.start + n >= 0
    ensures var q := Reconcile(p, base, range, n).0;
      Reconcile(q, base, range, n) == (q, false)
  {
    var q := Reconcile(p, base, range, n).0;
    ReconcileFills(p, base, range, n);
    ReconcileBound(p, base, range, n);
    var g := Fill(q.rows, q.previous, q.nextId, false);
    forall j | range.start <= j < range.start + n ensures g.rows.At(j).Some? {
    }
    FillRangeNoHoles(g, base, range.start, range.start + n);
  }
}

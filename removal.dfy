/**
 * The callback of `_delete`: once the cache has removed the entity at `index`, the
 * data of all later rows has moved down by one. The contexts stay at their slots;
 * a slot whose successor was a hole becomes a hole (its context is parked in the
 * table of previous contexts), a hole whose successor held a context gets a new
 * context, and the last slot is dropped.
 */
module Removal {
  import opened Results
  import opened Paths
  import opened Projection

  /** What the re-indexing loop of the callback carries from one index to the next. */
  datatype Shift = Shift(slots: seq<Option<Context>>, previous: map<string, Context>, nextId: nat)

  /** `aContexts[i + 1]`: the slot after the last one is a hole. */
  function Next(slots: seq<Option<Context>>, i: nat): Option<Context> {
    if i + 1 < |slots| then slots[i + 1] else None
  }

  /**
   * One iteration at slot `i`, where `bindingPath` is the binding's own path `sPath`.
   * Two holes in a row do nothing here; see `ShiftStepAsWritten` for what the loop
   * as written does with them.
   */
  function ShiftStep(s: Shift, bindingPath: string, i: nat): (r: Shift)
    requires i < |s.slots|
    ensures |r.slots| == |s.slots| && r.nextId >= s.nextId
    ensures forall j :: 0 <= j < |s.slots| && j != i ==> r.slots[j] == s.slots[j]
  {
    var here, next := s.slots[i], Next(s.slots, i);
    if here.Some? && next.None? then
      Shift(s.slots[i := None], s.previous[here.value.path := here.value], s.nextId)
    else if here.None? && next.Some? then
      Shift(s.slots[i := Some(Context(s.nextId, RowPath(bindingPath, i), i))], s.previous,
            s.nextId + 1)
    else
      s
  }

  /** The loop over the slots `[index, hi)`. */
  function ShiftLoop(s: Shift, bindingPath: string, index: nat, hi: nat): (r: Shift)
    requires hi <= |s.slots|
    ensures |r.slots| == |s.slots|
    decreases hi
  {
    if hi <= index then s else ShiftStep(ShiftLoop(s, bindingPath, index, hi - 1), bindingPath, hi - 1)
  }

  /**
   * The new value of slot `i`, from the old values of slots `i` and `i + 1`: the
   * context stays when both held one, a hole follows a hole, a context followed by a
   * hole leaves.
   */
  predicate Shifted(old_: Option<Context>, next: Option<Context>, now: Option<Context>,
                    bindingPath: string, i: int, lo: nat, hi: nat)
  {
    && (now.Some? <==> next.Some?)
    && (old_.Some? && next.Some? ==> now == old_)
    && (old_.None? && next.Some? ==>
          now.value.path == RowPath(bindingPath, i) && now.value.index == i &&
          lo <= now.value.id < hi)
  }

  /** The loop keeps the number of slots and never lowers the next identity. */
  lemma {:induction false} ShiftLoopFrame(s: Shift, bindingPath: string, index: nat, hi: nat)
    requires hi <= |s.slots|
    ensures |ShiftLoop(s, bindingPath, index, hi).slots| == |s.slots|
    ensures ShiftLoop(s, bindingPath, index, hi).nextId >= s.nextId
    decreases hi
  {
    if hi > index {
      ShiftLoopFrame(s, bindingPath, index, hi - 1);
    }
  }

  /** The loop leaves the slots outside `[index, hi)` as they were. */
  lemma {:induction false} ShiftLoopOutside(s: Shift, bindingPath: string, index: nat, hi: nat,
                                            j: nat)
    requires hi <= |s.slots| && j < |s.slots| && (j < index || hi <= j)
    ensures ShiftLoop(s, bindingPath, index, hi).slots[j] == s.slots[j]
    decreases hi
  {
    if hi > index {
      ShiftLoopOutside(s, bindingPath, index, hi - 1, j);
    }
  }

  /** Each slot of `[index, hi)` ends up as `Shifted` says. */
  lemma {:induction false} ShiftLoopAt(s: Shift, bindingPath: string, index: nat, hi: nat, i: nat)
    requires hi <= |s.slots| && index <= i < hi
    ensures var r := ShiftLoop(s, bindingPath, index, hi);
            Shifted(s.slots[i], Next(s.slots, i), r.slots[i], bindingPath, i, s.nextId, r.nextId)
    decreases hi
  {
    ShiftLoopFrame(s, bindingPath, index, hi - 1);
    ShiftLoopLast(s, bindingPath, index, hi);
    var m := ShiftLoop(s, bindingPath, index, hi - 1);
    var r := ShiftLoop(s, bindingPath, index, hi);
    if i < hi - 1 {
      ShiftLoopAt(s, bindingPath, index, hi - 1, i);
      assert r.slots[i] == m.slots[i] && m.nextId <= r.nextId;
    }
  }

  /** The paths of the contexts the loop over `[index, hi)` parks: those followed by a hole. */
  ghost function Parked(slots: seq<Option<Context>>, index: nat, hi: nat): set<string>
    requires hi <= |slots|
    decreases hi
  {
    if hi <= index then {}
    else Parked(slots, index, hi - 1) +
         (if slots[hi - 1].Some? && Next(slots, hi - 1).None? then {slots[hi - 1].value.path} else {})
  }

  /** The last iteration of the loop over `[index, hi)` sees slot `hi - 1` and its successor unchanged. */
  lemma ShiftLoopLast(s: Shift, bindingPath: string, index: nat, hi: nat)
    requires index < hi <= |s.slots|
    ensures var m := ShiftLoop(s, bindingPath, index, hi - 1);
      && ShiftLoop(s, bindingPath, index, hi) == ShiftStep(m, bindingPath, hi - 1)
      && m.slots[hi - 1] == s.slots[hi - 1]
      && Next(m.slots, hi - 1) == Next(s.slots, hi - 1)
  {
    ShiftLoopOutside(s, bindingPath, index, hi - 1, hi - 1);
    if hi < |s.slots| {
      ShiftLoopOutside(s, bindingPath, index, hi - 1, hi);
    }
  }

  /** The table of previous contexts gains exactly the parked paths. */
  lemma {:induction false} ShiftLoopPreviousKeys(s: Shift, bindingPath: string, index: nat, hi: nat)
    requires hi <= |s.slots|
    ensures ShiftLoop(s, bindingPath, index, hi).previous.Keys ==
            s.previous.Keys + Parked(s.slots, index, hi)
    decreases hi
  {
    if hi > index {
      ShiftLoopPreviousKeys(s, bindingPath, index, hi - 1);
      ShiftLoopLast(s, bindingPath, index, hi);
    }
  }

  /** An entry of the table whose path is not parked keeps its context. */
  lemma {:induction false} ShiftLoopPrevious(s: Shift, bindingPath: string, index: nat, hi: nat,
                                             k: string)
    requires hi <= |s.slots|
    requires k in s.previous && k !in Parked(s.slots, index, hi)
    ensures k in ShiftLoop(s, bindingPath, index, hi).previous
    ensures ShiftLoop(s, bindingPath, index, hi).previous[k] == s.previous[k]
    decreases hi
  {
    if hi > index {
      ShiftLoopPrevious(s, bindingPath, index, hi - 1, k);
      ShiftLoopLast(s, bindingPath, index, hi);
    }
  }

  /** No two slots hold contexts with the same path. */
  ghost predicate DistinctPaths(slots: seq<Option<Context>>) {
    forall a, b ::
      (0 <= a < |slots| && 0 <= b < |slots| && slots[a].Some? && slots[b].Some? &&
       slots[a].value.path == slots[b].value.path) ==> a == b
  }

  /**
   * A context followed by a hole lands in the table of previous contexts under its
   * path, when no other slot holds a context with that path.
   */
  lemma {:induction false} ShiftLoopParks(s: Shift, bindingPath: string, index: nat, hi: nat,
                                          i: nat)
    requires hi <= |s.slots| && index <= i < hi && DistinctPaths(s.slots)
    requires s.slots[i].Some? && Next(s.slots, i).None?
    ensures var r := ShiftLoop(s, bindingPath, index, hi);
      s.slots[i].value.path in r.previous && r.previous[s.slots[i].value.path] == s.slots[i].value
    decreases hi
  {
    ShiftLoopLast(s, bindingPath, index, hi);
    if i < hi - 1 {
      ShiftLoopParks(s, bindingPath, index, hi - 1, i);
      if s.slots[hi - 1].Some? && Next(s.slots, hi - 1).None? {
        assert s.slots[hi - 1].value.path != s.slots[i].value.path;
      }
    }
  }

  /**
   * The callback for `index`: -1 clears the created row; otherwise the loop runs over
   * `[index, length)`, the last slot is popped and the length bound drops by one.
   */
  function Remove(p: Projection, bindingPath: string, index: int): (q: Projection)
    requires index >= -1
    ensures q.lengthFinal == p.lengthFinal
    ensures index == -1 ==> q == p.(rows := Rows(p.rows.slots, None))
  {
    if index == -1 then p.(rows := Rows(p.rows.slots, None))
    else
      var s := ShiftLoop(Shift(p.rows.slots, p.previous, p.nextId), bindingPath, index,
                         |p.rows.slots|);
      var slots := if |s.slots| == 0 then s.slots else s.slots[..|s.slots| - 1];
      Projection(Rows(slots, p.rows.created), s.previous, s.nextId, p.maxLength.Decrement(),
                 p.lengthFinal)
  }

  /**
   * After the callback for `index >= 0`: the created row and the slots below `index`
   * are untouched, the array is one shorter (unless it was empty), the length bound
   * is one lower, and each slot from `index` on is `Shifted` from the old slot and
   * its successor.
   */
  lemma RemoveShifts(p: Projection, bindingPath: string, index: nat)
    ensures var q := Remove(p, bindingPath, index);
      && q.rows.created == p.rows.created
      && |q.rows.slots| == (if |p.rows.slots| == 0 then 0 else |p.rows.slots| - 1)
      && q.maxLength == p.maxLength.Decrement()
      && (forall j :: 0 <= j < index && j < |q.rows.slots| ==> q.rows.slots[j] == p.rows.slots[j])
      && (forall i :: index <= i < |q.rows.slots| ==>
            Shifted(p.rows.slots[i], p.rows.slots[i + 1], q.rows.slots[i], bindingPath, i,
                    p.nextId, q.nextId))
  {
    var s0 := Shift(p.rows.slots, p.previous, p.nextId);
    var n := |p.rows.slots|;
    ShiftLoopFrame(s0, bindingPath, index, n);
    var q := Remove(p, bindingPath, index);
    forall j | 0 <= j < index && j < |q.rows.slots|
      ensures q.rows.slots[j] == p.rows.slots[j]
    {
      ShiftLoopOutside(s0, bindingPath, index, n, j);
    }
    forall i | index <= i < |q.rows.slots|
      ensures Shifted(p.rows.slots[i], p.rows.slots[i + 1], q.rows.slots[i], bindingPath, i,
                      p.nextId, q.nextId)
    {
      ShiftLoopAt(s0, bindingPath, index, n, i);
    }
  }

  /**
   * After the callback for `index >= 0` on a coherent projection, every context
   * followed by a hole (the trailing context of each run, from `index` on) is in the
   * table under its path, and every other entry of the table is kept.
   */
  lemma RemoveParks(p: Projection, bindingPath: string, index: nat, i: nat)
    requires Coherent(p) && index <= i < |p.rows.slots|
    requires p.rows.slots[i].Some? && Next(p.rows.slots, i).None?
    ensures var q := Remove(p, bindingPath, index);
      var c := p.rows.slots[i].value;
      && c.path in q.previous && q.previous[c.path] == c
      && (forall k :: k in p.previous ==> k in q.previous)
  {
    var s0 := Shift(p.rows.slots, p.previous, p.nextId);
    var n := |p.rows.slots|;
    forall a, b | 0 <= a < n && 0 <= b < n && p.rows.slots[a].Some? && p.rows.slots[b].Some? &&
                  p.rows.slots[a].value.path == p.rows.slots[b].value.path
      ensures a == b
    {
      assert p.rows.At(a) == p.rows.slots[a] && p.rows.At(b) == p.rows.slots[b];
      CoherentPathsDistinct(p, a, b);
    }
    ShiftLoopParks(s0, bindingPath, index, n, i);
    ShiftLoopPreviousKeys(s0, bindingPath, index, n);
  }

  /** The callback keeps the projection coherent. */
  lemma RemoveCoherent(p: Projection, bindingPath: string, index: int)
    requires index >= -1 && Coherent(p)
    ensures Coherent(Remove(p, bindingPath, index))
  {
    if index >= 0 {
      RemoveRowsCoherent(p, bindingPath, index);
      RemovePreviousCoherent(p, bindingPath, index);
    } else {
      var q := Remove(p, bindingPath, index);
      assert forall i :: q.rows.At(i).Some? ==> q.rows.At(i) == p.rows.At(i);
    }
  }

  /** After the callback every slot holds an owned context carrying its index. */
  lemma RemoveRowsCoherent(p: Projection, bindingPath: string, index: nat)
    requires Coherent(p)
    ensures var q := Remove(p, bindingPath, index);
      forall i :: q.rows.At(i).Some? ==> q.rows.At(i).value.index == i && Owned(q.rows.At(i).value, q.nextId)
  {
    var s0 := Shift(p.rows.slots, p.previous, p.nextId);
    var n := |p.rows.slots|;
    var q := Remove(p, bindingPath, index);
    RemoveShifts(p, bindingPath, index);
    ShiftLoopFrame(s0, bindingPath, index, n);
    forall i | q.rows.At(i).Some?
      ensures q.rows.At(i).value.index == i && Owned(q.rows.At(i).value, q.nextId)
    {
      if i == -1 {
        assert q.rows.At(i) == p.rows.At(i);
      } else if 0 <= i < index {
        assert q.rows.At(i) == p.rows.At(i);
      } else {
        assert q.rows.At(i) == q.rows.slots[i];
        assert p.rows.At(i) == p.rows.slots[i] && p.rows.At(i + 1) == p.rows.slots[i + 1];
        assert Shifted(p.rows.slots[i], p.rows.slots[i + 1], q.rows.slots[i], bindingPath, i,
                       p.nextId, q.nextId);
      }
    }
  }

  /** After the callback the table files each owned context under its own path. */
  lemma RemovePreviousCoherent(p: Projection, bindingPath: string, index: nat)
    requires Coherent(p)
    ensures var q := Remove(p, bindingPath, index);
      forall k :: k in q.previous ==> q.previous[k].path == k && Owned(q.previous[k], q.nextId)
  {
    var s0 := Shift(p.rows.slots, p.previous, p.nextId);
    var n := |p.rows.slots|;
    var q := Remove(p, bindingPath, index);
    ShiftLoopFrame(s0, bindingPath, index, n);
    forall k | k in q.previous
      ensures q.previous[k].path == k && Owned(q.previous[k], q.nextId)
    {
      ShiftLoopPreviousAt(s0, bindingPath, index, n, k);
      var c := q.previous[k];
      if !(k in p.previous && c == p.previous[k]) {
        var i :| index <= i < n && p.rows.slots[i] == Some(c) && c.path == k;
        assert p.rows.At(i) == p.rows.slots[i];
      }
    }
  }

  /**
   * Every entry of the table after the loop is either an old entry or a context that
   * sat in one of the slots of the loop, filed under its own path.
   */
  lemma {:induction false} ShiftLoopPreviousAt(s: Shift, bindingPath: string, index: nat, hi: nat,
                                               k: string)
    requires hi <= |s.slots|
    requires k in ShiftLoop(s, bindingPath, index, hi).previous
    ensures var c := ShiftLoop(s, bindingPath, index, hi).previous[k];
      (k in s.previous && c == s.previous[k]) ||
      (exists i :: index <= i < hi && s.slots[i] == Some(c) && c.path == k)
    decreases hi
  {
    if hi > index {
      var m := ShiftLoop(s, bindingPath, index, hi - 1);
      ShiftLoopLast(s, bindingPath, index, hi);
      var here := m.slots[hi - 1];
      if here.Some? && Next(m.slots, hi - 1).None? && k == here.value.path {
        assert s.slots[hi - 1] == here;
      } else {
        ShiftLoopPreviousAt(s, bindingPath, index, hi - 1, k);
      }
    }
  }

  /**
   * One iteration as written: with no context at slot `i` and none after it,
   * `oContext.checkUpdate()` is called on `undefined` and throws a TypeError.
   */
  function ShiftStepAsWritten(s: Shift, bindingPath: string, i: nat): (r: Result<Shift>)
    requires i < |s.slots|
    ensures r.Err? <==> s.slots[i].None? && Next(s.slots, i).None?
    ensures r.Ok? ==> r.value == ShiftStep(s, bindingPath, i)
  {
    if s.slots[i].None? && Next(s.slots, i).None? then
      Err("TypeError: Cannot read property 'checkUpdate' of undefined")
    else
      Ok(ShiftStep(s, bindingPath, i))
  }

  /** The loop as written, which stops at the first error. */
  function ShiftLoopAsWritten(s: Shift, bindingPath: string, index: nat, hi: nat): (r: Result<Shift>)
    requires hi <= |s.slots|
    ensures r.Ok? ==> |r.value.slots| == |s.slots|
    decreases hi
  {
    if hi <= index then Ok(s)
    else
      var m :- ShiftLoopAsWritten(s, bindingPath, index, hi - 1);
      ShiftStepAsWritten(m, bindingPath, hi - 1)
  }

  /** Two holes in a row at `i` and `i + 1` (the slot after the last one counts as a hole). */
  predicate AdjacentHoles(slots: seq<Option<Context>>, index: nat, hi: nat) {
    exists i :: index <= i < hi && i < |slots| && slots[i].None? && Next(slots, i).None?
  }

  /**
   * The loop as written fails exactly when two holes follow each other from `index`
   * on; when it does not fail it agrees with `ShiftLoop`.
   */
  lemma {:induction false} ShiftLoopAsWrittenFails(s: Shift, bindingPath: string, index: nat,
                                                   hi: nat)
    requires hi <= |s.slots|
    ensures ShiftLoopAsWritten(s, bindingPath, index, hi).Err? <==>
            AdjacentHoles(s.slots, index, hi)
    ensures ShiftLoopAsWritten(s, bindingPath, index, hi).Ok? ==>
            ShiftLoopAsWritten(s, bindingPath, index, hi).value == ShiftLoop(s, bindingPath, index, hi)
    decreases hi
  {
    if hi > index {
      var i := hi - 1;
      ShiftLoopAsWrittenFails(s, bindingPath, index, i);
      AdjacentHolesStep(s.slots, index, hi);
      var m := ShiftLoop(s, bindingPath, index, i);
      ShiftLoopLast(s, bindingPath, index, hi);
      var w := ShiftLoopAsWritten(s, bindingPath, index, i);
      if w.Ok? {
        assert ShiftLoopAsWritten(s, bindingPath, index, hi) == ShiftStepAsWritten(m, bindingPath, i);
      }
    }
  }

  /** Adjacent holes up to `hi` are those up to `hi - 1` or a pair starting at `hi - 1`. */
  lemma AdjacentHolesStep(slots: seq<Option<Context>>, index: nat, hi: nat)
    requires index < hi <= |slots|
    ensures AdjacentHoles(slots, index, hi) <==>
            AdjacentHoles(slots, index, hi - 1) || (slots[hi - 1].None? && Next(slots, hi - 1).None?)
  {
    if AdjacentHoles(slots, index, hi) && !AdjacentHoles(slots, index, hi - 1) {
      var i :| index <= i < hi && i < |slots| && slots[i].None? && Next(slots, i).None?;
      assert i == hi - 1;
    }
  }

  /** The array of the example: contexts at rows 0 and 3, holes at 1 and 2. */
  function HolesExample(c0: Context, c3: Context, nextId: nat): Shift {
    Shift([Some(c0), None, None, Some(c3)], map[], nextId)
  }

  /** The loop over slots 0 and 1 of the example parks `c0` and passes the first hole by. */
  lemma HolesExampleFirst(c0: Context, c3: Context, bindingPath: string, nextId: nat)
    ensures ShiftLoop(HolesExample(c0, c3, nextId), bindingPath, 0, 2) ==
            Shift([None, None, None, Some(c3)], map[c0.path := c0], nextId)
  {
    var s := HolesExample(c0, c3, nextId);
    var s1 := Shift([None, None, None, Some(c3)], map[c0.path := c0], nextId);
    assert s.slots[0 := None] == s1.slots;
    assert ShiftLoop(s, bindingPath, 0, 1) == s1;
  }

  /** Slot 2 of the example, a hole followed by `c3`, gets a new context. */
  lemma HolesExampleSecond(c0: Context, c3: Context, bindingPath: string, nextId: nat)
    ensures ShiftLoop(HolesExample(c0, c3, nextId), bindingPath, 0, 3) ==
            Shift([None, None, Some(Context(nextId, RowPath(bindingPath, 2), 2)), Some(c3)],
                  map[c0.path := c0], nextId + 1)
  {
    HolesExampleFirst(c0, c3, bindingPath, nextId);
    var s1 := Shift([None, None, None, Some(c3)], map[c0.path := c0], nextId);
    assert s1.slots[2 := Some(Context(nextId, RowPath(bindingPath, 2), 2))] ==
           [None, None, Some(Context(nextId, RowPath(bindingPath, 2), 2)), Some(c3)];
  }

  /** The loop as written meets the holes at 1 and 2 of the example and throws. */
  lemma HolesExampleThrows(c0: Context, c3: Context, bindingPath: string, nextId: nat)
    ensures ShiftLoopAsWritten(HolesExample(c0, c3, nextId), bindingPath, 0, 4).Err?
  {
    var s := HolesExample(c0, c3, nextId);
    AdjacentHolesAt(s.slots, 0, 4, 1);
    ShiftLoopAsWrittenFails(s, bindingPath, 0, 4);
  }

  /** Two holes in a row at `i` inside `[index, hi)` are adjacent holes of that range. */
  lemma AdjacentHolesAt(slots: seq<Option<Context>>, index: nat, hi: nat, i: nat)
    requires index <= i < hi && i < |slots| && slots[i].None? && Next(slots, i).None?
    ensures AdjacentHoles(slots, index, hi)
  {
  }

  /**
   * An array with data at rows 0 and 3 only (any two contexts `c0` and `c3`): deleting
   * row 0 parks `c0` and then meets the holes at 1 and 2, so the callback as written
   * throws, while the intended loop passes the holes by, gives slot 2 a new context
   * (showing the data of row 3) and parks `c3`.
   */
  lemma DeleteBeforeHolesThrows(c0: Context, c3: Context, bindingPath: string, nextId: nat)
    ensures ShiftLoopAsWritten(HolesExample(c0, c3, nextId), bindingPath, 0, 4).Err?
    ensures ShiftLoop(HolesExample(c0, c3, nextId), bindingPath, 0, 4) ==
            Shift([None, None, Some(Context(nextId, RowPath(bindingPath, 2), 2)), None],
                  map[c0.path := c0][c3.path := c3], nextId + 1)
  {
    HolesExampleThrows(c0, c3, bindingPath, nextId);
    HolesExampleSecond(c0, c3, bindingPath, nextId);
    var s3 := Shift([None, None, Some(Context(nextId, RowPath(bindingPath, 2), 2)), Some(c3)],
                    map[c0.path := c0], nextId + 1);
    assert s3.slots[3 := None] == [None, None, Some(Context(nextId, RowPath(bindingPath, 2), 2)), None];
  }
}

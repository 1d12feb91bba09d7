/**
 * `reset`: every context of the array is parked in the table of previous contexts
 * under its path, so that a later `createContexts` can reuse it, and the projection
 * starts over empty with an unknown length.
 */
module Parking {
  import opened Results
  import opened Projection

  /**
   * `aContexts.forEach(c => mPreviousContextsByPath[c.getPath()] = c)`: `forEach` skips
   * the holes, and a later context overwrites an earlier one with the same path.
   */
  function Park(previous: map<string, Context>, slots: seq<Option<Context>>): map<string, Context>
    decreases |slots|
  {
    if |slots| == 0 then previous
    else
      var m := Park(previous, slots[..|slots| - 1]);
      var c := slots[|slots| - 1];
      if c.Some? then m[c.value.path := c.value] else m
  }

  /**
   * Parking keeps the old keys and adds the path of every context of the array; a key
   * that no context of the array has keeps its old context.
   */
  lemma {:induction false} ParkKeys(previous: map<string, Context>, slots: seq<Option<Context>>)
    ensures Park(previous, slots).Keys ==
            previous.Keys + set i | 0 <= i < |slots| && slots[i].Some? :: slots[i].value.path
    ensures forall k :: k in previous && (forall i :: 0 <= i < |slots| && slots[i].Some? ==>
                                           slots[i].value.path != k) ==>
                        Park(previous, slots)[k] == previous[k]
    decreases |slots|
  {
    if |slots| > 0 {
      var init := slots[..|slots| - 1];
      ParkKeys(previous, init);
      var c := slots[|slots| - 1];
      var paths := set i | 0 <= i < |slots| && slots[i].Some? :: slots[i].value.path;
      var initPaths := set i | 0 <= i < |init| && init[i].Some? :: init[i].value.path;
      assert paths == initPaths + (if c.Some? then {c.value.path} else {}) by {
        forall k | k in paths ensures k in initPaths + (if c.Some? then {c.value.path} else {}) {
          var i :| 0 <= i < |slots| && slots[i].Some? && slots[i].value.path == k;
          if i < |init| {
            assert init[i] == slots[i];
          }
        }
        forall k | k in initPaths ensures k in paths {
          var i :| 0 <= i < |init| && init[i].Some? && init[i].value.path == k;
          assert slots[i] == init[i];
        }
      }
      forall k | k in previous && (forall i :: 0 <= i < |slots| && slots[i].Some? ==>
                                    slots[i].value.path != k)
        ensures Park(previous, slots)[k] == previous[k]
      {
        forall i | 0 <= i < |init| && init[i].Some? ensures init[i].value.path != k {
          assert init[i] == slots[i];
        }
      }
    }
  }

  /**
   * When no two contexts of the array share a path, each of them is found in the table
   * under its path after parking.
   */
  lemma {:induction false} ParkContains(previous: map<string, Context>, slots: seq<Option<Context>>,
                                        i: int)
    requires 0 <= i < |slots| && slots[i].Some?
    requires forall a, b :: 0 <= a < b < |slots| && slots[a].Some? && slots[b].Some? ==>
                            slots[a].value.path != slots[b].value.path
    ensures slots[i].value.path in Park(previous, slots)
    ensures Park(previous, slots)[slots[i].value.path] == slots[i].value
    decreases |slots|
  {
    var init := slots[..|slots| - 1];
    if i < |slots| - 1 {
      assert init[i] == slots[i];
      ParkContains(previous, init, i);
    }
  }

  /** Every entry of the table after parking is an old entry or a context of the array. */
  lemma {:induction false} ParkFrom(previous: map<string, Context>, slots: seq<Option<Context>>,
                                    k: string)
    requires k in Park(previous, slots)
    ensures (k in previous && Park(previous, slots)[k] == previous[k]) ||
            (exists i :: 0 <= i < |slots| && slots[i] == Some(Park(previous, slots)[k]) &&
                         Park(previous, slots)[k].path == k)
    decreases |slots|
  {
    if |slots| > 0 {
      var init := slots[..|slots| - 1];
      var c := slots[|slots| - 1];
      if c.Some? && c.value.path == k {
      } else {
        ParkFrom(previous, init, k);
        if !(k in previous && Park(previous, slots)[k] == previous[k]) {
          var i :| 0 <= i < |init| && init[i] == Some(Park(previous, init)[k]) &&
                   Park(previous, init)[k].path == k;
          assert slots[i] == init[i];
        }
      }
    }
  }

  /**
   * `reset`: the contexts of the array are parked, the array (with its created row)
   * is emptied, the bound becomes `Infinity` and the length is not final.
   */
  function Reset(p: Projection): (q: Projection)
    ensures q.rows == Rows([], None) && q.maxLength == Infinity && !q.lengthFinal
    ensures q.nextId == p.nextId
  {
    Projection(Rows([], None), Park(p.previous, p.rows.slots), p.nextId, Infinity, false)
  }

  /**
   * After `reset` of a coherent projection each context that was in the array is in
   * the table under its path, so that reading its index again reuses it.
   */
  lemma ResetParks(p: Projection, i: nat)
    requires Coherent(p) && i < |p.rows.slots| && p.rows.slots[i].Some?
    ensures var c := p.rows.slots[i].value;
      c.path in Reset(p).previous && Reset(p).previous[c.path] == c
  {
    forall a, b | 0 <= a < b < |p.rows.slots| && p.rows.slots[a].Some? && p.rows.slots[b].Some?
      ensures p.rows.slots[a].value.path != p.rows.slots[b].value.path
    {
      assert p.rows.At(a) == p.rows.slots[a] && p.rows.At(b) == p.rows.slots[b];
      if p.rows.slots[a].value.path == p.rows.slots[b].value.path {
        CoherentPathsDistinct(p, a, b);
      }
    }
    ParkContains(p.previous, p.rows.slots, i);
  }

  /** `reset` keeps the projection coherent. */
  lemma ResetCoherent(p: Projection)
    requires Coherent(p)
    ensures Coherent(Reset(p))
  {
    var q := Reset(p);
    forall k | k in q.previous
      ensures q.previous[k].path == k && Owned(q.previous[k], q.nextId)
    {
      ParkFrom(p.previous, p.rows.slots, k);
      if !(k in p.previous && q.previous[k] == p.previous[k]) {
        var i :| 0 <= i < |p.rows.slots| && p.rows.slots[i] == Some(q.previous[k]) &&
                 q.previous[k].path == k;
        assert p.rows.At(i) == p.rows.slots[i];
      }
    }
  }
}

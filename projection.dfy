/**
 * The local projection of the server-side collection held by an OData V4 list
 * binding: the sparse array of row contexts `aContexts` (its slot -1 holds the row
 * created on the client), the upper bound for the collection length and the table
 * of previous contexts that may be reused.
 */
module Projection {
  import opened Results
  import opened Paths

  /**
   * A row context: an opaque handle. `id` stands for the object's identity (two
   * contexts are the same object exactly when they are equal), `path` is its
   * absolute path and `index` its index in the collection (-1 for the created row).
   */
  datatype Context = Context(id: nat, path: string, index: int)

  /** A context whose path ends with its index, as every context the binding creates. */
  predicate WellFormed(c: Context) {
    LastSegment(c.path) == IndexString(c.index)
  }

  /** A context the binding may hold: well formed and allocated before `nextId`. */
  predicate Owned(c: Context, nextId: nat) {
    WellFormed(c) && c.id < nextId
  }

  /** `iMaxLength`: an upper bound for the collection length, possibly `Infinity`. */
  datatype Bound = Finite(n: int) | Infinity {
    /** `iMaxLength -= 1`, which leaves `Infinity` as it is. */
    function Decrement(): (b: Bound)
      ensures b.Finite? <==> Finite?
      ensures Finite? ==> b.n == n - 1
    {
      if Finite? then Finite(n - 1) else Infinity
    }

    /** `length > iMaxLength` */
    predicate Below(length: int) {
      Finite? && n < length
    }
  }

  /** A range of indices to read: `[start, start + length)`. */
  datatype Range = Range(start: int, length: int)

  /**
   * `aContexts`: `slots` are the array's entries 0 to `length - 1`, where `None` is a
   * hole (an index not read yet or a deleted entry); `created` is its slot -1.
   */
  datatype Rows = Rows(slots: seq<Option<Context>>, created: Option<Context>) {
    /** `aContexts[i]` */
    function At(i: int): Option<Context> {
      if i == -1 then created else if 0 <= i < |slots| then slots[i] else None
    }

    /** `aContexts[i] = c`; assigning at or beyond the length grows the array with holes. */
    function Set(i: int, c: Context): (r: Rows)
      requires i >= -1
      ensures r.At(i) == Some(c)
      ensures forall j :: j != i ==> r.At(j) == At(j)
      ensures |r.slots| == if i < |slots| then |slots| else i + 1
    {
      if i == -1 then Rows(slots, Some(c))
      else if i < |slots| then Rows(slots[i := Some(c)], created)
      else Rows(slots + seq(i - |slots|, _ => None) + [Some(c)], created)
    }
  }

  /** The state of the projection that reconciliation, reset and delete update. */
  datatype Projection = Projection(
    rows: Rows,
    previous: map<string, Context>, // mPreviousContextsByPath
    nextId: nat,                    // the identity the next new context gets
    maxLength: Bound,               // iMaxLength
    lengthFinal: bool)              // bLengthFinal

  /**
   * The invariant of the projection: the context in slot `i` has index `i`, the
   * table of previous contexts keys each context by its path, and every context
   * held is owned.
   */
  ghost predicate Coherent(p: Projection) {
    && (forall i :: p.rows.At(i).Some? ==>
          p.rows.At(i).value.index == i && Owned(p.rows.At(i).value, p.nextId))
    && (forall k :: k in p.previous ==>
          p.previous[k].path == k && Owned(p.previous[k], p.nextId))
  }

  /** Two slots of a coherent projection never hold contexts with the same path. */
  lemma CoherentPathsDistinct(p: Projection, i: int, j: int)
    requires Coherent(p) && p.rows.At(i).Some? && p.rows.At(j).Some?
    requires p.rows.At(i).value.path == p.rows.At(j).value.path
    ensures i == j
  {
    IndexStringInjective(i, j);
  }

  function Max(a: int, b: int): int {
    if a < b then b else a
  }

  function Min(a: int, b: int): int {
    if a < b then a else b
  }

  /** How `Array.prototype.slice` reads a bound: negative bounds count from the end. */
  function SliceBound(i: int, length: nat): (r: nat)
    ensures r <= length
  {
    if i < 0 then Max(length + i, 0) else Min(i, length)
  }

  /** `a.slice(begin, end)` */
  function JsSlice<T>(s: seq<T>, begin: int, end: int): (r: seq<T>)
    ensures |r| == Max(0, SliceBound(end, |s|) - SliceBound(begin, |s|))
    ensures forall k :: 0 <= k < |r| ==> r[k] == s[SliceBound(begin, |s|) + k]
  {
    var b, e := SliceBound(begin, |s|), SliceBound(end, |s|);
    if b < e then s[b..e] else []
  }

  /**
   * The contexts `getContexts` and `getCurrentContexts` hand out for `length` rows
   * from `start` in model coordinates, where start -1 puts the created row first.
   */
  function Window(rows: Rows, start: int, length: int): seq<Option<Context>> {
    if start == -1 then [rows.created] + JsSlice(rows.slots, 0, start + length)
    else JsSlice(rows.slots, start, start + length)
  }

  /**
   * A window never holds more than `length` entries, and each context in it carries
   * the index of its position, counted from `start`.
   */
  lemma WindowIndices(p: Projection, start: int, length: int)
    requires Coherent(p)
    requires (start >= 0 && length >= 0) || (start == -1 && length >= 1)
    ensures |Window(p.rows, start, length)| <= length
    ensures forall k :: 0 <= k < |Window(p.rows, start, length)| &&
                        Window(p.rows, start, length)[k].Some? ==>
                        Window(p.rows, start, length)[k].value.index == start + k
  {
    var w := Window(p.rows, start, length);
    if start == -1 {
      assert |JsSlice(p.rows.slots, 0, length - 1)| <= length - 1;
    } else {
      assert |JsSlice(p.rows.slots, start, start + length)| <= length;
    }
    forall k | 0 <= k < |w| && w[k].Some?
      ensures w[k].value.index == start + k
    {
      if start == -1 {
        if k == 0 {
          assert w[k] == p.rows.At(-1);
        } else {
          assert w[k] == p.rows.At(k - 1);
        }
      } else {
        assert w[k] == p.rows.At(start + k);
      }
    }
  }
}

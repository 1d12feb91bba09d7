/**
 * `sap.ui.model.odata.v4.ODataListBinding`: a list binding of an OData V4 model. It
 * holds the projection of a server-side collection (the sparse array `aContexts`,
 * its created row, the table of previous contexts, the length bound and
 * `bLengthFinal`), the window last handed out, the dynamic sorters and filters,
 * the binding parameters and the parent context, and changes them step by step.
 * Reading goes through a cache or the parent context; a read in flight is a
 * `PendingRead` that `CompleteRead` finishes with the number of rows read.
 */
module Binding {
  import opened Results
  import opened Paths
  import opened Projection
  import opened Prefetch
  import opened Reconcile
  import opened Removal
  import opened Parking
  import opened Orderby
  import opened Filters
  import opened QueryOptions
  import opened Events

  /** `sap.ui.model.ChangeReason`, as far as a list binding uses it. */
  datatype ChangeReason = Changed | Refreshed | Sorted | Filtered | Added | Removed | ContextSwitched

  /** What the binding fires: `_fireChange` and `_fireRefresh`, each with its reason. */
  datatype Event = ChangeEvent(reason: ChangeReason) | RefreshEvent(reason: ChangeReason)

  /**
   * A parent context: `id` stands for its identity, `path` is its path and `isV4`
   * says whether it has `fetchCanonicalPath` (a context of the V4 model).
   */
  datatype Parent = Parent(id: nat, path: string, isV4: bool)

  /**
   * A read of `getContexts` in flight: the range read, the parent context when it was
   * issued, the reason of the change event due on completion, and the length asked for.
   */
  datatype PendingRead = PendingRead(range: Range, context: Option<Parent>, reason: ChangeReason,
                                     length: int)

  /** `sap.ui.model.odata.OperationMode.Server` */
  const ServerMode := "Server"

  /** `getLength`: the array's length, one more for the created row, ten more while not final. */
  function LengthOf(p: Projection): int {
    |p.rows.slots| + (if p.rows.created.Some? then 1 else 0) + (if p.lengthFinal then 0 else 10)
  }

  /**
   * After a short read that reaches its end, `getLength` is exactly the bound the read
   * fixed (plus the created row) and `isLengthFinal` is true.
   */
  lemma LengthAfterShortRead(p: Projection, base: string, range: Range, n: nat)
    requires range.start >= -1 && range.start + n >= 0
    requires n < range.length && (n > 0 || |p.rows.slots| >= range.start)
    ensures var q := Reconcile.Reconcile(p, base, range, n).0;
      && q.lengthFinal && q.maxLength == Finite(range.start + n)
      && LengthOf(q) == range.start + n + (if q.rows.created.Some? then 1 else 0)
  {
    ReconcileShortRead(p, base, range, n);
    ReconcileBound(p, base, range, n);
  }

  /** After `reset` the length is an estimate of ten rows and not final. */
  lemma LengthAfterReset(p: Projection)
    ensures LengthOf(Parking.Reset(p)) == 10 && !Parking.Reset(p).lengthFinal
  {
  }

  /** `Math.min(iCurrentEnd, iMaxLength)` */
  function EndWithin(end: int, bound: Bound): int {
    if bound.Finite? && bound.n < end then bound.n else end
  }

  /**
   * `getCurrentContexts`: the window from `begin` up to `end`, cut at the length bound,
   * padded with holes up to its length.
   */
  function CurrentContexts(rows: Rows, maxLength: Bound, begin: int, end: int): seq<Option<Context>> {
    var length := EndWithin(end, maxLength) - begin;
    var w := Window(rows, begin, length);
    if |w| < length then w + seq(length - |w|, _ => None) else w
  }

  /**
   * The current contexts hold, at each position `k`, the slot `begin + k` of the
   * array, as many as the window's length up to the bound.
   */
  lemma CurrentContextsAt(rows: Rows, maxLength: Bound, begin: int, end: int)
    requires EndWithin(end, maxLength) - begin >= 0
    requires begin >= 0 || (begin == -1 && EndWithin(end, maxLength) - begin >= 1)
    ensures var r := CurrentContexts(rows, maxLength, begin, end);
      && |r| == EndWithin(end, maxLength) - begin
      && forall k :: 0 <= k < |r| ==> r[k] == rows.At(begin + k)
  {
    var length := EndWithin(end, maxLength) - begin;
    var w := Window(rows, begin, length);
    var r := CurrentContexts(rows, maxLength, begin, end);
    if begin == -1 {
      var t := JsSlice(rows.slots, 0, length - 1);
      assert t == rows.slots[..Min(length - 1, |rows.slots|)];
      forall k | 0 <= k < |r| ensures r[k] == rows.At(begin + k) {
        if k == 0 {
        } else if k < |w| {
          assert r[k] == t[k - 1];
        }
      }
    } else {
      var lo, hi := Min(begin, |rows.slots|), Min(begin + length, |rows.slots|);
      assert w == if lo < hi then rows.slots[lo..hi] else [];
      forall k | 0 <= k < |r| ensures r[k] == rows.At(begin + k) {
        if k < |w| {
          assert r[k] == rows.slots[lo + k];
        }
      }
    }
  }

  /** The checks of the constructor (and of `setParameters`) before any state is set. */
  function Construction(path: string, operationMode: string, sorters: seq<SorterArg>,
                        applicationFilters: seq<Filter>): (r: Outcome)
    ensures r.Pass? <==> (|path| == 0 || path[|path| - 1] != '/') &&
                         (operationMode != "" || (|sorters| == 0 && |applicationFilters| == 0))
  {
    if |path| > 0 && path[|path| - 1] == '/' then Fail("Invalid path: " + path)
    else if operationMode == "" && (|sorters| > 0 || |applicationFilters| > 0) then
      Fail("Unsupported operation mode: undefined")
    else Pass
  }

  /**
   * The synchronous part of `_delete` and `deleteFromCache`: a context that is not
   * transient cannot be deleted while changes are pending, and a binding with its own
   * cache deletes only in the group "$auto" or "$direct" (the given group, or the
   * update group when none is given). Without a cache the request goes to the parent
   * binding, whose own check gives `parentCheck`.
   */
  function DeleteRequest(transient: bool, pendingChanges: bool, hasCache: bool, groupId: string,
                         updateGroupId: string, parentCheck: Outcome): (r: Outcome)
    ensures r.Pass? <==> (transient || !pendingChanges) &&
                         (if hasCache then (if groupId != "" then groupId else updateGroupId) in {"$auto", "$direct"}
                          else parentCheck.Pass?)
    ensures !transient && pendingChanges ==> r == Fail(DeletePending)
    ensures hasCache && r.Fail? && (transient || !pendingChanges) ==>
              r.message == "Illegal update group ID: " + (if groupId != "" then groupId else updateGroupId)
    ensures !hasCache && (transient || !pendingChanges) ==> r == parentCheck
  {
    if !transient && pendingChanges then Fail(DeletePending)
    else if hasCache then
      var group := if groupId != "" then groupId else updateGroupId;
      if group != "$auto" && group != "$direct" then Fail("Illegal update group ID: " + group)
      else Pass
    else parentCheck
  }

  /** The error of `getContexts` for a start other than 0 with extended change detection. */
  function StartError(start: nat): string {
    StartErrorText + NatToString(start)
  }

  const StartErrorText := "Unsupported operation: v4.ODataListBinding#getContexts, first parameter"
    + " must be 0 if extended change detection is enabled, but is "

  /** The error of `getContexts` for a prefetch size with extended change detection. */
  const PrefetchError := "Unsupported operation: v4.ODataListBinding#getContexts, third parameter"
    + " must not be set if extended change detection is enabled"

  /** The error of `getContexts` for a length other than the one of the pending diff. */
  function LengthError(expected: int, length: int): string {
    ProtocolViolation + IndexString(expected) + ButGot + IndexString(length) + ")"
  }

  const ProtocolViolation := "Extended change detection protocol violation: Expected getContexts(0,"
  const ButGot := "), but got getContexts(0,"

  /** The errors of `sort` and `filter` outside the server operation mode or with pending changes. */
  const ServerModeOnly := "Operation mode has to be sap.ui.model.odata.OperationMode.Server"
  const SortPending := "Cannot sort due to pending changes"
  const FilterPending := "Cannot filter due to pending changes"

  /** The errors of `create` and of `_delete`. */
  const CreateTwice := "Must not create twice"
  const CreateUnsupported := "Create on this binding is not supported"
  const DeletePending := "Cannot delete due to pending changes"

  /** The error of `changeParameters` without a map. */
  const MissingParameters := "Missing map of binding parameters"

  /**
   * What `getContexts` hands out for `len` rows from `start`: the window, unless extended
   * change detection is on and the pending diff was computed for another length.
   */
  function Response(extendedChangeDetection: bool, diff: Option<int>, rows: Rows, start: int, len: int)
    : (r: Result<seq<Option<Context>>>)
    ensures r.Err? <==> extendedChangeDetection && diff.Some? && diff.value != len
  {
    if extendedChangeDetection && diff.Some? && len != diff.value then Err(LengthError(diff.value, len))
    else Ok(Window(rows, start, len))
  }

  /**
   * The projection after the read of `getContexts` for `len` rows from `start`, where
   * `fulfilled` is the number of rows of a read that completes at once: those rows
   * get their contexts; a read still pending leaves the projection as it is.
   */
  function AfterRead(p: Projection, base: string, start: int, len: int, size: nat,
                     fulfilled: Option<nat>): Projection
    requires start >= -1 && (fulfilled.Some? && start == -1 ==> fulfilled.value > 0)
  {
    if fulfilled.Some? then Reconcile.Reconcile(p, base, ReadRange(p.rows, start, len, size), fulfilled.value).0
    else p
  }

  /** The read `getContexts` leaves pending: none when it completed at once. */
  function PendingOf(rows: Rows, start: int, len: int, size: nat, fulfilled: Option<nat>,
                     context: Option<Parent>, reason: ChangeReason): Option<PendingRead>
  {
    if fulfilled.Some? then None else Some(PendingRead(ReadRange(rows, start, len, size), context, reason, len))
  }

  /**
   * Without extended change detection the diff plays no part, and a diff computed for
   * the length asked for is no protocol violation.
   */
  lemma ResponseAfterRead(extendedChangeDetection: bool, diff: Option<int>, rows: Rows, start: int, len: int)
    requires extendedChangeDetection && diff.Some? ==> diff.value == len
    ensures Response(extendedChangeDetection, diff, rows, start, len) == Response(extendedChangeDetection, None, rows, start, len)
  {
  }

  /** The prefetch size `getContexts` uses: a missing or negative size is 0. */
  function PrefetchSize(prefetch: Option<int>): nat {
    if prefetch.None? || prefetch.value < 0 then 0 else prefetch.value
  }

  class ListBinding {
    const path: string               // sPath
    const relative: bool             // bRelative
    const operationMode: string      // sOperationMode, "" when undefined
    const sizeLimit: int             // the model's iSizeLimit

    var contexts: seq<Option<Context>>  // aContexts[0 .. length - 1]
    var created: Option<Context>        // aContexts[-1]
    var previous: map<string, Context>  // mPreviousContextsByPath
    var nextId: nat                     // the identity of the next context made
    var maxLength: Bound                // iMaxLength
    var lengthFinal: bool               // bLengthFinal
    var currentBegin: int               // iCurrentBegin
    var currentEnd: int                 // iCurrentEnd
    var changeReason: Option<ChangeReason>  // sChangeReason
    var useExtendedChangeDetection: bool
    var diff: Option<int>               // the length of a pending oDiff
    var refreshGroupId: Option<string>  // sRefreshGroupId
    var parameters: Options             // mParameters
    var sorters: seq<SorterArg>         // aSorters
    var applicationFilters: seq<Filter> // aApplicationFilters
    var controlFilters: seq<Filter>     // aFilters
    var hasCache: bool                  // whether oCache is set
    var context: Option<Parent>         // oContext
    var handlers: seq<string>           // the events handlers were attached for
    ghost var events: seq<Event>        // the events fired, in order

    /** The projection the binding holds. */
    function State(): Projection
      reads this`contexts, this`created, this`previous, this`nextId, this`maxLength, this`lengthFinal
    {
      Projection(Rows(contexts, created), previous, nextId, maxLength, lengthFinal)
    }

    /** `oModel.resolve(sPath, oContext)`: the collection path the row paths start with. */
    function Resolved(): string
      reads this`context
      requires !relative || context.Some?
    {
      if relative then context.value.path + "/" + path else path
    }

    ghost predicate Valid()
      reads this`contexts, this`created, this`previous, this`nextId, this`maxLength, this`lengthFinal,
            this`hasCache, this`context
    {
      && Coherent(State())
      && (hasCache && relative ==> context.Some?)
    }

    /** `getLength` */
    function GetLength(): int
      reads this`contexts, this`created, this`previous, this`nextId, this`maxLength, this`lengthFinal
    {
      LengthOf(State())
    }

    /** `isLengthFinal` */
    predicate IsLengthFinal()
      reads this`lengthFinal
    {
      lengthFinal
    }

    /**
     * The constructor, for a path and operation mode that pass `Construction`: the
     * projection is empty with an unknown length, and an absolute binding has a cache
     * of its own. The constructor's final `setContext` is `SetContext`.
     */
    constructor (path: string, operationMode: string, sizeLimit: int, parameters: Options,
                 sorters: seq<SorterArg>, applicationFilters: seq<Filter>)
      requires Construction(path, operationMode, sorters, applicationFilters).Pass?
      ensures Valid()
      ensures this.path == path && relative == !(|path| > 0 && path[0] == '/')
      ensures this.operationMode == operationMode && this.sizeLimit == sizeLimit
      ensures this.parameters == parameters && this.sorters == sorters
      ensures this.applicationFilters == applicationFilters && controlFilters == []
      ensures State() == Projection(Rows([], None), map[], 0, Infinity, false)
      ensures currentBegin == 0 && currentEnd == 0 && changeReason.None? && diff.None?
      ensures !useExtendedChangeDetection && refreshGroupId.None?
      ensures hasCache == !relative && context.None? && handlers == [] && events == []
    {
      this.path := path;
      relative := !(|path| > 0 && path[0] == '/');
      this.operationMode := operationMode;
      this.sizeLimit := sizeLimit;
      contexts := [];
      created := None;
      previous := map[];
      nextId := 0;
      maxLength := Infinity;
      lengthFinal := false;
      currentBegin, currentEnd := 0, 0;
      changeReason := None;
      useExtendedChangeDetection := false;
      diff := None;
      refreshGroupId := None;
      this.parameters := parameters;
      this.sorters := sorters;
      this.applicationFilters := applicationFilters;
      controlFilters := [];
      hasCache := |path| > 0 && path[0] == '/';
      context := None;
      handlers := [];
      events := [];
    }

    /** `makeCache(oContext)`: whether the binding gets a cache of its own for `ctx`. */
    predicate OwnCacheFor(ctx: Option<Parent>)
      reads this`parameters, this`sorters, this`controlFilters, this`applicationFilters
    {
      NeedsOwnCache(relative, ctx.Some?, ctx.Some? && ctx.value.isV4, parameters, |sorters|,
                    |controlFilters|, |applicationFilters|)
    }

    /**
     * The loop of `createContexts` over the indices `[lo, hi)`: each hole gets the
     * context parked under its path, or else a new context; the result says whether
     * a hole was filled.
     */
    method FillContexts(base: string, lo: int, hi: int) returns (changed: bool)
      requires lo >= -1
      modifies this`contexts, this`created, this`previous, this`nextId
      ensures Fill(Rows(contexts, created), previous, nextId, changed) ==
              FillRange(Fill(old(Rows(contexts, created)), old(previous), old(nextId), false), base, lo, hi)
    {
      ghost var f0 := Fill(Rows(contexts, created), previous, nextId, false);
      changed := false;
      var i := lo;
      while i < hi
        invariant lo <= i && (i <= hi || i == lo)
        invariant Fill(Rows(contexts, created), previous, nextId, changed) == FillRange(f0, base, lo, i)
      {
        changed := FillSlot(base, i, changed);
        i := i + 1;
      }
      if hi <= lo {
        assert FillRange(f0, base, lo, i) == f0 == FillRange(f0, base, lo, hi);
      }
    }

    /** One iteration of the fill loop: a hole at `i` gets the previous context of its path or a new one. */
    method FillSlot(base: string, i: int, changed: bool) returns (changed': bool)
      requires i >= -1
      modifies this`contexts, this`created, this`previous, this`nextId
      ensures Fill(Rows(contexts, created), previous, nextId, changed') ==
              FillAt(Fill(old(Rows(contexts, created)), old(previous), old(nextId), changed), base, i)
    {
      changed' := changed;
      var rows := Rows(contexts, created);
      if rows.At(i).None? {
        changed' := true;
        var key := RowPath(base, i);
        var c;
        if key in previous {
          c := previous[key];
          previous := previous - {key};
        } else {
          c := Context(nextId, key, i);
          nextId := nextId + 1;
        }
        rows := rows.Set(i, c);
        contexts, created := rows.slots, rows.created;
      }
    }

    /**
     * `createContexts(oRange, n)`: the fill loop gives every index of the range a
     * context, then the bound and `bLengthFinal` follow the read; the result says
     * whether a change event is due.
     */
    method CreateContexts(range: Range, n: nat) returns (changed: bool)
      requires Valid() && (!relative || context.Some?)
      requires range.start >= -1 && range.start + n >= 0
      modifies this`contexts, this`created, this`previous, this`nextId, this`maxLength,
               this`lengthFinal
      ensures (State(), changed) == Reconcile.Reconcile(old(State()), Resolved(), range, n)
      ensures Valid()
    {
      ghost var p0 := State();
      var base := Resolved();
      changed := FillContexts(base, range.start, range.start + n);
      if maxLength.Below(|contexts|) {
        maxLength := Infinity;
      }
      if n < range.length {
        maxLength := Finite(range.start + n);
        if |contexts| > range.start + n {
          contexts := contexts[..range.start + n];
        }
      }
      var newLengthFinal := maxLength == Finite(|contexts|);
      if lengthFinal != newLengthFinal {
        lengthFinal := newLengthFinal;
        changed := true;
      }
      ReconcileCoherent(p0, base, range, n);
    }

    /**
     * The read of `getContexts` for `len` rows from `startInModel`: the range comes from
     * `getReadRange`; a fulfilled read without a pending refresh completes at once
     * (without a change event), any other read is returned as pending.
     */
    method Read(startInModel: int, len: int, size: nat, available: Option<nat>, refreshEvent: bool,
                reason: ChangeReason) returns (read: Option<PendingRead>)
      requires Valid() && (!relative || context.Some?) && startInModel >= -1
      requires available.Some? && startInModel == -1 ==> available.value > 0
      modifies this`contexts, this`created, this`previous, this`nextId, this`maxLength,
               this`lengthFinal, this`diff, this`refreshGroupId
      ensures Valid()
      ensures refreshGroupId == if hasCache then None else old(refreshGroupId)
      ensures var fulfilled := if refreshEvent then None else available;
        && State() == AfterRead(old(State()), Resolved(), startInModel, len, size, fulfilled)
        && read == PendingOf(old(Rows(contexts, created)), startInModel, len, size, fulfilled, context, reason)
        && diff == (if fulfilled.Some? && useExtendedChangeDetection then Some(len) else old(diff))
    {
      var range := GetReadRange(Rows(contexts, created), startInModel, len, size);
      if hasCache {
        refreshGroupId := None;
      }
      if available.Some? && !refreshEvent {
        // the read is fulfilled: its completion runs now, without a change event
        var _ := CreateContexts(range, available.value);
        if useExtendedChangeDetection {
          diff := Some(len);
        }
        read := None;
      } else {
        read := Some(PendingRead(range, context, reason, len));
      }
    }

    /**
     * `getContexts(iStart, iLength, iMaximumPrefetchSize)` for `start >= 0`. `available`
     * is the number of rows read when the read is already fulfilled (the cache or the
     * parent context holds them); then, unless a refresh is pending, the contexts are
     * created before the window is sliced. Otherwise the read is returned as pending.
     */
    method GetContexts(start: int, length: int, prefetch: Option<int>, available: Option<nat>)
      returns (r: Result<seq<Option<Context>>>, read: Option<PendingRead>)
      requires Valid() && start >= 0
      requires available.Some? && created.Some? && start == 0 ==> available.value > 0
      modifies this`contexts, this`created, this`previous, this`nextId, this`maxLength,
               this`lengthFinal, this`changeReason, this`currentBegin, this`currentEnd, this`diff,
               this`refreshGroupId
      ensures Valid()
      ensures old(useExtendedChangeDetection) && start != 0 ==>
                r == Err(StartError(start)) && read.None? && unchanged(this)
      ensures old(useExtendedChangeDetection) && start == 0 && prefetch.Some? ==>
                r == Err(PrefetchError) && read.None? && unchanged(this)
      ensures !(old(useExtendedChangeDetection) && (start != 0 || prefetch.Some?)) &&
              relative && old(context).None? ==>
                r == Ok([]) && read.None? && unchanged(this)
      ensures !(useExtendedChangeDetection && (start != 0 || prefetch.Some?)) &&
              (!relative || context.Some?) ==>
        var startInModel := if old(created).Some? then start - 1 else start;
        var len := if length == 0 then sizeLimit else length;
        && changeReason.None?
        && currentBegin == startInModel && currentEnd == startInModel + len
        && (if old(!useExtendedChangeDetection || diff.None?) then
              var fulfilled := if old(changeReason).Some? then None else available;
              && refreshGroupId == (if hasCache then None else old(refreshGroupId))
              && State() == AfterRead(old(State()), Resolved(), startInModel, len, PrefetchSize(prefetch),
                                      fulfilled)
              && read == PendingOf(old(Rows(contexts, created)), startInModel, len, PrefetchSize(prefetch),
                                   fulfilled, context, old(changeReason).GetOr(Changed))
            else
              State() == old(State()) && read.None? && refreshGroupId == old(refreshGroupId))
        && r == Response(useExtendedChangeDetection, old(diff), Rows(contexts, created), startInModel, len)
        && diff == (if r.Err? then old(diff) else None)
    {
      if start != 0 && useExtendedChangeDetection {
        return Err(StartError(start)), None;
      }
      if prefetch.Some? && useExtendedChangeDetection {
        return Err(PrefetchError), None;
      }
      if relative && context.None? {
        return Ok([]), None;
      }
      r, read := FetchContexts(if created.Some? then start - 1 else start,
                               if length == 0 then sizeLimit else length, PrefetchSize(prefetch),
                               available);
    }

    /**
     * `getContexts` of a resolved binding, for `len` rows from `startInModel` in model
     * coordinates: the pending change reason is consumed, the read is made unless a
     * diff is pending, the window is remembered and sliced, and with extended change
     * detection a diff computed for another length is an error.
     */
    method FetchContexts(startInModel: int, len: int, size: nat, available: Option<nat>)
      returns (r: Result<seq<Option<Context>>>, read: Option<PendingRead>)
      requires Valid() && (!relative || context.Some?) && startInModel >= -1
      requires available.Some? && startInModel == -1 ==> available.value > 0
      modifies this`contexts, this`created, this`previous, this`nextId, this`maxLength,
               this`lengthFinal, this`changeReason, this`currentBegin, this`currentEnd, this`diff,
               this`refreshGroupId
      ensures Valid()
      ensures changeReason.None?
      ensures currentBegin == startInModel && currentEnd == startInModel + len
      ensures if old(!useExtendedChangeDetection || diff.None?) then
                var fulfilled := if old(changeReason).Some? then None else available;
                && refreshGroupId == (if hasCache then None else old(refreshGroupId))
                && State() == AfterRead(old(State()), Resolved(), startInModel, len, size, fulfilled)
                && read == PendingOf(old(Rows(contexts, created)), startInModel, len, size, fulfilled,
                                     context, old(changeReason).GetOr(Changed))
              else
                State() == old(State()) && read.None? && refreshGroupId == old(refreshGroupId)
      ensures r == Response(useExtendedChangeDetection, old(diff), Rows(contexts, created), startInModel, len)
      ensures diff == if r.Err? then old(diff) else None
    {
      var reason := changeReason.GetOr(Changed);
      var refreshEvent := changeReason.Some?;
      read := ReadUnlessDiff(startInModel, len, size, available, refreshEvent, reason);
      r := Respond(startInModel, len);
    }

    /**
     * The read of `getContexts` happens unless extended change detection holds a diff
     * already; the diff it may record leaves the response as it was.
     */
    method ReadUnlessDiff(startInModel: int, len: int, size: nat, available: Option<nat>,
                          refreshEvent: bool, reason: ChangeReason) returns (read: Option<PendingRead>)
      requires Valid() && (!relative || context.Some?) && startInModel >= -1
      requires available.Some? && startInModel == -1 ==> available.value > 0
      modifies this`contexts, this`created, this`previous, this`nextId, this`maxLength,
               this`lengthFinal, this`diff, this`refreshGroupId
      ensures Valid()
      ensures if old(!useExtendedChangeDetection || diff.None?) then
                var fulfilled := if refreshEvent then None else available;
                && refreshGroupId == (if hasCache then None else old(refreshGroupId))
                && State() == AfterRead(old(State()), Resolved(), startInModel, len, size, fulfilled)
                && read == PendingOf(old(Rows(contexts, created)), startInModel, len, size, fulfilled,
                                     context, reason)
              else
                State() == old(State()) && read.None? && refreshGroupId == old(refreshGroupId) &&
                diff == old(diff)
      ensures Response(useExtendedChangeDetection, diff, Rows(contexts, created), startInModel, len) ==
              Response(useExtendedChangeDetection, old(diff), Rows(contexts, created), startInModel, len)
    {
      read := None;
      if !useExtendedChangeDetection || diff.None? {
        ghost var d0 := diff;
        read := Read(startInModel, len, size, available, refreshEvent, reason);
        ResponseAfterRead(useExtendedChangeDetection, d0, Rows(contexts, created), startInModel, len);
        ResponseAfterRead(useExtendedChangeDetection, diff, Rows(contexts, created), startInModel, len);
      }
    }

    /**
     * The end of `getContexts`: the pending change reason is consumed, the window is
     * remembered and sliced, and with extended change detection a diff computed for
     * another length is an error that keeps the diff; otherwise the diff is consumed.
     */
    method Respond(startInModel: int, len: int) returns (r: Result<seq<Option<Context>>>)
      modifies this`diff, this`changeReason, this`currentBegin, this`currentEnd
      ensures changeReason.None?
      ensures currentBegin == startInModel && currentEnd == startInModel + len
      ensures r == Response(useExtendedChangeDetection, old(diff), Rows(contexts, created), startInModel, len)
      ensures diff == if r.Err? then old(diff) else None
    {
      changeReason, currentBegin, currentEnd := None, startInModel, startInModel + len;
      var window := Window(Rows(contexts, created), startInModel, len);
      if useExtendedChangeDetection && diff.Some? && len != diff.value {
        return Err(LengthError(diff.value, len));
      }
      diff := None;
      r := Ok(window);
    }

    /**
     * The completion of a pending read with `n` rows: unless the binding is relative
     * and its parent context changed since the read was issued, the contexts are
     * created, a pending diff records the length, and a change event with the read's
     * reason follows when something changed. A stale completion changes nothing.
     */
    method CompleteRead(read: PendingRead, n: nat)
      requires Valid()
      requires relative ==> read.context.Some?
      requires read.range.start >= -1 && read.range.start + n >= 0
      modifies this`contexts, this`created, this`previous, this`nextId, this`maxLength,
               this`lengthFinal, this`diff, this`events
      ensures Valid()
      ensures relative && context != read.context ==> unchanged(this)
      ensures !relative || context == read.context ==>
        var (q, changed) := Reconcile.Reconcile(old(State()), Resolved(), read.range, n);
        && State() == q
        && diff == (if useExtendedChangeDetection then Some(read.length) else old(diff))
        && events == old(events) + (if changed then [ChangeEvent(read.reason)] else [])
    {
      if !relative || context == read.context {
        var changed := CreateContexts(read.range, n);
        if useExtendedChangeDetection {
          diff := Some(read.length);
        }
        if changed {
          events := events + [ChangeEvent(read.reason)];
        }
      }
    }

    /**
     * `getCurrentContexts`: the window of the last `getContexts`, cut at the bound and
     * padded with `undefined` up to its length.
     */
    method GetCurrentContexts() returns (r: seq<Option<Context>>)
      ensures r == CurrentContexts(Rows(contexts, created), maxLength, currentBegin, currentEnd)
    {
      var length := EndWithin(currentEnd, maxLength) - currentBegin;
      var w := Window(Rows(contexts, created), currentBegin, length);
      r := w;
      while |r| < length
        invariant |w| <= |r| && (|r| > |w| ==> |r| <= length)
        invariant r == w + seq(|r| - |w|, _ => None)
      {
        r := r + [None];
      }
    }

    /**
     * The re-indexing loop of the `_delete` callback over `[index, length)`: a context
     * followed by a hole is parked and leaves its slot, a hole followed by a context
     * gets a new context at the binding's path `sPath` with that index.
     */
    method Reindex(index: nat)
      modifies this`contexts, this`previous, this`nextId
      ensures Shift(contexts, previous, nextId) ==
              ShiftLoop(old(Shift(contexts, previous, nextId)), path, index, |old(contexts)|)
    {
      ghost var s0 := Shift(contexts, previous, nextId);
      if index < |contexts| {
        var i := index;
        while i < |contexts|
          invariant index <= i <= |contexts| == |s0.slots|
          invariant Shift(contexts, previous, nextId) == ShiftLoop(s0, path, index, i)
        {
          var here, next := contexts[i], Next(contexts, i);
          if here.Some? && next.None? {
            previous := previous[here.value.path := here.value];
            contexts := contexts[i := None];
          } else if here.None? && next.Some? {
            contexts := contexts[i := Some(Context(nextId, RowPath(path, i), i))];
            nextId := nextId + 1;
          }
          // else: a context followed by a context only checks for updates
          i := i + 1;
        }
      }
    }

    /**
     * The callback of `_delete` once the cache removed the entity at `index`: -1
     * clears the created row; otherwise the re-indexing loop runs from `index` to the
     * end, the last slot is popped and the bound drops by one. A change event with
     * reason Remove follows in both cases.
     */
    method DeleteCallback(index: int)
      requires Valid() && index >= -1
      modifies this`contexts, this`created, this`previous, this`nextId, this`maxLength,
               this`events
      ensures State() == Remove(old(State()), path, index)
      ensures events == old(events) + [ChangeEvent(Removed)]
      ensures Valid()
    {
      ghost var p0 := State();
      if index == -1 {
        created := None;
      } else {
        Reindex(index);
        if |contexts| > 0 {
          contexts := contexts[..|contexts| - 1];
        }
        maxLength := maxLength.Decrement();
      }
      events := events + [ChangeEvent(Removed)];
      RemoveCoherent(p0, path, index);
    }

    /**
     * `create()`: a second created row and a binding without a cache of its own are
     * refused; otherwise a context with index -1 and the path of the collection
     * followed by "/-1" becomes the created row and an Add change event is fired.
     */
    method Create() returns (r: Result<Context>)
      requires Valid()
      modifies this`created, this`nextId, this`events
      ensures Valid()
      ensures old(created).Some? ==> r == Err(CreateTwice) && unchanged(this)
      ensures old(created).None? && !hasCache ==>
                r == Err(CreateUnsupported) && unchanged(this)
      ensures old(created).None? && hasCache ==>
                && r == Ok(Context(old(nextId), RowPath(Resolved(), -1), -1))
                && created == Some(r.value) && nextId == old(nextId) + 1
                && events == old(events) + [ChangeEvent(Added)]
    {
      if created.Some? {
        return Err(CreateTwice);
      }
      if !hasCache {
        return Err(CreateUnsupported);
      }
      var c := Context(nextId, RowPath(Resolved(), -1), -1);
      ghost var p0 := State();
      nextId := nextId + 1;
      created := Some(c);
      events := events + [ChangeEvent(Added)];
      forall i | State().rows.At(i).Some?
        ensures State().rows.At(i).value.index == i && Owned(State().rows.At(i).value, nextId)
      {
        if i != -1 {
          assert State().rows.At(i) == p0.rows.At(i);
        }
      }
      forall k | k in previous ensures previous[k].path == k && Owned(previous[k], nextId) {
        assert k in p0.previous;
      }
      r := Ok(c);
    }

    /**
     * The cancel callback of the cache's `create`: the created row goes away and a
     * Remove change event is fired.
     */
    method CreatedDiscarded()
      requires Valid()
      modifies this`created, this`events
      ensures State() == Remove(old(State()), path, -1)
      ensures events == old(events) + [ChangeEvent(Removed)]
      ensures Valid()
    {
      ghost var p0 := State();
      created := None;
      events := events + [ChangeEvent(Removed)];
      RemoveCoherent(p0, path, -1);
    }

    /** The `forEach` of `reset`: each context of the array is parked under its path. */
    method ParkContexts()
      modifies this`previous
      ensures previous == Park(old(previous), contexts)
    {
      var i := 0;
      while i < |contexts|
        invariant 0 <= i <= |contexts|
        invariant previous == Park(old(previous), contexts[..i])
      {
        if contexts[i].Some? {
          previous := previous[contexts[i].value.path := contexts[i].value];
        }
        assert contexts[..i + 1][..i] == contexts[..i];
        i := i + 1;
      }
      assert contexts[..i] == contexts;
    }

    /**
     * `reset(sChangeReason)`: every context of the array is parked under its path,
     * the array and its created row are dropped, the window is [0, 0), the length is
     * unknown; a given reason is remembered for the next `getContexts` and a refresh
     * event with it is fired.
     */
    method Reset(reason: Option<ChangeReason>)
      requires Valid()
      modifies this`contexts, this`created, this`previous, this`currentBegin, this`currentEnd,
               this`maxLength, this`lengthFinal, this`changeReason, this`events
      ensures State() == Parking.Reset(old(State()))
      ensures currentBegin == 0 && currentEnd == 0
      ensures changeReason == if reason.Some? then reason else old(changeReason)
      ensures events == old(events) + (if reason.Some? then [RefreshEvent(reason.value)] else [])
      ensures Valid()
    {
      ghost var p0 := State();
      ResetCoherent(p0);
      ParkContexts();
      contexts, created, maxLength, lengthFinal := [], None, Infinity, false;
      assert State() == Parking.Reset(p0);
      currentBegin, currentEnd := 0, 0;
      if reason.Some? {
        changeReason := reason;
        events := events + [RefreshEvent(reason.value)];
      }
    }

    /**
     * `setContext(oContext)`: a new parent context of a relative binding resets it,
     * decides its cache anew and fires a change event with reason Context; an
     * absolute binding only remembers the context.
     */
    method SetContext(ctx: Option<Parent>)
      requires Valid()
      modifies this`contexts, this`created, this`previous, this`currentBegin, this`currentEnd,
               this`maxLength, this`lengthFinal, this`changeReason, this`events, this`hasCache,
               this`context
      ensures Valid()
      ensures changeReason == old(changeReason)
      ensures old(context) == ctx ==> unchanged(this)
      ensures old(context) != ctx && relative ==>
                && State() == Parking.Reset(old(State()))
                && currentBegin == 0 && currentEnd == 0
                && hasCache == old(OwnCacheFor(ctx)) && context == ctx
                && events == old(events) + [ChangeEvent(ContextSwitched)]
      ensures old(context) != ctx && !relative ==>
                State() == old(State()) && context == ctx && hasCache == old(hasCache) &&
                events == old(events) && currentBegin == old(currentBegin) &&
                currentEnd == old(currentEnd)
    {
      if context != ctx {
        if relative {
          Reset(None);
          hasCache := OwnCacheFor(ctx);
          context := ctx;
          events := events + [ChangeEvent(ContextSwitched)];
        } else {
          context := ctx;
        }
      }
    }

    /**
     * `refreshInternal(sGroupId)`: the group is remembered for the next read, a
     * binding with a cache gets a new one, and the binding is reset with reason Refresh.
     */
    method RefreshInternal(groupId: Option<string>)
      requires Valid()
      modifies this`contexts, this`created, this`previous, this`currentBegin, this`currentEnd,
               this`maxLength, this`lengthFinal, this`changeReason, this`events, this`hasCache,
               this`refreshGroupId
      ensures Valid()
      ensures refreshGroupId == groupId
      ensures hasCache == (old(hasCache) && old(OwnCacheFor(context)))
      ensures State() == Parking.Reset(old(State()))
      ensures currentBegin == 0 && currentEnd == 0
      ensures changeReason == Some(Refreshed)
      ensures events == old(events) + [RefreshEvent(Refreshed)]
    {
      refreshGroupId := groupId;
      if hasCache {
        hasCache := OwnCacheFor(context);
      }
      Reset(Some(Refreshed));
    }

    /**
     * `sort(vSorters)`: refused unless the operation mode is Server and no changes are
     * pending; otherwise the sorters are replaced, the cache is made anew and the
     * binding is reset with reason Sort.
     */
    method Sort(newSorters: seq<SorterArg>, pendingChanges: bool) returns (r: Outcome)
      requires Valid()
      modifies this`contexts, this`created, this`previous, this`currentBegin, this`currentEnd,
               this`maxLength, this`lengthFinal, this`changeReason, this`events, this`hasCache,
               this`sorters
      ensures Valid()
      ensures operationMode != ServerMode ==>
                r == Fail(ServerModeOnly) &&
                unchanged(this)
      ensures operationMode == ServerMode && pendingChanges ==>
                r == Fail(SortPending) && unchanged(this)
      ensures operationMode == ServerMode && !pendingChanges ==>
                && r.Pass? && sorters == newSorters && hasCache == OwnCacheFor(context)
                && State() == Parking.Reset(old(State())) && currentBegin == 0 && currentEnd == 0
                && changeReason == Some(Sorted)
                && events == old(events) + [RefreshEvent(Sorted)]
    {
      if operationMode != ServerMode {
        return Fail(ServerModeOnly);
      }
      if pendingChanges {
        return Fail(SortPending);
      }
      sorters := newSorters;
      hasCache := OwnCacheFor(context);
      Reset(Some(Sorted));
      r := Pass;
    }

    /**
     * `filter(vFilters, sFilterType)`: refused unless the operation mode is Server and
     * no changes are pending; otherwise the control or the application filters are
     * replaced, the cache is made anew and the binding is reset with reason Filter.
     */
    method Filter(filters: seq<Filter>, control: bool, pendingChanges: bool) returns (r: Outcome)
      requires Valid()
      modifies this`contexts, this`created, this`previous, this`currentBegin, this`currentEnd,
               this`maxLength, this`lengthFinal, this`changeReason, this`events, this`hasCache,
               this`controlFilters, this`applicationFilters
      ensures Valid()
      ensures operationMode != ServerMode ==>
                r == Fail(ServerModeOnly) &&
                unchanged(this)
      ensures operationMode == ServerMode && pendingChanges ==>
                r == Fail(FilterPending) && unchanged(this)
      ensures operationMode == ServerMode && !pendingChanges ==>
                && r.Pass?
                && (if control then controlFilters == filters && applicationFilters == old(applicationFilters)
                    else applicationFilters == filters && controlFilters == old(controlFilters))
                && hasCache == OwnCacheFor(context)
                && State() == Parking.Reset(old(State())) && currentBegin == 0 && currentEnd == 0
                && changeReason == Some(Filtered)
                && events == old(events) + [RefreshEvent(Filtered)]
    {
      if operationMode != ServerMode {
        return Fail(ServerModeOnly);
      }
      if pendingChanges {
        return Fail(FilterPending);
      }
      if control {
        controlFilters := filters;
      } else {
        applicationFilters := filters;
      }
      hasCache := OwnCacheFor(context);
      Reset(Some(Filtered));
      r := Pass;
    }

    /** The second loop of `changeParameters`: each parameter is removed or set, in order. */
    method ApplyParameterChanges(cs: seq<ParameterChange>)
      modifies this`parameters
      ensures parameters == ApplyChanges(old(parameters), cs)
    {
      var i := 0;
      while i < |cs|
        invariant 0 <= i <= |cs|
        invariant parameters == ApplyChanges(old(parameters), cs[..i])
      {
        assert cs[..i + 1][..i] == cs[..i];
        if cs[i].value.None? {
          parameters := parameters - {cs[i].name};
        } else {
          parameters := parameters[cs[i].name := cs[i].value.value];
        }
        i := i + 1;
      }
      assert cs[..i] == cs;
    }

    /**
     * `changeParameters(mParameters)`: a missing map is refused, an empty one changes
     * nothing, a binding-specific parameter is refused before anything changes;
     * otherwise each parameter is removed or set and the binding is reset with reason
     * Change.
     */
    method ChangeParameters(changes: Option<seq<ParameterChange>>) returns (r: Outcome)
      requires Valid()
      modifies this`contexts, this`created, this`previous, this`currentBegin, this`currentEnd,
               this`maxLength, this`lengthFinal, this`changeReason, this`events, this`parameters
      ensures Valid()
      ensures changes.None? ==> r == Fail(MissingParameters) && unchanged(this)
      ensures changes.Some? && changes.value == [] ==> r.Pass? && unchanged(this)
      ensures changes.Some? && FirstBindingParameter(changes.value).Some? ==>
                r == Fail("Unsupported parameter: " + FirstBindingParameter(changes.value).value) &&
                unchanged(this)
      ensures changes.Some? && changes.value != [] && FirstBindingParameter(changes.value).None? ==>
                && r.Pass? && parameters == ApplyChanges(old(parameters), changes.value)
                && State() == Parking.Reset(old(State())) && currentBegin == 0 && currentEnd == 0
                && changeReason == Some(Changed)
                && events == old(events) + [RefreshEvent(Changed)]
    {
      if changes.None? {
        return Fail(MissingParameters);
      }
      var cs := changes.value;
      if |cs| == 0 {
        return Pass;
      }
      var i := 0;
      while i < |cs|
        invariant 0 <= i <= |cs|
        invariant forall j :: 0 <= j < i ==> !IsBindingParameter(cs[j].name)
      {
        if IsBindingParameter(cs[i].name) {
          FirstBindingParameterAt(cs, i);
          return Fail("Unsupported parameter: " + cs[i].name);
        }
        i := i + 1;
      }
      ApplyParameterChanges(cs);
      Reset(Some(Changed));
      r := Pass;
    }

    /** `attachEvent(sEventId)`: a handler is attached only for a supported event. */
    method AttachEvent(name: string) returns (r: Outcome)
      modifies this`handlers
      ensures r == CheckEvent(name)
      ensures handlers == old(handlers) + (if r.Pass? then [name] else [])
    {
      r := CheckEvent(name);
      if r.Pass? {
        handlers := handlers + [name];
      }
    }

    /**
     * `enableExtendedChangeDetection(bDetectUpdates, vKey)`: a key is refused; otherwise
     * extended change detection is on. `bindingText` is the binding's `toString()`.
     */
    method EnableExtendedChangeDetection(key: Option<string>, bindingText: string) returns (r: Outcome)
      modifies this`useExtendedChangeDetection
      ensures key.Some? ==>
                r == Fail("Unsupported property 'key' with value '" + key.value +
                          "' in binding info for " + bindingText) &&
                useExtendedChangeDetection == old(useExtendedChangeDetection)
      ensures key.None? ==> r.Pass? && useExtendedChangeDetection
    {
      if key.Some? {
        return Fail("Unsupported property 'key' with value '" + key.value + "' in binding info for "
                    + bindingText);
      }
      useExtendedChangeDetection := true;
      r := Pass;
    }
  }
}

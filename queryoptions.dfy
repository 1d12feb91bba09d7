/**
 * The query options of a list binding: `mergeQueryOptions`, which puts the dynamic
 * `$orderby` and `$filter` values into a copy of the binding's query options, the
 * map update of `changeParameters`, and the decision of `makeCache` whether a
 * binding needs a cache of its own.
 */
module QueryOptions {
  import opened Results
  import opened Orderby
  import opened Filters

  /** A map of query options or binding parameters; each value is kept as its text. */
  type Options = map<string, string>

  /** The option names of an optional map; `undefined` has none. */
  function Names(m: Option<Options>): set<string> {
    if m.Some? then m.value.Keys else {}
  }

  /**
   * The helper `set` of `mergeQueryOptions`: a non-empty value that `original` does
   * not already hold under `name` goes into the copy, which is made on first need
   * (from `original`, or empty when there is no map).
   */
  function SetOption(original: Option<Options>, copy: Option<Options>, name: string, value: string)
    : Option<Options>
  {
    if value != "" && (original.None? || name !in original.value || original.value[name] != value) then
      var m := if copy.Some? then copy.value else if original.Some? then original.value else map[];
      Some(m[name := value])
    else
      copy
  }

  /**
   * `mergeQueryOptions(mQueryOptions, sOrderby, sFilter)`: the result is a map exactly
   * when there was one or a value is given; it holds the original options, with the
   * given non-empty `$orderby` and `$filter` values in place of the old ones.
   */
  function Merge(original: Option<Options>, orderby: string, filter: string): (r: Option<Options>)
    ensures r.Some? <==> original.Some? || orderby != "" || filter != ""
    ensures Names(r) == Names(original) + (if orderby != "" then {"$orderby"} else {}) +
                        (if filter != "" then {"$filter"} else {})
    ensures r.Some? ==> forall k :: k in r.value ==>
              r.value[k] == if k == "$orderby" && orderby != "" then orderby
                            else if k == "$filter" && filter != "" then filter
                            else original.value[k]
  {
    var copy := SetOption(original, SetOption(original, None, "$orderby", orderby), "$filter", filter);
    if copy.Some? then copy else original
  }

  /**
   * When the original map already holds both given values, `mergeQueryOptions` makes
   * no copy and hands back the original map itself.
   */
  lemma MergeNoCopy(original: Options, orderby: string, filter: string)
    requires orderby != "" ==> "$orderby" in original && original["$orderby"] == orderby
    requires filter != "" ==> "$filter" in original && original["$filter"] == filter
    ensures Merge(Some(original), orderby, filter) == Some(original)
  {
  }

  /** Merging the same values a second time changes nothing. */
  lemma MergeIdempotent(original: Option<Options>, orderby: string, filter: string)
    ensures Merge(Merge(original, orderby, filter), orderby, filter) == Merge(original, orderby, filter)
  {
    var r := Merge(original, orderby, filter);
    if r.Some? {
      MergeNoCopy(r.value, orderby, filter);
    }
  }

  /** A change of one binding parameter: its new value, `None` for `undefined` (remove it). */
  datatype ParameterChange = ParameterChange(name: string, value: Option<string>)

  /** `sKey.indexOf("$$") === 0`: a binding-specific parameter such as `$$groupId`. */
  predicate IsBindingParameter(name: string) {
    |name| >= 2 && name[0] == '$' && name[1] == '$'
  }

  /** The first binding-specific parameter among the changes, in their order. */
  function FirstBindingParameter(changes: seq<ParameterChange>): (r: Option<string>)
    ensures r.None? <==> forall i :: 0 <= i < |changes| ==> !IsBindingParameter(changes[i].name)
    ensures r.Some? ==> exists i :: 0 <= i < |changes| && changes[i].name == r.value &&
                          IsBindingParameter(r.value) &&
                          forall j :: 0 <= j < i ==> !IsBindingParameter(changes[j].name)
    decreases |changes|
  {
    if |changes| == 0 then None
    else if IsBindingParameter(changes[0].name) then Some(changes[0].name)
    else
      var r := FirstBindingParameter(changes[1..]);
      if r.Some? then
        ghost var i :| 0 <= i < |changes[1..]| && changes[1..][i].name == r.value &&
                       IsBindingParameter(r.value) &&
                       forall j :: 0 <= j < i ==> !IsBindingParameter(changes[1..][j].name);
        assert changes[i + 1].name == r.value;
        r
      else
        r
  }

  /** The first binding-specific parameter is the one at `i` when none comes before it. */
  lemma {:induction false} FirstBindingParameterAt(changes: seq<ParameterChange>, i: nat)
    requires i < |changes| && IsBindingParameter(changes[i].name)
    requires forall j :: 0 <= j < i ==> !IsBindingParameter(changes[j].name)
    ensures FirstBindingParameter(changes) == Some(changes[i].name)
    decreases i
  {
    if i > 0 {
      FirstBindingParameterAt(changes[1..], i - 1);
    }
  }

  /** The second loop of `changeParameters`: remove or set each parameter, in order. */
  function ApplyChanges(parameters: Options, changes: seq<ParameterChange>): Options
    decreases |changes|
  {
    if |changes| == 0 then parameters
    else
      var last := changes[|changes| - 1];
      var m := ApplyChanges(parameters, changes[..|changes| - 1]);
      if last.value.None? then m - {last.name} else m[last.name := last.value.value]
  }

  /** The names of a map of parameters are distinct, as the keys of an object are. */
  predicate DistinctNames(changes: seq<ParameterChange>) {
    forall i, j :: 0 <= i < j < |changes| ==> changes[i].name != changes[j].name
  }

  /**
   * After the update a parameter given as `undefined` is gone, a parameter given a
   * value has that value, and every parameter not named keeps its value.
   */
  lemma {:induction false} ApplyChangesEntries(parameters: Options, changes: seq<ParameterChange>)
    requires DistinctNames(changes)
    ensures forall i :: 0 <= i < |changes| && changes[i].value.None? ==>
              changes[i].name !in ApplyChanges(parameters, changes)
    ensures forall i :: 0 <= i < |changes| && changes[i].value.Some? ==>
              changes[i].name in ApplyChanges(parameters, changes) &&
              ApplyChanges(parameters, changes)[changes[i].name] == changes[i].value.value
    ensures forall k :: (forall i :: 0 <= i < |changes| ==> changes[i].name != k) ==>
              (k in ApplyChanges(parameters, changes) <==> k in parameters) &&
              (k in parameters ==> ApplyChanges(parameters, changes)[k] == parameters[k])
    decreases |changes|
  {
    if |changes| > 0 {
      var init := changes[..|changes| - 1];
      ApplyChangesEntries(parameters, init);
      forall i | 0 <= i < |init| ensures init[i] == changes[i] && init[i].name != changes[|changes| - 1].name {
      }
    }
  }

  /**
   * The decision of `makeCache`: an absolute binding always has a cache of its own; a
   * relative one has none without a parent context, and with a V4 parent context
   * (one that has `fetchCanonicalPath`) only when it has parameters, sorters or
   * filters of its own.
   */
  predicate NeedsOwnCache(relative: bool, hasContext: bool, isV4Context: bool, parameters: Options,
                          sorters: nat, controlFilters: nat, applicationFilters: nat)
  {
    if relative then
      hasContext &&
      !(isV4Context && |parameters| == 0 && sorters == 0 && controlFilters == 0 &&
        applicationFilters == 0)
    else
      true
  }

  /**
   * A relative binding with a V4 parent context reads through its parent exactly when
   * it has no parameters, sorters or filters; with another kind of parent context it
   * always reads through a cache of its own.
   */
  lemma NeedsOwnCacheRelative(hasContext: bool, isV4Context: bool, parameters: Options,
                              sorters: nat, controlFilters: nat, applicationFilters: nat)
    requires hasContext
    ensures !isV4Context ==>
              NeedsOwnCache(true, hasContext, isV4Context, parameters, sorters, controlFilters,
                            applicationFilters)
    ensures isV4Context ==>
              (NeedsOwnCache(true, hasContext, isV4Context, parameters, sorters, controlFilters,
                             applicationFilters)
               <==> parameters != map[] || sorters > 0 || controlFilters > 0 || applicationFilters > 0)
  {
    if parameters != map[] {
      var k :| k in parameters;
      assert |parameters| > 0;
    }
  }

  /**
   * The query options of the cache `makeCache` creates: the `$filter` (the dynamic
   * filters and the static `$filter`), then, in the callback that receives it, the
   * dynamic `$orderby` (the sorters followed by the static `$orderby`), both merged
   * into the binding's query options.
   */
  function CacheOptions(options: Option<Options>, sorters: seq<SorterArg>, application: seq<Filter>,
                        control: seq<Filter>, env: Env, bindingText: string): Result<Option<Options>>
  {
    var staticOrderby := if options.Some? && "$orderby" in options.value then options.value["$orderby"] else "";
    var staticFilter := if options.Some? && "$filter" in options.value then options.value["$filter"] else "";
    var filter :- Compile(application, control, staticFilter, env);
    var orderby :- BuildOrderby(sorters, staticOrderby, bindingText);
    Ok(Merge(options, orderby, filter))
  }

  /**
   * The query options fail exactly when the `$filter` or the `$orderby` fails, and a
   * failing `$filter` is the error reported, since the `$orderby` is built only once
   * the `$filter` is known.
   */
  lemma CacheOptionsFails(options: Option<Options>, sorters: seq<SorterArg>, application: seq<Filter>,
                          control: seq<Filter>, env: Env, bindingText: string)
    ensures var staticOrderby := if options.Some? && "$orderby" in options.value then options.value["$orderby"] else "";
      var staticFilter := if options.Some? && "$filter" in options.value then options.value["$filter"] else "";
      var r := CacheOptions(options, sorters, application, control, env, bindingText);
      var filter := Compile(application, control, staticFilter, env);
      && (r.Err? <==> filter.Err? || (exists k :: 0 <= k < |sorters| && !sorters[k].Sorter?))
      && (filter.Err? ==> r == Err(filter.message))
  {
  }

  /**
   * Sorting by one (named) property without any filter, on query options without
   * `$orderby` and `$filter`, sends exactly that sort order and no `$filter`; the other
   * options stay as they are.
   */
  lemma CacheOptionsSortOnly(options: Options, path: string, descending: bool, env: Env,
                             bindingText: string)
    requires "$orderby" !in options && "$filter" !in options && path != ""
    ensures var r := CacheOptions(Some(options), [Sorter(path, descending)], [], [], env, bindingText);
      && r.Ok? && r.value.Some?
      && r.value.value == options["$orderby" := Item(path, descending)]
  {
    var items := Items([Sorter(path, descending)], bindingText);
    assert items.value == [Item(path, descending)];
    assert items.value + [] == [Item(path, descending)];
    CompileStaticOnly("", env);
  }
}

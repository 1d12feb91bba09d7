/**
 * `fetchFilter`: the value of the `$filter` system query option (section 5.1.1 of
 * OData Version 4.0 Part 2: URL Conventions) from the dynamic application filters,
 * the dynamic control filters and the static `$filter` of the binding parameters.
 * Within an array of filters, the single filters on the same path form a group
 * joined with " or "; the groups and the nested arrays are joined with " and " or
 * " or " as the array says.
 */
module Filters {
  import opened Results
  import opened Orderby
  import Events

  /** `sap.ui.model.FilterOperator`, and any other operator name. */
  datatype Operator =
    | BT | EQ | GE | GT | LE | LT | NE | Contains | EndsWith | StartsWith
    | Other(name: string)

  /** A filter operand as given by the application; only `fmt` looks at it. */
  type Value = string

  /** `sap.ui.model.Filter`: a single filter, or an array of filters (`aFilters`, `bAnd`). */
  datatype Filter =
    | Single(path: string, op: Operator, value1: Value, value2: Value)
    | Multi(filters: seq<Filter>, isAnd: bool)

  /**
   * What the compiler asks its collaborators: `meta` maps a filter path to the Edm type
   * of its property (a missing key is a path without metadata), `metaPath` is the path
   * of the metadata context for error messages, `fmt` is `_Helper.formatLiteral` and
   * `decode` is `decodeURIComponent`.
   */
  datatype Env = Env(meta: map<string, string>, metaPath: string,
                     fmt: (Value, string) -> string, decode: string -> string)

  /** `oFilter.sOperator.toLowerCase()` for the comparison and string operators. */
  function LowerName(op: Operator): string
    requires !op.Other? && !op.BT?
  {
    match op
    case EQ => "eq"
    case GE => "ge"
    case GT => "gt"
    case LE => "le"
    case LT => "lt"
    case NE => "ne"
    case Contains => "contains"
    case EndsWith => "endswith"
    case StartsWith => "startswith"
  }

  /** `getSingleFilterValue(oFilter, sEdmType)` */
  function SingleValue(f: Filter, edmType: string, env: Env): (r: Result<string>)
    requires f.Single?
    ensures r.Err? <==> f.op.Other?
    ensures r.Err? ==> r.message == "Unsupported operator: " + f.op.name
  {
    var value, path := env.fmt(f.value1, edmType), env.decode(f.path);
    match f.op
    case BT => Ok(path + " ge " + value + " and " + path + " le " + env.fmt(f.value2, edmType))
    case EQ | GE | GT | LE | LT | NE => Ok(path + " " + LowerName(f.op) + " " + value)
    case Contains | EndsWith | StartsWith => Ok(LowerName(f.op) + "(" + path + "," + value + ")")
    case Other(name) => Err("Unsupported operator: " + name)
  }

  /** `combineFilterValues(aFilterValues, sSeparator)` */
  function Combine(values: seq<string>, sep: string): string {
    if |values| > 1 then "(" + Join(values, sep) + ")" else Join(values, sep)
  }

  /** The single filters of `fs` on `path`, in their order. */
  function SamePath(fs: seq<Filter>, path: string): (g: seq<Filter>)
    ensures forall k :: 0 <= k < |g| ==> g[k].Single? && g[k].path == path
    decreases |fs|
  {
    if |fs| == 0 then []
    else (if fs[0].Single? && fs[0].path == path then [fs[0]] else []) + SamePath(fs[1..], path)
  }

  /** The single values of a group, stopping at the first unsupported operator. */
  function GroupValues(group: seq<Filter>, edmType: string, env: Env): (r: Result<seq<string>>)
    requires forall k :: 0 <= k < |group| ==> group[k].Single?
    ensures r.Err? <==> exists k :: 0 <= k < |group| && group[k].op.Other?
    ensures r.Ok? ==> |r.value| == |group|
    ensures r.Ok? ==> forall k :: 0 <= k < |group| ==> r.value[k] == SingleValue(group[k], edmType, env).value
    decreases |group|
  {
    if |group| == 0 then Ok([])
    else
      var v :- SingleValue(group[0], edmType, env);
      var rest :- GroupValues(group[1..], edmType, env);
      assert forall k :: 1 <= k < |group| ==> group[k] == group[1..][k - 1];
      Ok([v] + rest)
  }

  /**
   * `fetchGroupFilter(aGroupFilters)`: the group's values joined with " or ", in
   * parentheses when there are several; a path without metadata fails.
   */
  function GroupFilter(path: string, group: seq<Filter>, env: Env): Result<string>
    requires forall k :: 0 <= k < |group| ==> group[k].Single?
  {
    if path !in env.meta then
      Err("Type cannot be determined, no metadata for path: " + env.metaPath)
    else
      var values :- GroupValues(group, env.meta[path], env);
      Ok(Combine(values, " or "))
  }

  /**
   * `fetchArrayFilter(aFilters, bAnd)`: one part per nested array (in parentheses) and
   * one per path of the single filters, at the position of the path's first filter;
   * the parts are joined with " and " or " or ".
   */
  function ArrayFilter(fs: seq<Filter>, isAnd: bool, env: Env): Result<string>
    decreases fs, 1
  {
    var parts :- Parts(fs, 0, {}, env);
    Ok(Join(parts, if isAnd then " and " else " or "))
  }

  /** The parts of `all` from index `i` on, where `done` holds the paths already grouped. */
  function Parts(all: seq<Filter>, i: nat, done: set<string>, env: Env): Result<seq<string>>
    requires i <= |all|
    decreases all, 0, |all| - i
  {
    if i == |all| then Ok([])
    else
      match all[i]
      case Multi(filters, isAnd) =>
        var inner :- ArrayFilter(filters, isAnd, env);
        var rest :- Parts(all, i + 1, done, env);
        Ok(["(" + inner + ")"] + rest)
      case Single(path, _, _, _) =>
        if path in done then Parts(all, i + 1, done, env)
        else
          var group :- GroupFilter(path, SamePath(all, path), env);
          var rest :- Parts(all, i + 1, done + {path}, env);
          Ok([group] + rest)
  }

  /**
   * `fetchFilter`: the non-empty ones of the application part, the control part and the
   * static filter, joined with ") and (" and put in parentheses when there are several.
   */
  function Compile(application: seq<Filter>, control: seq<Filter>, staticFilter: string, env: Env)
    : Result<string>
  {
    var a :- ArrayFilter(application, true, env);
    var c :- ArrayFilter(control, true, env);
    Ok(Combine(NonEmpty(a, c, staticFilter), ") and ("))
  }

  /** The non-empty ones of three values, in their order. */
  function NonEmpty(a: string, c: string, s: string): seq<string> {
    (if a != "" then [a] else []) + (if c != "" then [c] else []) + (if s != "" then [s] else [])
  }

  /** A filter the compiler rejects: an unknown operator or a path without metadata, at any depth. */
  predicate Bad(f: Filter, env: Env) {
    match f
    case Single(path, op, _, _) => op.Other? || path !in env.meta
    case Multi(filters, _) => exists k :: 0 <= k < |filters| && Bad(filters[k], env)
  }

  /** The paths of the single filters of `all` before index `i`. */
  function GroupedPaths(all: seq<Filter>, i: nat): set<string>
    requires i <= |all|
  {
    set j | 0 <= j < i && all[j].Single? :: all[j].path
  }

  /** A group fails exactly when one of the single filters on its path is bad. */
  lemma GroupFilterFails(all: seq<Filter>, path: string, env: Env)
    requires exists j :: 0 <= j < |all| && all[j].Single? && all[j].path == path
    ensures GroupFilter(path, SamePath(all, path), env).Err? <==>
            exists j :: 0 <= j < |all| && all[j].Single? && all[j].path == path && Bad(all[j], env)
  {
    SamePathMembers(all, path);
  }

  /** The members of `SamePath(all, path)` are exactly the single filters on `path`. */
  lemma {:induction false} SamePathMembers(all: seq<Filter>, path: string)
    ensures forall f :: f in SamePath(all, path) <==> f in all && f.Single? && f.path == path
    decreases |all|
  {
    if |all| > 0 {
      SamePathMembers(all[1..], path);
      assert all == [all[0]] + all[1..];
    }
  }

  /** An array of filters fails exactly when one of its filters is bad. */
  lemma {:induction false} ArrayFilterFails(fs: seq<Filter>, isAnd: bool, env: Env)
    ensures ArrayFilter(fs, isAnd, env).Err? <==> exists k :: 0 <= k < |fs| && Bad(fs[k], env)
    decreases fs, 1
  {
    PartsFail(fs, 0, env);
    assert GroupedPaths(fs, 0) == {};
    if exists k :: 0 <= k < |fs| && Bad(fs[k], env) {
      var k :| 0 <= k < |fs| && Bad(fs[k], env);
      assert BadFrom(fs, 0, {}, env);
    }
  }

  /**
   * The parts from index `i` on fail exactly when a filter from `i` on is bad and is
   * not a single filter whose path was grouped before `i`.
   */
  lemma {:induction false} PartsFail(all: seq<Filter>, i: nat, env: Env)
    requires i <= |all|
    ensures Parts(all, i, GroupedPaths(all, i), env).Err? <==> BadFrom(all, i, GroupedPaths(all, i), env)
    decreases all, 0, |all| - i
  {
    if i < |all| {
      var done := GroupedPaths(all, i);
      var next := GroupedPaths(all, i + 1);
      PartsFail(all, i + 1, env);
      match all[i]
      case Multi(filters, isAnd) =>
        assert next == done;
        ArrayFilterFails(filters, isAnd, env);
        BadFromStep(all, i, done, env);
      case Single(path, _, _, _) =>
        assert next == done + {path};
        if path in done {
          assert next == done;
          BadFromStep(all, i, done, env);
        } else {
          PartsFailNewPath(all, i, env);
        }
    }
  }

  /** A bad filter from `i` on that is not a single filter on a grouped path. */
  predicate BadFrom(all: seq<Filter>, i: nat, done: set<string>, env: Env) {
    exists j :: i <= j < |all| && Bad(all[j], env) && !(all[j].Single? && all[j].path in done)
  }

  /** The filter at `i`, when it is not on a path in `done`, is bad or the later ones are. */
  lemma BadFromStep(all: seq<Filter>, i: nat, done: set<string>, env: Env)
    requires i < |all|
    ensures BadFrom(all, i, done, env) <==>
            (Bad(all[i], env) && !(all[i].Single? && all[i].path in done)) || BadFrom(all, i + 1, done, env)
  {
    if BadFrom(all, i, done, env) {
      var j :| i <= j < |all| && Bad(all[j], env) && !(all[j].Single? && all[j].path in done);
      if j > i {
        assert BadFrom(all, i + 1, done, env);
      }
    }
  }

  /** The step of `PartsFail` at a single filter whose path is grouped at `i` for the first time. */
  lemma PartsFailNewPath(all: seq<Filter>, i: nat, env: Env)
    requires i < |all| && all[i].Single? && all[i].path !in GroupedPaths(all, i)
    requires Parts(all, i + 1, GroupedPaths(all, i + 1), env).Err? <==>
             BadFrom(all, i + 1, GroupedPaths(all, i + 1), env)
    ensures Parts(all, i, GroupedPaths(all, i), env).Err? <==> BadFrom(all, i, GroupedPaths(all, i), env)
  {
    var path := all[i].path;
    var done := GroupedPaths(all, i);
    var next := GroupedPaths(all, i + 1);
    assert next == done + {path};
    assert Parts(all, i, done, env).Err? <==>
           GroupFilter(path, SamePath(all, path), env).Err? || Parts(all, i + 1, next, env).Err?;
    GroupFilterFails(all, path, env);
    var groupBad := exists j :: 0 <= j < |all| && all[j].Single? && all[j].path == path &&
                                Bad(all[j], env);
    if groupBad {
      var j :| 0 <= j < |all| && all[j].Single? && all[j].path == path && Bad(all[j], env);
      assert BadFrom(all, i, done, env);
    }
    if BadFrom(all, i, done, env) {
      var j :| i <= j < |all| && Bad(all[j], env) && !(all[j].Single? && all[j].path in done);
      if !(all[j].Single? && all[j].path == path) {
        assert j != i;
        assert BadFrom(all, i + 1, next, env);
      }
    }
    if BadFrom(all, i + 1, next, env) {
      var j :| i + 1 <= j < |all| && Bad(all[j], env) && !(all[j].Single? && all[j].path in next);
      assert BadFrom(all, i, done, env);
    }
  }

  /** `fetchFilter` fails exactly when an application or control filter is bad. */
  lemma CompileFails(application: seq<Filter>, control: seq<Filter>, staticFilter: string, env: Env)
    ensures Compile(application, control, staticFilter, env).Err? <==>
            (exists k :: 0 <= k < |application| && Bad(application[k], env)) ||
            (exists k :: 0 <= k < |control| && Bad(control[k], env))
  {
    ArrayFilterFails(application, true, env);
    ArrayFilterFails(control, true, env);
  }

  /** Without dynamic filters the static filter is the `$filter` value, as it is. */
  lemma CompileStaticOnly(staticFilter: string, env: Env)
    ensures Compile([], [], staticFilter, env) == Ok(staticFilter)
  {
    assert Parts([], 0, {}, env) == Ok([]);
  }

  /** The values of a group are the value of its first filter, then those of the rest. */
  lemma GroupValuesCons(group: seq<Filter>, edmType: string, env: Env)
    requires |group| > 0
    requires forall k :: 0 <= k < |group| ==> group[k].Single? && !group[k].op.Other?
    ensures GroupValues(group, edmType, env).value ==
            [SingleValue(group[0], edmType, env).value] + GroupValues(group[1..], edmType, env).value
  {
  }

  /** A single filter on a path not grouped yet adds its group's part before the rest. */
  lemma PartsNewPath(all: seq<Filter>, i: nat, done: set<string>, env: Env)
    requires i < |all| && all[i].Single? && all[i].path !in done
    requires GroupFilter(all[i].path, SamePath(all, all[i].path), env).Ok?
    requires Parts(all, i + 1, done + {all[i].path}, env).Ok?
    ensures Parts(all, i, done, env).Ok?
    ensures Parts(all, i, done, env).value ==
            [GroupFilter(all[i].path, SamePath(all, all[i].path), env).value] +
            Parts(all, i + 1, done + {all[i].path}, env).value
  {
  }

  /** A single filter on a path grouped before adds no part. */
  lemma PartsOldPath(all: seq<Filter>, i: nat, done: set<string>, env: Env)
    requires i < |all| && all[i].Single? && all[i].path in done
    ensures Parts(all, i, done, env) == Parts(all, i + 1, done, env)
  {
  }

  /** The group of one supported single filter with metadata is its value. */
  lemma GroupFilterOne(f: Filter, env: Env)
    requires f.Single? && !f.op.Other? && f.path in env.meta
    ensures GroupFilter(f.path, [f], env).Ok?
    ensures GroupFilter(f.path, [f], env).value == SingleValue(f, env.meta[f.path], env).value
  {
    GroupValuesCons([f], env.meta[f.path], env);
    assert [f][1..] == [];
    assert GroupValues([f], env.meta[f.path], env).value == [SingleValue(f, env.meta[f.path], env).value];
  }

  /** The values of a group of two supported single filters are their two values. */
  lemma GroupValuesPair(f: Filter, g: Filter, t: string, env: Env)
    requires f.Single? && g.Single? && !f.op.Other? && !g.op.Other?
    ensures GroupValues([f, g], t, env) == Ok([SingleValue(f, t, env).value, SingleValue(g, t, env).value])
  {
    var a, b := SingleValue(f, t, env).value, SingleValue(g, t, env).value;
    GroupValuesCons([f, g], t, env);
    GroupValuesCons([g], t, env);
    assert [f, g][1..] == [g] && [g][1..] == [];
    assert GroupValues([g], t, env).value == [b];
    assert [a] + [b] == [a, b];
  }

  /** Two values joined with a separator. */
  lemma JoinPair(a: string, b: string, sep: string)
    ensures Join([a, b], sep) == a + sep + b
  {
    assert [a, b][..1] == [a];
  }

  /** The group of two supported single filters on one path is their values joined with " or ". */
  lemma GroupFilterPair(f: Filter, g: Filter, env: Env)
    requires f.Single? && g.Single? && !f.op.Other? && !g.op.Other? && f.path == g.path
    requires f.path in env.meta
    ensures GroupFilter(f.path, [f, g], env).Ok?
    ensures var t := env.meta[f.path];
      GroupFilter(f.path, [f, g], env).value ==
        "(" + SingleValue(f, t, env).value + " or " + SingleValue(g, t, env).value + ")"
  {
    var t := env.meta[f.path];
    GroupValuesPair(f, g, t, env);
    JoinPair(SingleValue(f, t, env).value, SingleValue(g, t, env).value, " or ");
  }

  /** Two single filters on one path are joined with " or " in parentheses. */
  lemma ArrayFilterSamePath(f: Filter, g: Filter, isAnd: bool, env: Env)
    requires f.Single? && g.Single? && !f.op.Other? && !g.op.Other? && f.path == g.path
    requires f.path in env.meta
    ensures var t := env.meta[f.path];
      ArrayFilter([f, g], isAnd, env) ==
        Ok("(" + SingleValue(f, t, env).value + " or " + SingleValue(g, t, env).value + ")")
  {
    var all := [f, g];
    assert all[1..] == [g] && [g][1..] == [];
    assert SamePath([g], f.path) == [g];
    assert SamePath(all, f.path) == [f, g];
    GroupFilterPair(f, g, env);
    assert {} + {f.path} == {f.path};
    PartsOldPath(all, 1, {f.path}, env);
    assert Parts(all, 1, {f.path}, env).value == [];
    PartsNewPath(all, 0, {}, env);
  }

  /** Two single filters on different paths are joined with the array's operator. */
  lemma ArrayFilterTwoPaths(f: Filter, g: Filter, isAnd: bool, env: Env)
    requires f.Single? && g.Single? && !f.op.Other? && !g.op.Other? && f.path != g.path
    requires f.path in env.meta && g.path in env.meta
    ensures ArrayFilter([f, g], isAnd, env) ==
            Ok(SingleValue(f, env.meta[f.path], env).value + (if isAnd then " and " else " or ") +
               SingleValue(g, env.meta[g.path], env).value)
  {
    var all := [f, g];
    var a, b := SingleValue(f, env.meta[f.path], env).value, SingleValue(g, env.meta[g.path], env).value;
    assert all[1..] == [g] && [g][1..] == [];
    assert SamePath([g], f.path) == [] && SamePath([g], g.path) == [g];
    assert SamePath(all, f.path) == [f] && SamePath(all, g.path) == [g];
    GroupFilterOne(f, env);
    GroupFilterOne(g, env);
    assert {} + {f.path} == {f.path};
    assert Parts(all, 2, {f.path} + {g.path}, env).value == [];
    PartsNewPath(all, 1, {f.path}, env);
    PartsNewPath(all, 0, {}, env);
    assert Parts(all, 0, {}, env).value == [a, b];
    assert [a, b][..1] == [a];
  }

  /** The collaborators of the example: two integer properties, literals kept as they are. */
  function ExampleEnv(): Env {
    Env(map["A" := "Edm.Int32", "B" := "Edm.Int32"], "/T", (v: Value, t: string) => v,
        (s: string) => s)
  }

  /** The application filters of the example: A = x, A = y and B > z. */
  function ExampleFilters(x: Value, y: Value, z: Value): seq<Filter> {
    [Single("A", EQ, x, ""), Single("A", EQ, y, ""), Single("B", GT, z, "")]
  }

  /** The groups of two single filters on one path followed by one on another path. */
  lemma SamePathPairThenOne(f: Filter, g: Filter, h: Filter)
    requires f.Single? && g.Single? && h.Single? && f.path == g.path && f.path != h.path
    ensures SamePath([f, g, h], f.path) == [f, g] && SamePath([f, g, h], h.path) == [h]
  {
    assert [f, g, h][1..] == [g, h] && [g, h][1..] == [h] && [h][1..] == [];
    assert SamePath([h], f.path) == [] && SamePath([h], h.path) == [h];
    assert SamePath([g, h], f.path) == [g] && SamePath([g, h], h.path) == [h];
  }

  /** The parts of two single filters on one path followed by one on another path. */
  lemma PartsPairThenOne(f: Filter, g: Filter, h: Filter, env: Env)
    requires f.Single? && g.Single? && h.Single? && !f.op.Other? && !g.op.Other? && !h.op.Other?
    requires f.path == g.path && f.path != h.path && f.path in env.meta && h.path in env.meta
    ensures GroupFilter(f.path, [f, g], env).Ok? && GroupFilter(h.path, [h], env).Ok?
    ensures Parts([f, g, h], 0, {}, env) ==
            Ok([GroupFilter(f.path, [f, g], env).value, GroupFilter(h.path, [h], env).value])
  {
    var all := [f, g, h];
    SamePathPairThenOne(f, g, h);
    GroupFilterPair(f, g, env);
    GroupFilterOne(h, env);
    assert {} + {f.path} == {f.path};
    assert Parts(all, 3, {f.path} + {h.path}, env) == Ok([]);
    var pair, one := GroupFilter(f.path, [f, g], env).value, GroupFilter(h.path, [h], env).value;
    PartsNewPath(all, 2, {f.path}, env);
    assert all[2] == h && [one] + [] == [one];
    assert Parts(all, 2, {f.path}, env) == Ok([one]);
    PartsOldPath(all, 1, {f.path}, env);
    PartsNewPath(all, 0, {}, env);
    assert [pair] + [one] == [pair, one];
  }

  /**
   * Two single filters on one path followed by one on another path: the group of the
   * first two, then the third, joined with the array's operator.
   */
  lemma ArrayFilterPairThenOne(f: Filter, g: Filter, h: Filter, isAnd: bool, env: Env)
    requires f.Single? && g.Single? && h.Single? && !f.op.Other? && !g.op.Other? && !h.op.Other?
    requires f.path == g.path && f.path != h.path && f.path in env.meta && h.path in env.meta
    ensures var t, u := env.meta[f.path], env.meta[h.path];
      ArrayFilter([f, g, h], isAnd, env) ==
        Ok("(" + SingleValue(f, t, env).value + " or " + SingleValue(g, t, env).value + ")" +
           (if isAnd then " and " else " or ") + SingleValue(h, u, env).value)
  {
    PartsPairThenOne(f, g, h, env);
    GroupFilterPair(f, g, env);
    GroupFilterOne(h, env);
    JoinPair(GroupFilter(f.path, [f, g], env).value, GroupFilter(h.path, [h], env).value,
             if isAnd then " and " else " or ");
  }

  /**
   * The example's filters yield the group on A, then the filter on B, joined with
   * " and ": for the values 1, 2 and 0, "(A eq 1 or A eq 2) and B gt 0".
   */
  lemma ExampleApplication(x: Value, y: Value, z: Value)
    ensures ArrayFilter(ExampleFilters(x, y, z), true, ExampleEnv()) ==
            Ok("(" + ("A eq " + x) + " or " + ("A eq " + y) + ")" + " and " + ("B gt " + z))
  {
    var env, all := ExampleEnv(), ExampleFilters(x, y, z);
    assert env.meta["A"] == "Edm.Int32" && env.meta["B"] == "Edm.Int32";
    assert SingleValue(all[0], "Edm.Int32", env).value == "A eq " + x;
    assert SingleValue(all[1], "Edm.Int32", env).value == "A eq " + y;
    assert SingleValue(all[2], "Edm.Int32", env).value == "B gt " + z;
    assert all == [all[0], all[1], all[2]];
    ArrayFilterPairThenOne(all[0], all[1], all[2], true, env);
  }

  /**
   * With application filters only and a static filter, both non-empty, the `$filter`
   * value is the two in parentheses joined with " and ".
   */
  lemma CompileWithStatic(application: seq<Filter>, staticFilter: string, env: Env)
    requires ArrayFilter(application, true, env).Ok? && ArrayFilter(application, true, env).value != ""
    requires staticFilter != ""
    ensures Compile(application, [], staticFilter, env).Ok?
    ensures Compile(application, [], staticFilter, env).value ==
            "(" + ArrayFilter(application, true, env).value + ") and (" + staticFilter + ")"
  {
    var a := ArrayFilter(application, true, env).value;
    assert Parts([], 0, {}, env).value == [];
    assert ArrayFilter([], true, env).value == "";
    var parts := [a, staticFilter];
    assert ([a] + []) + [staticFilter] == parts;
    assert Join(parts, ") and (") == a + ") and (" + staticFilter by {
      assert parts[..1] == [a];
    }
  }

  /**
   * The group of any non-empty list of supported single filters on a path with
   * metadata: the single value alone, or all values in their order joined with " or "
   * and put in parentheses.
   */
  lemma {:induction false} GroupFilterAny(path: string, group: seq<Filter>, env: Env)
    requires |group| > 0 && path in env.meta
    requires forall k :: 0 <= k < |group| ==> group[k].Single? && !group[k].op.Other?
    ensures GroupFilter(path, group, env).Ok?
    ensures var values := GroupValues(group, env.meta[path], env);
      && values.Ok? && |values.value| == |group|
      && (forall k :: 0 <= k < |group| ==>
            values.value[k] == SingleValue(group[k], env.meta[path], env).value)
      && (|group| == 1 ==> GroupFilter(path, group, env).value == values.value[0])
      && (|group| > 1 ==> GroupFilter(path, group, env).value == "(" + Join(values.value, " or ") + ")")
  {
    assert GroupValues(group, env.meta[path], env).Ok?;
  }

  /**
   * A position of an array of filters that contributes a part of its `$filter`: a
   * nested array, or a single filter whose path no single filter before it has.
   */
  predicate Leads(all: seq<Filter>, i: nat)
    requires i < |all|
  {
    all[i].Multi? || all[i].path !in GroupedPaths(all, i)
  }

  /** The leading positions of `all` from `i` on, in increasing order. */
  function LeadersFrom(all: seq<Filter>, i: nat): (r: seq<nat>)
    requires i <= |all|
    ensures forall k :: 0 <= k < |r| ==> i <= r[k] < |all|
    decreases |all| - i
  {
    if i == |all| then []
    else (if Leads(all, i) then [i] else []) + LeadersFrom(all, i + 1)
  }

  /**
   * The part a leading position contributes: a nested array's own `$filter` in
   * parentheses, or the group of all single filters on the path.
   */
  function PartOf(all: seq<Filter>, i: nat, env: Env): Result<string>
    requires i < |all|
  {
    match all[i]
    case Multi(filters, isAnd) =>
      var inner :- ArrayFilter(filters, isAnd, env);
      Ok("(" + inner + ")")
    case Single(path, _, _, _) => GroupFilter(path, SamePath(all, path), env)
  }

  /** The parts of the positions `idx`, in their order, stopping at the first that fails. */
  function PartValues(all: seq<Filter>, idx: seq<nat>, env: Env): (r: Result<seq<string>>)
    requires forall k :: 0 <= k < |idx| ==> idx[k] < |all|
    decreases |idx|
  {
    if |idx| == 0 then Ok([])
    else
      var p :- PartOf(all, idx[0], env);
      var rest :- PartValues(all, idx[1..], env);
      Ok([p] + rest)
  }

  /**
   * The leading positions from `i` on are exactly the positions from `i` on that
   * lead, in increasing order.
   */
  lemma {:induction false} LeadersFromExactly(all: seq<Filter>, i: nat)
    requires i <= |all|
    ensures forall k :: 0 <= k < |LeadersFrom(all, i)| ==> Leads(all, LeadersFrom(all, i)[k])
    ensures forall j :: i <= j < |all| && Leads(all, j) ==> j in LeadersFrom(all, i)
    ensures forall k, l :: 0 <= k < l < |LeadersFrom(all, i)| ==>
                           LeadersFrom(all, i)[k] < LeadersFrom(all, i)[l]
    decreases |all| - i
  {
    if i < |all| {
      LeadersFromExactly(all, i + 1);
    }
  }

  /** When the parts succeed, there is one per position, and each is that position's part. */
  lemma {:induction false} PartValuesAt(all: seq<Filter>, idx: seq<nat>, env: Env)
    requires forall k :: 0 <= k < |idx| ==> idx[k] < |all|
    requires PartValues(all, idx, env).Ok?
    ensures |PartValues(all, idx, env).value| == |idx|
    ensures forall k :: 0 <= k < |idx| ==>
              (PartOf(all, idx[k], env).Ok? && PartValues(all, idx, env).value[k] == PartOf(all, idx[k], env).value)
    decreases |idx|
  {
    if |idx| > 0 {
      PartValuesAt(all, idx[1..], env);
      assert forall k :: 1 <= k < |idx| ==> idx[k] == idx[1..][k - 1];
    }
  }

  /** The parts of a leading position followed by further positions. */
  lemma {:induction false} PartValuesCons(all: seq<Filter>, i: nat, later: seq<nat>, env: Env)
    requires i < |all| && forall k :: 0 <= k < |later| ==> later[k] < |all|
    ensures PartValues(all, [i] + later, env) ==
            if PartOf(all, i, env).Err? then Err(PartOf(all, i, env).message)
            else if PartValues(all, later, env).Err? then Err(PartValues(all, later, env).message)
            else Ok([PartOf(all, i, env).value] + PartValues(all, later, env).value)
  {
    assert ([i] + later)[1..] == later;
  }

  /** The paths grouped before `i + 1`: those before `i`, and the path at `i` if it is single. */
  lemma GroupedPathsStep(all: seq<Filter>, i: nat)
    requires i < |all|
    ensures GroupedPaths(all, i + 1) ==
            GroupedPaths(all, i) + (if all[i].Single? then {all[i].path} else {})
  {
  }

  /** From `i` on, the parts are those of the leading positions, and fail as they fail. */
  lemma {:induction false} PartsLeaders(all: seq<Filter>, i: nat, env: Env)
    requires i <= |all|
    ensures Parts(all, i, GroupedPaths(all, i), env) == PartValues(all, LeadersFrom(all, i), env)
    decreases |all| - i
  {
    if i < |all| {
      PartsLeaders(all, i + 1, env);
      GroupedPathsStep(all, i);
      if all[i].Multi? {
        PartsLeadersNested(all, i, env);
      } else if all[i].path in GroupedPaths(all, i) {
        PartsLeadersOldPath(all, i, env);
      } else {
        PartsLeadersNewPath(all, i, env);
      }
    }
  }

  /** The step of `PartsLeaders` at a nested array. */
  lemma {:induction false} PartsLeadersNested(all: seq<Filter>, i: nat, env: Env)
    requires i < |all| && all[i].Multi?
    requires GroupedPaths(all, i + 1) == GroupedPaths(all, i)
    requires Parts(all, i + 1, GroupedPaths(all, i + 1), env) ==
             PartValues(all, LeadersFrom(all, i + 1), env)
    ensures Parts(all, i, GroupedPaths(all, i), env) == PartValues(all, LeadersFrom(all, i), env)
  {
    var done, later := GroupedPaths(all, i), LeadersFrom(all, i + 1);
    var inner := ArrayFilter(all[i].filters, all[i].isAnd, env);
    var rest := Parts(all, i + 1, done, env);
    assert LeadersFrom(all, i) == [i] + later;
    assert PartOf(all, i, env) == if inner.Err? then Err(inner.message) else Ok("(" + inner.value + ")");
    assert Parts(all, i, done, env) ==
           if inner.Err? then Err(inner.message)
           else if rest.Err? then Err(rest.message)
           else Ok(["(" + inner.value + ")"] + rest.value);
    PartValuesCons(all, i, later, env);
  }

  /** The step of `PartsLeaders` at a single filter on a path grouped before. */
  lemma {:induction false} PartsLeadersOldPath(all: seq<Filter>, i: nat, env: Env)
    requires i < |all| && all[i].Single? && all[i].path in GroupedPaths(all, i)
    requires GroupedPaths(all, i + 1) == GroupedPaths(all, i)
    requires Parts(all, i + 1, GroupedPaths(all, i + 1), env) ==
             PartValues(all, LeadersFrom(all, i + 1), env)
    ensures Parts(all, i, GroupedPaths(all, i), env) == PartValues(all, LeadersFrom(all, i), env)
  {
    assert LeadersFrom(all, i) == LeadersFrom(all, i + 1);
    assert Parts(all, i, GroupedPaths(all, i), env) == Parts(all, i + 1, GroupedPaths(all, i), env);
  }

  /** The step of `PartsLeaders` at a single filter on a path not grouped yet. */
  lemma {:induction false} PartsLeadersNewPath(all: seq<Filter>, i: nat, env: Env)
    requires i < |all| && all[i].Single? && all[i].path !in GroupedPaths(all, i)
    requires GroupedPaths(all, i + 1) == GroupedPaths(all, i) + {all[i].path}
    requires Parts(all, i + 1, GroupedPaths(all, i + 1), env) ==
             PartValues(all, LeadersFrom(all, i + 1), env)
    ensures Parts(all, i, GroupedPaths(all, i), env) == PartValues(all, LeadersFrom(all, i), env)
  {
    var done, next, later := GroupedPaths(all, i), GroupedPaths(all, i + 1), LeadersFrom(all, i + 1);
    var group := GroupFilter(all[i].path, SamePath(all, all[i].path), env);
    var rest := Parts(all, i + 1, next, env);
    assert LeadersFrom(all, i) == [i] + later;
    assert PartOf(all, i, env) == group;
    assert Parts(all, i, done, env) ==
           if group.Err? then Err(group.message)
           else if rest.Err? then Err(rest.message)
           else Ok([group.value] + rest.value);
    PartValuesCons(all, i, later, env);
  }

  /**
   * The `$filter` of an array of filters: the parts of its leading positions, in
   * order, joined with " and " or " or "; it fails with the first part that fails.
   */
  lemma {:induction false} ArrayFilterLeaders(fs: seq<Filter>, isAnd: bool, env: Env)
    ensures var parts := PartValues(fs, LeadersFrom(fs, 0), env);
      ArrayFilter(fs, isAnd, env) ==
        if parts.Ok? then Ok(Join(parts.value, if isAnd then " and " else " or "))
        else Err(parts.message)
  {
    PartsLeaders(fs, 0, env);
    assert GroupedPaths(fs, 0) == {};
  }

  /** A nested array always contributes its own `$filter`, in parentheses, at its leading position. */
  lemma {:induction false} NestedPart(fs: seq<Filter>, isAnd: bool, k: nat, env: Env)
    requires k < |fs| && fs[k].Multi?
    requires ArrayFilter(fs, isAnd, env).Ok?
    ensures ArrayFilter(fs[k].filters, fs[k].isAnd, env).Ok?
    ensures PartValues(fs, LeadersFrom(fs, 0), env).Ok?
    ensures |PartValues(fs, LeadersFrom(fs, 0), env).value| == |LeadersFrom(fs, 0)|
    ensures exists j :: 0 <= j < |LeadersFrom(fs, 0)| && LeadersFrom(fs, 0)[j] == k &&
                        PartValues(fs, LeadersFrom(fs, 0), env).value[j] ==
                          "(" + ArrayFilter(fs[k].filters, fs[k].isAnd, env).value + ")"
  {
    ArrayFilterLeaders(fs, isAnd, env);
    var leaders := LeadersFrom(fs, 0);
    LeadersFromExactly(fs, 0);
    PartValuesAt(fs, leaders, env);
    assert k in leaders;
    var j :| 0 <= j < |leaders| && leaders[j] == k;
    assert PartOf(fs, k, env).Ok?;
  }

  /** Three values joined with a separator. */
  lemma {:induction false} JoinTriple(a: string, b: string, c: string, sep: string)
    ensures Join([a, b, c], sep) == a + sep + b + sep + c
  {
    assert [a, b, c][..2] == [a, b];
    JoinPair(a, b, sep);
  }

  /**
   * The non-empty ones of three values, combined with ") and (": none gives "", one
   * is kept as it is, several are each put in parentheses in their order.
   */
  lemma {:induction false} CombineNonEmpty(a: string, c: string, s: string)
    ensures var r := Combine(NonEmpty(a, c, s), ") and (");
      && (a == "" && c == "" ==> r == s)
      && (a != "" && c == "" && s == "" ==> r == a)
      && (a == "" && c != "" && s == "" ==> r == c)
      && (a != "" && c != "" && s == "" ==> r == "(" + a + ") and (" + c + ")")
      && (a != "" && c == "" && s != "" ==> r == "(" + a + ") and (" + s + ")")
      && (a == "" && c != "" && s != "" ==> r == "(" + c + ") and (" + s + ")")
      && (a != "" && c != "" && s != "" ==> r == "(" + a + ") and (" + c + ") and (" + s + ")")
  {
    var sep := ") and (";
    if a != "" && c != "" && s != "" {
      assert NonEmpty(a, c, s) == [a, c, s];
      JoinTriple(a, c, s, sep);
    } else if a != "" && c != "" {
      CombineTwo(a, c, s, a, c);
    } else if a != "" && s != "" {
      CombineTwo(a, c, s, a, s);
    } else if c != "" && s != "" {
      CombineTwo(a, c, s, c, s);
    } else if a != "" {
      assert NonEmpty(a, c, s) == [a];
    } else if c != "" {
      assert NonEmpty(a, c, s) == [c];
    } else if s != "" {
      assert NonEmpty(a, c, s) == [s];
    } else {
      assert NonEmpty(a, c, s) == [];
    }
  }

  /** Two non-empty values of three: each in parentheses, joined with " and ". */
  lemma {:induction false} CombineTwo(a: string, c: string, s: string, x: string, y: string)
    requires NonEmpty(a, c, s) == [x, y]
    ensures Combine(NonEmpty(a, c, s), ") and (") == "(" + x + ") and (" + y + ")"
  {
    JoinPair(x, y, ") and (");
  }

  /**
   * `fetchFilter` for every combination of empty and non-empty application, control
   * and static filters: the non-empty ones in this order, a single one as it is,
   * several each in parentheses and joined with " and ".
   */
  lemma {:induction false} CompileCases(application: seq<Filter>, control: seq<Filter>,
                                        staticFilter: string, env: Env)
    requires ArrayFilter(application, true, env).Ok? && ArrayFilter(control, true, env).Ok?
    ensures Compile(application, control, staticFilter, env).Ok?
    ensures var a, c, s := ArrayFilter(application, true, env).value,
                           ArrayFilter(control, true, env).value, staticFilter;
      var r := Compile(application, control, staticFilter, env).value;
      && (a == "" && c == "" ==> r == s)
      && (a != "" && c == "" && s == "" ==> r == a)
      && (a == "" && c != "" && s == "" ==> r == c)
      && (a != "" && c != "" && s == "" ==> r == "(" + a + ") and (" + c + ")")
      && (a != "" && c == "" && s != "" ==> r == "(" + a + ") and (" + s + ")")
      && (a == "" && c != "" && s != "" ==> r == "(" + c + ") and (" + s + ")")
      && (a != "" && c != "" && s != "" ==> r == "(" + a + ") and (" + c + ") and (" + s + ")")
  {
    var a, c := ArrayFilter(application, true, env).value, ArrayFilter(control, true, env).value;
    assert Compile(application, control, staticFilter, env) ==
           Ok(Combine(NonEmpty(a, c, staticFilter), ") and ("));
    CombineNonEmpty(a, c, staticFilter);
  }

  /**
   * The error `push` throws when the group looked up for a path is a member every
   * object inherits (a function or `Object.prototype`); its text depends on the
   * JavaScript engine, so only its kind is kept.
   */
  const PushTypeError: string := "TypeError"

  /** A single filter, at any depth, on a path named like a member every object inherits. */
  predicate Trapped(f: Filter) {
    match f
    case Single(path, _, _, _) => path in Events.PrototypeNames
    case Multi(filters, _) => exists k :: 0 <= k < |filters| && Trapped(filters[k])
  }

  /**
   * `fetchFilter` as written: `fetchArrayFilter` groups the filters by path in an
   * object literal before anything else, so a trapped filter in either array, at any
   * depth, makes `push` throw synchronously, whatever the other filters give.
   */
  function CompileAsWritten(application: seq<Filter>, control: seq<Filter>, staticFilter: string,
                            env: Env): Result<string>
  {
    if (exists k :: 0 <= k < |application| && Trapped(application[k])) ||
       (exists k :: 0 <= k < |control| && Trapped(control[k]))
    then Err(PushTypeError)
    else Compile(application, control, staticFilter, env)
  }

  /** As written, `fetchFilter` fails exactly when a filter is bad or trapped. */
  lemma {:induction false} CompileAsWrittenFails(application: seq<Filter>, control: seq<Filter>, staticFilter: string,
                              env: Env)
    ensures CompileAsWritten(application, control, staticFilter, env).Err? <==>
            (exists k :: 0 <= k < |application| && (Bad(application[k], env) || Trapped(application[k]))) ||
            (exists k :: 0 <= k < |control| && (Bad(control[k], env) || Trapped(control[k])))
  {
    CompileFails(application, control, staticFilter, env);
  }

  /**
   * A single supported filter on a property named "toString" that has metadata: the
   * grouping by own keys gives its value, the code as written throws a TypeError.
   */
  lemma {:induction false} InheritedPathThrows(op: Operator, v: Value, env: Env)
    requires !op.Other? && "toString" in env.meta
    ensures Compile([Single("toString", op, v, "")], [], "", env).Ok?
    ensures CompileAsWritten([Single("toString", op, v, "")], [], "", env) == Err(PushTypeError)
  {
    var fs := [Single("toString", op, v, "")];
    CompileFails(fs, [], "", env);
    assert !Bad(fs[0], env);
    assert Trapped(fs[0]);
  }
}

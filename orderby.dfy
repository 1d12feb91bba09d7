/**
 * `buildOrderbyOption`: the value of the `$orderby` system query option (section
 * 5.1.4 of OData Version 4.0 Part 2: URL Conventions) from the dynamic sorters,
 * followed by the static `$orderby` of the binding parameters.
 */
module Orderby {
  import opened Results

  /** An element of `aSorters`: a `Sorter` instance, or any other value (its text). */
  datatype SorterArg = Sorter(path: string, descending: bool) | NotASorter(text: string)

  /** The `$orderby` item of one sorter: its path, then " desc" when it sorts descending. */
  function Item(path: string, descending: bool): string {
    path + (if descending then " desc" else "")
  }

  /** `a.join(sep)` */
  function Join(parts: seq<string>, sep: string): (r: string)
    ensures |parts| == 1 ==> r == parts[0]
    decreases |parts|
  {
    if |parts| == 0 then ""
    else if |parts| == 1 then parts[0]
    else Join(parts[..|parts| - 1], sep) + sep + parts[|parts| - 1]
  }

  /** `s.split(c)`: the pieces of `s` between the occurrences of `c`. */
  function Split(s: string, c: char): (r: seq<string>)
    ensures |r| >= 1
    decreases |s|
  {
    if |s| == 0 then [""]
    else
      var init := Split(s[..|s| - 1], c);
      if s[|s| - 1] == c then init + [""]
      else init[..|init| - 1] + [init[|init| - 1] + [s[|s| - 1]]]
  }

  /** Splitting `s + [c] + t` at `c`, where `t` holds no `c`, ends with the piece `t`. */
  lemma {:induction false} SplitAppend(s: string, c: char, t: string)
    requires c !in t
    ensures Split(s + [c] + t, c) == Split(s, c) + [t]
    decreases |t|
  {
    if |t| == 0 {
      assert s + [c] + t == s + [c];
      assert (s + [c])[..|s + [c]| - 1] == s;
    } else {
      var t' := t[..|t| - 1];
      var u := s + [c] + t;
      assert u[..|u| - 1] == s + [c] + t';
      assert u[|u| - 1] == t[|t| - 1];
      SplitAppend(s, c, t');
      assert t' + [t[|t| - 1]] == t;
    }
  }

  /** A string without `c` is one piece. */
  lemma {:induction false} SplitNone(t: string, c: char)
    requires c !in t
    ensures Split(t, c) == [t]
    decreases |t|
  {
    if |t| > 0 {
      SplitNone(t[..|t| - 1], c);
      assert t[..|t| - 1] + [t[|t| - 1]] == t;
    }
  }

  /** Splitting a non-empty join of pieces without the separator gives the pieces back. */
  lemma {:induction false} SplitJoin(parts: seq<string>, c: char)
    requires |parts| >= 1 && forall i :: 0 <= i < |parts| ==> c !in parts[i]
    ensures Split(Join(parts, [c]), c) == parts
    decreases |parts|
  {
    if |parts| == 1 {
      SplitNone(parts[0], c);
    } else {
      var init := parts[..|parts| - 1];
      SplitJoin(init, c);
      SplitAppend(Join(init, [c]), c, parts[|parts| - 1]);
      assert init + [parts[|parts| - 1]] == parts;
    }
  }

  /** The items of the sorters, in their order; an element that is not a sorter fails. */
  function Items(sorters: seq<SorterArg>, bindingText: string): (r: Result<seq<string>>)
    ensures r.Ok? <==> forall i :: 0 <= i < |sorters| ==> sorters[i].Sorter?
    ensures r.Ok? ==> |r.value| == |sorters| &&
                      forall i :: 0 <= i < |sorters| ==>
                        r.value[i] == Item(sorters[i].path, sorters[i].descending)
    ensures r.Err? ==> exists i :: 0 <= i < |sorters| && sorters[i].NotASorter? &&
                         (forall j :: 0 <= j < i ==> sorters[j].Sorter?) &&
                         r.message == "Unsupported sorter: " + sorters[i].text + " - " + bindingText
    decreases |sorters|
  {
    if |sorters| == 0 then Ok([])
    else
      match sorters[0]
      case NotASorter(text) => Err("Unsupported sorter: " + text + " - " + bindingText)
      case Sorter(path, descending) =>
        var rest :- Items(sorters[1..], bindingText);
        Ok([Item(path, descending)] + rest)
  }

  /**
   * `buildOrderbyOption(aSorters, sOrderbyQueryOption)`: the items of the sorters and,
   * when given, the static `$orderby` last, joined with ",".
   */
  function BuildOrderby(sorters: seq<SorterArg>, staticOrderby: string, bindingText: string)
    : (r: Result<string>)
    ensures r.Ok? <==> forall i :: 0 <= i < |sorters| ==> sorters[i].Sorter?
    ensures |sorters| == 0 ==> r == Ok(staticOrderby)
  {
    var items :- Items(sorters, bindingText);
    Ok(Join(items + (if staticOrderby != "" then [staticOrderby] else []), ","))
  }

  /**
   * Splitting the `$orderby` value at its commas gives one item per sorter, in the
   * order of the sorters, followed by the static `$orderby`, as long as no path and
   * no static value contains a comma.
   */
  lemma BuildOrderbyItems(sorters: seq<SorterArg>, staticOrderby: string, bindingText: string)
    requires |sorters| > 0 || staticOrderby != ""
    requires forall i :: 0 <= i < |sorters| ==> sorters[i].Sorter? && ',' !in sorters[i].path
    requires ',' !in staticOrderby
    ensures BuildOrderby(sorters, staticOrderby, bindingText).Ok?
    ensures var parts := Split(BuildOrderby(sorters, staticOrderby, bindingText).value, ',');
      && |parts| == |sorters| + (if staticOrderby != "" then 1 else 0)
      && (forall i :: 0 <= i < |sorters| ==>
            parts[i] == Item(sorters[i].path, sorters[i].descending))
      && (staticOrderby != "" ==> parts[|sorters|] == staticOrderby)
  {
    var items := Items(sorters, bindingText).value;
    var all := items + (if staticOrderby != "" then [staticOrderby] else []);
    forall i | 0 <= i < |all| ensures ',' !in all[i] {
      if i < |items| {
        assert all[i] == sorters[i].path + (if sorters[i].descending then " desc" else "");
      }
    }
    SplitJoin(all, ',');
  }
}

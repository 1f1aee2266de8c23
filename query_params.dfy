/**
 * Grouping of the query parameters echoed by the `/anything` route
 * (src/routes/anything.rs). The ordered `(name, value)` pairs of a query
 * string are folded into an insertion-ordered map: a name given once maps to
 * `One(value)`, a name given several times to `Many(values)`, in input order.
 *
 * `GroupQueryParameters` is the fold, written as the loop it is; the functions
 * before it say what the result should be without reference to the fold, and
 * the lemmas after it derive the promised properties from that description.
 */
module QueryParams {
  import opened Common
  import opened IndexMaps

  /** The value recorded for one query parameter name. */
  datatype QueryParameterValue = One(value: string) | Many(items: seq<string>)

  type Param = (string, string)

  type Args = IndexMap<string, QueryParameterValue>

  /** The values a recorded entry carries, in order. */
  function Items(v: QueryParameterValue): seq<string>
  {
    match v
    case One(x) => [x]
    case Many(xs) => xs
  }

  // ---------------------------------------------------------------------------
  // Reference description of the grouping
  // ---------------------------------------------------------------------------

  /** The names of the parameters, one per pair, in input order. */
  function Names(params: seq<Param>): (names: seq<string>)
    ensures |names| == |params|
    ensures forall i :: 0 <= i < |params| ==> names[i] == params[i].0
  {
    seq(|params|, i requires 0 <= i < |params| => params[i].0)
  }

  /** Each name once, in order of first appearance. */
  function DistinctNames(params: seq<Param>): seq<string>
    decreases |params|
  {
    if params == [] then []
    else
      var earlier := DistinctNames(params[..|params| - 1]);
      var name := params[|params| - 1].0;
      if name in earlier then earlier else earlier + [name]
  }

  /** The values given for `name`, in input order. */
  function ValuesOf(params: seq<Param>, name: string): seq<string>
    decreases |params|
  {
    if params == [] then []
    else
      var last := params[|params| - 1];
      ValuesOf(params[..|params| - 1], name) + (if last.0 == name then [last.1] else [])
  }

  /** Position of the first pair named `name`, or `|params|` when there is none. */
  function FirstIndex(params: seq<Param>, name: string): (r: nat)
    ensures r <= |params|
    ensures r < |params| ==> params[r].0 == name
    ensures forall j :: 0 <= j < r ==> params[j].0 != name
  {
    if params == [] then 0
    else if params[0].0 == name then 0
    else 1 + FirstIndex(params[1..], name)
  }

  /** What the grouping records for a name with the given values. */
  function Grouped(values: seq<string>): QueryParameterValue
  {
    if |values| == 1 then One(values[0]) else Many(values)
  }

  /** `args` records the parameters `params`: one key per distinct name, in
      order of first appearance, each holding that name's values. */
  ghost predicate IsGroupingOf(params: seq<Param>, args: Args)
  {
    && args.Valid()
    && args.keys == DistinctNames(params)
    && forall n :: n in args.entries ==> args.entries[n] == Grouped(ValuesOf(params, n))
  }

  // ---------------------------------------------------------------------------
  // The fold
  // ---------------------------------------------------------------------------

  /** `group_query_parameters`: fold the pairs into the accumulator map, adding
      a vacant name as `One`, turning `One` into a two-element `Many` in place,
      and pushing onto an existing `Many`. */
  method GroupQueryParameters(params: seq<Param>) returns (acc: Args)
    ensures IsGroupingOf(params, acc)
  {
    acc := Empty();
    var i := 0;
    while i < |params|
      invariant 0 <= i <= |params|
      invariant IsGroupingOf(params[..i], acc)
    {
      var (name, value) := params[i];
      ghost var before := acc;
      match acc.Get(name) {
        case None =>
          acc := acc.Insert(name, One(value));
        case Some(One(oldValue)) =>
          acc := acc.Insert(name, Many([oldValue, value]));
        case Some(Many(items)) =>
          acc := acc.Insert(name, Many(items + [value]));
      }
      assert params[..i + 1] == params[..i] + [(name, value)];
      FoldStepKeepsGrouping(params[..i], name, value, before, acc);
      i := i + 1;
    }
    assert params[..i] == params;
  }

  // ---------------------------------------------------------------------------
  // Properties of the grouping
  // ---------------------------------------------------------------------------

  /** A name is recorded exactly when it occurs in the input, and then it has
      at least one value. */
  lemma {:induction false} NamedIffHasValues(params: seq<Param>, name: string)
    ensures name in DistinctNames(params) <==> name in Names(params)
    ensures name in DistinctNames(params) <==> ValuesOf(params, name) != []
  {
    if params != [] {
      var init := params[..|params| - 1];
      NamedIffHasValues(init, name);
      assert Names(params) == Names(init) + [params[|params| - 1].0];
    }
  }

  /** Appending one pair adds its name to the distinct names if it is new,
      and its value to that name's values. */
  lemma AppendPair(done: seq<Param>, x: Param)
    ensures DistinctNames(done + [x]) ==
              if x.0 in DistinctNames(done) then DistinctNames(done) else DistinctNames(done) + [x.0]
    ensures forall n :: ValuesOf(done + [x], n) == ValuesOf(done, n) + (if n == x.0 then [x.1] else [])
  {
  }

  /** One step of the fold turns a grouping of `done` into a grouping of
      `done` followed by the pair `(name, value)`. */
  lemma FoldStepKeepsGrouping(done: seq<Param>, name: string, value: string, before: Args, after: Args)
    requires IsGroupingOf(done, before)
    requires name !in before.entries ==> after == before.Insert(name, One(value))
    requires name in before.entries && before.entries[name].One? ==>
               after == before.Insert(name, Many([before.entries[name].value, value]))
    requires name in before.entries && before.entries[name].Many? ==>
               after == before.Insert(name, Many(before.entries[name].items + [value]))
    ensures IsGroupingOf(done + [(name, value)], after)
  {
    var next := done + [(name, value)];
    AppendPair(done, (name, value));
    NamedIffHasValues(done, name);
    assert after.entries == before.entries[name := after.entries[name]];
    assert after.entries[name] == Grouped(ValuesOf(done, name) + [value]) by {
      if name !in before.entries {
        assert ValuesOf(done, name) == [];
      } else if before.entries[name].One? {
        assert ValuesOf(done, name) == [before.entries[name].value];
      } else {
        assert ValuesOf(done, name) == before.entries[name].items;
      }
    }
  }

  /** Empty input yields an empty map. */
  lemma GroupingOfEmpty(args: Args)
    requires IsGroupingOf([], args)
    ensures args.keys == [] && args.entries == map[]
  {
  }

  lemma {:induction false} FirstIndexAppend(params: seq<Param>, x: Param, name: string)
    ensures FirstIndex(params + [x], name) ==
              if FirstIndex(params, name) < |params| then FirstIndex(params, name)
              else if x.0 == name then |params|
              else |params| + 1
  {
    if params != [] {
      assert (params + [x])[1..] == params[1..] + [x];
      FirstIndexAppend(params[1..], x, name);
    }
  }

  /** `names` lists names occurring in `params` by strictly increasing
      position of first appearance. */
  ghost predicate InFirstAppearanceOrder(params: seq<Param>, names: seq<string>)
  {
    && (forall i :: 0 <= i < |names| ==> FirstIndex(params, names[i]) < |params|)
    && (forall i, j :: 0 <= i < j < |names| ==>
          FirstIndex(params, names[i]) < FirstIndex(params, names[j]))
  }

  /** The distinct names are listed by strictly increasing position of first
      appearance; in particular none is listed twice. */
  lemma {:induction false} DistinctNamesInFirstAppearanceOrder(params: seq<Param>)
    ensures forall i :: 0 <= i < |DistinctNames(params)| ==>
              FirstIndex(params, DistinctNames(params)[i]) < |params|
    ensures forall i, j :: 0 <= i < j < |DistinctNames(params)| ==>
              FirstIndex(params, DistinctNames(params)[i]) < FirstIndex(params, DistinctNames(params)[j])
  {
    if params != [] {
      var init := params[..|params| - 1];
      var x := params[|params| - 1];
      assert params == init + [x];
      DistinctNamesInFirstAppearanceOrder(init);
      FirstAppearanceStep(init, x);
    }
  }

  /** The inductive step: one more pair keeps the distinct names in order of
      first appearance, a new name going last. */
  lemma FirstAppearanceStep(init: seq<Param>, x: Param)
    requires InFirstAppearanceOrder(init, DistinctNames(init))
    ensures InFirstAppearanceOrder(init + [x], DistinctNames(init + [x]))
  {
    var params := init + [x];
    var before := DistinctNames(init);
    var d := DistinctNames(params);
    assert d == if x.0 in before then before else before + [x.0] by {
      AppendPair(init, x);
    }
    forall i | 0 <= i < |before|
      ensures FirstIndex(params, before[i]) == FirstIndex(init, before[i]) < |init|
    {
      FirstIndexAppend(init, x, before[i]);
    }
    if x.0 !in before {
      assert FirstIndex(params, x.0) == |init| by {
        NamedIffHasValues(init, x.0);
        FirstIndexAppend(init, x, x.0);
      }
    }
    forall i | 0 <= i < |d|
      ensures d[i] == (if i < |before| then before[i] else x.0)
    {
    }
  }

  /** A name's values are its input values with their multiplicities, and
      there are as many of them as the name has occurrences. */
  lemma {:induction false} ValuesOfCountsOccurrences(params: seq<Param>, name: string)
    ensures |ValuesOf(params, name)| == multiset(Names(params))[name]
    ensures forall v :: multiset(ValuesOf(params, name))[v] == multiset(params)[(name, v)]
  {
    if params != [] {
      var init := params[..|params| - 1];
      var x := params[|params| - 1];
      assert params == init + [x];
      assert Names(params) == Names(init) + [x.0];
      ValuesOfCountsOccurrences(init, name);
    }
  }

  /** A name given once is recorded as `One` of its value; a name given k >= 2
      times as `Many` of its k values in input order. So no `Many` holds fewer
      than two values. */
  lemma GroupingSplitsOneFromMany(params: seq<Param>, args: Args, name: string)
    requires IsGroupingOf(params, args)
    requires name in args.entries
    ensures Items(args.entries[name]) == ValuesOf(params, name)
    ensures args.entries[name].One? <==> multiset(Names(params))[name] == 1
    ensures args.entries[name].One? ==> (name, args.entries[name].value) in params
    ensures args.entries[name].Many? ==>
              |args.entries[name].items| == multiset(Names(params))[name] >= 2
  {
    NamedIffHasValues(params, name);
    ValuesOfCountsOccurrences(params, name);
    var vs := ValuesOf(params, name);
    if |vs| == 1 {
      assert multiset(vs)[vs[0]] == 1;
    }
  }

  /** The keys of the result are exactly the names occurring in the input. */
  lemma GroupingKeysAreInputNames(params: seq<Param>, args: Args)
    requires IsGroupingOf(params, args)
    ensures forall n :: n in args.entries <==> n in Names(params)
  {
    forall n
      ensures n in args.entries <==> n in Names(params)
    {
      NamedIffHasValues(params, n);
    }
  }

  /** Number of values held by the entries listed under `names`. */
  function ItemCount(names: seq<string>, entries: map<string, QueryParameterValue>): nat
    requires forall n :: n in names ==> n in entries
  {
    if names == [] then 0 else |Items(entries[names[0]])| + ItemCount(names[1..], entries)
  }

  /** Number of input values given under the names `names`. */
  function ValueTotal(params: seq<Param>, names: seq<string>): nat
  {
    if names == [] then 0 else |ValuesOf(params, names[0])| + ValueTotal(params, names[1..])
  }

  lemma {:induction false} ValueTotalAppendName(params: seq<Param>, names: seq<string>, name: string)
    ensures ValueTotal(params, names + [name]) == ValueTotal(params, names) + |ValuesOf(params, name)|
  {
    if names != [] {
      assert (names + [name])[1..] == names[1..] + [name];
      ValueTotalAppendName(params, names[1..], name);
    }
  }

  lemma {:induction false} ValueTotalAppendParam(params: seq<Param>, x: Param, names: seq<string>)
    requires forall i, j :: 0 <= i < j < |names| ==> names[i] != names[j]
    ensures ValueTotal(params + [x], names) == ValueTotal(params, names) + (if x.0 in names then 1 else 0)
  {
    if names != [] {
      assert (params + [x])[..|params|] == params;
      ValueTotalAppendParam(params, x, names[1..]);
      if names[0] == x.0 {
        assert x.0 !in names[1..];
      }
    }
  }

  lemma {:induction false} DistinctNamesHoldEveryValue(params: seq<Param>)
    ensures ValueTotal(params, DistinctNames(params)) == |params|
  {
    if params != [] {
      var init := params[..|params| - 1];
      var x := params[|params| - 1];
      assert params == init + [x];
      var before := DistinctNames(init);
      DistinctNamesHoldEveryValue(init);
      DistinctNamesInFirstAppearanceOrder(init);
      ValueTotalAppendParam(init, x, before);
      if x.0 !in before {
        ValueTotalAppendName(params, before, x.0);
        NamedIffHasValues(init, x.0);
      }
    }
  }

  lemma {:induction false} ItemCountMatchesValueTotal(params: seq<Param>, names: seq<string>, entries: map<string, QueryParameterValue>)
    requires forall n :: n in names ==> n in entries && entries[n] == Grouped(ValuesOf(params, n))
    requires forall n :: n in names ==> ValuesOf(params, n) != []
    ensures ItemCount(names, entries) == ValueTotal(params, names)
  {
    if names != [] {
      ItemCountMatchesValueTotal(params, names[1..], entries);
    }
  }

  /** No value is dropped: the entries hold as many values as there were pairs. */
  lemma GroupingKeepsEveryValue(params: seq<Param>, args: Args)
    requires IsGroupingOf(params, args)
    ensures ItemCount(args.keys, args.entries) == |params|
  {
    forall n | n in args.keys
      ensures ValuesOf(params, n) != []
    {
      NamedIffHasValues(params, n);
    }
    ItemCountMatchesValueTotal(params, args.keys, args.entries);
    DistinctNamesHoldEveryValue(params);
  }
}

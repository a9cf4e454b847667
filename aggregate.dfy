/**
 * `groupby(merge_gb_cols).agg(...)`: one output row per distinct key value in
 * the input, in ascending key order (pandas sorts group keys), each measure
 * reduced over the rows of its group with a fixed reducer.
 */
module Aggregate {
  import opened Wrappers
  import opened Keys
  import opened Normalise
  import opened Fact

  /** One group of the group-by: its key and its rows in input order. */
  datatype Group<V> = Group(key: Key, rows: seq<V>)

  /** The values whose key is `k`, in input order: the group of `k`. */
  function Select<V>(kv: seq<(Key, V)>, k: Key): (r: seq<V>)
    ensures |r| <= |kv|
  {
    if kv == [] then []
    else Select(kv[..|kv| - 1], k) + (if kv[|kv| - 1].0 == k then [kv[|kv| - 1].1] else [])
  }

  /** The keys of a keyed table, in order. */
  function KeysOf<V>(kv: seq<(Key, V)>): (ks: seq<Key>)
    ensures |ks| == |kv| && forall i :: 0 <= i < |kv| ==> ks[i] == kv[i].0
  {
    KeysBy(kv, (p: (Key, V)) => p.0)
  }

  /** The keys of the groups, in order. */
  function GroupKeys<V>(gs: seq<Group<V>>): (ks: seq<Key>)
    ensures |ks| == |gs| && forall i :: 0 <= i < |gs| ==> ks[i] == gs[i].key
  {
    KeysBy(gs, (g: Group<V>) => g.key)
  }

  /** A group is empty exactly when no input row has its key. */
  lemma {:induction false} SelectEmpty<V>(kv: seq<(Key, V)>, k: Key)
    ensures Select(kv, k) == [] <==> k !in KeysOf(kv)
  {
    if kv != [] {
      SelectEmpty(kv[..|kv| - 1], k);
      assert forall i :: 0 <= i < |kv| - 1 ==> kv[..|kv| - 1][i] == kv[i];
    }
  }

  /**
   * Groups in strictly ascending key order, checked between neighbours: the
   * form the insertion keeps; `SortedAll` shows it is `StrictlySorted` of the keys.
   */
  predicate Sorted<V>(gs: seq<Group<V>>) {
    forall i :: 0 <= i < |gs| - 1 ==> KeyLt(gs[i].key, gs[i + 1].key)
  }

  predicate NonEmpty<V>(gs: seq<Group<V>>) {
    forall i :: 0 <= i < |gs| ==> gs[i].rows != []
  }

  /** The rows of the group with key `k`, or none if there is no such group. */
  function Find<V>(gs: seq<Group<V>>, k: Key): seq<V> {
    if gs == [] then []
    else if gs[0].key == k then gs[0].rows
    else Find(gs[1..], k)
  }

  /** Neighbour order gives order between any two groups. */
  lemma {:induction false} SortedAll<V>(gs: seq<Group<V>>)
    requires Sorted(gs)
    ensures forall i, j :: 0 <= i < j < |gs| ==> KeyLt(gs[i].key, gs[j].key)
    ensures StrictlySorted(GroupKeys(gs))
  {
    if |gs| > 1 {
      SortedAll(gs[1..]);
      forall i, j | 0 <= i < j < |gs| ensures KeyLt(gs[i].key, gs[j].key) {
        if 0 < i {
          assert gs[i] == gs[1..][i - 1] && gs[j] == gs[1..][j - 1];
        } else if 1 < j {
          assert gs[1] == gs[1..][0] && gs[j] == gs[1..][j - 1];
          KeyLtTransitive(gs[0].key, gs[1].key, gs[j].key);
        }
      }
    }
  }

  /** A key below the first group's key has no group. */
  lemma {:induction false} FindBelow<V>(gs: seq<Group<V>>, k: Key)
    requires Sorted(gs) && gs != [] && KeyLt(k, gs[0].key)
    ensures Find(gs, k) == []
  {
    KeyLtAsymmetric(k, gs[0].key);
    if |gs| > 1 {
      KeyLtTransitive(k, gs[0].key, gs[1].key);
      FindBelow(gs[1..], k);
    }
  }

  /** Add one row to its group, creating the group at its sorted place if it is new. */
  function Insert<V>(gs: seq<Group<V>>, k: Key, v: V): (r: seq<Group<V>>)
    requires Sorted(gs)
    ensures Sorted(r)
    ensures r != [] && (r[0].key == k || (gs != [] && r[0].key == gs[0].key))
    ensures NonEmpty(gs) ==> NonEmpty(r)
    ensures forall k' :: Find(r, k') == if k' == k then Find(gs, k') + [v] else Find(gs, k')
  {
    if gs == [] then [Group(k, [v])]
    else if gs[0].key == k then [gs[0].(rows := gs[0].rows + [v])] + gs[1..]
    else if KeyLt(k, gs[0].key) then
      FindBelow(gs, k);
      [Group(k, [v])] + gs
    else
      KeyLtTotal(k, gs[0].key);
      var rest := Insert(gs[1..], k, v);
      assert forall i :: 0 <= i < |rest| ==> ([gs[0]] + rest)[i + 1] == rest[i];
      [gs[0]] + rest
  }

  /** The group-by: sorted, non-empty groups, and the group of every key is exactly its rows. */
  function GroupBy<V>(kv: seq<(Key, V)>): (gs: seq<Group<V>>)
    ensures Sorted(gs) && NonEmpty(gs)
    ensures forall k :: Find(gs, k) == Select(kv, k)
  {
    if kv == [] then []
    else Insert(GroupBy(kv[..|kv| - 1]), kv[|kv| - 1].0, kv[|kv| - 1].1)
  }

  /** In sorted groups each key's group is found at its own position. */
  lemma {:induction false} FindAt<V>(gs: seq<Group<V>>, i: int)
    requires Sorted(gs) && 0 <= i < |gs|
    ensures Find(gs, gs[i].key) == gs[i].rows
  {
    if i > 0 {
      SortedAll(gs);
      KeyLtAsymmetric(gs[0].key, gs[i].key);
      assert gs[1..][i - 1] == gs[i];
      FindAt(gs[1..], i - 1);
    }
  }

  lemma {:induction false} FindAbsent<V>(gs: seq<Group<V>>, k: Key)
    requires forall i :: 0 <= i < |gs| ==> gs[i].key != k
    ensures Find(gs, k) == []
  {
    if gs != [] {
      assert forall i :: 0 <= i < |gs| - 1 ==> gs[1..][i] == gs[i + 1];
      FindAbsent(gs[1..], k);
    }
  }

  /** Any two groups of the group-by are in strictly ascending key order. */
  lemma GroupByOrdered<V>(kv: seq<(Key, V)>, i: int, j: int)
    requires 0 <= i < j < |GroupBy(kv)|
    ensures KeyLt(GroupBy(kv)[i].key, GroupBy(kv)[j].key)
  {
    SortedAll(GroupBy(kv));
  }

  /** The `i`-th group holds exactly the input rows with its key, and there is at least one. */
  lemma GroupByRows<V>(kv: seq<(Key, V)>, i: int)
    requires 0 <= i < |GroupBy(kv)|
    ensures GroupBy(kv)[i].rows == Select(kv, GroupBy(kv)[i].key) != []
  {
    FindAt(GroupBy(kv), i);
  }

  /** The group keys are exactly the input keys. */
  lemma GroupByKeys<V>(kv: seq<(Key, V)>)
    ensures forall k :: k in GroupKeys(GroupBy(kv)) <==> k in KeysOf(kv)
  {
    var gs := GroupBy(kv);
    forall k ensures k in GroupKeys(gs) <==> k in KeysOf(kv) {
      SelectEmpty(kv, k);
      if k in GroupKeys(gs) {
        var i :| 0 <= i < |gs| && gs[i].key == k;
        FindAt(gs, i);
      } else {
        FindAbsent(gs, k);
      }
    }
  }

  /**
   * What the group-by yields: one group per distinct key of the input and no
   * other, keys strictly ascending, each group holding exactly the input rows
   * with its key, in input order.
   */
  lemma GroupByExact<V>(kv: seq<(Key, V)>)
    ensures var gs := GroupBy(kv);
      && (forall i, j :: 0 <= i < j < |gs| ==> KeyLt(gs[i].key, gs[j].key))
      && (forall i :: 0 <= i < |gs| ==> gs[i].rows == Select(kv, gs[i].key) != [])
      && (forall k :: k in GroupKeys(gs) <==> k in KeysOf(kv))
  {
    var gs := GroupBy(kv);
    forall i, j | 0 <= i < j < |gs| ensures KeyLt(gs[i].key, gs[j].key) {
      GroupByOrdered(kv, i, j);
    }
    forall i | 0 <= i < |gs| ensures gs[i].rows == Select(kv, gs[i].key) != [] {
      GroupByRows(kv, i);
    }
    GroupByKeys(kv);
  }

  // ---------------------------------------------------------------------
  // Reducers
  // ---------------------------------------------------------------------

  function Sum(xs: seq<real>): real {
    if xs == [] then 0.0 else Sum(xs[..|xs| - 1]) + xs[|xs| - 1]
  }

  function Mean(xs: seq<real>): real
    requires xs != []
  {
    Sum(xs) / (|xs| as real)
  }

  /** The largest value: one of the values, and no value exceeds it. */
  function Max(xs: seq<real>): (m: real)
    requires xs != []
    ensures m in xs && forall i :: 0 <= i < |xs| ==> xs[i] <= m
  {
    if |xs| == 1 then xs[0]
    else
      var m := Max(xs[..|xs| - 1]);
      assert forall i :: 0 <= i < |xs| - 1 ==> xs[..|xs| - 1][i] == xs[i];
      if xs[|xs| - 1] > m then xs[|xs| - 1] else m
  }

  /** A sum of values in `[lo, hi]` lies between `n * lo` and `n * hi`. */
  lemma {:induction false} SumBounds(xs: seq<real>, lo: real, hi: real)
    requires forall i :: 0 <= i < |xs| ==> lo <= xs[i] <= hi
    ensures (|xs| as real) * lo <= Sum(xs) <= (|xs| as real) * hi
  {
    if xs != [] {
      var init := xs[..|xs| - 1];
      assert forall i :: 0 <= i < |init| ==> init[i] == xs[i];
      SumBounds(init, lo, hi);
      assert (|xs| as real) * lo == (|init| as real) * lo + lo;
      assert (|xs| as real) * hi == (|init| as real) * hi + hi;
    }
  }

  /** A mean lies between any lower and upper bound of its values. */
  lemma MeanBetween(xs: seq<real>, lo: real, hi: real)
    requires xs != []
    requires forall i :: 0 <= i < |xs| ==> lo <= xs[i] <= hi
    ensures lo <= Mean(xs) <= hi
  {
    SumBounds(xs, lo, hi);
    var n := |xs| as real;
    assert Mean(xs) * n == Sum(xs);
  }

  /** A sum of non-negative values is non-negative. */
  lemma {:induction false} SumNonNegative(xs: seq<real>)
    requires forall i :: 0 <= i < |xs| ==> 0.0 <= xs[i]
    ensures 0.0 <= Sum(xs)
  {
    if xs != [] {
      var init := xs[..|xs| - 1];
      assert forall i :: 0 <= i < |init| ==> init[i] == xs[i];
      SumNonNegative(init);
    }
  }

  /** The reducer named in each `agg` call. */
  datatype Reducer = SumOf | MeanOf | MaxOf

  function Reduce(red: Reducer, xs: seq<real>): real
    requires xs != []
  {
    match red
    case SumOf => Sum(xs)
    case MeanOf => Mean(xs)
    case MaxOf => Max(xs)
  }

  // ---------------------------------------------------------------------
  // The aggregations of process_data
  // ---------------------------------------------------------------------

  function LumiKeyed(rows: seq<LumiRow>, cols: seq<Column>): (kv: seq<(Key, LumiRow)>)
    ensures |kv| == |rows|
    ensures forall i :: 0 <= i < |kv| ==> kv[i] == (Project(cols, rows[i].at), rows[i])
  {
    seq(|rows|, i requires 0 <= i < |rows| => (Project(cols, rows[i].at), rows[i]))
  }

  function ObsKeyed(rows: seq<Obs>, cols: seq<Column>): (kv: seq<(Key, real)>)
    ensures |kv| == |rows|
    ensures forall i :: 0 <= i < |kv| ==> kv[i] == (Project(cols, rows[i].at), rows[i].value)
  {
    seq(|rows|, i requires 0 <= i < |rows| => (Project(cols, rows[i].at), rows[i].value))
  }

  function Lums(rows: seq<LumiRow>): (xs: seq<real>)
    ensures |xs| == |rows| && forall i :: 0 <= i < |xs| ==> xs[i] == rows[i].lum
  {
    seq(|rows|, i requires 0 <= i < |rows| => rows[i].lum)
  }

  /**
   * The luminosity aggregation: one fact row per group, names from the group's
   * first row, `LUMINOSITY_SUM` the sum over the group.
   */
  function AggregateLumi(rows: seq<LumiRow>, cols: seq<Column>): seq<FactRow> {
    var gs := GroupBy(LumiKeyed(rows, cols));
    seq(|gs|, i requires 0 <= i < |gs| && gs[i].rows != [] =>
                 BaseRow(gs[i].key, gs[i].rows[0].place, Sum(Lums(gs[i].rows))))
  }

  /**
   * The luminosity aggregate has exactly one row per distinct key of the
   * input, in ascending key order, with `COUNTRY`, `GID_1`, `NAME_1`, `NAME_2`
   * of the group's first row and `LUMINOSITY_SUM` the sum over the group.
   */
  lemma AggregateLumiSpec(rows: seq<LumiRow>, cols: seq<Column>)
    ensures var r := AggregateLumi(rows, cols);
      && (forall i, j :: 0 <= i < j < |r| ==> KeyLt(r[i].key, r[j].key))
      && (forall k :: k in FactKeys(r) <==> k in KeysOf(LumiKeyed(rows, cols)))
      && (forall i :: 0 <= i < |r| ==>
            var grp := Select(LumiKeyed(rows, cols), r[i].key);
            && grp != []
            && r[i] == BaseRow(r[i].key, grp[0].place, Sum(Lums(grp))))
  {
    var kv := LumiKeyed(rows, cols);
    var gs := GroupBy(kv);
    var r := AggregateLumi(rows, cols);
    assert |r| == |gs|;
    assert forall i :: 0 <= i < |r| ==> r[i].key == gs[i].key;
    forall i, j | 0 <= i < j < |r| ensures KeyLt(r[i].key, r[j].key) {
      GroupByOrdered(kv, i, j);
    }
    GroupByKeys(kv);
    assert FactKeys(r) == GroupKeys(gs);
    forall i | 0 <= i < |r|
      ensures var grp := Select(kv, r[i].key);
        grp != [] && r[i] == BaseRow(r[i].key, grp[0].place, Sum(Lums(grp)))
    {
      GroupByRows(kv, i);
    }
  }

  /** The aggregation of a single-measure table with the given reducer. */
  function AggregateObs(rows: seq<Obs>, cols: seq<Column>, red: Reducer): seq<(Key, real)> {
    var gs := GroupBy(ObsKeyed(rows, cols));
    seq(|gs|, i requires 0 <= i < |gs| && gs[i].rows != [] => (gs[i].key, Reduce(red, gs[i].rows)))
  }

  /**
   * A measure aggregate has exactly one row per distinct key of the input, in
   * ascending key order, its value the reducer applied to the group's values.
   */
  lemma AggregateObsSpec(rows: seq<Obs>, cols: seq<Column>, red: Reducer)
    ensures var r := AggregateObs(rows, cols, red);
      && (forall i, j :: 0 <= i < j < |r| ==> KeyLt(r[i].0, r[j].0))
      && (forall k :: k in KeysOf(r) <==> k in KeysOf(ObsKeyed(rows, cols)))
      && (forall i :: 0 <= i < |r| ==>
            var grp := Select(ObsKeyed(rows, cols), r[i].0);
            grp != [] && r[i].1 == Reduce(red, grp))
  {
    var kv := ObsKeyed(rows, cols);
    var gs := GroupBy(kv);
    var r := AggregateObs(rows, cols, red);
    assert |r| == |gs|;
    assert forall i :: 0 <= i < |r| ==> r[i].0 == gs[i].key;
    forall i, j | 0 <= i < j < |r| ensures KeyLt(r[i].0, r[j].0) {
      GroupByOrdered(kv, i, j);
    }
    GroupByKeys(kv);
    assert KeysOf(r) == GroupKeys(gs);
    forall i | 0 <= i < |r|
      ensures var grp := Select(kv, r[i].0);
        grp != [] && r[i].1 == Reduce(red, grp)
    {
      GroupByRows(kv, i);
    }
  }
}

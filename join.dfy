/**
 * The join stage of `process_data`: starting from the luminosity aggregate,
 * `df = pd.merge(df, d, on=merge_gb_cols, how='left')` for every aggregated
 * measure table `d` in turn.
 */
module Join {
  import opened Wrappers
  import opened Keys
  import opened Fact
  import opened Aggregate

  /** An aggregated right-hand table: the measure column it brings and its keyed values. */
  type Table = (Measure, seq<(Key, real)>)

  /** The value a right table holds for a key: its first match, or missing. */
  function Lookup(right: seq<(Key, real)>, k: Key): Option<real> {
    var vs := Select(right, k);
    if vs == [] then None else Some(vs[0])
  }

  /** Left-join output for one base row: one row per match, or one row with a missing cell. */
  function Matches(row: FactRow, right: seq<(Key, real)>, m: Measure): (r: seq<FactRow>)
    ensures |r| >= 1
  {
    var vs := Select(right, row.key);
    if vs == [] then [Set(row, m, None)]
    else seq(|vs|, j requires 0 <= j < |vs| => Set(row, m, Some(vs[j])))
  }

  /** A left merge of `right`'s column `m` onto `df`: no base row is ever dropped. */
  function MergeLeft(df: seq<FactRow>, right: seq<(Key, real)>, m: Measure): (r: seq<FactRow>)
    ensures |r| >= |df|
  {
    if df == [] then []
    else MergeLeft(df[..|df| - 1], right, m) + Matches(df[|df| - 1], right, m)
  }

  /** No key occurs twice, as after a group-by. */
  predicate UniqueKeys(right: seq<(Key, real)>) {
    forall i, j :: 0 <= i < j < |right| ==> right[i].0 != right[j].0
  }

  predicate AllUnique(tables: seq<Table>) {
    forall t :: t in tables ==> UniqueKeys(t.1)
  }

  /** Column `m` of every row set to the right table's value for the row's key. */
  function FillColumn(df: seq<FactRow>, right: seq<(Key, real)>, m: Measure): (r: seq<FactRow>)
    ensures |r| == |df|
    ensures forall i :: 0 <= i < |df| ==> r[i] == Set(df[i], m, Lookup(right, df[i].key))
  {
    seq(|df|, i requires 0 <= i < |df| => Set(df[i], m, Lookup(right, df[i].key)))
  }

  /** With unique keys every key matches at most one right row. */
  lemma {:induction false} SelectUnique(right: seq<(Key, real)>, k: Key)
    requires UniqueKeys(right)
    ensures |Select(right, k)| <= 1
  {
    if right != [] {
      var init := right[..|right| - 1];
      assert forall i, j :: 0 <= i < j < |init| ==> init[i] == right[i] && init[j] == right[j];
      SelectUnique(init, k);
      if right[|right| - 1].0 == k {
        SelectEmpty(init, k);
        assert forall i :: 0 <= i < |init| ==> KeysOf(init)[i] == right[i].0;
      }
    }
  }

  /**
   * A left merge against a table with unique keys keeps every base row, in
   * order, exactly once, and only fills in column `m` with the matching value.
   */
  lemma {:induction false} MergeLeftUnique(df: seq<FactRow>, right: seq<(Key, real)>, m: Measure)
    requires UniqueKeys(right)
    ensures MergeLeft(df, right, m) == FillColumn(df, right, m)
  {
    if df != [] {
      var init := df[..|df| - 1];
      var last := df[|df| - 1];
      MergeLeftUnique(init, right, m);
      SelectUnique(right, last.key);
      var one := Set(last, m, Lookup(right, last.key));
      assert Matches(last, right, m) == [one];
      assert FillColumn(df, right, m) == FillColumn(init, right, m) + [one];
    }
  }

  /** A base row with every table's column filled in by key, the tables taken in order. */
  function Fill(row: FactRow, tables: seq<Table>): (r: FactRow)
    ensures r.key == row.key && r.place == row.place
    ensures r.yearMonth == row.yearMonth && r.zoneCode == row.zoneCode
    ensures forall m :: GetPct(r, m) == GetPct(row, m)
    ensures forall m :: m !in Columns(tables) ==> Get(r, m) == Get(row, m)
  {
    if tables == [] then row
    else
      var init := tables[..|tables| - 1];
      var t := tables[|tables| - 1];
      assert Columns(tables) == Columns(init) + [t.0];
      Set(Fill(row, init), t.0, Lookup(t.1, row.key))
  }

  /** The measure columns the tables bring, in order. */
  function Columns(tables: seq<Table>): (cs: seq<Measure>)
    ensures |cs| == |tables| && forall j :: 0 <= j < |tables| ==> cs[j] == tables[j].0
  {
    seq(|tables|, j requires 0 <= j < |tables| => tables[j].0)
  }

  lemma FillStep(row: FactRow, tables: seq<Table>, i: int)
    requires 0 <= i < |tables|
    ensures Fill(row, tables[..i + 1]) == Set(Fill(row, tables[..i]), tables[i].0, Lookup(tables[i].1, row.key))
  {
    assert tables[..i + 1][..i] == tables[..i];
  }

  /** Every base row filled in from the tables. */
  function FillAll(base: seq<FactRow>, tables: seq<Table>): (r: seq<FactRow>)
    ensures |r| == |base| && forall i :: 0 <= i < |base| ==> r[i] == Fill(base[i], tables)
  {
    seq(|base|, i requires 0 <= i < |base| => Fill(base[i], tables))
  }

  lemma FillAllStep(base: seq<FactRow>, tables: seq<Table>, i: int)
    requires 0 <= i < |tables|
    ensures FillColumn(FillAll(base, tables[..i]), tables[i].1, tables[i].0) == FillAll(base, tables[..i + 1])
  {
    forall k | 0 <= k < |base|
      ensures FillColumn(FillAll(base, tables[..i]), tables[i].1, tables[i].0)[k] == FillAll(base, tables[..i + 1])[k]
    {
      FillStep(base[k], tables, i);
    }
  }

  /** One round of the join loop, when the right table's keys are unique. */
  lemma JoinStep(base: seq<FactRow>, tables: seq<Table>, i: int, df: seq<FactRow>)
    requires 0 <= i < |tables| && UniqueKeys(tables[i].1)
    requires df == FillAll(base, tables[..i])
    ensures MergeLeft(df, tables[i].1, tables[i].0) == FillAll(base, tables[..i + 1])
  {
    MergeLeftUnique(df, tables[i].1, tables[i].0);
    FillAllStep(base, tables, i);
  }

  lemma FoldMergeStep(base: seq<FactRow>, tables: seq<Table>, i: int)
    requires 0 <= i < |tables|
    ensures FoldMerge(base, tables[..i + 1]) == MergeLeft(FoldMerge(base, tables[..i]), tables[i].1, tables[i].0)
  {
    assert tables[..i + 1][..i] == tables[..i];
  }

  predicate DistinctColumns(tables: seq<Table>) {
    forall i, j :: 0 <= i < j < |tables| ==> tables[i].0 != tables[j].0
  }

  /** After the fill, each table's column holds that table's value for the row's key. */
  lemma {:induction false} FillGet(row: FactRow, tables: seq<Table>, j: int)
    requires DistinctColumns(tables) && 0 <= j < |tables|
    ensures Get(Fill(row, tables), tables[j].0) == Lookup(tables[j].1, row.key)
  {
    var init := tables[..|tables| - 1];
    if j < |tables| - 1 {
      assert init[j] == tables[j];
      FillGet(row, init, j);
    }
  }

  /** The join loop's specification: the merges applied one after another. */
  function FoldMerge(base: seq<FactRow>, tables: seq<Table>): seq<FactRow> {
    if tables == [] then base
    else
      var t := tables[|tables| - 1];
      MergeLeft(FoldMerge(base, tables[..|tables| - 1]), t.1, t.0)
  }

  /** Left joins never lose a base row, whatever the right tables hold. */
  lemma {:induction false} FoldMergeKeepsRows(base: seq<FactRow>, tables: seq<Table>)
    ensures |FoldMerge(base, tables)| >= |base|
  {
    if tables != [] {
      FoldMergeKeepsRows(base, tables[..|tables| - 1]);
    }
  }

  /** The join fold against tables with unique keys fills every base row in place. */
  lemma {:induction false} FoldMergeUnique(base: seq<FactRow>, tables: seq<Table>)
    requires AllUnique(tables)
    ensures FoldMerge(base, tables) == FillAll(base, tables)
  {
    if tables != [] {
      var n := |tables| - 1;
      assert tables[..n] == tables[..|tables| - 1];
      assert forall t :: t in tables[..n] ==> t in tables;
      FoldMergeUnique(base, tables[..n]);
      assert tables[n] in tables;
      JoinStep(base, tables, n, FoldMerge(base, tables[..n]));
      assert tables[..n + 1] == tables;
    }
  }

  /** In a table with unique keys, a key present at row `i` selects exactly that row's value. */
  lemma {:induction false} SelectAt(right: seq<(Key, real)>, i: int)
    requires UniqueKeys(right) && 0 <= i < |right|
    ensures Select(right, right[i].0) == [right[i].1]
  {
    var init := right[..|right| - 1];
    var k := right[i].0;
    assert forall a, b :: 0 <= a < b < |init| ==> init[a] == right[a] && init[b] == right[b];
    if i == |right| - 1 {
      SelectEmpty(init, k);
      assert forall a :: 0 <= a < |init| ==> KeysOf(init)[a] == right[a].0;
    } else {
      assert init[i] == right[i];
      SelectAt(init, i);
    }
  }

  /** `Lookup` in a table with unique keys: the value of the row with the key, or missing when none has it. */
  lemma LookupUnique(right: seq<(Key, real)>, k: Key)
    requires UniqueKeys(right)
    ensures k !in KeysOf(right) ==> Lookup(right, k) == None
    ensures forall i :: 0 <= i < |right| && right[i].0 == k ==> Lookup(right, k) == Some(right[i].1)
  {
    SelectEmpty(right, k);
    forall i | 0 <= i < |right| && right[i].0 == k ensures Lookup(right, k) == Some(right[i].1) {
      SelectAt(right, i);
    }
  }

  /**
   * `for d in df_list: df = pd.merge(df, d, how='left')`.  When every right
   * table has unique keys (as group-by output has), the result has the base's
   * rows in the base's order, each filled in from every table.
   */
  method JoinAll(base: seq<FactRow>, tables: seq<Table>) returns (df: seq<FactRow>)
    ensures df == FoldMerge(base, tables)
    ensures AllUnique(tables) ==> df == FillAll(base, tables)
  {
    df := base;
    var i := 0;
    while i < |tables|
      invariant 0 <= i <= |tables|
      invariant df == FoldMerge(base, tables[..i])
    {
      var t := tables[i];
      FoldMergeStep(base, tables, i);
      df := MergeLeft(df, t.1, t.0);
      i := i + 1;
    }
    assert tables[..|tables|] == tables;
    if AllUnique(tables) {
      FoldMergeUnique(base, tables);
    }
  }
}

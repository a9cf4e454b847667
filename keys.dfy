/**
 * The composite key of the fact table.  `process_data` picks one of four
 * column lists from the two flags `yearly` and `pop_zone`; `process_combined`
 * groups by that list with its finest time column removed.  A key value is a
 * row's coordinates projected onto the chosen columns, and pandas orders key
 * values lexicographically, column by column, strings by code point.
 */
module Keys {
  import opened Wrappers

  /** The identifier columns a key can be built from. */
  datatype Column = Gid2 | PopZone | Year | Month

  /** Position of a column in every key list: district, zone, year, month. */
  function Rank(c: Column): nat {
    match c
    case Gid2 => 0
    case PopZone => 1
    case Year => 2
    case Month => 3
  }

  /** The columns appear in district, zone, year, month order, each at most once. */
  predicate Ordered(cols: seq<Column>) {
    forall i, j :: 0 <= i < j < |cols| ==> Rank(cols[i]) < Rank(cols[j])
  }

  /** The key columns `merge_gb_cols` used for every group-by and merge. */
  function KeyColumns(yearly: bool, popZone: bool): (cols: seq<Column>)
    ensures 2 <= |cols| && cols[0] == Gid2 && Year in cols
    ensures PopZone in cols <==> popZone
    ensures Month in cols <==> !yearly
    ensures cols[|cols| - 1] == (if yearly then Year else Month)
    ensures Ordered(cols)
  {
    if yearly then
      if popZone then [Gid2, PopZone, Year] else [Gid2, Year]
    else
      if popZone then [Gid2, PopZone, Year, Month] else [Gid2, Year, Month]
  }

  /** The columns `gb_cols` that `process_combined` groups by for percent changes. */
  function GroupCols(yearly: bool, popZone: bool): (cols: seq<Column>)
    ensures var key := KeyColumns(yearly, popZone); cols == key[..|key| - 1]
    ensures (if yearly then Year else Month) !in cols
  {
    if yearly then
      if popZone then [Gid2, PopZone] else [Gid2]
    else
      if popZone then [Gid2, PopZone, Year] else [Gid2, Year]
  }

  /** Where an observation sits: district code, population zone, year and month. */
  datatype Coords = Coords(gid2: string, zone: string, year: int, month: int)

  /**
   * A key value.  The district code is part of every key; the other parts are
   * present exactly when their column is in the key list.
   */
  datatype Key = Key(gid2: string, zone: Option<string>, year: Option<int>, month: Option<int>)

  /** The key value of a row: its coordinates restricted to `cols`. */
  function Project(cols: seq<Column>, c: Coords): Key {
    Key(c.gid2,
        if PopZone in cols then Some(c.zone) else None,
        if Year in cols then Some(c.year) else None,
        if Month in cols then Some(c.month) else None)
  }

  /** The key column of any keyed sequence (rows, pairs or groups), in order. */
  function KeysBy<T>(xs: seq<T>, key: T -> Key): (ks: seq<Key>)
    ensures |ks| == |xs| && forall i :: 0 <= i < |xs| ==> ks[i] == key(xs[i])
  {
    seq(|xs|, i requires 0 <= i < |xs| => key(xs[i]))
  }

  /** A key value cut down to fewer columns (used to form the percent-change groups). */
  function Restrict(cols: seq<Column>, k: Key): Key {
    Key(k.gid2,
        if PopZone in cols then k.zone else None,
        if Year in cols then k.year else None,
        if Month in cols then k.month else None)
  }

  /** A key value carries exactly the parts named by `cols`. */
  predicate Shaped(cols: seq<Column>, k: Key) {
    && (k.zone.Some? <==> PopZone in cols)
    && (k.year.Some? <==> Year in cols)
    && (k.month.Some? <==> Month in cols)
  }

  lemma ProjectShaped(cols: seq<Column>, c: Coords)
    ensures Shaped(cols, Project(cols, c))
  {
  }

  // ---------------------------------------------------------------------
  // Ordering of key values (the order of pandas' sorted group-by output)
  // ---------------------------------------------------------------------

  /** Python's string order: code point by code point, a proper prefix first. */
  predicate StrLt(a: string, b: string)
    decreases |a|
  {
    if |a| == 0 then |b| > 0
    else if |b| == 0 then false
    else a[0] < b[0] || (a[0] == b[0] && StrLt(a[1..], b[1..]))
  }

  predicate ZoneLt(a: Option<string>, b: Option<string>) {
    match (a, b)
    case (None, Some(_)) => true
    case (Some(x), Some(y)) => StrLt(x, y)
    case _ => false
  }

  predicate IntLt(a: Option<int>, b: Option<int>) {
    match (a, b)
    case (None, Some(_)) => true
    case (Some(x), Some(y)) => x < y
    case _ => false
  }

  /** Lexicographic order of key values: district, then zone, then year, then month. */
  predicate KeyLt(a: Key, b: Key) {
    || StrLt(a.gid2, b.gid2)
    || (a.gid2 == b.gid2 &&
        (|| ZoneLt(a.zone, b.zone)
         || (a.zone == b.zone &&
             (|| IntLt(a.year, b.year)
              || (a.year == b.year && IntLt(a.month, b.month))))))
  }

  predicate KeyLe(a: Key, b: Key) {
    a == b || KeyLt(a, b)
  }

  /** A key column in strictly ascending order: what `groupby(sort=True)` produces. */
  predicate StrictlySorted(keys: seq<Key>) {
    forall i, j :: 0 <= i < j < |keys| ==> KeyLt(keys[i], keys[j])
  }

  lemma StrLtIrreflexive(a: string)
    ensures !StrLt(a, a)
    decreases |a|
  {
    if |a| > 0 {
      StrLtIrreflexive(a[1..]);
    }
  }

  lemma StrLtTransitive(a: string, b: string, c: string)
    requires StrLt(a, b) && StrLt(b, c)
    ensures StrLt(a, c)
    decreases |a|
  {
    if |a| > 0 && a[0] == b[0] && b[0] == c[0] {
      StrLtTransitive(a[1..], b[1..], c[1..]);
    }
  }

  lemma StrLtTotal(a: string, b: string)
    requires a != b
    ensures StrLt(a, b) || StrLt(b, a)
    decreases |a|
  {
    if |a| > 0 && |b| > 0 && a[0] == b[0] {
      assert a == [a[0]] + a[1..] && b == [b[0]] + b[1..];
      StrLtTotal(a[1..], b[1..]);
    }
  }

  lemma KeyLtIrreflexive(a: Key)
    ensures !KeyLt(a, a)
  {
    StrLtIrreflexive(a.gid2);
    if a.zone.Some? {
      StrLtIrreflexive(a.zone.value);
    }
  }

  lemma KeyLtTransitive(a: Key, b: Key, c: Key)
    requires KeyLt(a, b) && KeyLt(b, c)
    ensures KeyLt(a, c)
  {
    if StrLt(a.gid2, b.gid2) && StrLt(b.gid2, c.gid2) {
      StrLtTransitive(a.gid2, b.gid2, c.gid2);
    }
    if a.zone.Some? && b.zone.Some? && c.zone.Some?
       && StrLt(a.zone.value, b.zone.value) && StrLt(b.zone.value, c.zone.value) {
      StrLtTransitive(a.zone.value, b.zone.value, c.zone.value);
    }
  }

  lemma KeyLtTotal(a: Key, b: Key)
    requires a != b
    ensures KeyLt(a, b) || KeyLt(b, a)
  {
    if a.gid2 != b.gid2 {
      StrLtTotal(a.gid2, b.gid2);
    } else if a.zone != b.zone && a.zone.Some? && b.zone.Some? {
      StrLtTotal(a.zone.value, b.zone.value);
    }
  }

  lemma KeyLtAsymmetric(a: Key, b: Key)
    requires KeyLt(a, b)
    ensures !KeyLt(b, a) && a != b
  {
    KeyLtIrreflexive(a);
    if KeyLt(b, a) {
      KeyLtTransitive(a, b, a);
    }
  }

  /**
   * Rows sorted by the full key are also sorted by the percent-change group
   * columns: the group columns are the key list without its last column.
   */
  lemma {:induction false} RestrictMonotone(yearly: bool, popZone: bool, a: Key, b: Key)
    requires Shaped(KeyColumns(yearly, popZone), a) && Shaped(KeyColumns(yearly, popZone), b)
    requires KeyLt(a, b)
    ensures var g := GroupCols(yearly, popZone); KeyLe(Restrict(g, a), Restrict(g, b))
  {
  }

  /**
   * Within one percent-change group, the key order is the order of the
   * finest time column: years in yearly mode, months of one year in monthly mode.
   */
  lemma {:induction false} GroupTimeOrder(yearly: bool, popZone: bool, a: Key, b: Key)
    requires Shaped(KeyColumns(yearly, popZone), a) && Shaped(KeyColumns(yearly, popZone), b)
    requires var g := GroupCols(yearly, popZone); Restrict(g, a) == Restrict(g, b)
    ensures yearly ==> (KeyLt(a, b) <==> a.year.value < b.year.value)
    ensures !yearly ==> a.year == b.year && (KeyLt(a, b) <==> a.month.value < b.month.value)
  {
    StrLtIrreflexive(a.gid2);
    if a.zone.Some? {
      StrLtIrreflexive(a.zone.value);
    }
  }
}

/**
 * `process_combined`: luminosity smoothing, the sort by the percent-change
 * group columns, one period-over-period change column per measure, and in
 * monthly mode the `YEAR_MONTH` integer.
 */
module Derive {
  import opened Wrappers
  import opened Keys
  import opened Fact

  // ---------------------------------------------------------------------
  // Luminosity smoothing
  // ---------------------------------------------------------------------

  /** `fillna(0)` then `+ 1` on `LUMINOSITY_SUM`; nothing else in the row changes. */
  function SmoothRow(r: FactRow): (s: FactRow)
    ensures s.lum.Some? && s == r.(lum := s.lum)
    ensures r.lum.None? ==> s.lum.value == 1.0
    ensures r.lum.Some? ==> s.lum.value == r.lum.value + 1.0
    ensures (r.lum.None? || r.lum.value >= 0.0) ==> s.lum.value >= 1.0
  {
    r.(lum := Some(r.lum.GetOr(0.0) + 1.0))
  }

  function Smooth(rows: seq<FactRow>): (r: seq<FactRow>)
    ensures |r| == |rows| && forall i :: 0 <= i < |rows| ==> r[i] == SmoothRow(rows[i])
  {
    seq(|rows|, i requires 0 <= i < |rows| => SmoothRow(rows[i]))
  }

  // ---------------------------------------------------------------------
  // sort_values(by=gb_cols)
  // ---------------------------------------------------------------------

  /** The percent-change group of a row: its key cut down to the group columns. */
  function GroupOf(g: seq<Column>, r: FactRow): Key {
    Restrict(g, r.key)
  }

  predicate GroupSorted(rows: seq<FactRow>, g: seq<Column>) {
    forall i :: 0 <= i < |rows| - 1 ==> KeyLe(GroupOf(g, rows[i]), GroupOf(g, rows[i + 1]))
  }

  /** Insert a row before the first row whose group is not below its own. */
  function InsertByGroup(x: FactRow, s: seq<FactRow>, g: seq<Column>): (r: seq<FactRow>)
    requires GroupSorted(s, g)
    ensures GroupSorted(r, g)
    ensures multiset(r) == multiset(s) + multiset{x}
    ensures r != [] && (r[0] == x || (s != [] && r[0] == s[0]))
  {
    if s == [] then [x]
    else if KeyLe(GroupOf(g, x), GroupOf(g, s[0])) then [x] + s
    else
      KeyLtTotal(GroupOf(g, x), GroupOf(g, s[0]));
      var rest := InsertByGroup(x, s[1..], g);
      assert forall i :: 0 <= i < |rest| ==> ([s[0]] + rest)[i + 1] == rest[i];
      assert s == [s[0]] + s[1..];
      [s[0]] + rest
  }

  /** An insertion sort by group: sorted, and a permutation of its input. */
  function SortByGroup(rows: seq<FactRow>, g: seq<Column>): (r: seq<FactRow>)
    ensures GroupSorted(r, g)
    ensures multiset(r) == multiset(rows)
    ensures |r| == |rows|
  {
    if rows == [] then []
    else
      assert rows == [rows[0]] + rows[1..];
      InsertByGroup(rows[0], SortByGroup(rows[1..], g), g)
  }

  /** Rows already in group order are left where they are. */
  lemma {:induction false} SortSortedIsIdentity(rows: seq<FactRow>, g: seq<Column>)
    requires GroupSorted(rows, g)
    ensures SortByGroup(rows, g) == rows
  {
    if rows != [] {
      forall i | 0 <= i < |rows| - 2
        ensures KeyLe(GroupOf(g, rows[1..][i]), GroupOf(g, rows[1..][i + 1]))
      {
        assert rows[1..][i] == rows[i + 1] && rows[1..][i + 1] == rows[i + 2];
      }
      SortSortedIsIdentity(rows[1..], g);
      assert rows == [rows[0]] + rows[1..];
    }
  }

  // ---------------------------------------------------------------------
  // groupby(gb_cols)[column].apply(pd.Series.pct_change)
  // ---------------------------------------------------------------------

  /** The nearest row before `i` whose key falls in group `gk`, if any. */
  function Prev(keys: seq<Key>, g: seq<Column>, gk: Key, i: nat): (r: Option<nat>)
    requires i <= |keys|
    ensures r.Some? ==> r.value < i && Restrict(g, keys[r.value]) == gk
    ensures r.Some? ==> forall j :: r.value < j < i ==> Restrict(g, keys[j]) != gk
    ensures r.None? ==> forall j :: 0 <= j < i ==> Restrict(g, keys[j]) != gk
  {
    if i == 0 then None
    else if Restrict(g, keys[i - 1]) == gk then Some(i - 1)
    else Prev(keys, g, gk, i - 1)
  }

  /**
   * The change from `prev` to `cur`: `100*(cur/prev - 1)` yearly and
   * `(cur/prev - 1) + 1` monthly; missing when either value is missing or the
   * previous value is zero.
   */
  function Change(cur: Option<real>, prev: Option<real>, yearly: bool): (r: Option<real>)
    ensures r.Some? <==> cur.Some? && prev.Some? && prev.value != 0.0
    ensures r.Some? && yearly ==> r.value == 100.0 * (cur.value / prev.value - 1.0)
    ensures r.Some? && !yearly ==> r.value == cur.value / prev.value
  {
    if cur.None? || prev.None? || prev.value == 0.0 then None
    else
      var rel := cur.value / prev.value - 1.0;
      Some(if yearly then 100.0 * rel else rel + 1.0)
  }

  /** The percent change of measure `m` at row `i`, against the previous row of its group. */
  function PctAt(rows: seq<FactRow>, g: seq<Column>, m: Measure, yearly: bool, i: nat): Option<real>
    requires i < |rows|
  {
    match Prev(FactKeys(rows), g, GroupOf(g, rows[i]), i)
    case None => None
    case Some(j) => Change(Get(rows[i], m), Get(rows[j], m), yearly)
  }

  /** The table with the percent-change column of `m` assigned. */
  function WithPct(rows: seq<FactRow>, g: seq<Column>, m: Measure, yearly: bool): (r: seq<FactRow>)
    ensures |r| == |rows|
    ensures forall i :: 0 <= i < |rows| ==> r[i] == SetPct(rows[i], m, PctAt(rows, g, m, yearly, i))
  {
    seq(|rows|, i requires 0 <= i < |rows| => SetPct(rows[i], m, PctAt(rows, g, m, yearly, i)))
  }

  /** What the pass remembers after `i` rows: per group seen so far, the measure in its latest row. */
  ghost predicate LastSeen(last: map<Key, Option<real>>, rows: seq<FactRow>, g: seq<Column>, m: Measure, i: nat)
    requires i <= |rows|
  {
    && (forall gk :: gk in last <==> Prev(FactKeys(rows), g, gk, i).Some?)
    && (forall gk :: gk in last ==> last[gk] == Get(rows[Prev(FactKeys(rows), g, gk, i).value], m))
  }

  /** One row of the pass: its change is read from the memory, then the memory is updated. */
  lemma LastSeenStep(last: map<Key, Option<real>>, rows: seq<FactRow>, g: seq<Column>, m: Measure, yearly: bool, i: nat)
    requires i < |rows| && LastSeen(last, rows, g, m, i)
    ensures LastSeen(last[GroupOf(g, rows[i]) := Get(rows[i], m)], rows, g, m, i + 1)
    ensures PctAt(rows, g, m, yearly, i) ==
              if GroupOf(g, rows[i]) in last then Change(Get(rows[i], m), last[GroupOf(g, rows[i])], yearly) else None
  {
    var keys := FactKeys(rows);
    var gk := GroupOf(g, rows[i]);
    var last' := last[gk := Get(rows[i], m)];
    forall h ensures h in last' <==> Prev(keys, g, h, i + 1).Some? {
      assert Prev(keys, g, h, i + 1) == if Restrict(g, keys[i]) == h then Some(i) else Prev(keys, g, h, i);
    }
    forall h | h in last' ensures last'[h] == Get(rows[Prev(keys, g, h, i + 1).value], m) {
      assert Prev(keys, g, h, i + 1) == if Restrict(g, keys[i]) == h then Some(i) else Prev(keys, g, h, i);
    }
  }

  /**
   * One `df[...PCT_CHANGE] = ...` assignment: a single pass over the frame
   * that remembers, per group, the measure's value in the group's latest row.
   */
  method PctChange(a: array<FactRow>, g: seq<Column>, m: Measure, yearly: bool)
    modifies a
    ensures a[..] == WithPct(old(a[..]), g, m, yearly)
  {
    ghost var rows := a[..];
    PartialEnds(rows, g, m, yearly);
    var last: map<Key, Option<real>> := map[];
    for i := 0 to a.Length
      invariant a.Length == |rows|
      invariant a[..] == Partial(rows, g, m, yearly, i)
      invariant LastSeen(last, rows, g, m, i)
    {
      LastSeenStep(last, rows, g, m, yearly, i);
      PartialStep(rows, g, m, yearly, i);
      var gk := GroupOf(g, a[i]);
      var cur := Get(a[i], m);
      var pct := if gk in last then Change(cur, last[gk], yearly) else None;
      a[i] := SetPct(a[i], m, pct);
      last := last[gk := cur];
    }
  }

  /** The frame part-way through the pass: the first `i` rows done, the rest untouched. */
  ghost function Partial(rows: seq<FactRow>, g: seq<Column>, m: Measure, yearly: bool, i: nat): (r: seq<FactRow>)
    requires i <= |rows|
    ensures |r| == |rows|
    ensures forall k :: 0 <= k < |rows| ==>
              r[k] == if k < i then SetPct(rows[k], m, PctAt(rows, g, m, yearly, k)) else rows[k]
  {
    seq(|rows|, k requires 0 <= k < |rows| =>
      if k < i then SetPct(rows[k], m, PctAt(rows, g, m, yearly, k)) else rows[k])
  }

  lemma PartialEnds(rows: seq<FactRow>, g: seq<Column>, m: Measure, yearly: bool)
    ensures Partial(rows, g, m, yearly, 0) == rows
    ensures Partial(rows, g, m, yearly, |rows|) == WithPct(rows, g, m, yearly)
  {
  }

  lemma PartialStep(rows: seq<FactRow>, g: seq<Column>, m: Measure, yearly: bool, i: nat)
    requires i < |rows|
    ensures Partial(rows, g, m, yearly, i)[i] == rows[i]
    ensures Partial(rows, g, m, yearly, i + 1) ==
              Partial(rows, g, m, yearly, i)[i := SetPct(rows[i], m, PctAt(rows, g, m, yearly, i))]
  {
  }

  /** The measures that get a change column: all five yearly, the first three monthly. */
  function PctMeasures(yearly: bool): seq<Measure> {
    if yearly then [Lum, AvgTemp, MaxTemp, AirPollution, AirAvg] else [Lum, AvgTemp, MaxTemp]
  }

  /** The change columns of `ms` assigned one after another. */
  function PctAll(rows: seq<FactRow>, g: seq<Column>, ms: seq<Measure>, yearly: bool): seq<FactRow> {
    if ms == [] then rows
    else WithPct(PctAll(rows, g, ms[..|ms| - 1], yearly), g, ms[|ms| - 1], yearly)
  }

  /** A change column depends only on the keys and on its own measure column. */
  lemma PctAtSame(a: seq<FactRow>, b: seq<FactRow>, g: seq<Column>, m: Measure, yearly: bool, i: nat)
    requires |a| == |b| && FactKeys(a) == FactKeys(b) && i < |a|
    requires forall k :: 0 <= k < |a| ==> Get(a[k], m) == Get(b[k], m)
    ensures PctAt(a, g, m, yearly, i) == PctAt(b, g, m, yearly, i)
  {
    assert a[i].key == FactKeys(a)[i] == FactKeys(b)[i] == b[i].key;
  }

  /**
   * Row `r` is row `i` of `rows` with the change column of every measure in
   * `ms` computed over `rows`; its key, names, measures and other change
   * columns are those of `rows[i]`.
   */
  predicate PctsFrom(r: FactRow, rows: seq<FactRow>, g: seq<Column>, ms: seq<Measure>, yearly: bool, i: nat)
    requires i < |rows|
  {
    && r.key == rows[i].key && r.place == rows[i].place && r.zoneCode == rows[i].zoneCode
    && (forall m :: Get(r, m) == Get(rows[i], m))
    && (forall m :: m in ms ==> GetPct(r, m) == PctAt(rows, g, m, yearly, i))
    && (forall m :: m !in ms ==> GetPct(r, m) == GetPct(rows[i], m))
  }

  /**
   * Assigning the change columns one after another is the same as computing
   * each over the input table: no assignment sees another's output.
   */
  lemma {:induction false} PctAllSpec(rows: seq<FactRow>, g: seq<Column>, ms: seq<Measure>, yearly: bool)
    ensures |PctAll(rows, g, ms, yearly)| == |rows|
    ensures forall i :: 0 <= i < |rows| ==>
              && PctsFrom(PctAll(rows, g, ms, yearly)[i], rows, g, ms, yearly, i)
              && PctAll(rows, g, ms, yearly)[i].yearMonth == rows[i].yearMonth
  {
    if ms != [] {
      var init := ms[..|ms| - 1];
      var m := ms[|ms| - 1];
      PctAllSpec(rows, g, init, yearly);
      var p := PctAll(rows, g, init, yearly);
      assert FactKeys(p) == FactKeys(rows);
      assert ms == init + [m];
      forall i | 0 <= i < |rows|
        ensures PctsFrom(PctAll(rows, g, ms, yearly)[i], rows, g, ms, yearly, i)
      {
        PctsFromStep(p, rows, g, init, m, yearly, i);
      }
    }
  }

  /** Assigning one more change column over a table whose keys and measures are the input's. */
  lemma PctsFromStep(p: seq<FactRow>, rows: seq<FactRow>, g: seq<Column>, init: seq<Measure>, m: Measure,
                     yearly: bool, i: nat)
    requires |p| == |rows| && i < |rows| && FactKeys(p) == FactKeys(rows)
    requires forall k :: 0 <= k < |rows| ==> Get(p[k], m) == Get(rows[k], m)
    requires PctsFrom(p[i], rows, g, init, yearly, i)
    ensures PctsFrom(WithPct(p, g, m, yearly)[i], rows, g, init + [m], yearly, i)
  {
    PctAtSame(p, rows, g, m, yearly, i);
    assert forall m' :: m' in init + [m] <==> m' in init || m' == m;
  }

  // ---------------------------------------------------------------------
  // YEAR_MONTH
  // ---------------------------------------------------------------------

  /** `YEAR_MONTH`: the year's digits followed by the two-digit month. */
  function YearMonth(year: int, month: int): int {
    year * 100 + month
  }

  /** The model's date check for `pd.to_datetime`: a year and a month in 1..12 are present. */
  predicate DateOk(k: Key) {
    k.year.Some? && k.month.Some? && 1 <= k.month.value <= 12
  }

  /** Assign `YEAR_MONTH` to every row, or raise on the first row whose date is invalid. */
  function WithYearMonth(rows: seq<FactRow>): (r: Result<seq<FactRow>, PipelineError>)
    ensures r.Success? <==> forall i :: 0 <= i < |rows| ==> DateOk(rows[i].key)
    ensures r.Success? ==> |r.value| == |rows| && forall i :: 0 <= i < |rows| ==>
              r.value[i] == rows[i].(yearMonth := Some(YearMonth(rows[i].key.year.value, rows[i].key.month.value)))
    ensures r.Failure? ==>
              exists i :: && 0 <= i < |rows| && !DateOk(rows[i].key)
                          && r.error == DateError(rows[i].key.year.GetOr(0), rows[i].key.month.GetOr(0))
                          && forall j :: 0 <= j < i ==> DateOk(rows[j].key)
  {
    if rows == [] then Success([])
    else
      var k := rows[0].key;
      assert forall i :: 1 <= i < |rows| ==> rows[i] == rows[1..][i - 1];
      if !DateOk(k) then Failure(DateError(k.year.GetOr(0), k.month.GetOr(0)))
      else
        match WithYearMonth(rows[1..])
        case Failure(e) => Failure(e)
        case Success(rest) =>
          Success([rows[0].(yearMonth := Some(YearMonth(k.year.value, k.month.value)))] + rest)
  }

  /** `YEAR_MONTH` can be read back: its last two digits are the month, the rest the year. */
  lemma YearMonthRoundTrip(year: int, month: int)
    requires 1 <= month <= 12
    ensures YearMonth(year, month) / 100 == year && YearMonth(year, month) % 100 == month
  {
  }

  /** `YEAR_MONTH` sorts chronologically. */
  lemma YearMonthOrder(y1: int, m1: int, y2: int, m2: int)
    requires 1 <= m1 <= 12 && 1 <= m2 <= 12
    ensures YearMonth(y1, m1) < YearMonth(y2, m2) <==> (y1 < y2 || (y1 == y2 && m1 < m2))
  {
  }

  // ---------------------------------------------------------------------
  // process_combined
  // ---------------------------------------------------------------------

  /** What `process_combined` returns for a joined frame. */
  function Combined(rows: seq<FactRow>, yearly: bool, popZone: bool): Result<seq<FactRow>, PipelineError> {
    var g := GroupCols(yearly, popZone);
    var p := PctAll(SortByGroup(Smooth(rows), g), g, PctMeasures(yearly), yearly);
    if yearly then Success(p) else WithYearMonth(p)
  }

  /** A fresh frame holding the given rows. */
  method NewFrame(rows: seq<FactRow>) returns (a: array<FactRow>)
    ensures fresh(a) && a[..] == rows
  {
    a := new FactRow[|rows|](i requires 0 <= i < |rows| => rows[i]);
  }

  /**
   * `process_combined(df, yearly, pop_zone)`.  The luminosity smoothing is
   * written into the caller's frame; the sort makes a new frame, and the
   * change columns and `YEAR_MONTH` go into that one.
   */
  method ProcessCombined(df: array<FactRow>, yearly: bool, popZone: bool)
      returns (res: Result<seq<FactRow>, PipelineError>)
    modifies df
    ensures df[..] == Smooth(old(df[..]))
    ensures res == Combined(old(df[..]), yearly, popZone)
  {
    SmoothInPlace(df);
    var g := GroupCols(yearly, popZone);
    var sorted := SortByGroup(df[..], g);
    var out := NewFrame(sorted);
    PctChanges(out, g, PctMeasures(yearly), yearly);
    if yearly {
      res := Success(out[..]);
    } else {
      res := WithYearMonth(out[..]);
    }
  }

  /** `fillna(0)` then `+ 1` on the luminosity column, assigned back into the caller's frame. */
  method SmoothInPlace(df: array<FactRow>)
    modifies df
    ensures df[..] == Smooth(old(df[..]))
  {
    ghost var rows := df[..];
    for i := 0 to df.Length
      invariant forall k :: 0 <= k < i ==> df[k] == SmoothRow(rows[k])
      invariant forall k :: i <= k < df.Length ==> df[k] == rows[k]
    {
      df[i] := SmoothRow(df[i]);
    }
  }

  /** The change-column assignments, one after another, on the sorted frame. */
  method PctChanges(out: array<FactRow>, g: seq<Column>, ms: seq<Measure>, yearly: bool)
    modifies out
    ensures out[..] == PctAll(old(out[..]), g, ms, yearly)
  {
    ghost var sorted := out[..];
    for j := 0 to |ms|
      invariant out[..] == PctAll(sorted, g, ms[..j], yearly)
    {
      assert ms[..j + 1][..j] == ms[..j];
      PctChange(out, g, ms[j], yearly);
    }
    assert ms[..|ms|] == ms;
  }

  /** A row keeps its key through the smoothing, so the sort order of a table is unaffected. */
  lemma SmoothKeepsOrder(rows: seq<FactRow>, g: seq<Column>)
    requires GroupSorted(rows, g)
    ensures GroupSorted(Smooth(rows), g)
  {
    var s := Smooth(rows);
    forall i | 0 <= i < |s| - 1 ensures KeyLe(GroupOf(g, s[i]), GroupOf(g, s[i + 1])) {
      assert s[i].key == rows[i].key && s[i + 1].key == rows[i + 1].key;
    }
  }

  /** The change columns leave every row's key and luminosity as they were. */
  lemma PctAllKeepsKeys(rows: seq<FactRow>, g: seq<Column>, ms: seq<Measure>, yearly: bool)
    ensures var p := PctAll(rows, g, ms, yearly);
      |p| == |rows| && forall i :: 0 <= i < |rows| ==> p[i].key == rows[i].key && p[i].lum == rows[i].lum
  {
    var p := PctAll(rows, g, ms, yearly);
    PctAllSpec(rows, g, ms, yearly);
    forall i | 0 <= i < |rows| ensures p[i].key == rows[i].key && p[i].lum == rows[i].lum {
      assert PctsFrom(p[i], rows, g, ms, yearly, i);
      assert Get(p[i], Lum) == Get(rows[i], Lum);
    }
  }

  /** `process_combined` fails exactly in monthly mode on a table with a row whose date is invalid. */
  lemma CombinedFails(rows: seq<FactRow>, yearly: bool, popZone: bool)
    ensures Combined(rows, yearly, popZone).Success? <==>
              yearly || forall i :: 0 <= i < |rows| ==> DateOk(rows[i].key)
  {
    var g := GroupCols(yearly, popZone);
    var ms := PctMeasures(yearly);
    var sorted := SortByGroup(Smooth(rows), g);
    var p := PctAll(sorted, g, ms, yearly);
    PctAllKeepsKeys(sorted, g, ms, yearly);
    if !yearly {
      if forall i :: 0 <= i < |rows| ==> DateOk(rows[i].key) {
        forall i | 0 <= i < |p| ensures DateOk(p[i].key) {
          var j := SortedOrigin(rows, g, i);
          assert p[i].key == rows[j].key;
        }
      } else {
        var j :| 0 <= j < |rows| && !DateOk(rows[j].key);
        var i := SortedPlace(rows, g, j);
        assert p[i].key == rows[j].key;
      }
    }
  }

  /**
   * A successful `process_combined` returns as many rows as it got, each
   * coming from an input row with the same key and the smoothed luminosity.
   */
  lemma CombinedRows(rows: seq<FactRow>, yearly: bool, popZone: bool)
    requires Combined(rows, yearly, popZone).Success?
    ensures var r := Combined(rows, yearly, popZone).value;
      && |r| == |rows|
      && forall i :: 0 <= i < |r| ==>
           exists j :: 0 <= j < |rows| && r[i].key == rows[j].key && r[i].lum == SmoothRow(rows[j]).lum
  {
    var g := GroupCols(yearly, popZone);
    PctAllKeepsKeys(SortByGroup(Smooth(rows), g), g, PctMeasures(yearly), yearly);
    var r := Combined(rows, yearly, popZone).value;
    forall i | 0 <= i < |r|
      ensures exists j :: 0 <= j < |rows| && r[i].key == rows[j].key && r[i].lum == SmoothRow(rows[j]).lum
    {
      var j := CombinedOrigin(rows, yearly, popZone, i);
    }
  }

  /** The input row an output row of a successful `process_combined` comes from. */
  lemma CombinedOrigin(rows: seq<FactRow>, yearly: bool, popZone: bool, i: nat) returns (j: nat)
    requires Combined(rows, yearly, popZone).Success? && i < |Combined(rows, yearly, popZone).value|
    ensures var r := Combined(rows, yearly, popZone).value;
      j < |rows| && r[i].key == rows[j].key && r[i].lum == SmoothRow(rows[j]).lum
  {
    var g := GroupCols(yearly, popZone);
    var ms := PctMeasures(yearly);
    var sorted := SortByGroup(Smooth(rows), g);
    var p := PctAll(sorted, g, ms, yearly);
    PctAllKeepsKeys(sorted, g, ms, yearly);
    var r := Combined(rows, yearly, popZone).value;
    assert r[i].key == p[i].key && r[i].lum == p[i].lum;
    j := SortedOrigin(rows, g, i);
  }

  /** The input row a row of the sorted table is, smoothed. */
  lemma SortedOrigin(rows: seq<FactRow>, g: seq<Column>, i: nat) returns (j: nat)
    requires i < |SortByGroup(Smooth(rows), g)|
    ensures j < |rows| && SortByGroup(Smooth(rows), g)[i] == SmoothRow(rows[j])
  {
    var sm := Smooth(rows);
    SortedFromRows(rows, g);
    j :| 0 <= j < |sm| && sm[j] == SortByGroup(sm, g)[i];
  }

  /** Where the sort puts a smoothed input row. */
  lemma SortedPlace(rows: seq<FactRow>, g: seq<Column>, j: nat) returns (i: nat)
    requires j < |rows|
    ensures i < |SortByGroup(Smooth(rows), g)| && SortByGroup(Smooth(rows), g)[i] == SmoothRow(rows[j])
  {
    var sm := Smooth(rows);
    SortedFromRows(rows, g);
    assert sm[j] in SortByGroup(sm, g);
    i :| 0 <= i < |SortByGroup(sm, g)| && SortByGroup(sm, g)[i] == sm[j];
  }

  /** The sorted table holds the smoothed input rows and nothing else. */
  lemma SortedFromRows(rows: seq<FactRow>, g: seq<Column>)
    ensures var sorted := SortByGroup(Smooth(rows), g);
      && (forall i :: 0 <= i < |sorted| ==> sorted[i] in Smooth(rows))
      && (forall j :: 0 <= j < |rows| ==> Smooth(rows)[j] in sorted)
  {
    var sm := Smooth(rows);
    var sorted := SortByGroup(sm, g);
    SameElements(sorted, sm);
    SameElements(sm, sorted);
  }

  lemma SameElements<T>(a: seq<T>, b: seq<T>)
    requires multiset(a) == multiset(b)
    ensures forall i :: 0 <= i < |a| ==> a[i] in b
  {
    forall i | 0 <= i < |a| ensures a[i] in b {
      assert a[i] in multiset(a);
    }
  }

  /** The sort can be skipped on a table already in group order. */
  lemma CombinedSkipsSort(rows: seq<FactRow>, yearly: bool, popZone: bool)
    requires GroupSorted(rows, GroupCols(yearly, popZone))
    ensures var g := GroupCols(yearly, popZone);
      var p := PctAll(Smooth(rows), g, PctMeasures(yearly), yearly);
      Combined(rows, yearly, popZone) == if yearly then Success(p) else WithYearMonth(p)
  {
    var g := GroupCols(yearly, popZone);
    SmoothKeepsOrder(rows, g);
    SortSortedIsIdentity(Smooth(rows), g);
  }

  /**
   * On a table already in group order (the joined table is), the output is
   * row for row the smoothed input with the change columns computed over the
   * smoothed input, and in monthly mode `YEAR_MONTH` assigned.
   */
  lemma CombinedOnSorted(rows: seq<FactRow>, yearly: bool, popZone: bool)
    requires GroupSorted(rows, GroupCols(yearly, popZone))
    requires !yearly ==> forall i :: 0 <= i < |rows| ==> DateOk(rows[i].key)
    ensures var r := Combined(rows, yearly, popZone);
      && r.Success? && |r.value| == |rows|
      && forall i :: 0 <= i < |rows| ==>
           && PctsFrom(r.value[i], Smooth(rows), GroupCols(yearly, popZone), PctMeasures(yearly), yearly, i)
           && r.value[i].yearMonth ==
                if yearly then rows[i].yearMonth
                else Some(YearMonth(rows[i].key.year.value, rows[i].key.month.value))
  {
    var g := GroupCols(yearly, popZone);
    var ms := PctMeasures(yearly);
    var sm := Smooth(rows);
    CombinedSkipsSort(rows, yearly, popZone);
    PctAllSpec(sm, g, ms, yearly);
    PctsKeepKeys(rows, PctAll(sm, g, ms, yearly), g, ms, yearly);
    if !yearly {
      YearMonthKeepsPcts(PctAll(sm, g, ms, yearly), sm, g, ms, yearly);
    }
  }

  lemma PctsKeepKeys(rows: seq<FactRow>, p: seq<FactRow>, g: seq<Column>, ms: seq<Measure>, yearly: bool)
    requires |p| == |rows| && forall i :: 0 <= i < |rows| ==> PctsFrom(p[i], Smooth(rows), g, ms, yearly, i)
    ensures forall i :: 0 <= i < |rows| ==> p[i].key == rows[i].key
  {
    forall i | 0 <= i < |rows| ensures p[i].key == rows[i].key {
      assert PctsFrom(p[i], Smooth(rows), g, ms, yearly, i);
    }
  }

  /** Assigning `YEAR_MONTH` leaves the change columns as they were. */
  lemma YearMonthKeepsPcts(p: seq<FactRow>, sm: seq<FactRow>, g: seq<Column>, ms: seq<Measure>, yearly: bool)
    requires |p| == |sm| && forall i :: 0 <= i < |p| ==> PctsFrom(p[i], sm, g, ms, yearly, i)
    requires forall i :: 0 <= i < |p| ==> DateOk(p[i].key)
    ensures WithYearMonth(p).Success?
    ensures forall i :: 0 <= i < |p| ==> PctsFrom(WithYearMonth(p).value[i], sm, g, ms, yearly, i)
  {
    var r := WithYearMonth(p);
    forall i | 0 <= i < |p|
      ensures PctsFrom(r.value[i], sm, g, ms, yearly, i)
    {
      PctsFromYearMonth(p[i], sm, g, ms, yearly, i, r.value[i].yearMonth);
    }
  }

  lemma PctsFromYearMonth(r: FactRow, rows: seq<FactRow>, g: seq<Column>, ms: seq<Measure>, yearly: bool, i: nat, y: Option<int>)
    requires i < |rows| && PctsFrom(r, rows, g, ms, yearly, i)
    ensures PctsFrom(r.(yearMonth := y), rows, g, ms, yearly, i)
  {
    var r' := r.(yearMonth := y);
    assert forall m :: Get(r', m) == Get(r, m) && GetPct(r', m) == GetPct(r, m);
  }
}

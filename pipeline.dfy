/**
 * `process_data`: normalise the five raw tables, aggregate each by the
 * composite key, left-join the measure tables onto the luminosity aggregate,
 * derive the smoothed luminosity, change columns and `YEAR_MONTH`, and
 * encode the zone label.
 */
module Pipeline {
  import opened Wrappers
  import opened Keys
  import opened Normalise
  import opened Fact
  import opened Aggregate
  import opened Join
  import opened Derive

  // ---------------------------------------------------------------------
  // POP_ZONE_ENCODE
  // ---------------------------------------------------------------------

  /** `replace({'urban': 1, 'rural': 0})`: two labels become numbers, every other label stays. */
  function EncodeZone(z: string): (c: ZoneCode)
    ensures c == Code(1) <==> z == "urban"
    ensures c == Code(0) <==> z == "rural"
    ensures c.Label? <==> z != "urban" && z != "rural"
    ensures DecodeZone(c) == z
  {
    if z == "urban" then Code(1) else if z == "rural" then Code(0) else Label(z)
  }

  /** Reads an encoded zone back as its label. */
  function DecodeZone(c: ZoneCode): string {
    match c
    case Code(n) => if n == 1 then "urban" else "rural"
    case Label(s) => s
  }

  /** A missing zone stays missing. */
  function EncodeCell(z: Option<string>): Option<ZoneCode> {
    match z
    case None => None
    case Some(s) => Some(EncodeZone(s))
  }

  /** The `POP_ZONE_ENCODE` column assigned from `POP_ZONE`; nothing else changes. */
  function EncodeZones(rows: seq<FactRow>): (r: seq<FactRow>)
    ensures |r| == |rows|
    ensures forall i :: 0 <= i < |rows| ==> r[i] == rows[i].(zoneCode := r[i].zoneCode)
    ensures forall i :: 0 <= i < |rows| ==> (r[i].zoneCode.None? <==> rows[i].key.zone.None?)
    ensures forall i :: 0 <= i < |rows| && rows[i].key.zone == Some("urban") ==> r[i].zoneCode == Some(Code(1))
    ensures forall i :: 0 <= i < |rows| && rows[i].key.zone == Some("rural") ==> r[i].zoneCode == Some(Code(0))
    ensures forall i :: 0 <= i < |rows| && rows[i].key.zone.Some? ==>
              (rows[i].key.zone.value !in {"urban", "rural"} ==> r[i].zoneCode == Some(Label(rows[i].key.zone.value)))
  {
    seq(|rows|, i requires 0 <= i < |rows| => rows[i].(zoneCode := EncodeCell(rows[i].key.zone)))
  }

  // ---------------------------------------------------------------------
  // process_data
  // ---------------------------------------------------------------------

  /** `df_list`: the temperature aggregates, then in yearly mode the two air-pollution aggregates. */
  function Tables(avgObs: seq<Obs>, maxObs: seq<Obs>, air: seq<Obs>, airAvg: seq<Obs>,
                  cols: seq<Column>, yearly: bool): (ts: seq<Table>)
    ensures Columns(ts) == if yearly then [AvgTemp, MaxTemp, AirPollution, AirAvg] else [AvgTemp, MaxTemp]
  {
    var temps := [(AvgTemp, AggregateObs(avgObs, cols, MeanOf)), (MaxTemp, AggregateObs(maxObs, cols, MaxOf))];
    if yearly then
      temps + [(AirPollution, AggregateObs(ProcessAir(air), cols, SumOf)),
               (AirAvg, AggregateObs(ProcessAir(airAvg), cols, MeanOf))]
    else temps
  }

  /** The joined frame handed to `process_combined`. */
  function Joined(bm: seq<LumiRow>, avgObs: seq<Obs>, maxObs: seq<Obs>, air: seq<Obs>, airAvg: seq<Obs>,
                  yearly: bool, popZone: bool): seq<FactRow>
  {
    var cols := KeyColumns(yearly, popZone);
    FoldMerge(AggregateLumi(ProcessLumi(bm), cols), Tables(avgObs, maxObs, air, airAvg, cols, yearly))
  }

  /**
   * What `process_data` returns.  An unparsable month in the average, then
   * in the maximum temperature table, then an invalid date in monthly mode
   * are the errors it can raise, in that order.
   */
  function FactTable(bm: seq<LumiRow>, avg: seq<RawTemp>, max: seq<RawTemp>, air: seq<Obs>, airAvg: seq<Obs>,
                     yearly: bool, popZone: bool): Result<seq<FactRow>, PipelineError>
  {
    match ProcessTemp(avg)
    case Failure(e) => Failure(e)
    case Success(avgObs) =>
      match ProcessTemp(max)
      case Failure(e) => Failure(e)
      case Success(maxObs) =>
        match Combined(Joined(bm, avgObs, maxObs, air, airAvg, yearly, popZone), yearly, popZone)
        case Failure(e) => Failure(e)
        case Success(fin) => Success(if popZone then EncodeZones(fin) else fin)
  }

  /** `process_data(bm, avg_temp, max_temp, air, air_avg, yearly, pop_zone)`. */
  method ProcessData(bm: seq<LumiRow>, avg: seq<RawTemp>, max: seq<RawTemp>, air: seq<Obs>, airAvg: seq<Obs>,
                     yearly: bool, popZone: bool) returns (r: Result<seq<FactRow>, PipelineError>)
    ensures r == FactTable(bm, avg, max, air, airAvg, yearly, popZone)
  {
    var lumi := ProcessLumi(bm);
    var avgRes := ProcessTemp(avg);
    if avgRes.Failure? {
      return Failure(avgRes.error);
    }
    var maxRes := ProcessTemp(max);
    if maxRes.Failure? {
      return Failure(maxRes.error);
    }
    var cols := KeyColumns(yearly, popZone);
    var base := AggregateLumi(lumi, cols);
    var tables := Tables(avgRes.value, maxRes.value, air, airAvg, cols, yearly);
    var df := JoinAll(base, tables);
    var frame := NewFrame(df);
    var fin := ProcessCombined(frame, yearly, popZone);
    if fin.Failure? {
      return Failure(fin.error);
    }
    r := Success(if popZone then EncodeZones(fin.value) else fin.value);
  }

  // ---------------------------------------------------------------------
  // The joined frame
  // ---------------------------------------------------------------------

  /** Group-by output never repeats a key. */
  lemma AggregateObsUnique(rows: seq<Obs>, cols: seq<Column>, red: Reducer)
    ensures UniqueKeys(AggregateObs(rows, cols, red))
  {
    var r := AggregateObs(rows, cols, red);
    AggregateObsSpec(rows, cols, red);
    forall i, j | 0 <= i < j < |r| ensures r[i].0 != r[j].0 {
      KeyLtAsymmetric(r[i].0, r[j].0);
    }
  }

  /** Every right table of the join has unique keys, and each brings its own column. */
  lemma TablesUnique(avgObs: seq<Obs>, maxObs: seq<Obs>, air: seq<Obs>, airAvg: seq<Obs>, cols: seq<Column>, yearly: bool)
    ensures AllUnique(Tables(avgObs, maxObs, air, airAvg, cols, yearly))
    ensures DistinctColumns(Tables(avgObs, maxObs, air, airAvg, cols, yearly))
    ensures Lum !in Columns(Tables(avgObs, maxObs, air, airAvg, cols, yearly))
    ensures !yearly ==> var cs := Columns(Tables(avgObs, maxObs, air, airAvg, cols, yearly));
      AirPollution !in cs && AirAvg !in cs
  {
    var ts := Tables(avgObs, maxObs, air, airAvg, cols, yearly);
    AggregateObsUnique(avgObs, cols, MeanOf);
    AggregateObsUnique(maxObs, cols, MaxOf);
    AggregateObsUnique(ProcessAir(air), cols, SumOf);
    AggregateObsUnique(ProcessAir(airAvg), cols, MeanOf);
    forall i, j | 0 <= i < j < |ts| ensures ts[i].0 != ts[j].0 {
      assert ts[i].0 == Columns(ts)[i] && ts[j].0 == Columns(ts)[j];
    }
  }

  /** The luminosity aggregate's keys are strictly ascending and carry exactly the key columns. */
  lemma BaseKeys(lumi: seq<LumiRow>, yearly: bool, popZone: bool)
    ensures var cols := KeyColumns(yearly, popZone);
      var base := AggregateLumi(lumi, cols);
      && StrictlySorted(FactKeys(base))
      && (forall i :: 0 <= i < |base| ==> Shaped(cols, base[i].key))
  {
    var cols := KeyColumns(yearly, popZone);
    var kv := LumiKeyed(lumi, cols);
    var base := AggregateLumi(lumi, cols);
    AggregateLumiSpec(lumi, cols);
    forall i | 0 <= i < |base| ensures Shaped(cols, base[i].key) {
      assert base[i].key in FactKeys(base);
      var j :| 0 <= j < |kv| && KeysOf(kv)[j] == base[i].key;
      ProjectShaped(cols, lumi[j].at);
    }
  }

  /** With non-negative raw luminosity every aggregated luminosity is present and non-negative. */
  lemma BaseLumNonNegative(lumi: seq<LumiRow>, cols: seq<Column>)
    requires forall j :: 0 <= j < |lumi| ==> lumi[j].lum >= 0.0
    ensures var base := AggregateLumi(lumi, cols);
      forall i :: 0 <= i < |base| ==> base[i].lum.Some? && base[i].lum.value >= 0.0
  {
    var kv := LumiKeyed(lumi, cols);
    var base := AggregateLumi(lumi, cols);
    AggregateLumiSpec(lumi, cols);
    forall i | 0 <= i < |base| ensures base[i].lum.Some? && base[i].lum.value >= 0.0 {
      var grp := Select(kv, base[i].key);
      SelectNonNegative(kv, base[i].key);
      SumNonNegative(Lums(grp));
    }
  }

  /** A group of rows with non-negative luminosity has non-negative luminosity. */
  lemma {:induction false} SelectNonNegative(kv: seq<(Key, LumiRow)>, k: Key)
    requires forall j :: 0 <= j < |kv| ==> kv[j].1.lum >= 0.0
    ensures forall x :: 0 <= x < |Select(kv, k)| ==> Lums(Select(kv, k))[x] >= 0.0
  {
    if kv != [] {
      var init := kv[..|kv| - 1];
      assert forall j :: 0 <= j < |init| ==> init[j] == kv[j];
      SelectNonNegative(init, k);
      var g := Select(kv, k);
      var h := Select(init, k);
      forall x | 0 <= x < |g| ensures Lums(g)[x] >= 0.0 {
        if x < |h| {
          assert g[x] == h[x] && Lums(h)[x] == h[x].lum;
        } else {
          assert g[x] == kv[|kv| - 1].1;
        }
      }
    }
  }

  /** Strictly ascending keys of the key shape are in percent-change group order. */
  lemma GroupOrderFromKeys(rows: seq<FactRow>, yearly: bool, popZone: bool)
    requires StrictlySorted(FactKeys(rows))
    requires forall i :: 0 <= i < |rows| ==> Shaped(KeyColumns(yearly, popZone), rows[i].key)
    ensures GroupSorted(rows, GroupCols(yearly, popZone))
  {
    forall i | 0 <= i < |rows| - 1
      ensures KeyLe(GroupOf(GroupCols(yearly, popZone), rows[i]), GroupOf(GroupCols(yearly, popZone), rows[i + 1]))
    {
      assert KeyLt(FactKeys(rows)[i], FactKeys(rows)[i + 1]);
      RestrictMonotone(yearly, popZone, rows[i].key, rows[i + 1].key);
    }
  }

  /**
   * The joined frame is the luminosity aggregate row for row: same keys,
   * names and luminosity, with the measure column of every right table set to
   * that table's value for the row's key.
   */
  lemma JoinedSpec(bm: seq<LumiRow>, avgObs: seq<Obs>, maxObs: seq<Obs>, air: seq<Obs>, airAvg: seq<Obs>,
                   yearly: bool, popZone: bool)
    ensures var cols := KeyColumns(yearly, popZone);
      var base := AggregateLumi(ProcessLumi(bm), cols);
      var ts := Tables(avgObs, maxObs, air, airAvg, cols, yearly);
      var df := Joined(bm, avgObs, maxObs, air, airAvg, yearly, popZone);
      && |df| == |base|
      && forall i :: 0 <= i < |df| ==> JoinedRow(df[i], base[i], ts, yearly)
  {
    var cols := KeyColumns(yearly, popZone);
    var base := AggregateLumi(ProcessLumi(bm), cols);
    var ts := Tables(avgObs, maxObs, air, airAvg, cols, yearly);
    TablesUnique(avgObs, maxObs, air, airAvg, cols, yearly);
    FoldMergeUnique(base, ts);
    FillRows(base, ts, yearly);
  }

  lemma FillRows(base: seq<FactRow>, ts: seq<Table>, yearly: bool)
    requires DistinctColumns(ts) && Lum !in Columns(ts)
    requires !yearly ==> AirPollution !in Columns(ts) && AirAvg !in Columns(ts)
    ensures forall i :: 0 <= i < |base| ==> JoinedRow(FillAll(base, ts)[i], base[i], ts, yearly)
  {
    var df := FillAll(base, ts);
    forall i | 0 <= i < |base| ensures JoinedRow(df[i], base[i], ts, yearly) {
      FillRow(base[i], ts, yearly);
    }
  }

  /**
   * A joined row: the base row's key, names and luminosity, each right table's
   * value for the key in that table's column, and nothing else set yet.
   */
  predicate JoinedRow(r: FactRow, b: FactRow, ts: seq<Table>, yearly: bool) {
    && r.key == b.key && r.place == b.place && r.lum == b.lum
    && (forall j :: 0 <= j < |ts| ==> Get(r, ts[j].0) == Lookup(ts[j].1, r.key))
    && (!yearly ==> r.air == b.air && r.airAvg == b.airAvg)
    && (forall m :: GetPct(r, m) == GetPct(b, m)) && r.yearMonth == b.yearMonth && r.zoneCode == b.zoneCode
  }

  lemma FillRow(b: FactRow, ts: seq<Table>, yearly: bool)
    requires DistinctColumns(ts) && Lum !in Columns(ts)
    requires !yearly ==> AirPollution !in Columns(ts) && AirAvg !in Columns(ts)
    ensures JoinedRow(Fill(b, ts), b, ts, yearly)
  {
    var r := Fill(b, ts);
    assert Get(r, Lum) == Get(b, Lum);
    forall j | 0 <= j < |ts| ensures Get(r, ts[j].0) == Lookup(ts[j].1, r.key) {
      FillGet(b, ts, j);
    }
    if !yearly {
      assert Get(r, AirPollution) == Get(b, AirPollution);
      assert Get(r, AirAvg) == Get(b, AirAvg);
    }
  }

  /** The joined frame is in key order, and so in group order, whatever the flags. */
  lemma JoinedSorted(bm: seq<LumiRow>, avgObs: seq<Obs>, maxObs: seq<Obs>, air: seq<Obs>, airAvg: seq<Obs>,
                     yearly: bool, popZone: bool)
    ensures var df := Joined(bm, avgObs, maxObs, air, airAvg, yearly, popZone);
      && StrictlySorted(FactKeys(df))
      && (forall i :: 0 <= i < |df| ==> Shaped(KeyColumns(yearly, popZone), df[i].key))
      && GroupSorted(df, GroupCols(yearly, popZone))
  {
    var cols := KeyColumns(yearly, popZone);
    var base := AggregateLumi(ProcessLumi(bm), cols);
    var df := Joined(bm, avgObs, maxObs, air, airAvg, yearly, popZone);
    JoinedSpec(bm, avgObs, maxObs, air, airAvg, yearly, popZone);
    BaseKeys(ProcessLumi(bm), yearly, popZone);
    assert FactKeys(df) == FactKeys(base);
    GroupOrderFromKeys(df, yearly, popZone);
  }

  /** Each luminosity aggregate row is a base row: luminosity set, every other column missing. */
  lemma BaseRows(lumi: seq<LumiRow>, cols: seq<Column>)
    ensures var base := AggregateLumi(lumi, cols);
      forall i :: 0 <= i < |base| ==> base[i].lum.Some? && base[i] == BaseRow(base[i].key, base[i].place, base[i].lum.value)
  {
  }

  // ---------------------------------------------------------------------
  // The fact table
  // ---------------------------------------------------------------------

  /**
   * Row `r` of the fact table against row `i` of the joined frame `df`: same
   * key, names and measures except the smoothed luminosity; each change column
   * computed over the smoothed frame (missing for measures without one);
   * `YEAR_MONTH` in monthly mode; the zone code when `pop_zone`.
   */
  predicate OutRow(r: FactRow, df: seq<FactRow>, i: nat, yearly: bool, popZone: bool)
    requires i < |df|
  {
    && r.key == df[i].key && r.place == df[i].place
    && r.lum == SmoothRow(df[i]).lum
    && (forall m :: m != Lum ==> Get(r, m) == Get(df[i], m))
    && (forall m :: GetPct(r, m) ==
          if m in PctMeasures(yearly) then PctAt(Smooth(df), GroupCols(yearly, popZone), m, yearly, i) else None)
    && r.yearMonth == (if yearly then None else Some(YearMonth(df[i].key.year.GetOr(0), df[i].key.month.GetOr(0))))
    && r.zoneCode == (if popZone then EncodeCell(df[i].key.zone) else None)
  }

  lemma OutRowStep(c: FactRow, r: FactRow, df: seq<FactRow>, i: nat, yearly: bool, popZone: bool)
    requires i < |df|
    requires PctsFrom(c, Smooth(df), GroupCols(yearly, popZone), PctMeasures(yearly), yearly, i)
    requires c.yearMonth == if yearly then df[i].yearMonth else Some(YearMonth(df[i].key.year.GetOr(0), df[i].key.month.GetOr(0)))
    requires (forall m :: GetPct(df[i], m) == None) && df[i].yearMonth == None && df[i].zoneCode == None
    requires r == if popZone then c.(zoneCode := EncodeCell(c.key.zone)) else c
    ensures OutRow(r, df, i, yearly, popZone)
  {
    var sm := Smooth(df);
    assert sm[i] == SmoothRow(df[i]);
    assert forall m :: Get(r, m) == Get(c, m) && GetPct(r, m) == GetPct(c, m);
    assert forall m :: m != Lum ==> Get(sm[i], m) == Get(df[i], m);
    assert Get(r, Lum) == Get(sm[i], Lum);
    assert forall m :: GetPct(sm[i], m) == GetPct(df[i], m);
  }

  /**
   * A successful run returns one row per row of the joined frame, in its
   * order, each as `OutRow` describes.
   */
  lemma FactTableOut(bm: seq<LumiRow>, avg: seq<RawTemp>, max: seq<RawTemp>, air: seq<Obs>, airAvg: seq<Obs>,
                     yearly: bool, popZone: bool)
    requires FactTable(bm, avg, max, air, airAvg, yearly, popZone).Success?
    ensures ProcessTemp(avg).Success? && ProcessTemp(max).Success?
    ensures var df := Joined(bm, ProcessTemp(avg).value, ProcessTemp(max).value, air, airAvg, yearly, popZone);
      var r := FactTable(bm, avg, max, air, airAvg, yearly, popZone).value;
      && |r| == |df|
      && forall i :: 0 <= i < |r| ==> OutRow(r[i], df, i, yearly, popZone)
  {
    var avgObs := ProcessTemp(avg).value;
    var maxObs := ProcessTemp(max).value;
    var df := Joined(bm, avgObs, maxObs, air, airAvg, yearly, popZone);
    JoinedSorted(bm, avgObs, maxObs, air, airAvg, yearly, popZone);
    JoinedBlank(bm, avgObs, maxObs, air, airAvg, yearly, popZone);
    assert Combined(df, yearly, popZone).Success?;
    CombinedFails(df, yearly, popZone);
    CombinedOut(df, yearly, popZone);
  }

  /** A row none of whose derived columns is set yet. */
  predicate Blank(x: FactRow) {
    (forall m :: GetPct(x, m) == None) && x.yearMonth == None && x.zoneCode == None
  }

  lemma JoinedBlank(bm: seq<LumiRow>, avgObs: seq<Obs>, maxObs: seq<Obs>, air: seq<Obs>, airAvg: seq<Obs>,
                    yearly: bool, popZone: bool)
    ensures var df := Joined(bm, avgObs, maxObs, air, airAvg, yearly, popZone);
      forall i :: 0 <= i < |df| ==> Blank(df[i])
  {
    var cols := KeyColumns(yearly, popZone);
    var base := AggregateLumi(ProcessLumi(bm), cols);
    var ts := Tables(avgObs, maxObs, air, airAvg, cols, yearly);
    var df := Joined(bm, avgObs, maxObs, air, airAvg, yearly, popZone);
    JoinedSpec(bm, avgObs, maxObs, air, airAvg, yearly, popZone);
    BaseRows(ProcessLumi(bm), cols);
    forall i | 0 <= i < |df| ensures Blank(df[i]) {
      assert JoinedRow(df[i], base[i], ts, yearly);
      assert forall m :: GetPct(base[i], m) == None;
    }
  }

  /** `process_combined` and the zone encoding on a group-sorted frame of blank rows. */
  lemma CombinedOut(df: seq<FactRow>, yearly: bool, popZone: bool)
    requires GroupSorted(df, GroupCols(yearly, popZone))
    requires !yearly ==> forall i :: 0 <= i < |df| ==> DateOk(df[i].key)
    requires forall i :: 0 <= i < |df| ==> Blank(df[i])
    ensures Combined(df, yearly, popZone).Success?
    ensures var c := Combined(df, yearly, popZone).value;
      var r := if popZone then EncodeZones(c) else c;
      && |r| == |df|
      && forall i :: 0 <= i < |r| ==> OutRow(r[i], df, i, yearly, popZone)
  {
    CombinedOnSorted(df, yearly, popZone);
    var c := Combined(df, yearly, popZone).value;
    var r := if popZone then EncodeZones(c) else c;
    forall i | 0 <= i < |r| ensures OutRow(r[i], df, i, yearly, popZone) {
      OutRowStep(c[i], r[i], df, i, yearly, popZone);
    }
  }

  // ---------------------------------------------------------------------
  // What the fact table holds
  // ---------------------------------------------------------------------

  /** The aggregate's keys are exactly the keys of the luminosity rows. */
  lemma BaseKeySet(lumi: seq<LumiRow>, cols: seq<Column>)
    ensures forall k :: k in FactKeys(AggregateLumi(lumi, cols)) <==> k in KeysOf(LumiKeyed(lumi, cols))
  {
    AggregateLumiSpec(lumi, cols);
  }

  /** The luminosity row an aggregate key comes from. */
  lemma BaseKeyOrigin(lumi: seq<LumiRow>, cols: seq<Column>, i: nat) returns (j: nat)
    requires i < |AggregateLumi(lumi, cols)|
    ensures j < |lumi| && AggregateLumi(lumi, cols)[i].key == Project(cols, lumi[j].at)
  {
    var kv := LumiKeyed(lumi, cols);
    var base := AggregateLumi(lumi, cols);
    BaseKeySet(lumi, cols);
    assert FactKeys(base)[i] == base[i].key;
    assert base[i].key in KeysOf(kv);
    j :| 0 <= j < |kv| && KeysOf(kv)[j] == base[i].key;
  }

  /** The aggregate row a luminosity row's key lands in. */
  lemma BaseKeyPlace(lumi: seq<LumiRow>, cols: seq<Column>, j: nat) returns (i: nat)
    requires j < |lumi|
    ensures i < |AggregateLumi(lumi, cols)| && AggregateLumi(lumi, cols)[i].key == Project(cols, lumi[j].at)
  {
    var kv := LumiKeyed(lumi, cols);
    var base := AggregateLumi(lumi, cols);
    BaseKeySet(lumi, cols);
    assert KeysOf(kv)[j] == Project(cols, lumi[j].at);
    assert Project(cols, lumi[j].at) in FactKeys(base);
    i :| 0 <= i < |base| && FactKeys(base)[i] == Project(cols, lumi[j].at);
  }

  /** The monthly key of a luminosity row is a valid date exactly when its month is in 1..12. */
  lemma MonthlyKeysOk(lumi: seq<LumiRow>, popZone: bool)
    ensures var base := AggregateLumi(lumi, KeyColumns(false, popZone));
      (forall i :: 0 <= i < |base| ==> DateOk(base[i].key)) <==>
      (forall j :: 0 <= j < |lumi| ==> 1 <= lumi[j].at.month <= 12)
  {
    var cols := KeyColumns(false, popZone);
    var base := AggregateLumi(lumi, cols);
    if forall i :: 0 <= i < |base| ==> DateOk(base[i].key) {
      forall j | 0 <= j < |lumi| ensures 1 <= lumi[j].at.month <= 12 {
        var i := BaseKeyPlace(lumi, cols, j);
        assert DateOk(base[i].key);
      }
    }
    if forall j :: 0 <= j < |lumi| ==> 1 <= lumi[j].at.month <= 12 {
      forall i | 0 <= i < |base| ensures DateOk(base[i].key) {
        var j := BaseKeyOrigin(lumi, cols, i);
      }
    }
  }

  /**
   * `process_data` succeeds exactly when every month name in the kept rows
   * of both temperature tables parses and, in monthly mode, every kept
   * luminosity row has a month in 1..12.
   */
  lemma FactTableFails(bm: seq<LumiRow>, avg: seq<RawTemp>, max: seq<RawTemp>, air: seq<Obs>, airAvg: seq<Obs>,
                       yearly: bool, popZone: bool)
    ensures FactTable(bm, avg, max, air, airAvg, yearly, popZone).Success? <==>
      && ProcessTemp(avg).Success? && ProcessTemp(max).Success?
      && (yearly || forall j :: 0 <= j < |ProcessLumi(bm)| ==> 1 <= ProcessLumi(bm)[j].at.month <= 12)
  {
    if ProcessTemp(avg).Success? && ProcessTemp(max).Success? {
      var avgObs := ProcessTemp(avg).value;
      var maxObs := ProcessTemp(max).value;
      var df := Joined(bm, avgObs, maxObs, air, airAvg, yearly, popZone);
      assert FactTable(bm, avg, max, air, airAvg, yearly, popZone).Success? <==> Combined(df, yearly, popZone).Success?;
      CombinedFails(df, yearly, popZone);
      if !yearly {
        JoinedDates(bm, avgObs, maxObs, air, airAvg, popZone);
      }
    }
  }

  /** In monthly mode, every joined key is a valid date iff every luminosity month is in 1..12. */
  lemma JoinedDates(bm: seq<LumiRow>, avgObs: seq<Obs>, maxObs: seq<Obs>, air: seq<Obs>, airAvg: seq<Obs>,
                    popZone: bool)
    ensures var df := Joined(bm, avgObs, maxObs, air, airAvg, false, popZone);
      (forall i :: 0 <= i < |df| ==> DateOk(df[i].key)) <==>
      (forall j :: 0 <= j < |ProcessLumi(bm)| ==> 1 <= ProcessLumi(bm)[j].at.month <= 12)
  {
    var df := Joined(bm, avgObs, maxObs, air, airAvg, false, popZone);
    var base := AggregateLumi(ProcessLumi(bm), KeyColumns(false, popZone));
    JoinedKeys(bm, avgObs, maxObs, air, airAvg, false, popZone);
    MonthlyKeysOk(ProcessLumi(bm), popZone);
    assert (forall i :: 0 <= i < |df| ==> DateOk(df[i].key)) <==> (forall i :: 0 <= i < |base| ==> DateOk(base[i].key));
  }

  /** The join keeps the luminosity aggregate's keys, row for row. */
  lemma JoinedKeys(bm: seq<LumiRow>, avgObs: seq<Obs>, maxObs: seq<Obs>, air: seq<Obs>, airAvg: seq<Obs>,
                   yearly: bool, popZone: bool)
    ensures var base := AggregateLumi(ProcessLumi(bm), KeyColumns(yearly, popZone));
      var df := Joined(bm, avgObs, maxObs, air, airAvg, yearly, popZone);
      |df| == |base| && forall i :: 0 <= i < |df| ==> df[i].key == base[i].key
  {
    var cols := KeyColumns(yearly, popZone);
    var base := AggregateLumi(ProcessLumi(bm), cols);
    var ts := Tables(avgObs, maxObs, air, airAvg, cols, yearly);
    var df := Joined(bm, avgObs, maxObs, air, airAvg, yearly, popZone);
    JoinedSpec(bm, avgObs, maxObs, air, airAvg, yearly, popZone);
    forall i | 0 <= i < |df| ensures df[i].key == base[i].key {
      assert JoinedRow(df[i], base[i], ts, yearly);
    }
  }

  /** Row for row, the fact table is the luminosity aggregate with the luminosity smoothed. */
  lemma FactTableBase(bm: seq<LumiRow>, avg: seq<RawTemp>, max: seq<RawTemp>, air: seq<Obs>, airAvg: seq<Obs>,
                      yearly: bool, popZone: bool)
    requires FactTable(bm, avg, max, air, airAvg, yearly, popZone).Success?
    ensures var r := FactTable(bm, avg, max, air, airAvg, yearly, popZone).value;
      var base := AggregateLumi(ProcessLumi(bm), KeyColumns(yearly, popZone));
      && |r| == |base|
      && forall i :: 0 <= i < |r| ==>
           r[i].key == base[i].key && r[i].place == base[i].place && r[i].lum == SmoothRow(base[i]).lum
  {
    FactTableOut(bm, avg, max, air, airAvg, yearly, popZone);
    var avgObs := ProcessTemp(avg).value;
    var maxObs := ProcessTemp(max).value;
    var cols := KeyColumns(yearly, popZone);
    var base := AggregateLumi(ProcessLumi(bm), cols);
    var ts := Tables(avgObs, maxObs, air, airAvg, cols, yearly);
    var df := Joined(bm, avgObs, maxObs, air, airAvg, yearly, popZone);
    var r := FactTable(bm, avg, max, air, airAvg, yearly, popZone).value;
    JoinedSpec(bm, avgObs, maxObs, air, airAvg, yearly, popZone);
    forall i | 0 <= i < |r|
      ensures r[i].key == base[i].key && r[i].place == base[i].place && r[i].lum == SmoothRow(base[i]).lum
    {
      OutRowBase(r[i], df, i, base[i], ts, yearly, popZone);
    }
  }

  lemma OutRowBase(r: FactRow, df: seq<FactRow>, i: nat, b: FactRow, ts: seq<Table>, yearly: bool, popZone: bool)
    requires i < |df| && OutRow(r, df, i, yearly, popZone) && JoinedRow(df[i], b, ts, yearly)
    ensures r.key == b.key && r.place == b.place && r.lum == SmoothRow(b).lum
  {
  }

  /**
   * One output row per distinct key of the kept luminosity rows and no other,
   * in ascending key order; names from the group's first row, luminosity the
   * group's sum plus one.
   */
  lemma FactTableKeys(bm: seq<LumiRow>, avg: seq<RawTemp>, max: seq<RawTemp>, air: seq<Obs>, airAvg: seq<Obs>,
                      yearly: bool, popZone: bool)
    requires FactTable(bm, avg, max, air, airAvg, yearly, popZone).Success?
    ensures var r := FactTable(bm, avg, max, air, airAvg, yearly, popZone).value;
      var kv := LumiKeyed(ProcessLumi(bm), KeyColumns(yearly, popZone));
      && StrictlySorted(FactKeys(r))
      && (forall k :: k in FactKeys(r) <==> k in KeysOf(kv))
  {
    FactTableBase(bm, avg, max, air, airAvg, yearly, popZone);
    var cols := KeyColumns(yearly, popZone);
    var lumi := ProcessLumi(bm);
    var base := AggregateLumi(lumi, cols);
    var r := FactTable(bm, avg, max, air, airAvg, yearly, popZone).value;
    assert FactKeys(r) == FactKeys(base);
    BaseKeySet(lumi, cols);
    BaseKeys(lumi, yearly, popZone);
  }

  /**
   * Each fact row stands for a non-empty group of luminosity rows: it takes the
   * group's first descriptive columns and the smoothed luminosity sum.
   */
  lemma FactTableGroups(bm: seq<LumiRow>, avg: seq<RawTemp>, max: seq<RawTemp>, air: seq<Obs>, airAvg: seq<Obs>,
                        yearly: bool, popZone: bool)
    requires FactTable(bm, avg, max, air, airAvg, yearly, popZone).Success?
    ensures GroupRows(ProcessLumi(bm), KeyColumns(yearly, popZone),
                      FactTable(bm, avg, max, air, airAvg, yearly, popZone).value)
  {
    FactTableBase(bm, avg, max, air, airAvg, yearly, popZone);
    SmoothedGroups(ProcessLumi(bm), KeyColumns(yearly, popZone),
                   FactTable(bm, avg, max, air, airAvg, yearly, popZone).value);
  }

  /**
   * Each row stands for a non-empty group of luminosity rows: it takes the
   * group's first descriptive columns and the group's luminosity sum plus one.
   */
  predicate GroupRows(lumi: seq<LumiRow>, cols: seq<Column>, r: seq<FactRow>) {
    forall i :: 0 <= i < |r| ==> GroupRow(lumi, cols, r[i])
  }

  predicate GroupRow(lumi: seq<LumiRow>, cols: seq<Column>, x: FactRow) {
    var grp := Select(LumiKeyed(lumi, cols), x.key);
    grp != [] && x.place == grp[0].place && x.lum == Some(Sum(Lums(grp)) + 1.0)
  }

  /** Rows that follow the luminosity aggregate with the luminosity smoothed carry their group's sum plus one. */
  lemma SmoothedGroups(lumi: seq<LumiRow>, cols: seq<Column>, r: seq<FactRow>)
    requires var base := AggregateLumi(lumi, cols);
      && |r| == |base|
      && forall i :: 0 <= i < |r| ==>
           r[i].key == base[i].key && r[i].place == base[i].place && r[i].lum == SmoothRow(base[i]).lum
    ensures GroupRows(lumi, cols, r)
  {
    var base := AggregateLumi(lumi, cols);
    forall i | 0 <= i < |r| ensures GroupRow(lumi, cols, r[i]) {
      SmoothedGroup(lumi, cols, i, r[i]);
    }
  }

  lemma SmoothedGroup(lumi: seq<LumiRow>, cols: seq<Column>, i: nat, x: FactRow)
    requires var base := AggregateLumi(lumi, cols);
      i < |base| && x.key == base[i].key && x.place == base[i].place && x.lum == SmoothRow(base[i]).lum
    ensures GroupRow(lumi, cols, x)
  {
    var base := AggregateLumi(lumi, cols);
    BaseGroup(lumi, cols, i);
    var grp := Select(LumiKeyed(lumi, cols), base[i].key);
    SmoothedLum(x, base[i], Sum(Lums(grp)));
  }

  /** An aggregate row is the base row of its group. */
  lemma BaseGroup(lumi: seq<LumiRow>, cols: seq<Column>, i: nat)
    requires i < |AggregateLumi(lumi, cols)|
    ensures var b := AggregateLumi(lumi, cols)[i];
      var grp := Select(LumiKeyed(lumi, cols), b.key);
      grp != [] && b == BaseRow(b.key, grp[0].place, Sum(Lums(grp)))
  {
    AggregateLumiSpec(lumi, cols);
  }

  lemma SmoothedLum(r: FactRow, b: FactRow, x: real)
    requires r.lum == SmoothRow(b).lum && b.lum == Some(x)
    ensures r.lum == Some(x + 1.0)
  {
  }

  /** A measure's value for a key: the reducer over the key's group, or missing when no row has the key. */
  function MeasureOf(rows: seq<Obs>, cols: seq<Column>, red: Reducer, k: Key): Option<real> {
    var grp := Select(ObsKeyed(rows, cols), k);
    if grp == [] then None else Some(Reduce(red, grp))
  }

  /** Looking a key up in an aggregate gives the reducer over the key's group. */
  lemma LookupAggregate(rows: seq<Obs>, cols: seq<Column>, red: Reducer, k: Key)
    ensures Lookup(AggregateObs(rows, cols, red), k) == MeasureOf(rows, cols, red, k)
  {
    var r := AggregateObs(rows, cols, red);
    AggregateObsSpec(rows, cols, red);
    AggregateObsUnique(rows, cols, red);
    LookupUnique(r, k);
    SelectEmpty(ObsKeyed(rows, cols), k);
    if k in KeysOf(r) {
      var i :| 0 <= i < |r| && KeysOf(r)[i] == k;
    }
  }

  /**
   * Each measure column holds its reducer (mean, max, sum, mean) over the
   * normalised rows with the row's key, or is missing when no such row
   * exists; the air-pollution columns are missing in monthly mode.
   */
  lemma FactTableMeasures(bm: seq<LumiRow>, avg: seq<RawTemp>, max: seq<RawTemp>, air: seq<Obs>, airAvg: seq<Obs>,
                          yearly: bool, popZone: bool)
    requires FactTable(bm, avg, max, air, airAvg, yearly, popZone).Success?
    ensures ProcessTemp(avg).Success? && ProcessTemp(max).Success?
    ensures var r := FactTable(bm, avg, max, air, airAvg, yearly, popZone).value;
      var cols := KeyColumns(yearly, popZone);
      forall i :: 0 <= i < |r| ==>
        MeasuresOk(r[i], ProcessTemp(avg).value, ProcessTemp(max).value, air, airAvg, cols, yearly)
  {
    FactTableOut(bm, avg, max, air, airAvg, yearly, popZone);
    var avgObs := ProcessTemp(avg).value;
    var maxObs := ProcessTemp(max).value;
    var cols := KeyColumns(yearly, popZone);
    var base := AggregateLumi(ProcessLumi(bm), cols);
    var ts := Tables(avgObs, maxObs, air, airAvg, cols, yearly);
    var df := Joined(bm, avgObs, maxObs, air, airAvg, yearly, popZone);
    var r := FactTable(bm, avg, max, air, airAvg, yearly, popZone).value;
    JoinedSpec(bm, avgObs, maxObs, air, airAvg, yearly, popZone);
    BaseRows(ProcessLumi(bm), cols);
    forall i | 0 <= i < |r| ensures MeasuresOk(r[i], avgObs, maxObs, air, airAvg, cols, yearly) {
      assert OutRow(r[i], df, i, yearly, popZone);
      MeasuresStep(r[i], df[i], base[i], avgObs, maxObs, air, airAvg, cols, yearly);
    }
  }

  /** The four measure columns of a fact row, each its reducer over the row's group. */
  predicate MeasuresOk(x: FactRow, avgObs: seq<Obs>, maxObs: seq<Obs>, air: seq<Obs>, airAvg: seq<Obs>,
                       cols: seq<Column>, yearly: bool) {
    && x.avgTemp == MeasureOf(avgObs, cols, MeanOf, x.key)
    && x.maxTemp == MeasureOf(maxObs, cols, MaxOf, x.key)
    && x.air == (if yearly then MeasureOf(ProcessAir(air), cols, SumOf, x.key) else None)
    && x.airAvg == (if yearly then MeasureOf(ProcessAir(airAvg), cols, MeanOf, x.key) else None)
  }

  lemma MeasuresStep(x: FactRow, d: FactRow, b: FactRow, avgObs: seq<Obs>, maxObs: seq<Obs>, air: seq<Obs>,
                     airAvg: seq<Obs>, cols: seq<Column>, yearly: bool)
    requires x.key == d.key && forall m :: m != Lum ==> Get(x, m) == Get(d, m)
    requires JoinedRow(d, b, Tables(avgObs, maxObs, air, airAvg, cols, yearly), yearly)
    requires b.air == None && b.airAvg == None
    ensures MeasuresOk(x, avgObs, maxObs, air, airAvg, cols, yearly)
  {
    var ts := Tables(avgObs, maxObs, air, airAvg, cols, yearly);
    var k := x.key;
    assert Get(x, AvgTemp) == Lookup(ts[0].1, k) && Get(x, MaxTemp) == Lookup(ts[1].1, k);
    LookupAggregate(avgObs, cols, MeanOf, k);
    LookupAggregate(maxObs, cols, MaxOf, k);
    if yearly {
      assert Get(x, AirPollution) == Lookup(ts[2].1, k) && Get(x, AirAvg) == Lookup(ts[3].1, k);
      LookupAggregate(ProcessAir(air), cols, SumOf, k);
      LookupAggregate(ProcessAir(airAvg), cols, MeanOf, k);
    } else {
      assert Get(x, AirPollution) == Get(d, AirPollution);
      assert Get(x, AirAvg) == Get(d, AirAvg);
    }
  }

  /**
   * Every change column of the fact table is the change of its measure from
   * the previous row of the same group in the table itself (missing on a
   * group's first row); measures without a change column in this mode have
   * it missing.
   */
  lemma FactTableChanges(bm: seq<LumiRow>, avg: seq<RawTemp>, max: seq<RawTemp>, air: seq<Obs>, airAvg: seq<Obs>,
                         yearly: bool, popZone: bool)
    requires FactTable(bm, avg, max, air, airAvg, yearly, popZone).Success?
    ensures var r := FactTable(bm, avg, max, air, airAvg, yearly, popZone).value;
      forall i, m :: 0 <= i < |r| ==>
        GetPct(r[i], m) == if m in PctMeasures(yearly) then PctAt(r, GroupCols(yearly, popZone), m, yearly, i) else None
  {
    FactTableOut(bm, avg, max, air, airAvg, yearly, popZone);
    var df := Joined(bm, ProcessTemp(avg).value, ProcessTemp(max).value, air, airAvg, yearly, popZone);
    OutChanges(FactTable(bm, avg, max, air, airAvg, yearly, popZone).value, df, yearly, popZone);
  }

  /** Output rows as `OutRow` describes carry the changes of their own table. */
  lemma OutChanges(r: seq<FactRow>, df: seq<FactRow>, yearly: bool, popZone: bool)
    requires |r| == |df| && forall i :: 0 <= i < |r| ==> OutRow(r[i], df, i, yearly, popZone)
    ensures forall i, m :: 0 <= i < |r| ==>
      GetPct(r[i], m) == if m in PctMeasures(yearly) then PctAt(r, GroupCols(yearly, popZone), m, yearly, i) else None
  {
    var sm := Smooth(df);
    var g := GroupCols(yearly, popZone);
    forall k | 0 <= k < |r| ensures r[k].key == sm[k].key && forall m :: Get(r[k], m) == Get(sm[k], m) {
      assert OutRow(r[k], df, k, yearly, popZone);
      assert sm[k] == SmoothRow(df[k]);
    }
    assert FactKeys(r) == FactKeys(sm);
    forall i, m | 0 <= i < |r|
      ensures GetPct(r[i], m) == if m in PctMeasures(yearly) then PctAt(r, g, m, yearly, i) else None
    {
      assert OutRow(r[i], df, i, yearly, popZone);
      PctAtSame(r, sm, g, m, yearly, i);
    }
  }

  /** The normaliser keeps luminosity values as they are. */
  lemma LumiNonNegative(bm: seq<LumiRow>)
    requires forall j :: 0 <= j < |bm| ==> bm[j].lum >= 0.0
    ensures forall j :: 0 <= j < |ProcessLumi(bm)| ==> ProcessLumi(bm)[j].lum >= 0.0
  {
    forall j | 0 <= j < |ProcessLumi(bm)| ensures ProcessLumi(bm)[j].lum >= 0.0 {
      ProcessLumiMembers(bm, ProcessLumi(bm)[j]);
    }
  }

  /**
   * With non-negative raw luminosity the smoothed luminosity is at least 1,
   * so `LUMINOSITY_PCT_CHANGE` never divides by zero: it is present exactly
   * on the rows that have a previous row in their group.
   */
  lemma FactTableLuminosity(bm: seq<LumiRow>, avg: seq<RawTemp>, max: seq<RawTemp>, air: seq<Obs>, airAvg: seq<Obs>,
                            yearly: bool, popZone: bool)
    requires FactTable(bm, avg, max, air, airAvg, yearly, popZone).Success?
    requires forall j :: 0 <= j < |bm| ==> bm[j].lum >= 0.0
    ensures var r := FactTable(bm, avg, max, air, airAvg, yearly, popZone).value;
      var g := GroupCols(yearly, popZone);
      forall i :: 0 <= i < |r| ==>
        && r[i].lum.Some? && r[i].lum.value >= 1.0
        && (r[i].lumPct.Some? <==> Prev(FactKeys(r), g, GroupOf(g, r[i]), i).Some?)
  {
    var r := FactTable(bm, avg, max, air, airAvg, yearly, popZone).value;
    var g := GroupCols(yearly, popZone);
    var base := AggregateLumi(ProcessLumi(bm), KeyColumns(yearly, popZone));
    FactTableBase(bm, avg, max, air, airAvg, yearly, popZone);
    LumiNonNegative(bm);
    BaseLumNonNegative(ProcessLumi(bm), KeyColumns(yearly, popZone));
    forall i | 0 <= i < |r| ensures r[i].lum.Some? && r[i].lum.value >= 1.0 {
      assert r[i].lum == SmoothRow(base[i]).lum;
    }
    FactTableChanges(bm, avg, max, air, airAvg, yearly, popZone);
    forall i | 0 <= i < |r| ensures r[i].lumPct.Some? <==> Prev(FactKeys(r), g, GroupOf(g, r[i]), i).Some? {
      assert GetPct(r[i], Lum) == PctAt(r, g, Lum, yearly, i);
      LumPctDefined(r, g, yearly, i);
    }
  }

  /** With every luminosity at least 1, the luminosity change exists exactly where a previous group row does. */
  lemma LumPctDefined(r: seq<FactRow>, g: seq<Column>, yearly: bool, i: nat)
    requires i < |r| && forall k :: 0 <= k < |r| ==> r[k].lum.Some? && r[k].lum.value >= 1.0
    ensures PctAt(r, g, Lum, yearly, i).Some? <==> Prev(FactKeys(r), g, GroupOf(g, r[i]), i).Some?
  {
  }

  // ---------------------------------------------------------------------
  // Which row a change is taken against
  // ---------------------------------------------------------------------

  /** The finest time column of a key: the year in yearly mode, the month in monthly mode. */
  function Period(yearly: bool, k: Key): int {
    if yearly then k.year.GetOr(0) else k.month.GetOr(0)
  }

  /**
   * In a table sorted strictly by key, the row a change at `i` is taken
   * against is the latest earlier period of the same group, and a row without
   * one holds the earliest period of its group.
   */
  predicate PrevIsLatestEarlier(keys: seq<Key>, yearly: bool, popZone: bool, i: nat)
    requires i < |keys|
  {
    var g := GroupCols(yearly, popZone);
    var gk := Restrict(g, keys[i]);
    match Prev(keys, g, gk, i)
    case None =>
      forall j :: 0 <= j < |keys| && Restrict(g, keys[j]) == gk ==> Period(yearly, keys[i]) <= Period(yearly, keys[j])
    case Some(p) =>
      && Restrict(g, keys[p]) == gk && Period(yearly, keys[p]) < Period(yearly, keys[i])
      && forall j :: 0 <= j < |keys| && Restrict(g, keys[j]) == gk ==>
           Period(yearly, keys[j]) <= Period(yearly, keys[p]) || Period(yearly, keys[i]) <= Period(yearly, keys[j])
  }

  /** Within a group, key order is period order. */
  lemma PeriodOrder(keys: seq<Key>, yearly: bool, popZone: bool, a: nat, b: nat)
    requires StrictlySorted(keys) && forall k :: 0 <= k < |keys| ==> Shaped(KeyColumns(yearly, popZone), keys[k])
    requires a < b < |keys|
    requires var g := GroupCols(yearly, popZone); Restrict(g, keys[a]) == Restrict(g, keys[b])
    ensures Period(yearly, keys[a]) < Period(yearly, keys[b])
  {
    GroupTimeOrder(yearly, popZone, keys[a], keys[b]);
  }

  lemma PrevInSorted(keys: seq<Key>, yearly: bool, popZone: bool, i: nat)
    requires StrictlySorted(keys) && forall k :: 0 <= k < |keys| ==> Shaped(KeyColumns(yearly, popZone), keys[k])
    requires i < |keys|
    ensures PrevIsLatestEarlier(keys, yearly, popZone, i)
  {
    var g := GroupCols(yearly, popZone);
    var gk := Restrict(g, keys[i]);
    match Prev(keys, g, gk, i)
    case None =>
      forall j | 0 <= j < |keys| && Restrict(g, keys[j]) == gk
        ensures Period(yearly, keys[i]) <= Period(yearly, keys[j])
      {
        if i < j {
          PeriodOrder(keys, yearly, popZone, i, j);
        }
      }
    case Some(p) =>
      PeriodOrder(keys, yearly, popZone, p, i);
      forall j | 0 <= j < |keys| && Restrict(g, keys[j]) == gk
        ensures Period(yearly, keys[j]) <= Period(yearly, keys[p]) || Period(yearly, keys[i]) <= Period(yearly, keys[j])
      {
        if j < p {
          PeriodOrder(keys, yearly, popZone, j, p);
        } else if i < j {
          PeriodOrder(keys, yearly, popZone, i, j);
        }
      }
  }

  /** The fact table's keys are strictly ascending and carry exactly the key columns. */
  lemma FactTableShaped(bm: seq<LumiRow>, avg: seq<RawTemp>, max: seq<RawTemp>, air: seq<Obs>, airAvg: seq<Obs>,
                        yearly: bool, popZone: bool)
    requires FactTable(bm, avg, max, air, airAvg, yearly, popZone).Success?
    ensures var r := FactTable(bm, avg, max, air, airAvg, yearly, popZone).value;
      && StrictlySorted(FactKeys(r))
      && forall i :: 0 <= i < |r| ==> Shaped(KeyColumns(yearly, popZone), r[i].key)
  {
    var r := FactTable(bm, avg, max, air, airAvg, yearly, popZone).value;
    var base := AggregateLumi(ProcessLumi(bm), KeyColumns(yearly, popZone));
    FactTableBase(bm, avg, max, air, airAvg, yearly, popZone);
    FactTableKeys(bm, avg, max, air, airAvg, yearly, popZone);
    BaseKeys(ProcessLumi(bm), yearly, popZone);
    forall i | 0 <= i < |r| ensures Shaped(KeyColumns(yearly, popZone), r[i].key) {
      assert r[i].key == base[i].key;
    }
  }

  /**
   * Every change column of the fact table compares a row with the latest
   * earlier year (yearly) or month of the same year (monthly) of its group,
   * and is missing on the earliest period of each group.
   */
  lemma FactTablePeriods(bm: seq<LumiRow>, avg: seq<RawTemp>, max: seq<RawTemp>, air: seq<Obs>, airAvg: seq<Obs>,
                         yearly: bool, popZone: bool)
    requires FactTable(bm, avg, max, air, airAvg, yearly, popZone).Success?
    ensures var r := FactTable(bm, avg, max, air, airAvg, yearly, popZone).value;
      forall i :: 0 <= i < |r| ==> PrevIsLatestEarlier(FactKeys(r), yearly, popZone, i)
  {
    var r := FactTable(bm, avg, max, air, airAvg, yearly, popZone).value;
    FactTableShaped(bm, avg, max, air, airAvg, yearly, popZone);
    forall i | 0 <= i < |r| ensures PrevIsLatestEarlier(FactKeys(r), yearly, popZone, i) {
      PrevInSorted(FactKeys(r), yearly, popZone, i);
    }
  }

  // ---------------------------------------------------------------------
  // YEAR_MONTH and POP_ZONE_ENCODE
  // ---------------------------------------------------------------------

  /** The two code columns of a fact row. */
  predicate CodesOk(x: FactRow, yearly: bool, popZone: bool) {
    && (if popZone then x.key.zone.Some? && x.zoneCode == Some(EncodeZone(x.key.zone.value)) else x.zoneCode == None)
    && (if yearly then x.yearMonth == None
        else DateOk(x.key) && x.yearMonth == Some(YearMonth(x.key.year.value, x.key.month.value)))
  }

  lemma CodesStep(r: FactRow, df: seq<FactRow>, i: nat, yearly: bool, popZone: bool)
    requires i < |df| && OutRow(r, df, i, yearly, popZone)
    requires Shaped(KeyColumns(yearly, popZone), df[i].key)
    requires !yearly ==> DateOk(df[i].key)
    ensures CodesOk(r, yearly, popZone)
  {
  }

  /**
   * `POP_ZONE_ENCODE` is the encoded zone when `pop_zone` and absent
   * otherwise; `YEAR_MONTH` is `YEAR*100 + MONTH` of a valid month in
   * monthly mode and absent in yearly mode.
   */
  lemma FactTableCodes(bm: seq<LumiRow>, avg: seq<RawTemp>, max: seq<RawTemp>, air: seq<Obs>, airAvg: seq<Obs>,
                       yearly: bool, popZone: bool)
    requires FactTable(bm, avg, max, air, airAvg, yearly, popZone).Success?
    ensures var r := FactTable(bm, avg, max, air, airAvg, yearly, popZone).value;
      forall i :: 0 <= i < |r| ==> CodesOk(r[i], yearly, popZone)
  {
    FactTableOut(bm, avg, max, air, airAvg, yearly, popZone);
    var avgObs := ProcessTemp(avg).value;
    var maxObs := ProcessTemp(max).value;
    var df := Joined(bm, avgObs, maxObs, air, airAvg, yearly, popZone);
    var r := FactTable(bm, avg, max, air, airAvg, yearly, popZone).value;
    JoinedSorted(bm, avgObs, maxObs, air, airAvg, yearly, popZone);
    assert Combined(df, yearly, popZone).Success?;
    CombinedFails(df, yearly, popZone);
    forall i | 0 <= i < |r| ensures CodesOk(r[i], yearly, popZone) {
      CodesStep(r[i], df, i, yearly, popZone);
    }
  }
}

/**
 * One row of the joined fact table, with every column the pipeline can add.
 * A column that a run never creates (air pollution in monthly mode, the zone
 * encoding without `pop_zone`) stays `None`, as does a missing cell.
 */
module Fact {
  import opened Wrappers
  import opened Keys
  import opened Normalise

  /** The measure columns that get a percent-change column. */
  datatype Measure = Lum | AvgTemp | MaxTemp | AirPollution | AirAvg

  /** A cell of the mixed-type `POP_ZONE_ENCODE` column: a number or the original label. */
  datatype ZoneCode = Code(n: int) | Label(s: string)

  datatype FactRow = FactRow(
    key: Key,
    place: Place,
    lum: Option<real>,           // LUMINOSITY_SUM
    avgTemp: Option<real>,       // AVERAGE_TEMPERATURE
    maxTemp: Option<real>,       // MAX_TEMPERATURE
    air: Option<real>,           // AIR_POLLUTION
    airAvg: Option<real>,        // AIR_POLLUTION_AVG
    lumPct: Option<real>,        // LUMINOSITY_PCT_CHANGE
    avgTempPct: Option<real>,    // AVG_TEMP_PCT_CHANGE
    maxTempPct: Option<real>,    // MAX_TEMP_PCT_CHANGE
    airPct: Option<real>,        // AIR_POLLUTION_PCT_CHANGE
    airAvgPct: Option<real>,     // AIR_AVG_PCT_CHANGE
    yearMonth: Option<int>,      // YEAR_MONTH
    zoneCode: Option<ZoneCode>)  // POP_ZONE_ENCODE

  function Get(r: FactRow, m: Measure): Option<real> {
    match m
    case Lum => r.lum
    case AvgTemp => r.avgTemp
    case MaxTemp => r.maxTemp
    case AirPollution => r.air
    case AirAvg => r.airAvg
  }

  /** Overwrite one measure column of a row; nothing else changes. */
  function Set(r: FactRow, m: Measure, v: Option<real>): (s: FactRow)
    ensures Get(s, m) == v
    ensures forall m' :: m' != m ==> Get(s, m') == Get(r, m')
    ensures forall m' :: GetPct(s, m') == GetPct(r, m')
    ensures s.key == r.key && s.place == r.place
    ensures s.yearMonth == r.yearMonth && s.zoneCode == r.zoneCode
  {
    match m
    case Lum => r.(lum := v)
    case AvgTemp => r.(avgTemp := v)
    case MaxTemp => r.(maxTemp := v)
    case AirPollution => r.(air := v)
    case AirAvg => r.(airAvg := v)
  }

  function GetPct(r: FactRow, m: Measure): Option<real> {
    match m
    case Lum => r.lumPct
    case AvgTemp => r.avgTempPct
    case MaxTemp => r.maxTempPct
    case AirPollution => r.airPct
    case AirAvg => r.airAvgPct
  }

  /** Overwrite one percent-change column of a row; nothing else changes. */
  function SetPct(r: FactRow, m: Measure, v: Option<real>): (s: FactRow)
    ensures GetPct(s, m) == v
    ensures forall m' :: m' != m ==> GetPct(s, m') == GetPct(r, m')
    ensures forall m' :: Get(s, m') == Get(r, m')
    ensures s.key == r.key && s.place == r.place
    ensures s.yearMonth == r.yearMonth && s.zoneCode == r.zoneCode
  {
    match m
    case Lum => r.(lumPct := v)
    case AvgTemp => r.(avgTempPct := v)
    case MaxTemp => r.(maxTempPct := v)
    case AirPollution => r.(airPct := v)
    case AirAvg => r.(airAvgPct := v)
  }

  /** The key column of a fact table, in row order. */
  function FactKeys(rows: seq<FactRow>): (ks: seq<Key>)
    ensures |ks| == |rows| && forall i :: 0 <= i < |rows| ==> ks[i] == rows[i].key
  {
    KeysBy(rows, (r: FactRow) => r.key)
  }

  /** A fact row as the group-by creates it: key, names and luminosity, nothing else yet. */
  function BaseRow(key: Key, place: Place, lum: real): FactRow {
    FactRow(key, place, Some(lum), None, None, None, None,
            None, None, None, None, None, None, None)
  }
}

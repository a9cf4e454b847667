/**
 * The per-source normalisers `process_lumi`, `process_temp` and `process_air`.
 * Column upper-casing and renaming are not modelled as string operations:
 * rows are records whose fields already carry the canonical column names.
 */
module Normalise {
  import opened Wrappers
  import opened Keys

  /** District codes that are placeholders, not administrative districts. */
  const Excluded: set<string> := {"VNM.PI", "VNM.SI"}

  /** The only zone synonym: `semi-urban` is counted as `urban`. */
  function NormaliseZone(z: string): (r: string)
    ensures r != "semi-urban"
    ensures z != "semi-urban" ==> r == z
    ensures z == "semi-urban" ==> r == "urban"
  {
    if z == "semi-urban" then "urban" else z
  }

  function WithZone(c: Coords): Coords {
    c.(zone := NormaliseZone(c.zone))
  }

  /** Country code and province/district names carried by the luminosity table. */
  datatype Place = Place(country: string, gid1: string, name1: string, name2: string)

  /** A night-light luminosity observation. */
  datatype LumiRow = LumiRow(at: Coords, place: Place, lum: real)

  /** A raw temperature observation; the month is still an English month name. */
  datatype RawTemp = RawTemp(gid2: string, zone: string, year: int, month: string, value: real)

  /** A normalised single-measure observation (temperature or air pollution). */
  datatype Obs = Obs(at: Coords, value: real)

  // ---------------------------------------------------------------------
  // process_lumi
  // ---------------------------------------------------------------------

  /** The row filter of `process_lumi`: not the year 2022, not a placeholder district. */
  predicate KeepLumi(r: LumiRow) {
    r.at.year != 2022 && r.at.gid2 !in Excluded
  }

  function NormLumi(r: LumiRow): LumiRow {
    r.(at := WithZone(r.at))
  }

  /** `process_lumi`: keep the rows `KeepLumi` accepts, in order, with their zone normalised. */
  function ProcessLumi(rows: seq<LumiRow>): (r: seq<LumiRow>)
    ensures |r| <= |rows|
    ensures forall i :: 0 <= i < |r| ==>
              r[i].at.year != 2022 && r[i].at.gid2 !in Excluded && r[i].at.zone != "semi-urban"
  {
    if rows == [] then []
    else (if KeepLumi(rows[0]) then [NormLumi(rows[0])] else []) + ProcessLumi(rows[1..])
  }

  /** The normaliser works row by row: it distributes over concatenation, so row order is kept. */
  lemma {:induction false} ProcessLumiAppend(a: seq<LumiRow>, b: seq<LumiRow>)
    ensures ProcessLumi(a + b) == ProcessLumi(a) + ProcessLumi(b)
  {
    if a == [] {
      assert a + b == b;
    } else {
      assert (a + b)[0] == a[0] && (a + b)[1..] == a[1..] + b;
      ProcessLumiAppend(a[1..], b);
    }
  }

  /** A row is in the output exactly when it is the normalised form of an accepted input row. */
  lemma {:induction false} ProcessLumiMembers(rows: seq<LumiRow>, x: LumiRow)
    ensures x in ProcessLumi(rows) <==> exists i :: 0 <= i < |rows| && KeepLumi(rows[i]) && NormLumi(rows[i]) == x
  {
    if rows != [] {
      ProcessLumiMembers(rows[1..], x);
      if exists i :: 1 <= i < |rows| && KeepLumi(rows[i]) && NormLumi(rows[i]) == x {
        var i :| 1 <= i < |rows| && KeepLumi(rows[i]) && NormLumi(rows[i]) == x;
        assert rows[1..][i - 1] == rows[i];
      }
    }
  }

  // ---------------------------------------------------------------------
  // process_temp
  // ---------------------------------------------------------------------

  /** English month names, as `%B` reads them. */
  const MonthNames: seq<string> :=
    ["January", "February", "March", "April", "May", "June",
     "July", "August", "September", "October", "November", "December"]

  function MonthName(n: int): string
    requires 1 <= n <= 12
  {
    MonthNames[n - 1]
  }

  function IndexFrom(s: string, i: nat): (r: Option<nat>)
    requires i <= |MonthNames|
    ensures r.Some? ==> i <= r.value < |MonthNames| && MonthNames[r.value] == s
    ensures r.None? ==> forall j :: i <= j < |MonthNames| ==> MonthNames[j] != s
    ensures r.Some? ==> forall j :: i <= j < r.value ==> MonthNames[j] != s
    decreases |MonthNames| - i
  {
    if i == |MonthNames| then None
    else if MonthNames[i] == s then Some(i)
    else IndexFrom(s, i + 1)
  }

  /** Parsing a month name: one of the twelve names gives its number, anything else raises. */
  function MonthNumber(s: string): (r: Result<int, PipelineError>)
    ensures r.Success? <==> s in MonthNames
    ensures r.Success? ==> 1 <= r.value <= 12 && MonthName(r.value) == s
    ensures r.Failure? ==> r.error == ParseError(s)
  {
    match IndexFrom(s, 0)
    case Some(i) => Success(i + 1)
    case None => Failure(ParseError(s))
  }

  lemma MonthNamesDistinct()
    ensures forall i, j :: 0 <= i < j < |MonthNames| ==> MonthNames[i] != MonthNames[j]
  {
  }

  /** Every month number survives printing and parsing its name. */
  lemma MonthRoundTrip(n: int)
    requires 1 <= n <= 12
    ensures MonthNumber(MonthName(n)) == Success(n)
  {
    MonthNamesDistinct();
  }

  /** The row filter of `process_temp`: the years 2014 to 2021, not a placeholder district. */
  predicate KeepTemp(r: RawTemp) {
    2014 <= r.year <= 2021 && r.gid2 !in Excluded
  }

  function TempObs(r: RawTemp, month: int): Obs {
    Obs(Coords(r.gid2, NormaliseZone(r.zone), r.year, month), r.value)
  }

  /**
   * `process_temp`: filter by year and district first, then parse the month
   * of every remaining row (the first name that does not parse is the error;
   * a bad name in a dropped row is never looked at), then normalise the zone.
   */
  function ProcessTemp(rows: seq<RawTemp>): (r: Result<seq<Obs>, PipelineError>)
    ensures r.Success? <==> forall i :: 0 <= i < |rows| && KeepTemp(rows[i]) ==> rows[i].month in MonthNames
    ensures r.Failure? ==> exists i :: && 0 <= i < |rows| && KeepTemp(rows[i])
                                       && rows[i].month !in MonthNames
                                       && r.error == ParseError(rows[i].month)
                                       && forall j :: 0 <= j < i && KeepTemp(rows[j]) ==> rows[j].month in MonthNames
    ensures r.Success? ==> |r.value| <= |rows|
    ensures r.Success? ==> forall i :: 0 <= i < |r.value| ==>
              var o := r.value[i];
              && 2014 <= o.at.year <= 2021 && o.at.gid2 !in Excluded
              && 1 <= o.at.month <= 12 && o.at.zone != "semi-urban"
  {
    if rows == [] then Success([])
    else
      var rest := ProcessTemp(rows[1..]);
      if !KeepTemp(rows[0]) then
        assert forall i :: 1 <= i < |rows| ==> rows[i] == rows[1..][i - 1];
        rest
      else
        match MonthNumber(rows[0].month)
        case Failure(e) => Failure(e)
        case Success(m) =>
          assert forall i :: 1 <= i < |rows| ==> rows[i] == rows[1..][i - 1];
          match rest
          case Failure(e) => Failure(e)
          case Success(tail) => Success([TempObs(rows[0], m)] + tail)
  }

  /**
   * The temperature normaliser works row by row: on concatenated tables it
   * fails with the first table's error, else with the second's, else returns
   * the concatenation of the two outputs.
   */
  lemma {:induction false} ProcessTempAppend(a: seq<RawTemp>, b: seq<RawTemp>)
    ensures ProcessTemp(a + b) ==
      match ProcessTemp(a)
      case Failure(e) => Failure(e)
      case Success(x) =>
        match ProcessTemp(b)
        case Failure(e) => Failure(e)
        case Success(y) => Success(x + y)
  {
    if a == [] {
      assert a + b == b;
      match ProcessTemp(b)
      case Failure(_) =>
      case Success(y) => assert [] + y == y;
    } else {
      assert (a + b)[0] == a[0] && (a + b)[1..] == a[1..] + b;
      ProcessTempAppend(a[1..], b);
      var x := a[0];
      if KeepTemp(x) && MonthNumber(x.month).Success? {
        var head := [TempObs(x, MonthNumber(x.month).value)];
        match ProcessTemp(a[1..])
        case Failure(e) =>
        case Success(t) =>
          match ProcessTemp(b)
          case Failure(e) =>
          case Success(y) =>
            assert head + (t + y) == (head + t) + y;
      }
    }
  }

  /** On success the output is, row for row, the parsed form of the accepted input rows. */
  lemma {:induction false} ProcessTempMembers(rows: seq<RawTemp>, x: Obs)
    requires ProcessTemp(rows).Success?
    ensures x in ProcessTemp(rows).value <==>
              exists i :: && 0 <= i < |rows| && KeepTemp(rows[i])
                          && MonthNumber(rows[i].month).Success?
                          && TempObs(rows[i], MonthNumber(rows[i].month).value) == x
  {
    if rows != [] {
      ProcessTempMembers(rows[1..], x);
      if exists i :: && 1 <= i < |rows| && KeepTemp(rows[i])
                     && MonthNumber(rows[i].month).Success?
                     && TempObs(rows[i], MonthNumber(rows[i].month).value) == x {
        var i :| && 1 <= i < |rows| && KeepTemp(rows[i])
                 && MonthNumber(rows[i].month).Success?
                 && TempObs(rows[i], MonthNumber(rows[i].month).value) == x;
        assert rows[1..][i - 1] == rows[i];
      }
    }
  }

  // ---------------------------------------------------------------------
  // process_air
  // ---------------------------------------------------------------------

  /** `process_air`: no row filter at all, only the zone synonym is rewritten. */
  function ProcessAir(rows: seq<Obs>): (r: seq<Obs>)
    ensures |r| == |rows|
    ensures forall i :: 0 <= i < |r| ==>
              && r[i].value == rows[i].value
              && r[i].at == rows[i].at.(zone := r[i].at.zone)
              && r[i].at.zone != "semi-urban"
              && (rows[i].at.zone == "semi-urban" ==> r[i].at.zone == "urban")
              && (rows[i].at.zone != "semi-urban" ==> r[i].at.zone == rows[i].at.zone)
  {
    seq(|rows|, i requires 0 <= i < |rows| => Obs(WithZone(rows[i].at), rows[i].value))
  }
}

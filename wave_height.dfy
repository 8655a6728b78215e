/** The wave-height join of 3_wave_height_analysis.py: each incident is turned into a box of
    +-0.05 degree and +-30 minutes around it, the box is cut out of the gridded VHM0 field by
    closed label slices, and the first time / first latitude of the cut is returned. The script
    then keeps the incidents that received a value. */
module WaveHeight {
  import opened Common

  /** The buffers of lines 117-119, with time counted in whole minutes. */
  const TimeBuffer: int := 30
  const LatBuffer: real := 0.05
  const LonBuffer: real := 0.05

  /** The gridded product: its three coordinate axes, in the order `values` is indexed
      (time, latitude, longitude), and the VHM0 value of every grid point. VMDR and VCMX are
      selected by the script but never read, so they are not carried. */
  datatype Grid = Grid(time: seq<int>, latitude: seq<real>, longitude: seq<real>,
                       vhm0: (nat, nat, nat) -> real)

  /** The bounds handed to the three `slice(...)` calls. */
  datatype Window = Window(timeLo: int, timeHi: int, latLo: real, latHi: real, lonLo: real, lonHi: real)

  /** The index positions each label slice keeps, one sequence per axis. */
  datatype Selection = Selection(times: seq<nat>, lats: seq<nat>, lons: seq<nat>)

  predicate Ascending(s: seq<nat>) {
    forall j, k :: 0 <= j < k < |s| ==> s[j] < s[k]
  }

  /** The window built at lines 75-81 for an incident at (`date`, `lat`, `lon`). */
  function WindowAround(date: int, lat: real, lon: real): (w: Window)
    ensures w.timeLo <= date <= w.timeHi && w.latLo <= lat <= w.latHi && w.lonLo <= lon <= w.lonHi
    ensures date - w.timeLo == w.timeHi - date == TimeBuffer
    ensures lat - w.latLo == w.latHi - lat == LatBuffer
    ensures lon - w.lonLo == w.lonHi - lon == LonBuffer
  {
    Window(date - TimeBuffer, date + TimeBuffer, lat - LatBuffer, lat + LatBuffer,
           lon - LonBuffer, lon + LonBuffer)
  }

  /** The positions among the first `n` of `axis` whose label satisfies `inside`, in axis
      order. On an ascending axis this is what xarray's label slice keeps. */
  function Select<T>(axis: seq<T>, inside: T -> bool, n: nat): (r: seq<nat>)
    requires n <= |axis|
    ensures forall k: nat :: k in r <==> k < n && inside(axis[k])
    ensures forall j :: 0 <= j < |r| ==> r[j] < n
    ensures Ascending(r)
    decreases n
  {
    if n == 0 then []
    else
      var prefix := Select(axis, inside, n - 1);
      assert forall j :: 0 <= j < |prefix| ==> prefix[j] in prefix;
      prefix + (if inside(axis[n - 1]) then [n - 1] else [])
  }

  predicate TimeHit(ds: Grid, w: Window, t: nat) {
    t < |ds.time| && w.timeLo <= ds.time[t] <= w.timeHi
  }

  predicate LatHit(ds: Grid, w: Window, a: nat) {
    a < |ds.latitude| && w.latLo <= ds.latitude[a] <= w.latHi
  }

  predicate LonHit(ds: Grid, w: Window, o: nat) {
    o < |ds.longitude| && w.lonLo <= ds.longitude[o] <= w.lonHi
  }

  /** The `.sel(latitude=slice(..), longitude=slice(..), time=slice(..))` of lines 85-88:
      slices are closed at both ends and keep the grid's order. */
  function SelectWindow(ds: Grid, w: Window): (s: Selection)
    ensures forall t :: t in s.times <==> TimeHit(ds, w, t)
    ensures forall a :: a in s.lats <==> LatHit(ds, w, a)
    ensures forall o :: o in s.lons <==> LonHit(ds, w, o)
    ensures Ascending(s.times) && Ascending(s.lats) && Ascending(s.lons)
  {
    Selection(Select(ds.time, t => w.timeLo <= t <= w.timeHi, |ds.time|),
              Select(ds.latitude, x => w.latLo <= x <= w.latHi, |ds.latitude|),
              Select(ds.longitude, x => w.lonLo <= x <= w.lonHi, |ds.longitude|))
  }

  /** A grid cell is selected iff all three of its coordinates lie in the closed window. */
  lemma CellSelectedIff(ds: Grid, w: Window, t: nat, a: nat, o: nat)
    ensures var s := SelectWindow(ds, w);
      (t in s.times && a in s.lats && o in s.lons) <==>
      (t < |ds.time| && a < |ds.latitude| && o < |ds.longitude| &&
       w.timeLo <= ds.time[t] <= w.timeHi && w.latLo <= ds.latitude[a] <= w.latHi &&
       w.lonLo <= ds.longitude[o] <= w.lonHi)
  {
  }

  /** `get_wave_height` (lines 66-90). `Ok(None)` is the implicit `return None` of an incident
      dated before `DS_start_date`; `Ok(Some(row))` is `values[0][0]`, the VHM0 row over the
      selected longitudes at the first selected time and first selected latitude;
      `Err(IndexError)` is `values[0][0]` on a selection without times or without latitudes. */
  function GetWaveHeight(ds: Grid, dsStart: int, date: int, lat: real, lon: real)
    : (r: Result<Option<seq<real>>>)
    ensures date < dsStart <==> r == Ok(None)
    ensures r.Err? ==> r.error == IndexError
    ensures var w := WindowAround(date, lat, lon);
      r.Err? <==> (dsStart <= date &&
                   ((forall t :: 0 <= t < |ds.time| ==> !TimeHit(ds, w, t)) ||
                    (forall a :: 0 <= a < |ds.latitude| ==> !LatHit(ds, w, a))))
  {
    if date >= dsStart then
      var s := SelectWindow(ds, WindowAround(date, lat, lon));
      assert |s.times| > 0 ==> s.times[0] in s.times;
      assert |s.lats| > 0 ==> s.lats[0] in s.lats;
      if |s.times| == 0 || |s.lats| == 0 then Err(IndexError)
      else Ok(Some(seq(|s.lons|, k requires 0 <= k < |s.lons| => ds.vhm0(s.times[0], s.lats[0], s.lons[k]))))
    else
      Ok(None)
  }

  /** An incident before the dataset's start never looks at the grid: any two grids give the
      same `None`. */
  lemma BeforeStartNeverIndexes(ds1: Grid, ds2: Grid, dsStart: int, date: int, lat: real, lon: real)
    requires date < dsStart
    ensures GetWaveHeight(ds1, dsStart, date, lat, lon) == GetWaveHeight(ds2, dsStart, date, lat, lon) == Ok(None)
  {
  }

  /** There is no upper date guard: an incident more than 30 minutes after the last grid
      time is looked up, and the empty time slice makes `values[0][0]` raise. */
  lemma AfterHorizonRaises(ds: Grid, dsStart: int, date: int, lat: real, lon: real)
    requires dsStart <= date
    requires forall t :: 0 <= t < |ds.time| ==> ds.time[t] < date - TimeBuffer
    ensures GetWaveHeight(ds, dsStart, date, lat, lon) == Err(IndexError)
  {
  }

  /** First wins, in grid order: if (t, a, o) is the earliest time, latitude and longitude
      inside the window, the returned row starts with VHM0 at exactly that cell. */
  lemma {:induction false} FirstCellInGridOrder(ds: Grid, dsStart: int, date: int, lat: real, lon: real,
                                                t: nat, a: nat, o: nat)
    requires dsStart <= date
    requires TimeHit(ds, WindowAround(date, lat, lon), t)
    requires LatHit(ds, WindowAround(date, lat, lon), a)
    requires LonHit(ds, WindowAround(date, lat, lon), o)
    requires forall t' :: 0 <= t' < t ==> !TimeHit(ds, WindowAround(date, lat, lon), t')
    requires forall a' :: 0 <= a' < a ==> !LatHit(ds, WindowAround(date, lat, lon), a')
    requires forall o' :: 0 <= o' < o ==> !LonHit(ds, WindowAround(date, lat, lon), o')
    ensures var r := GetWaveHeight(ds, dsStart, date, lat, lon);
      r.Ok? && r.value.Some? && |r.value.value| >= 1 && r.value.value[0] == ds.vhm0(t, a, o)
  {
    var s := SelectWindow(ds, WindowAround(date, lat, lon));
    FirstOfAscending(s.times, t);
    FirstOfAscending(s.lats, a);
    FirstOfAscending(s.lons, o);
  }

  /** In an ascending sequence of positions, a member with no smaller member is the head. */
  lemma FirstOfAscending(s: seq<nat>, x: nat)
    requires Ascending(s) && x in s
    requires forall y :: y in s ==> x <= y
    ensures |s| >= 1 && s[0] == x
  {
    var j :| 0 <= j < |s| && s[j] == x;
    assert s[0] <= s[j] by {
      if j > 0 {
        assert s[0] < s[j];
      }
    }
    assert s[0] in s;
  }

  /** Ascending positions are at least their own index. */
  lemma {:induction false} AscendingAtLeastIndex(s: seq<nat>, j: nat)
    requires Ascending(s) && j < |s|
    ensures j <= s[j]
  {
    if j > 0 {
      AscendingAtLeastIndex(s, j - 1);
    }
  }

  /** An ascending selection over a one-point axis that holds position 0 is exactly [0]. */
  lemma OnlyPosition(s: seq<nat>)
    requires Ascending(s) && 0 in s
    requires forall j :: 0 <= j < |s| ==> s[j] < 1
    ensures s == [0]
  {
    if |s| >= 2 {
      AscendingAtLeastIndex(s, 1);
    }
  }

  /** Every value handed back is VHM0 at a cell of the window, at the first selected time and
      latitude, one per selected longitude in grid order; the incident is not before the start date. */
  lemma ReturnedHeightsAreWindowCells(ds: Grid, dsStart: int, date: int, lat: real, lon: real)
    requires GetWaveHeight(ds, dsStart, date, lat, lon).Ok?
    requires GetWaveHeight(ds, dsStart, date, lat, lon).value.Some?
    ensures var w := WindowAround(date, lat, lon);
      var s := SelectWindow(ds, w);
      var hs := GetWaveHeight(ds, dsStart, date, lat, lon).value.value;
      && dsStart <= date && |s.times| >= 1 && |s.lats| >= 1 && |hs| == |s.lons|
      && forall k :: 0 <= k < |hs| ==>
           TimeHit(ds, w, s.times[0]) && LatHit(ds, w, s.lats[0]) && LonHit(ds, w, s.lons[k]) &&
           hs[k] == ds.vhm0(s.times[0], s.lats[0], s.lons[k])
  {
  }

  /** The boundary is inside: a one-cell grid whose point lies exactly 0.05 degree north and east
      and 30 minutes after the incident still yields that cell's value. */
  lemma BoundaryIsInclusive(v: real)
    ensures var ds := Grid([630], [10.05], [50.05], (t: nat, a: nat, o: nat) => v);
      GetWaveHeight(ds, 0, 600, 10.0, 50.0) == Ok(Some([v]))
  {
    var ds := Grid([630], [10.05], [50.05], (t: nat, a: nat, o: nat) => v);
    var s := SelectWindow(ds, WindowAround(600, 10.0, 50.0));
    assert 0 in s.times && 0 in s.lats && 0 in s.lons;
    OnlyPosition(s.times);
    OnlyPosition(s.lats);
    OnlyPosition(s.lons);
    var row := seq(|s.lons|, k requires 0 <= k < |s.lons| => ds.vhm0(s.times[0], s.lats[0], s.lons[k]));
    assert row == [v];
  }

  // ---- The driver, lines 105-129 ----

  /** One row of `piracy_df`: incident date (minutes), the nullable coordinates, and the other
      columns, carried along untouched. */
  datatype IncidentRow = IncidentRow(date: int, latitude: Option<real>, longitude: Option<real>,
                                     otherColumns: seq<string>)

  /** A row of `df_out`: the incident with its "Wave Height" cell. */
  datatype WaveRow = WaveRow(incident: IncidentRow, waveHeight: seq<real>)

  /** Survives `dropna(subset=['Latitude', 'Longitude'])`. */
  predicate HasCoords(row: IncidentRow) {
    row.latitude.Some? && row.longitude.Some?
  }

  /** What `apply` passes each row through: `get_wave_height` on a row with coordinates.
      (Rows without coordinates were already dropped and never reach it.) */
  type Lookup = IncidentRow -> Result<Option<seq<real>>>

  function WaveHeightOfRow(ds: Grid, dsStart: int): Lookup {
    row => if HasCoords(row) then GetWaveHeight(ds, dsStart, row.date, row.latitude.value, row.longitude.value)
           else Ok(None)
  }

  /** The row ends up in `df_out`: it has coordinates and its "Wave Height" is not NA. */
  predicate Kept(lookup: Lookup, row: IncidentRow) {
    HasCoords(row) && lookup(row).Ok? && lookup(row).value.Some?
  }

  /** The row makes `apply` raise. */
  predicate Raises(lookup: Lookup, row: IncidentRow) {
    HasCoords(row) && lookup(row).Err?
  }

  /** The positions, among the first `n` rows, of the rows that end up in `df_out`. */
  function KeptIndices(df: seq<IncidentRow>, lookup: Lookup, n: nat): (idx: seq<nat>)
    requires n <= |df|
    ensures forall k: nat :: k in idx <==> k < n && Kept(lookup, df[k])
    ensures forall j :: 0 <= j < |idx| ==> idx[j] < n
    ensures Ascending(idx)
    decreases n
  {
    if n == 0 then []
    else
      var prefix := KeptIndices(df, lookup, n - 1);
      assert forall j :: 0 <= j < |prefix| ==> prefix[j] in prefix;
      prefix + (if Kept(lookup, df[n - 1]) then [n - 1] else [])
  }

  /** The "Wave Height" cell of a kept row. */
  function HeightsOf(lookup: Lookup, row: IncidentRow): seq<real>
  {
    if Kept(lookup, row) then lookup(row).value.value else []
  }

  /** `out` holds, in order, the rows at the positions `idx` with their wave heights. */
  predicate RowsAt(out: seq<WaveRow>, df: seq<IncidentRow>, lookup: Lookup, idx: seq<nat>) {
    |out| == |idx| &&
    forall k :: 0 <= k < |idx| ==> idx[k] < |df| && out[k] == WaveRow(df[idx[k]], HeightsOf(lookup, df[idx[k]]))
  }

  lemma RowsAtExtend(out: seq<WaveRow>, df: seq<IncidentRow>, lookup: Lookup, idx: seq<nat>, i: nat)
    requires RowsAt(out, df, lookup, idx) && i < |df|
    ensures RowsAt(out + [WaveRow(df[i], HeightsOf(lookup, df[i]))], df, lookup, idx + [i])
  {
  }

  /** Lines 105, 126 and 129 for a row function `lookup`. `dropna`, `apply` and the `notna()`
      filter all work row by row, so one pass computes the same frame: a row without
      coordinates is dropped, an exception from `lookup` aborts the script, and a row whose
      result is `None` is filtered out. */
  method ApplyAndFilter(df: seq<IncidentRow>, lookup: Lookup) returns (r: Result<seq<WaveRow>>)
    ensures r.Err? <==> exists i :: 0 <= i < |df| && Raises(lookup, df[i])
    ensures r.Err? ==> exists i :: 0 <= i < |df| && Raises(lookup, df[i]) && r.error == lookup(df[i]).error
                              && forall j :: 0 <= j < i ==> !Raises(lookup, df[j])
    ensures r.Ok? ==> RowsAt(r.value, df, lookup, KeptIndices(df, lookup, |df|))
  {
    var out: seq<WaveRow> := [];
    var i := 0;
    while i < |df|
      invariant 0 <= i <= |df|
      invariant forall j :: 0 <= j < i ==> !Raises(lookup, df[j])
      invariant RowsAt(out, df, lookup, KeptIndices(df, lookup, i))
    {
      var row := df[i];
      if HasCoords(row) {
        var height := lookup(row);
        if height.Err? {
          assert Raises(lookup, df[i]);
          return Err(height.error);
        }
        if height.value.Some? {
          RowsAtExtend(out, df, lookup, KeptIndices(df, lookup, i), i);
          out := out + [WaveRow(row, height.value.value)];
        }
      }
      i := i + 1;
    }
    r := Ok(out);
  }

  /** `dropna` leaves no row: no row holds both coordinates. */
  predicate NoRowWithCoords(df: seq<IncidentRow>) {
    forall i :: 0 <= i < |df| ==> !HasCoords(df[i])
  }

  /** The script's driver, lines 105-129: `apply(get_wave_height)` over the rows with
      coordinates, keeping those with a value. When `dropna` leaves no row, `apply` tries
      `get_wave_height` on an all-NaN probe row, whose comparison at line 67 fails, and hands
      back a copy of the empty frame; assigning that frame to the one column "Wave Height" at
      line 126 raises `ValueError`. Otherwise the only exception is `IndexError`. */
  method EnrichIncidents(df: seq<IncidentRow>, ds: Grid, dsStart: int) returns (r: Result<seq<WaveRow>>)
    ensures NoRowWithCoords(df) ==> r == Err(ValueError)
    ensures !NoRowWithCoords(df) ==>
      (r.Err? <==> exists i :: 0 <= i < |df| && Raises(WaveHeightOfRow(ds, dsStart), df[i]))
    ensures !NoRowWithCoords(df) && r.Err? ==> r.error == IndexError
    ensures r.Ok? ==> RowsAt(r.value, df, WaveHeightOfRow(ds, dsStart), KeptIndices(df, WaveHeightOfRow(ds, dsStart), |df|))
  {
    if forall i :: 0 <= i < |df| ==> !HasCoords(df[i]) {
      return Err(ValueError);
    }
    r := ApplyAndFilter(df, WaveHeightOfRow(ds, dsStart));
  }

  /** Which rows survive: exactly those with both coordinates, dated on or after the start,
      whose window holds at least one grid time and one grid latitude. */
  lemma KeptIff(ds: Grid, dsStart: int, row: IncidentRow)
    ensures Kept(WaveHeightOfRow(ds, dsStart), row) <==>
      (HasCoords(row) && dsStart <= row.date &&
       (exists t :: 0 <= t < |ds.time| && TimeHit(ds, WindowAround(row.date, row.latitude.value, row.longitude.value), t)) &&
       (exists a :: 0 <= a < |ds.latitude| && LatHit(ds, WindowAround(row.date, row.latitude.value, row.longitude.value), a)))
  {
  }
}

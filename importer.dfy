/**
  The import pass: a `DataImporter` walks every row of a sheet, skips the
  title row, builds one record per data row, stages it in its session and
  commits the session at the end. A row that raises aborts the pass before
  that commit; the session keeps what it had staged.
 */
module Importer {
  import opened Wrappers
  import opened PyText
  import opened Cells
  import opened Records

  /** What an import pass produces: the records staged in row order, and the
      error that stopped it, if any. */
  datatype Batch<T> = Batch(records: seq<T>, failure: Option<ImportError>)

  /** `records` staged before the rows that `rest` describes. */
  function Prepend<T>(records: seq<T>, rest: Batch<T>): Batch<T>
  {
    Batch(records + rest.records, rest.failure)
  }

  // ---------------------------------------------------------------------
  // Specification of the two passes
  // ---------------------------------------------------------------------

  /** The row loop of an import pass, from row `from` onwards: row 0 holds the
      column titles and is passed over; `build` turns a data row into a record,
      into `None` for a row passed over, or raises, and the first row that
      raises ends the pass. */
  function Collect<T>(sheet: Sheet, from: nat, build: (Row, nat) -> Result<Option<T>, ImportError>): Batch<T>
    decreases |sheet| - from
  {
    if from >= |sheet| then Batch([], None)
    else if from == 0 then Collect(sheet, 1, build)
    else match build(sheet[from], from)
      case Err(e) => Batch([], Some(e))
      case Ok(None) => Collect(sheet, from + 1, build)
      case Ok(Some(record)) => Prepend([record], Collect(sheet, from + 1, build))
  }

  /** A routes-sheet row as the routes pass sees it: it never passes a row
      over. */
  function RouteRow(cells: Row, row: nat): (r: Result<Option<Route>, ImportError>)
    ensures r != Ok(None)
  {
    match RouteFromRow(cells, row)
    case Ok(route) => Ok(Some(route))
    case Err(e) => Err(e)
  }

  /** What the routes pass stages. */
  function RoutesFrom(sheet: Sheet, from: nat): Batch<Route>
  {
    Collect(sheet, from, RouteRow)
  }

  /** What the stops pass stages. */
  function StopsFrom(sheet: Sheet, from: nat): Batch<Stop>
  {
    Collect(sheet, from, StopFromRow)
  }

  /** Record by record, rows `from` onwards, for a `build` that never passes a
      row over: the i-th record is the one row `from + i` builds; the pass
      either reaches the end of the sheet with one record per row, or stops at
      the first row that raises, with that row's error. */
  lemma {:induction false} CollectEveryRow<T>(sheet: Sheet, from: nat, build: (Row, nat) -> Result<Option<T>, ImportError>)
    requires 1 <= from <= |sheet|
    requires forall cells, row :: build(cells, row) != Ok(None)
    ensures var b := Collect(sheet, from, build);
      && from + |b.records| <= |sheet|
      && (forall i | 0 <= i < |b.records| :: build(sheet[from + i], from + i) == Ok(Some(b.records[i])))
      && (b.failure.None? ==> from + |b.records| == |sheet|)
      && (b.failure.Some? ==>
            && from + |b.records| < |sheet|
            && build(sheet[from + |b.records|], from + |b.records|) == Err(b.failure.value))
    decreases |sheet| - from
  {
    if from < |sheet| && build(sheet[from], from).Ok? {
      CollectEveryRow(sheet, from + 1, build);
      var b := Collect(sheet, from, build);
      var rest := Collect(sheet, from + 1, build);
      assert b.records == [build(sheet[from], from).value.value] + rest.records;
      forall i | 0 <= i < |b.records|
        ensures build(sheet[from + i], from + i) == Ok(Some(b.records[i]))
      {
        if i > 0 {
          assert b.records[i] == rest.records[i - 1];
        }
      }
    }
  }

  /** The routes pass as a whole: no record for the title row, then exactly
      one route per data row in row order. */
  lemma {:induction false} ImportedRoutes(sheet: Sheet)
    ensures var b := RoutesFrom(sheet, 0);
      && (forall i | 0 <= i < |b.records| :: i + 1 < |sheet| && RouteFromRow(sheet[i + 1], i + 1) == Ok(b.records[i]))
      && (b.failure.None? ==> |b.records| == if sheet == [] then 0 else |sheet| - 1)
  {
    if sheet != [] {
      CollectEveryRow(sheet, 1, RouteRow);
    }
  }

  /** A failed routes pass keeps the routes of the rows before the first row
      that raises, and reports that row's error. */
  lemma {:induction false} RoutesFailure(sheet: Sheet)
    ensures var b := RoutesFrom(sheet, 0);
      b.failure.Some? ==>
        && |b.records| + 1 < |sheet|
        && RouteFromRow(sheet[|b.records| + 1], |b.records| + 1) == Err(b.failure.value)
  {
    if sheet != [] {
      CollectEveryRow(sheet, 1, RouteRow);
    }
  }

  /** Only rows `from` onwards matter to a pass. */
  lemma {:induction false} CollectOnlyReads<T>(s: Sheet, t: Sheet, from: nat, build: (Row, nat) -> Result<Option<T>, ImportError>)
    requires 1 <= from && |s| == |t|
    requires forall i | from <= i < |s| :: s[i] == t[i]
    ensures Collect(s, from, build) == Collect(t, from, build)
    decreases |s| - from
  {
    if from < |s| {
      CollectOnlyReads(s, t, from + 1, build);
    }
  }

  /** Whatever the title row holds, it never becomes a route or a stop. */
  lemma {:induction false} TitleRowIgnored(sheet: Sheet, title: Row)
    requires sheet != []
    ensures RoutesFrom([title] + sheet[1..], 0) == RoutesFrom(sheet, 0)
    ensures StopsFrom([title] + sheet[1..], 0) == StopsFrom(sheet, 0)
  {
    CollectOnlyReads([title] + sheet[1..], sheet, 1, RouteRow);
    CollectOnlyReads([title] + sheet[1..], sheet, 1, StopFromRow);
  }

  /** The number of data rows, from `from` on, that `build` turns into a
      record. */
  function CountBuilt<T>(sheet: Sheet, from: nat, build: (Row, nat) -> Result<Option<T>, ImportError>): nat
    decreases |sheet| - from
  {
    if from >= |sheet| then 0
    else if from == 0 then CountBuilt(sheet, 1, build)
    else (if build(sheet[from], from).Ok? && build(sheet[from], from).value.Some? then 1 else 0)
         + CountBuilt(sheet, from + 1, build)
  }

  /** Record by record, rows `from` onwards: every record is the one some data
      row builds, the error is the one some data row raises, and a pass that
      raises nothing has one record per row that builds one. */
  lemma {:induction false} CollectProvenance<T>(sheet: Sheet, from: nat, build: (Row, nat) -> Result<Option<T>, ImportError>)
    requires 1 <= from <= |sheet|
    ensures var b := Collect(sheet, from, build);
      && |b.records| <= |sheet| - from
      && (forall x | x in b.records :: exists i | from <= i < |sheet| :: build(sheet[i], i) == Ok(Some(x)))
      && (b.failure.None? ==> |b.records| == CountBuilt(sheet, from, build))
      && (b.failure.Some? ==> exists i | from <= i < |sheet| :: build(sheet[i], i) == Err(b.failure.value))
    decreases |sheet| - from
  {
    if from < |sheet| {
      CollectProvenance(sheet, from + 1, build);
    }
  }

  /** The number of data rows, from `from` on, that satisfy `p`. */
  function CountWhere(sheet: Sheet, from: nat, p: Row -> bool): nat
    decreases |sheet| - from
  {
    if from >= |sheet| then 0
    else if from == 0 then CountWhere(sheet, 1, p)
    else (if p(sheet[from]) then 1 else 0) + CountWhere(sheet, from + 1, p)
  }

  /** When no row from `from` on raises, and a row yields a record exactly
      when it satisfies `p`, the records built are the rows satisfying `p`. */
  lemma {:induction false} CountBuiltWhere<T>(sheet: Sheet, from: nat, build: (Row, nat) -> Result<Option<T>, ImportError>, p: Row -> bool)
    requires 1 <= from <= |sheet|
    requires forall i | from <= i < |sheet| ::
      build(sheet[i], i).Ok? && (build(sheet[i], i).value.Some? <==> p(sheet[i]))
    ensures CountBuilt(sheet, from, build) == CountWhere(sheet, from, p)
    decreases |sheet| - from
  {
    if from < |sheet| {
      CountBuiltWhere(sheet, from + 1, build, p);
    }
  }

  /** Every data row the pass reached ran without raising, when it raised
      nothing. */
  lemma {:induction false} CollectCleanRows<T>(sheet: Sheet, from: nat, build: (Row, nat) -> Result<Option<T>, ImportError>)
    requires 1 <= from <= |sheet|
    requires Collect(sheet, from, build).failure.None?
    ensures forall i | from <= i < |sheet| :: build(sheet[i], i).Ok?
    decreases |sheet| - from
  {
    if from < |sheet| {
      CollectCleanRows(sheet, from + 1, build);
    }
  }

  /** The first data row, from `from` on, that raises; the end of the sheet
      when none does. */
  function FirstRaising<T>(sheet: Sheet, from: nat, build: (Row, nat) -> Result<Option<T>, ImportError>): (k: nat)
    ensures k <= |sheet|
    ensures from <= |sheet| ==> from <= k
    ensures forall i | from <= i < k :: build(sheet[i], i).Ok?
    ensures k < |sheet| ==> build(sheet[k], k).Err?
    decreases |sheet| - from
  {
    if from >= |sheet| then |sheet|
    else if build(sheet[from], from).Err? then from
    else FirstRaising(sheet, from + 1, build)
  }

  /** The records that rows `from` to `upto - 1` build, in row order: one for
      each row that yields one. */
  function Built<T>(sheet: Sheet, from: nat, upto: nat, build: (Row, nat) -> Result<Option<T>, ImportError>): seq<T>
    decreases upto - from
  {
    if from >= upto || from >= |sheet| then []
    else
      var here := build(sheet[from], from);
      (if here.Ok? && here.value.Some? then [here.value.value] else []) + Built(sheet, from + 1, upto, build)
  }

  /** A pass from row `from` on stages, in row order, the record of every
      row that yields one, up to the first row that raises, and reports that
      row's error; it reports none when no row raises. */
  lemma {:induction false} CollectUpToFirstRaising<T>(sheet: Sheet, from: nat, build: (Row, nat) -> Result<Option<T>, ImportError>)
    requires 1 <= from
    ensures var b := Collect(sheet, from, build);
      var k := FirstRaising(sheet, from, build);
      && b.records == Built(sheet, from, k, build)
      && b.failure == (if k < |sheet| then Some(build(sheet[k], k).error) else None)
    decreases |sheet| - from
  {
    if from < |sheet| && build(sheet[from], from).Ok? {
      CollectUpToFirstRaising(sheet, from + 1, build);
    }
  }

  /** The stops pass as a whole: it stages, in row order, the stop of every
      data row up to the first data row that raises (never the title row), one
      for each such row whose name cell holds unicode, and reports that row's
      error; without an error there is one stop per data row whose name cell
      holds unicode. */
  lemma {:induction false} ImportedStops(sheet: Sheet)
    ensures var b := StopsFrom(sheet, 0);
      var k := FirstRaising(sheet, 1, StopFromRow);
      && b.records == Built(sheet, 1, k, StopFromRow)
      && b.failure == (if k < |sheet| then Some(StopFromRow(sheet[k], k).error) else None)
      && (forall i | 1 <= i < k :: StopFromRow(sheet[i], i).value.Some? <==> StopNamed(sheet[i]))
      && (forall stop | stop in b.records ::
            exists i | 1 <= i < |sheet| :: StopFromRow(sheet[i], i) == Ok(Some(stop)))
      && (b.failure.None? ==> |b.records| == CountWhere(sheet, 0, StopNamed))
  {
    if sheet != [] {
      CollectUpToFirstRaising(sheet, 1, StopFromRow);
      var k := FirstRaising(sheet, 1, StopFromRow);
      forall i | 1 <= i < k
        ensures StopFromRow(sheet[i], i).value.Some? <==> StopNamed(sheet[i])
      {
        StopBuiltIffNamed(sheet[i], i);
      }
      CollectProvenance(sheet, 1, StopFromRow);
      if StopsFrom(sheet, 0).failure.None? {
        CollectCleanRows(sheet, 1, StopFromRow);
        forall i | 1 <= i < |sheet|
          ensures StopFromRow(sheet[i], i).value.Some? <==> StopNamed(sheet[i])
        {
          StopBuiltIffNamed(sheet[i], i);
        }
        CountBuiltWhere(sheet, 1, StopFromRow, StopNamed);
      }
    }
  }

  /** A stop staged from row `i` carries the trimmed text of that row's name
      cell. */
  lemma {:induction false} StopNameFromRow(sheet: Sheet, i: nat, stop: Stop)
    requires i < |sheet| && StopFromRow(sheet[i], i) == Ok(Some(stop))
    ensures StopNameCol < |sheet[i]| && IsUnicode(sheet[i][StopNameCol])
    ensures stop.name == Strip(UnicodeOf(sheet[i][StopNameCol]))
  {
    StopFields(sheet[i], i);
  }

  // ---------------------------------------------------------------------
  // The importer
  // ---------------------------------------------------------------------

  /** An import session over the two sheets. `routes` and `stops` are the
      committed tables; `pendingRoutes` and `pendingStops` are staged in the
      session and not yet committed. */
  class DataImporter {
    const stopsSheet: Sheet
    const routesSheet: Sheet
    var pendingRoutes: seq<Route>
    var pendingStops: seq<Stop>
    var routes: seq<Route>
    var stops: seq<Stop>

    /** Opens a session on a store that already holds `routes` and `stops`
        (both empty once the previous database file has been removed). */
    constructor (stopsSheet: Sheet, routesSheet: Sheet, routes: seq<Route>, stops: seq<Stop>)
      ensures this.stopsSheet == stopsSheet && this.routesSheet == routesSheet
      ensures this.routes == routes && this.stops == stops
      ensures pendingRoutes == [] && pendingStops == []
    {
      this.stopsSheet := stopsSheet;
      this.routesSheet := routesSheet;
      this.routes := routes;
      this.stops := stops;
      pendingRoutes := [];
      pendingStops := [];
    }

    /** Writes everything staged to the tables. */
    method Commit()
      modifies this
      ensures routes == old(routes) + old(pendingRoutes)
      ensures stops == old(stops) + old(pendingStops)
      ensures pendingRoutes == [] && pendingStops == []
    {
      routes := routes + pendingRoutes;
      stops := stops + pendingStops;
      pendingRoutes := [];
      pendingStops := [];
    }

    /** The routes pass: stages the route of every data row, then commits;
        a row that raises stops the pass before the commit, leaving the routes
        of the earlier rows staged. */
    method ImportRoutes() returns (failure: Option<ImportError>)
      modifies this
      ensures var b := RoutesFrom(routesSheet, 0);
        && failure == b.failure
        && (failure.None? ==>
              && routes == old(routes) + old(pendingRoutes) + b.records
              && stops == old(stops) + old(pendingStops)
              && pendingRoutes == [] && pendingStops == [])
        && (failure.Some? ==>
              && routes == old(routes) && stops == old(stops)
              && pendingRoutes == old(pendingRoutes) + b.records
              && pendingStops == old(pendingStops))
    {
      var staged;
      staged, failure := ReadRows(routesSheet, RouteRow);
      pendingRoutes := pendingRoutes + staged;
      if failure.None? {
        Commit();
      }
    }

    /** The stops pass: stages the stop of every data row whose name is text,
        then commits; a row that raises stops the pass before the commit,
        leaving the stops of the earlier rows staged. */
    method ImportStops() returns (failure: Option<ImportError>)
      modifies this
      ensures var b := StopsFrom(stopsSheet, 0);
        && failure == b.failure
        && (failure.None? ==>
              && stops == old(stops) + old(pendingStops) + b.records
              && routes == old(routes) + old(pendingRoutes)
              && pendingRoutes == [] && pendingStops == [])
        && (failure.Some? ==>
              && routes == old(routes) && stops == old(stops)
              && pendingStops == old(pendingStops) + b.records
              && pendingRoutes == old(pendingRoutes))
    {
      var staged;
      staged, failure := ReadRows(stopsSheet, StopFromRow);
      pendingStops := pendingStops + staged;
      if failure.None? {
        Commit();
      }
    }
  }

  /** The row loop both passes run: skips the title row, builds each data
      row in turn, keeps the records of the rows that yield one, and returns
      at the first row that raises with the records built so far and that
      row's error. */
  method ReadRows<T>(sheet: Sheet, build: (Row, nat) -> Result<Option<T>, ImportError>)
    returns (records: seq<T>, failure: Option<ImportError>)
    ensures Batch(records, failure) == Collect(sheet, 0, build)
  {
    records := [];
    for row := 0 to |sheet|
      invariant Collect(sheet, 0, build) == Prepend(records, Collect(sheet, row, build))
    {
      if row == 0 {  // the column titles
        continue;
      }
      var built := build(sheet[row], row);
      if built.Err? {
        return records, Some(built.error);
      }
      if built.value.None? {  // a row passed over
        continue;
      }
      records := records + [built.value.value];
    }
    return records, None;
  }

  /** A full import into a store holding `priorRoutes` and `priorStops`: the
      routes pass, then the stops pass if the routes pass raised nothing, and
      the commit made when the session closes, on every exit path. */
  method ImportAll(stopsSheet: Sheet, routesSheet: Sheet, priorRoutes: seq<Route>, priorStops: seq<Stop>)
    returns (routes: seq<Route>, stops: seq<Stop>, failure: Option<ImportError>)
    ensures var rb := RoutesFrom(routesSheet, 0);
      var sb := StopsFrom(stopsSheet, 0);
      && routes == priorRoutes + rb.records
      && (rb.failure.Some? ==> failure == rb.failure && stops == priorStops)
      && (rb.failure.None? ==> failure == sb.failure && stops == priorStops + sb.records)
  {
    var importer := new DataImporter(stopsSheet, routesSheet, priorRoutes, priorStops);
    failure := importer.ImportRoutes();
    if failure.None? {
      failure := importer.ImportStops();
    }
    importer.Commit();
    routes, stops := importer.routes, importer.stops;
  }
}

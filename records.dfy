/**
  The records built from one spreadsheet row: a bus route from a row of the
  routes sheet, a bus stop from a row of the stops sheet. Cells are read in
  the order the importer reads them, so that the first cell that raises
  decides the error.
 */
module Records {
  import opened Wrappers
  import opened PyText
  import opened Cells
  import opened Accessibility

  /** A bus route as stored: `description` is the stif code read back as an
      integer, `accessibility` its ordered label list. */
  datatype Route = Route(
    name: string,
    description: int,
    stifCode: string,
    origin: string,
    destination: string,
    accessibility: seq<string>)

  /** A bus stop as stored; `routeStifCode` refers to a route by the value of
      its stif code. */
  datatype Stop = Stop(
    name: string,
    direction: string,
    routeStifCode: string,
    accessibility: seq<string>)

  // Column layout of the routes sheet.
  const RouteCodeCol := 0
  const RouteNumberCol := 1
  const RouteOriginCol := 2
  const RouteDestinationCol := 3
  const RouteWheelchairCol := 4
  const RouteNextStopVocalCol := 7
  const RouteNextStopVisualCol := 8

  // Column layout of the stops sheet.
  const StopNameCol := 2
  const StopWheelchairCol := 6
  const StopNextBusVocalCol := 7
  const StopNextBusVisualCol := 8
  const StopProblemVocalCol := 9
  const StopProblemVisualCol := 10
  const StopCodeCol := 15
  const StopDirectionCol := 16

  /** The route built from data row `row` of the routes sheet, or the error
      its cells raise. */
  function RouteFromRow(cells: Row, row: nat): Result<Route, ImportError>
  {
    var destCell :- CellAt(cells, row, RouteDestinationCol);
    var dest :- At(StrippedText(destCell), row, RouteDestinationCol);
    var originCell :- CellAt(cells, row, RouteOriginCol);
    var origin :- At(StrippedText(originCell), row, RouteOriginCol);
    var numberCell :- CellAt(cells, row, RouteNumberCol);
    var routeNumber := RouteNumber(numberCell);
    var codeCell :- CellAt(cells, row, RouteCodeCol);
    var stifCode :- At(FormatCode(codeCell), row, RouteCodeCol);
    var wheelchairCell :- CellAt(cells, row, RouteWheelchairCol);
    var wheelchair :- At(IntFlag(wheelchairCell), row, RouteWheelchairCol);
    var vocalCell :- CellAt(cells, row, RouteNextStopVocalCol);
    var nextStopVocal :- At(IntFlag(vocalCell), row, RouteNextStopVocalCol);
    var visualCell :- CellAt(cells, row, RouteNextStopVisualCol);
    var nextStopVisual :- At(IntFlag(visualCell), row, RouteNextStopVisualCol);
    var description :- At(ParseCode(stifCode), row, RouteCodeCol);
    Ok(Route(Upper(routeNumber), description, stifCode, origin, dest,
             RouteLabels(wheelchair, nextStopVocal, nextStopVisual)))
  }

  /** The stop built from data row `row` of the stops sheet; `None` when the
      row is skipped because its name cell is not text. */
  function StopFromRow(cells: Row, row: nat): Result<Option<Stop>, ImportError>
  {
    var nameCell :- CellAt(cells, row, StopNameCol);
    if !IsUnicode(nameCell) then Ok(None)
    else
      var name := Strip(UnicodeOf(nameCell));
      var wheelchairCell :- CellAt(cells, row, StopWheelchairCol);
      var wheelchair :- At(IntFlag(wheelchairCell), row, StopWheelchairCol);
      var busVocalCell :- CellAt(cells, row, StopNextBusVocalCol);
      var nextBusVocal :- At(IntFlag(busVocalCell), row, StopNextBusVocalCol);
      var busVisualCell :- CellAt(cells, row, StopNextBusVisualCol);
      var nextBusVisual :- At(IntFlag(busVisualCell), row, StopNextBusVisualCol);
      var problemVocalCell :- CellAt(cells, row, StopProblemVocalCol);
      var problemVocal :- At(IntFlag(problemVocalCell), row, StopProblemVocalCol);
      var problemVisual :- CellAt(cells, row, StopProblemVisualCol);
      var codeCell :- CellAt(cells, row, StopCodeCol);
      var stifCode :- At(FormatCode(codeCell), row, StopCodeCol);
      var directionCell :- CellAt(cells, row, StopDirectionCol);
      var direction :- At(StrippedText(directionCell), row, StopDirectionCol);
      Ok(Some(Stop(name, direction, stifCode,
                   StopLabels(wheelchair, nextBusVocal, nextBusVisual, problemVocal, problemVisual))))
  }

  /** How a stop's direction is displayed: "A" is outbound, anything else
      inbound. */
  function DirectionLabel(direction: string): (r: string)
    ensures r == "Aller" <==> direction == "A"
    ensures r == "Retour" <==> direction != "A"
  {
    if direction == "A" then "Aller" else "Retour"
  }

  // ---------------------------------------------------------------------
  // Routes
  // ---------------------------------------------------------------------

  /** Whether the cells a route row reads all coerce without raising. */
  predicate RouteRowReadable(cells: Row)
  {
    && RouteNextStopVisualCol < |cells|
    && StrippedText(cells[RouteDestinationCol]).Ok?
    && StrippedText(cells[RouteOriginCol]).Ok?
    && FormatCode(cells[RouteCodeCol]).Ok?
    && IntFlag(cells[RouteWheelchairCol]).Ok?
    && IntFlag(cells[RouteNextStopVocalCol]).Ok?
    && IntFlag(cells[RouteNextStopVisualCol]).Ok?
  }

  /** A route row yields a route exactly when every cell it reads coerces;
      `int(stif_code)` itself never raises, because the code was formatted
      from a number. The route's stif code is the numeral of the code cell and
      its description is that number. */
  lemma RouteFromRowOk(cells: Row, row: nat)
    ensures RouteFromRow(cells, row).Ok? <==> RouteRowReadable(cells)
    ensures RouteFromRow(cells, row).Ok? ==>
      var route := RouteFromRow(cells, row).value;
      && cells[RouteCodeCol].Num? && cells[RouteCodeCol].n != 0
      && route.stifCode == Decimal(cells[RouteCodeCol].n)
      && route.description == cells[RouteCodeCol].n
  {
    if RouteRowReadable(cells) {
      RouteFromReadableRow(cells, row);
    }
  }

  /** A route's description is its stif code read back with `int()`. */
  lemma RouteDescriptionIsCode(cells: Row, row: nat)
    requires RouteFromRow(cells, row).Ok?
    ensures var route := RouteFromRow(cells, row).value;
      ParseInt(route.stifCode) == Some(route.description)
  {
    RouteFromRowOk(cells, row);
    ParseDecimal(cells[RouteCodeCol].n);
  }

  /** An empty, zero or text stif code makes the row raise; when the cells
      read before it are fine, the error is the format error of column 0. */
  lemma RouteRejectsNonNumericCode(cells: Row, row: nat)
    requires RouteNextStopVisualCol < |cells|
    requires !(cells[RouteCodeCol].Num? && cells[RouteCodeCol].n != 0)
    ensures RouteFromRow(cells, row).Err?
    ensures StrippedText(cells[RouteDestinationCol]).Ok? && StrippedText(cells[RouteOriginCol]).Ok? ==>
      RouteFromRow(cells, row) == Err(ImportError(row, RouteCodeCol, FormatOnText))
  {
    RouteFromRowOk(cells, row);
  }

  /** A route's name is the route number upper-cased: the numeral of a
      nonzero number (which upper-casing leaves alone), the trimmed text of a
      text cell, the empty string otherwise. */
  lemma RouteName(cells: Row, row: nat)
    requires RouteRowReadable(cells)
    ensures RouteFromRow(cells, row).Ok?
    ensures var name := RouteFromRow(cells, row).value.name;
      && (cells[RouteNumberCol].Num? && cells[RouteNumberCol].n != 0 ==> name == Decimal(cells[RouteNumberCol].n))
      && (cells[RouteNumberCol].Text? ==> name == Upper(Strip(cells[RouteNumberCol].s)))
      && (!Truthy(cells[RouteNumberCol]) ==> name == "")
  {
    RouteFromReadableRow(cells, row);
    var c := cells[RouteNumberCol];
    if c.Num? && c.n != 0 {
      UpperDecimal(c.n);
    }
  }

  /** The route a readable row yields, field by field. */
  function RouteOfReadableRow(cells: Row): Route
    requires RouteRowReadable(cells)
  {
    var stifCode := FormatCode(cells[RouteCodeCol]).value;
    Route(Upper(RouteNumber(cells[RouteNumberCol])), cells[RouteCodeCol].n, stifCode,
          StrippedText(cells[RouteOriginCol]).value, StrippedText(cells[RouteDestinationCol]).value,
          RouteLabels(IntFlag(cells[RouteWheelchairCol]).value,
                      IntFlag(cells[RouteNextStopVocalCol]).value,
                      IntFlag(cells[RouteNextStopVisualCol]).value))
  }

  /** A readable row yields exactly the route its cells spell out. */
  lemma RouteFromReadableRow(cells: Row, row: nat)
    requires RouteRowReadable(cells)
    ensures RouteFromRow(cells, row) == Ok(RouteOfReadableRow(cells))
  {
    ParseDecimal(cells[RouteCodeCol].n);
  }

  /** Origin and destination are the trimmed text of columns 2 and 3, empty
      for any other cell; the labels are those of columns 4, 8 and 7. */
  lemma RouteFields(cells: Row, row: nat)
    requires RouteRowReadable(cells)
    ensures RouteFromRow(cells, row).Ok?
    ensures var route := RouteFromRow(cells, row).value;
      && (cells[RouteOriginCol].Text? ==> route.origin == Strip(cells[RouteOriginCol].s))
      && (!cells[RouteOriginCol].Text? ==> route.origin == "")
      && (cells[RouteDestinationCol].Text? ==> route.destination == Strip(cells[RouteDestinationCol].s))
      && (!cells[RouteDestinationCol].Text? ==> route.destination == "")
      && route.accessibility == RouteLabels(IntFlag(cells[RouteWheelchairCol]).value,
                                            IntFlag(cells[RouteNextStopVocalCol]).value,
                                            IntFlag(cells[RouteNextStopVisualCol]).value)
  {
    RouteFromReadableRow(cells, row);
  }

  /** An origin or destination given as a nonzero number makes the row
      raise: a number has no `strip()`. */
  lemma RouteRejectsNumericPlace(cells: Row, row: nat)
    requires RouteNextStopVisualCol < |cells|
    requires (cells[RouteOriginCol].Num? && cells[RouteOriginCol].n != 0)
          || (cells[RouteDestinationCol].Num? && cells[RouteDestinationCol].n != 0)
    ensures RouteFromRow(cells, row).Err?
    ensures RouteFromRow(cells, row).error.fault == StripOnNumber
  {
  }

  // ---------------------------------------------------------------------
  // Stops
  // ---------------------------------------------------------------------

  /** Whether the cells a stop row reads after its name all coerce without
      raising. */
  predicate StopRowReadable(cells: Row)
  {
    && StopDirectionCol < |cells|
    && IntFlag(cells[StopWheelchairCol]).Ok?
    && IntFlag(cells[StopNextBusVocalCol]).Ok?
    && IntFlag(cells[StopNextBusVisualCol]).Ok?
    && IntFlag(cells[StopProblemVocalCol]).Ok?
    && FormatCode(cells[StopCodeCol]).Ok?
    && StrippedText(cells[StopDirectionCol]).Ok?
  }

  /** The name cell of a stop row is there and holds unicode: text, or the
      empty value. */
  predicate StopNamed(cells: Row)
  {
    StopNameCol < |cells| && IsUnicode(cells[StopNameCol])
  }

  /** The stop a named, readable row yields, field by field. */
  function StopOfReadableRow(cells: Row): Stop
    requires StopNamed(cells) && StopRowReadable(cells)
  {
    Stop(Strip(UnicodeOf(cells[StopNameCol])),
         StrippedText(cells[StopDirectionCol]).value,
         FormatCode(cells[StopCodeCol]).value,
         StopLabels(IntFlag(cells[StopWheelchairCol]).value,
                    IntFlag(cells[StopNextBusVocalCol]).value,
                    IntFlag(cells[StopNextBusVisualCol]).value,
                    IntFlag(cells[StopProblemVocalCol]).value,
                    cells[StopProblemVisualCol]))
  }

  /** A named, readable row yields exactly the stop its cells spell out. */
  lemma StopFromReadableRow(cells: Row, row: nat)
    requires StopNamed(cells) && StopRowReadable(cells)
    ensures StopFromRow(cells, row) == Ok(Some(StopOfReadableRow(cells)))
  {
  }

  /** A row whose name cell is a number is skipped without reading any other
      cell. */
  lemma StopSkipsNumericName(cells: Row, row: nat)
    requires StopNameCol < |cells| && cells[StopNameCol].Num?
    ensures StopFromRow(cells, row) == Ok(None)
  {
  }

  /** A row whose name cell is text (or empty) yields a stop exactly when its
      other cells coerce, and never skips. */
  lemma StopFromRowOutcome(cells: Row, row: nat)
    requires StopNamed(cells)
    ensures StopFromRow(cells, row).Ok? <==> StopRowReadable(cells)
    ensures StopFromRow(cells, row).Ok? ==> StopFromRow(cells, row).value.Some?
  {
    if StopRowReadable(cells) {
      StopFromReadableRow(cells, row);
    } else if StopDirectionCol >= |cells| {
      assert StopFromRow(cells, row).Err?;
    } else if !IntFlag(cells[StopWheelchairCol]).Ok? {
      assert StopFromRow(cells, row).Err?;
    } else if !IntFlag(cells[StopNextBusVocalCol]).Ok? {
      assert StopFromRow(cells, row).Err?;
    } else if !IntFlag(cells[StopNextBusVisualCol]).Ok? {
      assert StopFromRow(cells, row).Err?;
    } else if !IntFlag(cells[StopProblemVocalCol]).Ok? {
      assert StopFromRow(cells, row).Err?;
    } else if !FormatCode(cells[StopCodeCol]).Ok? {
      assert StopFromRow(cells, row).Err?;
    }
  }

  /** A stop row that does not raise yields a stop exactly when its name cell
      holds unicode. */
  lemma StopBuiltIffNamed(cells: Row, row: nat)
    requires StopFromRow(cells, row).Ok?
    ensures StopFromRow(cells, row).value.Some? <==> StopNamed(cells)
  {
    if StopNameCol < |cells| {
      if cells[StopNameCol].Num? {
        StopSkipsNumericName(cells, row);
      } else {
        StopFromRowOutcome(cells, row);
      }
    }
  }

  /** Every stop built comes from a named, readable row and is the stop that
      row spells out. */
  lemma StopFields(cells: Row, row: nat)
    requires StopFromRow(cells, row).Ok? && StopFromRow(cells, row).value.Some?
    ensures StopNamed(cells) && StopRowReadable(cells)
    ensures StopFromRow(cells, row).value.value == StopOfReadableRow(cells)
  {
    StopBuiltIffNamed(cells, row);
    StopFromRowOutcome(cells, row);
    StopFromReadableRow(cells, row);
  }

  /** The stop of a named, readable row carries the trimmed text of the name
      cell (empty for an empty cell), the numeral of the nonzero numeric code
      cell, the trimmed direction and the labels of columns 6, 8, 7, 9 and
      10, column 10 uncoerced. */
  lemma StopOfReadableRowFields(cells: Row)
    requires StopNamed(cells) && StopRowReadable(cells)
    ensures var stop := StopOfReadableRow(cells);
      && stop.name == (if cells[StopNameCol].Text? then Strip(cells[StopNameCol].s) else "")
      && cells[StopCodeCol].Num? && cells[StopCodeCol].n != 0
      && stop.routeStifCode == Decimal(cells[StopCodeCol].n)
      && (cells[StopDirectionCol].Text? ==> stop.direction == Strip(cells[StopDirectionCol].s))
      && (!cells[StopDirectionCol].Text? ==> stop.direction == "")
      && stop.accessibility == StopLabels(IntFlag(cells[StopWheelchairCol]).value,
                                          IntFlag(cells[StopNextBusVocalCol]).value,
                                          IntFlag(cells[StopNextBusVisualCol]).value,
                                          IntFlag(cells[StopProblemVocalCol]).value,
                                          cells[StopProblemVisualCol])
  {
    var stop := StopOfReadableRow(cells);
    assert stop.name == Strip(UnicodeOf(cells[StopNameCol]));
    assert stop.routeStifCode == FormatCode(cells[StopCodeCol]).value;
    assert stop.direction == StrippedText(cells[StopDirectionCol]).value;
  }

  /** A text-named stop row with an empty, zero or text stif code raises. */
  lemma StopRejectsNonNumericCode(cells: Row, row: nat)
    requires StopDirectionCol < |cells|
    requires !cells[StopNameCol].Num?
    requires !(cells[StopCodeCol].Num? && cells[StopCodeCol].n != 0)
    ensures StopFromRow(cells, row).Err?
  {
    StopFromRowOutcome(cells, row);
  }
}

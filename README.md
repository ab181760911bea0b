# ratp-access: import and query of RATP bus accessibility data

This project models the core of `ratp.py`, a small tool that reads two RATP
spreadsheets and builds a database from them:

- The **routes sheet** holds one bus route per row.
- The **stops sheet** holds one bus stop per row.

For each row, the importer:

- skips the title row;
- coerces the raw cells with Python 2 expressions such as `value or default`,
  `'{0:.0f}'.format(...)`, `int(...)` and `.strip()`;
- turns every accessibility flag equal to `1` into a fixed French label, in a
  fixed order per entity;
- stages the record in a database session, which it commits at the end.

Two read queries sit on top of the tables:

- `fetch_routes` returns the routes, cut to a limit when the limit is positive.
- `fetch_stops` joins stops to routes by their stif code, filters on the
  route name, and is cut to the limit the same way.

The modules follow the source:

- `PyText`: the Python string operations the importer relies on: `strip`,
  `upper`, whole-number formatting with `'{0:.0f}'` and `int()` of text.
- `Cells`: spreadsheet cells and the coercion applied to each cell. This
  includes Python truthiness, so `Empty`, `Text("")` and `Num(0)` all take the
  default.
- `Accessibility`: the label table and the ordered label lists of routes and
  stops.
- `Records`: the route or stop built from one row, or the exception it raises,
  in the order the cells are read.
- `Importer`: the row loop, the `DataImporter` class with its session (staged
  records and committed tables), and a full import.
- `Queries`: `fetch_routes` and `fetch_stops` as functions over the tables.

Where the code and its description disagree, the model follows the code:

- **The session is committed when the `with` block exits, on every path**
  (ratp.py:110-114). When `import_routes` raises, the routes of the rows before
  the failing row are therefore committed anyway. `ImportAll` states this
  partial commit; it is not all-or-nothing.
- **A missing or text stif code never becomes `"-1"`.** The default `u'-1'` is
  text, and formatting text with code `f` raises. A stif code given as text,
  even a numeral, raises too (`TextCodeIsNotNormalised`).
- **An empty name cell does not skip a stop row.** The reader delivers an empty
  cell as `u''`, which is unicode, so the row yields a stop named `""`. Only a
  numeric name cell skips the row.

## Model

| member | source | states |
|---|---|---|
| PyText.Strip | ratp.py:127-128 | `strip()` removes exactly the leading and trailing whitespace: the result is a contiguous slice of the input, only whitespace lies outside it, and it neither starts nor ends with whitespace |
| PyText.StripIdempotent | ratp.py:175 | stripping twice gives the same text as stripping once |
| PyText.StripEmpty | ratp.py:182 | a text strips to the empty string exactly when it is all whitespace |
| PyText.Upper | ratp.py:142 | `upper()` keeps the length, turns every ASCII lower-case letter into its capital, leaves no ASCII lower-case letter, and leaves every other character below U+00B5 unchanged |
| PyText.UpperIdempotent | ratp.py:142 | upper-casing an upper-cased name changes nothing |
| PyText.Decimal | ratp.py:133 | `'{0:.0f}'` of a whole number is its canonical numeral: digits with no leading zero ("0" for zero), after a minus sign when the number is negative, and no decimal point |
| PyText.DigitsRoundTrip | ratp.py:143 | reading back the digits of a natural number gives that number |
| PyText.ParseDecimal | ratp.py:143 | `int()` of the formatted numeral of any whole number gives that number back |
| PyText.DecimalInjective | ratp.py:133 | distinct numbers format to distinct stif codes |
| PyText.UpperDecimal | ratp.py:129-142 | upper-casing a route number formatted from a number leaves it unchanged |
| Cells.CellAt | ratp.py:127 | reading a cell succeeds exactly when the column exists, and otherwise raises with that row and column |
| Cells.Or | ratp.py:127-138 | Python's `value or default` keeps a truthy value and replaces a falsy one by the default |
| Cells.StrippedText | ratp.py:127-128 | `(value or u'').strip()` raises exactly for a nonzero number; otherwise it gives the trimmed text, or `""` for a falsy cell |
| Cells.RouteNumber | ratp.py:129-132 | the route number is the numeral of a nonzero number, the trimmed text of a text cell, and `""` for a falsy cell |
| Cells.FormatCode | ratp.py:133 | `'{0:.0f}'.format(value or u'-1')` succeeds exactly for a nonzero number, giving its numeral; otherwise it raises a format error |
| Cells.IntFlag | ratp.py:136-138 | `int(value or 0)` is the number itself, 0 for any falsy cell (empty cell, empty text, zero), and for non-empty text succeeds exactly when `int()` parses it, with that value |
| Cells.ParseCode | ratp.py:143 | `int(stif_code)` succeeds exactly when the text parses as an integer, with that value |
| Cells.BlankCellsAlike | ratp.py:127-182 | the blank value `u''`, whether it arrives as an empty cell or as empty text, is falsy and unicode and gives the same result under every coercion: `""` when stripped or used as a route number, 0 as a flag, a format error as a stif code |
| Cells.TextCodeIsNotNormalised | ratp.py:133 | a nonzero numeric stif code formats to its numeral, but the same numeral given as text raises |
| Accessibility.DescriptionInjective | ratp.py:28-35 | the seven labels are pairwise distinct |
| Accessibility.UncoercedEqualsOne | ratp.py:180 | an uncoerced problem-visual cell equals 1 only when it is the number 1; the text "1" does not |
| Accessibility.LabelsMembership | ratp.py:148-153 | a label is in the list exactly when some flag of that feature equals 1 |
| Accessibility.RouteLabels | ratp.py:136-153 | a route has at most 3 labels: those of wheelchair, next-stop visual and next-stop vocal, in that order, each present exactly when its flag equals 1 |
| Accessibility.RouteLabelPresence | ratp.py:148-153 | a label is on a route exactly when it is one of the three route features and its flag equals 1; values such as 0, 2 or -1 never give a label |
| Accessibility.StopLabels | ratp.py:176-197 | a stop has at most 5 labels, in the order wheelchair, next-bus visual, next-bus vocal, problem vocal, problem visual |
| Accessibility.StopFeaturesInOrder | ratp.py:190-197 | the comprehension over the five stop flags selects each feature exactly when its flag equals 1, keeping the tuple order; the problem-visual cell counts only as the number 1 |
| Accessibility.StopLabelPresence | ratp.py:176-197 | a label is on a stop exactly when it is one of the five stop features and its flag equals 1, the problem-visual flag only as the number 1 |
| Records.DirectionLabel | ratp.py:53 | a direction is shown as "Aller" exactly when it is "A", and as "Retour" otherwise |
| Records.RouteFromRowOk | ratp.py:127-146 | a routes-sheet row yields a route exactly when every cell it reads coerces; the stif code is then the numeral of a nonzero numeric code cell, and the description is that number |
| Records.RouteDescriptionIsCode | ratp.py:143-144 | a route's description is its stif code read back with `int()` |
| Records.RouteRejectsNonNumericCode | ratp.py:133 | an empty, zero or text stif code makes the row raise, with a format error on column 0 when origin and destination are fine |
| Records.RouteName | ratp.py:129-142 | a route's name is the numeral of a numeric route number, the upper-cased trimmed text of a text cell, and `""` for a falsy cell |
| Records.RouteFromReadableRow | ratp.py:127-146 | a readable route row yields exactly the route its cells spell out |
| Records.RouteFields | ratp.py:127-154 | origin and destination are the trimmed text of columns 2 and 3, or `""`; the labels are those of columns 4, 8 and 7 |
| Records.RouteRejectsNumericPlace | ratp.py:127-128 | a nonzero numeric origin or destination makes the row raise an AttributeError from `strip()` |
| Records.StopFromReadableRow | ratp.py:172-198 | a stop row with a unicode name and readable cells yields exactly the stop its cells spell out |
| Records.StopSkipsNumericName | ratp.py:172-174 | a row whose name cell is a number is skipped without error |
| Records.StopFromRowOutcome | ratp.py:172-198 | a row with a unicode name cell yields a stop exactly when its other cells coerce, and is never skipped |
| Records.StopBuiltIffNamed | ratp.py:172-175 | a stop row that raises nothing yields a stop exactly when its name cell holds unicode |
| Records.StopFields | ratp.py:172-198 | every stop built comes from a named, readable row and is the stop that row spells out |
| Records.StopOfReadableRowFields | ratp.py:175-197 | a stop's name is the trimmed name text, its route stif code the numeral of the nonzero numeric code cell, its direction the trimmed direction text or `""`, and its labels those of columns 6, 8, 7, 9 and 10, column 10 uncoerced |
| Records.StopRejectsNonNumericCode | ratp.py:181 | an empty, zero or text stif code makes a stop row with a text name raise |
| Importer.CollectEveryRow | ratp.py:121-157 | for a row builder that never skips, record i comes from row i in order; the pass ends with one record per row or stops at the first row that raises, with that row's error |
| Importer.FirstRaising | ratp.py:121-204 | the first data row from a given row on whose cells raise, or the end of the sheet: every row before it builds without raising |
| Importer.CollectUpToFirstRaising | ratp.py:121-204 | a pass stages, in row order, the record of every row that yields one, up to the first row that raises, and reports exactly that row's error, or none when no row raises |
| Importer.ImportedRoutes | ratp.py:121-157 | row 0 never yields a route; route i is built from row i+1; without an error there is exactly one route per data row |
| Importer.RoutesFailure | ratp.py:121-157 | a failed routes pass keeps the routes of the rows before the first row that raises, and reports that row's error |
| Importer.TitleRowIgnored | ratp.py:121-170 | whatever the title row holds, both passes produce the same records and error |
| Importer.ImportedStops | ratp.py:167-201 | the stops pass stages, in row order, one stop for each data row before the first raising row whose name cell holds unicode, and reports that row's error; the title row never yields a stop; without an error there is one stop per data row whose name cell holds unicode |
| Importer.StopNameFromRow | ratp.py:172-175 | a stop staged from a row carries the trimmed text of that row's unicode name cell |
| Importer.ReadRows | ratp.py:121-157 | the row loop returns exactly the records and error of the row-by-row specification of a pass |
| Importer.DataImporter.constructor | ratp.py:90-108 | a new session has the two sheets, the tables it opened on, and nothing staged |
| Importer.DataImporter.Commit | ratp.py:160 | committing appends everything staged to the tables and empties the session |
| Importer.DataImporter.ImportRoutes | ratp.py:116-160 | the routes pass stages the route of every data row and commits; a row that raises stops the pass before the commit, leaving the earlier routes staged |
| Importer.DataImporter.ImportStops | ratp.py:162-204 | the stops pass stages the stop of every named data row and commits; a row that raises stops the pass before the commit, leaving the earlier stops staged |
| Importer.ImportAll | ratp.py:273-278 | a full import commits the routes of every row before any failing row; the stops pass runs only when the routes pass raised nothing |
| Queries.Limit | ratp.py:250-251 | `limit(n)` with a positive n keeps the first n rows, or all of them when there are fewer; a limit of zero or less keeps everything |
| Queries.FetchRoutes | ratp.py:236-242 | `fetch_routes` returns a prefix of the routes table: `limit` routes when limit is positive and there are enough, and the whole table otherwise |
| Queries.MatchCount | ratp.py:247-249 | a stop contributes one joined row per route with the requested name and its stif code, so it contributes some exactly when such a route exists |
| Queries.Unique | ratp.py:247-252 | dropping repeated stops keeps each stop not yet seen, once, and nothing else |
| Queries.FetchStops | ratp.py:244-252 | `fetch_stops` returns at most `limit` stops when limit is positive; each is in the stops table, and some route with the requested name has its stif code |
| Queries.MatchingMembers | ratp.py:247-249 | the matching stops are exactly the stops joined by some route with the requested name, in increasing table order |
| Queries.FetchStopsUnlimited | ratp.py:244-252 | with no positive limit, `fetch_stops` returns every matching stop exactly once, in table order |
| Queries.FetchStopsLimited | ratp.py:250-251 | a positive limit only cuts the unlimited answer short |
| Queries.LowerCaseNameFetchesNothing | ratp.py:247-249 | route names are stored upper-cased, so a requested name with a lower-case letter fetches no stop |

## Left out

- Opening the workbooks and selecting sheets (`_sheet_from_file`, ratp.py:206-214), which goes through the xlrd library. The model takes each sheet as a grid of cells, padded to the sheet's width.
- Numeric cells are whole numbers. Fractional, date, boolean and error cells are left out, and so is the rounding `'{0:.0f}'` applies to fractions.
- `int()` accepts surrounding whitespace, a sign and ASCII digits. Python 2's other accepted forms (non-ASCII digits, whitespace after the sign, long literals) are left out.
- `upper()` is modelled for ASCII and Latin-1 letters only.
- The SQLAlchemy engine and session objects, `create_all`, and the removal of the scoped session (ratp.py:98-114) are left out. The session is two staged sequences and two committed tables.
- Primary keys, the `AxsValue` table and its relationship are left out. A record's labels are an ordered list of strings, and `BusStop.description` is never set by the import, so it is not modelled.
- SQL result order is taken to be insertion order. For the stops query, the joined rows are taken stop by stop, each stop once per matching route. The limit applies to the joined rows, and repeated stops are then dropped. A database may order joined rows differently.
- `BusStop.__str__` is modelled only for its direction label. The comma-joined labels, the message formatting and the utf-8 encoding (ratp.py:50-55) are left out, and so is `BusRoute.__str__`.
- `import_data` (ratp.py:255-278): the path building, `os.remove` of the database file and logging are left out. `ImportAll` takes the tables already in the store as parameters (empty once the file is removed).
- The `DataManager` session lifecycle (ratp.py:220-234) is left out; the queries are functions of the committed tables.
- The command line (`process_args`, `main`) and the logger configuration are left out.
- Queries.FetchStops: `unicode(route_number or '')` is modelled for a route number given as text or as nothing. Other Python values (numbers, objects) would go through `unicode()` first and are left out.

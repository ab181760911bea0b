/**
  Spreadsheet cells and the per-cell coercions the importer applies to them.
  Each coercion mirrors one Python expression of the row loops, including
  Python's `value or default`, which replaces every falsy value (an empty
  cell, the empty text, the number 0) by the default.
 */
module Cells {
  import opened Wrappers
  import opened PyText

  /** A cell as the spreadsheet reader delivers it. An empty cell has the
      value u'' (a unicode string); numbers are whole. */
  datatype Cell = Empty | Num(n: int) | Text(s: string)

  /** One row of a sheet, already padded to the sheet's width. */
  type Row = seq<Cell>

  /** A sheet: row 0 holds the column titles. */
  type Sheet = seq<Row>

  /** The Python exception that reading a row can raise. */
  datatype Fault =
    | NoSuchColumn   // IndexError: the sheet has no such column
    | StripOnNumber  // AttributeError: a number has no strip()
    | FormatOnText   // ValueError: format code 'f' applied to a unicode string
    | NotAnInteger   // ValueError: int() of a text that is no integer literal

  /** A fault, with the row and column whose cell raised it. */
  datatype ImportError = ImportError(row: nat, col: nat, fault: Fault)

  /** Attaches the position of the cell to a coercion's fault. */
  function At<T>(r: Result<T, Fault>, row: nat, col: nat): (res: Result<T, ImportError>)
    ensures res.Ok? <==> r.Ok?
    ensures res.Ok? ==> res.value == r.value
    ensures res.Err? ==> res.error == ImportError(row, col, r.error)
  {
    match r
    case Ok(v) => Ok(v)
    case Err(f) => Err(ImportError(row, col, f))
  }

  /** `sheet.cell(row, col).value` */
  function CellAt(cells: Row, row: nat, col: nat): (r: Result<Cell, ImportError>)
    ensures r.Ok? <==> col < |cells|
    ensures r.Ok? ==> r.value == cells[col]
    ensures r.Err? ==> r.error == ImportError(row, col, NoSuchColumn)
  {
    if col < |cells| then Ok(cells[col]) else Err(ImportError(row, col, NoSuchColumn))
  }

  /** Python truthiness of the cell's value. */
  predicate Truthy(c: Cell) {
    match c
    case Empty => false
    case Num(n) => n != 0
    case Text(s) => s != []
  }

  /** Python's `value or default`. */
  function Or(c: Cell, default: Cell): (r: Cell)
    ensures Truthy(c) ==> r == c
    ensures !Truthy(c) ==> r == default
  {
    if Truthy(c) then c else default
  }

  /** `isinstance(value, unicode)`: empty cells and text cells hold unicode. */
  predicate IsUnicode(c: Cell) {
    !c.Num?
  }

  /** The unicode value of a non-numeric cell. */
  function UnicodeOf(c: Cell): string
    requires IsUnicode(c)
  {
    if c.Text? then c.s else ""
  }

  /** `(value or u'').strip()`: the trimmed text, the empty string for a
      falsy cell, and an AttributeError for a nonzero number. */
  function StrippedText(c: Cell): (r: Result<string, Fault>)
    ensures r.Err? <==> c.Num? && c.n != 0
    ensures r.Ok? ==> r.value == if c.Text? then Strip(c.s) else ""
  {
    match Or(c, Text(""))
    case Text(s) => Ok(Strip(s))
    case Num(_) => Err(StripOnNumber)
    case Empty => Ok("")
  }

  /** `raw = value or u''`, then `u'{0:.0f}'.format(raw)` when `raw` is not
      unicode and `raw.strip()` when it is: a number gives its numeral, text
      its trimmed self, a falsy cell the empty string. Never raises. */
  function RouteNumber(c: Cell): (r: string)
    ensures c.Num? && c.n != 0 ==> r == Decimal(c.n)
    ensures c.Text? ==> r == Strip(c.s)
    ensures !Truthy(c) ==> r == ""
  {
    var raw := Or(c, Text(""));
    if !IsUnicode(raw) then Decimal(raw.n) else Strip(UnicodeOf(raw))
  }

  /** `u'{0:.0f}'.format(value or u'-1')`: the default u'-1' is text, and
      formatting any text with code 'f' raises, so only a nonzero number
      gives a code. */
  function FormatCode(c: Cell): (r: Result<string, Fault>)
    ensures r.Ok? <==> c.Num? && c.n != 0
    ensures r.Ok? ==> r.value == Decimal(c.n)
    ensures r.Err? ==> r.error == FormatOnText
  {
    match Or(c, Text("-1"))
    case Num(n) => Ok(Decimal(n))
    case _ => Err(FormatOnText)
  }

  /** `int(value or 0)`: a number is itself, a falsy cell is 0, and a
      non-empty text is parsed by `int()`, which may raise. */
  function IntFlag(c: Cell): (r: Result<int, Fault>)
    ensures c.Num? ==> r == Ok(c.n)
    ensures !Truthy(c) ==> r == Ok(0)
    ensures c.Text? && c.s != [] ==> (r.Ok? <==> ParseInt(c.s).Some?)
    ensures c.Text? && c.s != [] && r.Ok? ==> Some(r.value) == ParseInt(c.s)
  {
    match Or(c, Num(0))
    case Num(n) => Ok(n)
    case Text(s) => (match ParseInt(s) case Some(v) => Ok(v) case None => Err(NotAnInteger))
    case Empty => Ok(0)
  }

  /** `int(text)` of a code that was already formatted. */
  function ParseCode(s: string): (r: Result<int, Fault>)
    ensures r.Ok? <==> ParseInt(s).Some?
    ensures r.Ok? ==> Some(r.value) == ParseInt(s)
  {
    match ParseInt(s)
    case Some(v) => Ok(v)
    case None => Err(NotAnInteger)
  }

  /** The blank value u'' arrives either as an empty cell or as empty text;
      every coercion treats the two alike. */
  lemma BlankCellsAlike()
    ensures !Truthy(Empty) && !Truthy(Text(""))
    ensures IsUnicode(Empty) && IsUnicode(Text("")) && UnicodeOf(Empty) == UnicodeOf(Text("")) == ""
    ensures StrippedText(Empty) == StrippedText(Text("")) == Ok("")
    ensures RouteNumber(Empty) == RouteNumber(Text("")) == ""
    ensures FormatCode(Empty) == FormatCode(Text("")) == Err(FormatOnText)
    ensures IntFlag(Empty) == IntFlag(Text("")) == Ok(0)
  {
  }

  /** A stif code given as text fails, while the same code given as a number
      formats to that very text: the two spellings do not normalise alike. */
  lemma TextCodeIsNotNormalised(n: int)
    requires n != 0
    ensures FormatCode(Num(n)) == Ok(Decimal(n))
    ensures FormatCode(Text(Decimal(n))) == Err(FormatOnText)
  {
  }
}

/** The table the rules read (`MetaTable`): the header scan that names the
    columns, the row count derived from the first column, lookup of a
    column by name, and cell access below the header row. The spreadsheet
    library is replaced by an immutable grid of cell values. */
module MetaTable {
  import opened Basics
  import opened Text

  /** A column of the table: its header text (trimmed), its 0-based index
      in the sheet, and the first letter of its spreadsheet address. */
  datatype Column = Column(name: string, x: nat, alphabetName: string)

  /** A worksheet as the spreadsheet library presents it. `cells[y][x]` is
      the value of the cell at 0-based row `y` and column `x`, `None` when
      the value is null; cells beyond the grid are null. `endRow` is
      `Dimension.End.Row`, the 1-based number of the last row of the range
      the library reports as used, and `None` when `Dimension` is null, as
      it is for a sheet without cells. */
  datatype Worksheet = Worksheet(cells: seq<seq<Option<string>>>, endRow: Option<nat>)

  /** The value of the cell at 0-based column `x` and row `y`. */
  function CellAt(s: Worksheet, x: nat, y: nat): Option<string> {
    if y < |s.cells| && x < |s.cells[y]| then s.cells[y][x] else None
  }

  /** `ExcelRange.Text` of a text cell: its text, and "" when it is null. */
  function CellText(c: Option<string>): string {
    c.GetOr("")
  }

  /** The table: the sheet it reads, the columns found in the header row,
      and the number of data rows. */
  datatype Table = Table(sheet: Worksheet, columns: seq<Column>, rows: int)

  /** The header scan gives up when the column index reaches this value. */
  const MaxColumns: nat := 1000

  predicate IsLetter(c: char) {
    'A' <= c <= 'Z'
  }

  /** The letters of the spreadsheet address of 0-based column `x`:
      A..Z, then AA..ZZ, then AAA and so on. */
  function ColumnLetters(x: nat): (r: string)
    ensures |r| >= 1
    ensures forall i :: 0 <= i < |r| ==> IsLetter(r[i])
    ensures x < 26 <==> |r| == 1
  {
    if x < 26 then [(65 + x) as char]
    else ColumnLetters(x / 26 - 1) + [(65 + x % 26) as char]
  }

  /** Reads a column address back: the letters as a bijective base-26
      numeral, A standing for 1, minus one. */
  function ColumnIndex(letters: string): (x: nat)
    requires |letters| >= 1
    requires forall i :: 0 <= i < |letters| ==> IsLetter(letters[i])
    ensures |letters| == 1 <==> x < 26
  {
    assert IsLetter(letters[|letters| - 1]);
    var last := (letters[|letters| - 1] as int - 65) as nat;
    if |letters| == 1 then last
    else (ColumnIndex(letters[..|letters| - 1]) + 1) * 26 + last
  }

  /** Every column's address reads back as that column. */
  lemma {:induction false} ColumnIndexOfLetters(x: nat)
    ensures ColumnIndex(ColumnLetters(x)) == x
  {
    if x >= 26 {
      ColumnIndexOfLetters(x / 26 - 1);
      var r := ColumnLetters(x);
      assert r[..|r| - 1] == ColumnLetters(x / 26 - 1);
    }
  }

  /** Every address is the address of the column it reads as, so the
      addresses and the columns correspond one to one. */
  lemma {:induction false} ColumnLettersOfIndex(letters: string)
    requires |letters| >= 1
    requires forall i :: 0 <= i < |letters| ==> IsLetter(letters[i])
    ensures ColumnLetters(ColumnIndex(letters)) == letters
  {
    if |letters| > 1 {
      var front := letters[..|letters| - 1];
      ColumnLettersOfIndex(front);
      var d := (letters[|letters| - 1] as int - 65) as nat;
      var x := ColumnIndex(letters);
      assert x == (ColumnIndex(front) + 1) * 26 + d;
      assert x / 26 - 1 == ColumnIndex(front) && x % 26 == d;
      assert letters == front + [letters[|letters| - 1]];
    }
  }

  /** `cell.ToString()[..1]`: the text of a range is its address, such as
      "AB1", so this is the first letter of the column's address. */
  function AlphabetName(x: nat): (r: string)
    ensures |r| == 1 && IsLetter(r[0])
  {
    ColumnLetters(x)[..1]
  }

  /** Among the first 26 columns the letter is the column's own. */
  lemma AlphabetNameOfSingleLetter(x: nat)
    requires x < 26
    ensures AlphabetName(x) == [(65 + x) as char]
  {
  }

  /** Beyond the first 26 columns, the letter is that of the column the
      address's leading letters name: dropping the last letter of the
      address does not change its first. */
  lemma AlphabetNameOfLonger(x: nat)
    requires x >= 26
    ensures AlphabetName(x) == AlphabetName(x / 26 - 1)
  {
    var front := ColumnLetters(x / 26 - 1);
    assert ColumnLetters(x)[..1] == front[..1];
  }

  predicate HeaderFilled(s: Worksheet, n: nat) {
    forall i :: 0 <= i < n ==> CellAt(s, i, 0).Some?
  }

  /** The column the scan makes of the non-null header cell at index `i`. */
  function HeaderColumn(s: Worksheet, i: nat): Column
    requires CellAt(s, i, 0).Some?
  {
    Column(Trim(CellAt(s, i, 0).value), i, AlphabetName(i))
  }

  /** The columns the scan makes of the first `n` header cells. */
  function HeaderColumns(s: Worksheet, n: nat): (cs: seq<Column>)
    requires HeaderFilled(s, n)
    ensures |cs| == n
  {
    if n == 0 then [] else HeaderColumns(s, n - 1) + [HeaderColumn(s, n - 1)]
  }

  lemma {:induction false} HeaderColumnsAt(s: Worksheet, n: nat)
    requires HeaderFilled(s, n)
    ensures forall i :: 0 <= i < n ==> HeaderColumns(s, n)[i] == HeaderColumn(s, i)
  {
    if n > 0 {
      HeaderColumnsAt(s, n - 1);
    }
  }

  /** The header scan: the consecutive non-null cells of row 0 from column
      0 become the columns, each with its trimmed text as name and its
      index as `x`; the scan throws once the index reaches 1000, so a table
      that is built has at most 999 columns. */
  method ScanHeader(s: Worksheet) returns (r: Try<seq<Column>>)
    ensures r.Threw? <==> HeaderFilled(s, MaxColumns)
    ensures r.Done? ==>
              && |r.value| < MaxColumns
              && HeaderFilled(s, |r.value|)
              && CellAt(s, |r.value|, 0).None?
              && forall i :: 0 <= i < |r.value| ==> r.value[i] == HeaderColumn(s, i)
  {
    var columns: seq<Column> := [];
    var i := 0;
    while i < MaxColumns && CellAt(s, i, 0).Some?
      invariant i <= MaxColumns
      invariant HeaderFilled(s, i)
      invariant columns == HeaderColumns(s, i)
    {
      columns := columns + [HeaderColumn(s, i)];
      i := i + 1;
    }
    if i == MaxColumns {
      return Threw;
    }
    HeaderColumnsAt(s, i);
    return Done(columns);
  }

  /** The downward scan of the first column: starting at index `r`, step
      down while the index is positive and the cell text is empty. The
      result is the last index at or below `r` with non-empty text, or 0;
      index 0 itself is never examined. */
  function LastFilledRow(s: Worksheet, r: nat): (last: nat)
    ensures last <= r
    ensures last > 0 ==> CellText(CellAt(s, 0, last)) != ""
    ensures forall k :: last < k <= r ==> CellText(CellAt(s, 0, k)) == ""
  {
    if r > 0 && CellText(CellAt(s, 0, r)) == "" then LastFilledRow(s, r - 1) else r
  }

  /** The number of data rows, as the constructor computes it: the scan
      starts at index `Dimension.End.Row` and the header row is then
      subtracted. Both branches of the constructor compute this value;
      they differ only in what they print. */
  function RowCount(s: Worksheet): (rows: int)
    requires s.endRow.Some?
    ensures -1 <= rows < s.endRow.value
    ensures rows + 1 > 0 ==> CellText(CellAt(s, 0, rows + 1)) != ""
    ensures forall k :: rows + 1 < k <= s.endRow.value ==> CellText(CellAt(s, 0, k)) == ""
  {
    LastFilledRow(s, s.endRow.value) - 1
  }

  /** The constructor: header scan, then row count. Reading the used range
      of a sheet whose `Dimension` is null throws. */
  method BuildTable(s: Worksheet) returns (r: Try<Table>)
    ensures r.Threw? <==> HeaderFilled(s, MaxColumns) || s.endRow.None?
    ensures r.Done? ==>
              && r.value.sheet == s
              && s.endRow.Some?
              && r.value.rows == RowCount(s)
              && |r.value.columns| < MaxColumns
              && HeaderFilled(s, |r.value.columns|)
              && CellAt(s, |r.value.columns|, 0).None?
              && forall i :: 0 <= i < |r.value.columns| ==> r.value.columns[i] == HeaderColumn(s, i)
  {
    var header := ScanHeader(s);
    if header.Threw? || s.endRow.None? {
      return Threw;
    }
    return Done(Table(s, header.value, RowCount(s)));
  }

  /** The index of the leftmost column called `name`, or `|cols|`. */
  function FirstNamed(cols: seq<Column>, name: string): (i: nat)
    ensures i <= |cols|
    ensures i < |cols| ==> cols[i].name == name
    ensures forall j :: 0 <= j < i ==> cols[j].name != name
  {
    if |cols| == 0 then 0
    else if cols[0].name == name then 0
    else 1 + FirstNamed(cols[1..], name)
  }

  /** `GetColumn`: the leftmost column whose name is exactly `name`; it
      throws when there is none. */
  function GetColumn(t: Table, name: string): (r: Try<Column>)
    ensures r.Threw? <==> forall j :: 0 <= j < |t.columns| ==> t.columns[j].name != name
    ensures r.Done? ==> exists i :: 0 <= i < |t.columns| && t.columns[i] == r.value
                          && r.value.name == name
                          && forall j :: 0 <= j < i ==> t.columns[j].name != name
  {
    var i := FirstNamed(t.columns, name);
    if i < |t.columns| then Done(t.columns[i]) else Threw
  }

  /** Several `GetColumn` calls in a row: every column when all names are
      found, otherwise a throw. */
  function GetColumns(t: Table, names: seq<string>): (r: Try<seq<Column>>)
    ensures r.Threw? <==> exists i :: 0 <= i < |names| && GetColumn(t, names[i]).Threw?
    ensures r.Done? ==> |r.value| == |names|
    ensures r.Done? ==> forall i {:trigger GetColumn(t, names[i])} :: 0 <= i < |names| ==> GetColumn(t, names[i]) == Done(r.value[i])
  {
    if |names| == 0 then Done([])
    else match GetColumn(t, names[0])
      case Threw => Threw
      case Done(c) =>
        match GetColumns(t, names[1..])
        case Threw => Threw
        case Done(cs) => Done([c] + cs)
  }

  /** `At`: table row `row` is sheet row `row + 1`, below the header. */
  function At(t: Table, column: Column, row: nat): Option<string> {
    CellAt(t.sheet, column.x, row + 1)
  }

  /** Data row `y` of the table reads sheet row `y + 1`, so the rows the
      rules visit are the sheet rows 1 to `RowCount`; the last non-empty
      row found by the scan, at index `RowCount + 1`, is never among them. */
  lemma RowsCovered(t: Table, c: Column, y: nat)
    requires t.sheet.endRow.Some? && t.rows == RowCount(t.sheet) && y < t.rows
    ensures At(t, c, y) == CellAt(t.sheet, c.x, y + 1)
    ensures 1 <= y + 1 < LastFilledRow(t.sheet, t.sheet.endRow.value)
  {
  }

  /** `AtFloat`: the cell text with every U+0020 removed, parsed as a
      number; a null cell or text that does not parse throws, and no value
      is ever defaulted. `parse` stands for `float.Parse` with
      `NumberStyles.Any` and the invariant culture, `None` meaning that it
      throws. */
  function AtFloat(t: Table, parse: string -> Option<real>, column: Column, row: nat): (r: Try<real>)
    ensures r.Done? <==> At(t, column, row).Some? && parse(RemoveSpaces(At(t, column, row).value)).Some?
    ensures r.Done? ==> parse(RemoveSpaces(At(t, column, row).value)) == Some(r.value)
  {
    match At(t, column, row)
    case None => Threw
    case Some(text) =>
      match parse(RemoveSpaces(text))
      case None => Threw
      case Some(v) => Done(v)
  }

  /** The count leaves out the last non-empty row: a sheet with a header
      and one filled data row (used range ending at 1-based row 2) has no
      data rows at all, so no rule ever reads that row. */
  lemma RowCountSkipsLastDataRow()
    ensures var s := Worksheet([[Some("Год")], [Some("2023")]], Some(2));
            && CellText(CellAt(s, 0, 1)) != ""
            && RowCount(s) == 0
  {
    var s := Worksheet([[Some("Год")], [Some("2023")]], Some(2));
    assert CellAt(s, 0, 2) == None;
    assert CellAt(s, 0, 1) == Some("2023");
  }
}

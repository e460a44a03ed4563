/**
 * The isi_spreadsheet migrate source, stated on values: its configuration,
 * its ids, its field list, the worksheet and header row it picks, and the
 * records it yields. The workbook is data: sheets of rows, each row carrying
 * the index the reader gave it.
 */
module Spreadsheet {
  import opened Wrappers
  import opened Assoc
  import opened Php

  datatype Format = Csv | Xlsx | Ods

  /** A row with the index the reader's row iterator gives it, and its cell values. */
  datatype Row = Row(index: int, cells: seq<string>)

  datatype Sheet = Sheet(name: string, rows: seq<Row>)

  datatype Workbook = Workbook(format: Format, sheets: seq<Sheet>)

  /** The source configuration with every key present. `keys` maps an id field to its type. */
  datatype Config = Config(
    file: Option<string>,
    worksheet: Option<string>,
    headerRow: int,
    columns: seq<string>,
    keys: Assoc<string>,
    rowIndexColumn: Option<string>)

  /** A configuration as supplied: `None` for a key not given (or given as null). */
  datatype Overrides = Overrides(
    file: Option<string>,
    worksheet: Option<string>,
    headerRow: Option<int>,
    columns: Option<seq<string>>,
    keys: Option<Assoc<string>>,
    rowIndexColumn: Option<string>)

  /** The exceptions the source throws. */
  datatype SourceError =
    | MissingRowIndexColumn
    | UnreadableFile(path: Option<string>)
    | WorksheetNotFound(name: Option<string>)
    | HeaderRowNotFound
    | FieldCountMismatch(fields: nat, values: nat)
    | UninitialisedReader

  /** A record value: a cell's value, or the row's index. */
  datatype Value = Text(text: string) | Index(index: int)

  type Record = Assoc<Value>

  /** What a generator produces before it ends: its records, and the error that ended it, if any. */
  datatype Emitted = Emitted(records: seq<Record>, error: Option<SourceError>)

  // ---------------------------------------------------------------------
  // Configuration

  function DefaultConfiguration(): Config {
    Config(file := None, worksheet := None, headerRow := 0, columns := [], keys := [], rowIndexColumn := None)
  }

  function Pick<T>(supplied: Option<T>, default: T): T {
    match supplied
    case Some(v) => v
    case None => default
  }

  /** NestedArray::mergeDeep of the defaults with a supplied configuration. */
  function Merge(o: Overrides): Config {
    var d := DefaultConfiguration();
    Config(
      file := if o.file.Some? then o.file else d.file,
      worksheet := if o.worksheet.Some? then o.worksheet else d.worksheet,
      headerRow := Pick(o.headerRow, d.headerRow),
      columns := Pick(o.columns, d.columns),
      keys := Pick(o.keys, d.keys),
      rowIndexColumn := if o.rowIndexColumn.Some? then o.rowIndexColumn else d.rowIndexColumn)
  }

  /** A configuration with nothing supplied. */
  const NoOverrides := Overrides(None, None, None, None, None, None)

  /** What setConfiguration stores: the merge, with every default key present. */
  function Stored(o: Overrides): Overrides {
    var c := Merge(o);
    Overrides(c.file, c.worksheet, Some(c.headerRow), Some(c.columns), Some(c.keys), c.rowIndexColumn)
  }

  /** A supplied key wins; a key not supplied keeps its default. */
  lemma MergeOverrides(o: Overrides)
    ensures Merge(NoOverrides) == DefaultConfiguration()
    ensures var c := Merge(o);
      && (o.headerRow.Some? ==> c.headerRow == o.headerRow.value)
      && (o.headerRow.None? ==> c.headerRow == 0)
      && (o.columns.Some? ==> c.columns == o.columns.value)
      && (o.columns.None? ==> c.columns == [])
      && (o.keys.Some? ==> c.keys == o.keys.value)
      && (o.keys.None? ==> c.keys == [])
      && c.file == o.file && c.worksheet == o.worksheet && c.rowIndexColumn == o.rowIndexColumn
  {
  }

  /** getConfiguration after setConfiguration gives the merge setConfiguration was given. */
  lemma StoredStable(o: Overrides)
    ensures Merge(Stored(o)) == Merge(o)
    ensures Stored(Stored(o)) == Stored(o)
  {
  }

  /** __toString: the file, a colon, the worksheet, on the configuration as stored (null converts to ""). */
  function Describe(o: Overrides): string {
    TextOf(o.file) + ":" + TextOf(o.worksheet)
  }

  /** A description is the file name, then a colon, then the worksheet name. */
  lemma DescribeParts(o: Overrides)
    ensures var s, f, w := Describe(o), TextOf(o.file), TextOf(o.worksheet);
      && |s| == |f| + 1 + |w|
      && s[..|f|] == f && s[|f|] == ':' && s[|f| + 1..] == w
  {
  }

  /** A description names its file and worksheet unambiguously when the file name has no colon. */
  lemma DescribeInjective(o1: Overrides, o2: Overrides)
    requires ':' !in TextOf(o1.file) && ':' !in TextOf(o2.file)
    requires Describe(o1) == Describe(o2)
    ensures TextOf(o1.file) == TextOf(o2.file) && TextOf(o1.worksheet) == TextOf(o2.worksheet)
  {
    var f1, f2 := TextOf(o1.file), TextOf(o2.file);
    var s := Describe(o1);
    ColonAtAfter(f1, TextOf(o1.worksheet));
    ColonAtAfter(f2, TextOf(o2.worksheet));
    assert f1 == s[..|f1|] == f2;
    assert TextOf(o1.worksheet) == s[|f1| + 1..] == TextOf(o2.worksheet);
  }

  /** The position of the first colon, or the length when there is none. */
  function ColonAt(s: string): (i: nat)
    ensures i <= |s|
  {
    if s == [] then 0 else if s[0] == ':' then 0 else 1 + ColonAt(s[1..])
  }

  lemma {:induction false} ColonAtAfter(f: string, w: string)
    requires ':' !in f
    ensures ColonAt(f + ":" + w) == |f|
  {
    if f != [] {
      assert (f + ":" + w)[1..] == f[1..] + ":" + w;
      ColonAtAfter(f[1..], w);
    }
  }

  // ---------------------------------------------------------------------
  // Ids and fields

  /** getIds: the configured keys, else the row index column as an integer key. */
  function GetIds(c: Config): (r: Result<Assoc<string>, SourceError>)
    ensures r.Success? <==> c.keys != [] || TruthyOpt(c.rowIndexColumn)
    ensures r.Failure? ==> r.error == MissingRowIndexColumn
    ensures r.Success? ==> r.value != []
    ensures c.keys != [] ==> r.value == c.keys
    ensures c.keys == [] && r.Success? ==> r.value == [(c.rowIndexColumn.value, "integer")]
  {
    if c.keys == [] then
      if !TruthyOpt(c.rowIndexColumn) then Failure(MissingRowIndexColumn)
      else Success([(c.rowIndexColumn.value, "integer")])
    else Success(c.keys)
  }

  /** The field names before array_combine: the configured columns, else the header row, then the row index column. */
  function FieldNames(c: Config, headers: seq<string>): seq<string> {
    (if c.columns != [] then c.columns else headers)
      + if TruthyOpt(c.rowIndexColumn) then [c.rowIndexColumn.value] else []
  }

  /** The names are the columns (or the headers), in order, with the row index column last when it is set. */
  lemma FieldNamesOrder(c: Config, headers: seq<string>)
    ensures var names := FieldNames(c, headers);
      var base := if c.columns != [] then c.columns else headers;
      && names[..|base|] == base
      && (TruthyOpt(c.rowIndexColumn) ==> |names| == |base| + 1 && names[|base|] == c.rowIndexColumn.value)
      && (!TruthyOpt(c.rowIndexColumn) ==> names == base)
  {
  }

  /** array_combine: keys with values by position; a repeated key keeps its first place and its last value. */
  function Combine<V>(keys: seq<string>, values: seq<V>): (r: Result<Assoc<V>, SourceError>)
    ensures r.Success? <==> |keys| == |values|
    ensures r.Failure? ==> r.error == FieldCountMismatch(|keys|, |values|)
  {
    if |keys| != |values| then Failure(FieldCountMismatch(|keys|, |values|))
    else Success(PutAll(Zip(keys, values)))
  }

  predicate Distinct(names: seq<string>) {
    forall i, j :: 0 <= i < j < |names| ==> names[i] != names[j]
  }

  /** With distinct keys, array_combine is the positional pairing. */
  lemma CombineDistinct<V>(keys: seq<string>, values: seq<V>)
    requires Distinct(keys) && |keys| == |values|
    ensures Combine(keys, values) == Success(Zip(keys, values))
  {
    PutAllUnique(Zip(keys, values));
  }

  /** The list fields() returns: each name once, mapped to itself. */
  function FieldMap(names: seq<string>): Assoc<string> {
    Combine(names, names).value
  }

  /** fields() maps each name to itself, lists every name once, and lists only the given names. */
  lemma FieldMapShape(names: seq<string>)
    ensures var f := FieldMap(names);
      && UniqueKeys(f) && Distinct(Keys(f))
      && Values(f) == Keys(f)
      && forall x :: x in Keys(f) <==> x in names
  {
    var z := Zip(names, names);
    var f := FieldMap(names);
    PutAllShape(z);
    forall i | 0 <= i < |f| ensures f[i].0 == f[i].1 {
      assert f[i] in z;
    }
  }

  // ---------------------------------------------------------------------
  // The workbook

  /** The reader for a path: the file's workbook, or an error when no such file can be read. */
  function Load(files: map<string, Workbook>, path: Option<string>): Result<Workbook, SourceError> {
    if path.Some? && path.value in files then Success(files[path.value]) else Failure(UnreadableFile(path))
  }

  /** The position of the first sheet whose name is exactly `name`. */
  function FirstNamed(sheets: seq<Sheet>, name: Option<string>): (r: Option<nat>)
    ensures r.Some? ==> r.value < |sheets| && Some(sheets[r.value].name) == name
    ensures r.Some? ==> forall j :: 0 <= j < r.value ==> Some(sheets[j].name) != name
    ensures r.None? ==> forall j :: 0 <= j < |sheets| ==> Some(sheets[j].name) != name
    decreases |sheets|
  {
    if sheets == [] then None
    else if Some(sheets[0].name) == name then Some(0)
    else
      match FirstNamed(sheets[1..], name)
      case None => None
      case Some(j) => Some(j + 1)
  }

  /** getWorksheet: a CSV file's first sheet; otherwise the first sheet of the configured name. */
  function FindSheet(wb: Workbook, name: Option<string>): (r: Result<Sheet, SourceError>)
    ensures wb.format == Csv && wb.sheets != [] ==> r == Success(wb.sheets[0])
    ensures r.Failure? <==> !(wb.format == Csv && wb.sheets != []) && forall j :: 0 <= j < |wb.sheets| ==> Some(wb.sheets[j].name) != name
    ensures r.Failure? ==> r.error == WorksheetNotFound(name)
    ensures r.Success? && wb.format != Csv ==>
      exists j ::
        && 0 <= j < |wb.sheets| && r.value == wb.sheets[j] && Some(wb.sheets[j].name) == name
        && forall i :: 0 <= i < j ==> Some(wb.sheets[i].name) != name
  {
    if wb.format == Csv && wb.sheets != [] then Success(wb.sheets[0])
    else
      match FirstNamed(wb.sheets, name)
      case Some(j) => Success(wb.sheets[j])
      case None => Failure(WorksheetNotFound(name))
  }

  /** The position of the first row with index `index`. */
  function FirstRowAt(rows: seq<Row>, index: int): (r: Option<nat>)
    ensures r.Some? ==> r.value < |rows| && rows[r.value].index == index
    ensures r.Some? ==> forall j :: 0 <= j < r.value ==> rows[j].index != index
    ensures r.None? ==> forall j :: 0 <= j < |rows| ==> rows[j].index != index
    decreases |rows|
  {
    if rows == [] then None
    else if rows[0].index == index then Some(0)
    else
      match FirstRowAt(rows[1..], index)
      case None => None
      case Some(j) => Some(j + 1)
  }

  /** getHeaders: the cells of the first row at the header index. */
  function FindHeaders(rows: seq<Row>, headerRow: int): (r: Result<seq<string>, SourceError>)
    ensures r.Failure? <==> forall j :: 0 <= j < |rows| ==> rows[j].index != headerRow
    ensures r.Failure? ==> r.error == HeaderRowNotFound
    ensures r.Success? ==>
      exists j ::
        && 0 <= j < |rows| && rows[j].index == headerRow && r.value == rows[j].cells
        && forall i :: 0 <= i < j ==> rows[i].index != headerRow
  {
    match FirstRowAt(rows, headerRow)
    case Some(j) => Success(rows[j].cells)
    case None => Failure(HeaderRowNotFound)
  }

  /** The sheet the configuration selects in an opened (or failed) reader. */
  function SheetOf(book: Result<Workbook, SourceError>, c: Config): Result<Sheet, SourceError> {
    var wb :- book;
    FindSheet(wb, c.worksheet)
  }

  /** The header row of that sheet. */
  function HeadersOf(book: Result<Workbook, SourceError>, c: Config): Result<seq<string>, SourceError> {
    var sheet :- SheetOf(book, c);
    FindHeaders(sheet.rows, c.headerRow)
  }

  /** fields() when nothing is memoized yet. */
  function FieldsOf(book: Result<Workbook, SourceError>, c: Config): Result<Assoc<string>, SourceError> {
    if c.columns != [] then Success(FieldMap(FieldNames(c, [])))
    else
      var headers :- HeadersOf(book, c);
      Success(FieldMap(FieldNames(c, headers)))
  }

  // ---------------------------------------------------------------------
  // Records

  /** The values of a row's record: its cells, then its index when a row index column is set. */
  function RowValues(c: Config, row: Row): (vs: seq<Value>)
    ensures |vs| == |row.cells| + if TruthyOpt(c.rowIndexColumn) then 1 else 0
    ensures forall i :: 0 <= i < |row.cells| ==> vs[i] == Text(row.cells[i])
    ensures TruthyOpt(c.rowIndexColumn) ==> vs[|row.cells|] == Index(row.index)
  {
    seq(|row.cells|, i requires 0 <= i < |row.cells| => Text(row.cells[i]))
      + if TruthyOpt(c.rowIndexColumn) then [Index(row.index)] else []
  }

  /** The rows after the header row, in order (see DataRowsAppend). */
  function DataRows(rows: seq<Row>, headerRow: int): (r: seq<Row>)
    ensures |r| <= |rows|
    ensures forall x :: x in r <==> x in rows && x.index > headerRow
    decreases |rows|
  {
    if rows == [] then []
    else if rows[0].index <= headerRow then DataRows(rows[1..], headerRow)
    else [rows[0]] + DataRows(rows[1..], headerRow)
  }

  /**
   * Selecting data rows commutes with concatenation, so rows keep their
   * relative order: the data rows of an earlier part come first.
   */
  lemma {:induction false} DataRowsAppend(a: seq<Row>, b: seq<Row>, headerRow: int)
    ensures DataRows(a + b, headerRow) == DataRows(a, headerRow) + DataRows(b, headerRow)
    decreases |a|
  {
    if a == [] {
      assert a + b == b;
    } else {
      assert (a + b)[1..] == a[1..] + b;
      DataRowsAppend(a[1..], b, headerRow);
    }
  }

  /**
   * initializeIterator's generator over the sheet's rows, given what fields()
   * gives when it is first called (at the first row after the header).
   */
  function Records(c: Config, fields: Result<seq<string>, SourceError>, rows: seq<Row>): Emitted
    decreases |rows|
  {
    if rows == [] then Emitted([], None)
    else if rows[0].index <= c.headerRow then Records(c, fields, rows[1..])
    else
      match fields
      case Failure(e) => Emitted([], Some(e))
      case Success(names) =>
        match Combine(names, RowValues(c, rows[0]))
        case Failure(e) => Emitted([], Some(e))
        case Success(record) =>
          var rest := Records(c, fields, rows[1..]);
          Emitted([record] + rest.records, rest.error)
  }

  /** A row after the header whose value count matches the fields. */
  predicate Fits(c: Config, names: seq<string>, row: Row) {
    |RowValues(c, row)| == |names|
  }

  /** The first rows of `data`, one per record, fit the fields and are zipped with them. */
  predicate ZipsData(c: Config, names: seq<string>, records: seq<Record>, data: seq<Row>) {
    && |records| <= |data|
    && forall i :: 0 <= i < |records| ==>
         Fits(c, names, data[i]) && records[i] == Zip(names, RowValues(c, data[i]))
  }

  lemma ZipsDataCons(c: Config, names: seq<string>, records: seq<Record>, data: seq<Row>, row: Row)
    requires ZipsData(c, names, records, data) && Fits(c, names, row)
    ensures ZipsData(c, names, [Zip(names, RowValues(c, row))] + records, [row] + data)
  {
    var rs, ds := [Zip(names, RowValues(c, row))] + records, [row] + data;
    forall i | 1 <= i < |rs|
      ensures Fits(c, names, ds[i]) && rs[i] == Zip(names, RowValues(c, ds[i]))
    {
      assert rs[i] == records[i - 1] && ds[i] == data[i - 1];
    }
  }

  /** One row unfolded at the front of the generator and of the data rows. */
  lemma RecordsHead(c: Config, fields: Result<seq<string>, SourceError>, rows: seq<Row>)
    requires rows != []
    ensures var rest := Records(c, fields, rows[1..]);
      Records(c, fields, rows) ==
        if rows[0].index <= c.headerRow then rest
        else if fields.Failure? then Emitted([], Some(fields.error))
        else if !Fits(c, fields.value, rows[0]) then Emitted([], Some(FieldCountMismatch(|fields.value|, |RowValues(c, rows[0])|)))
        else Emitted([Combine(fields.value, RowValues(c, rows[0])).value] + rest.records, rest.error)
    ensures DataRows(rows, c.headerRow) ==
      if rows[0].index <= c.headerRow then DataRows(rows[1..], c.headerRow)
      else [rows[0]] + DataRows(rows[1..], c.headerRow)
  {
  }

  /**
   * With distinct field names, the records are the first rows after the
   * header row, in order, each zipped with the fields.
   */
  lemma {:induction false} RecordsOfDataRows(c: Config, names: seq<string>, rows: seq<Row>)
    requires Distinct(names)
    ensures ZipsData(c, names, Records(c, Success(names), rows).records, DataRows(rows, c.headerRow))
    ensures Records(c, Success(names), rows).error.None? ==>
      |Records(c, Success(names), rows).records| == |DataRows(rows, c.headerRow)|
    decreases |rows|
  {
    if rows != [] {
      RecordsOfDataRows(c, names, rows[1..]);
      RecordsHead(c, Success(names), rows);
      if rows[0].index > c.headerRow && Fits(c, names, rows[0]) {
        CombineDistinct(names, RowValues(c, rows[0]));
        ZipsDataCons(c, names, Records(c, Success(names), rows[1..]).records, DataRows(rows[1..], c.headerRow), rows[0]);
      }
    }
  }

  /**
   * How the generator ends over rows whose data rows are `data`: it runs to
   * the end exactly when every data row fits the fields; otherwise it stops
   * at the first one that does not, with a field count mismatch.
   */
  predicate EndsAtMisfit(c: Config, names: seq<string>, out: Emitted, data: seq<Row>) {
    && (out.error.None? <==> forall i :: 0 <= i < |data| ==> Fits(c, names, data[i]))
    && (out.error.None? ==> |out.records| == |data|)
    && (out.error.Some? ==>
          && |out.records| < |data| && !Fits(c, names, data[|out.records|])
          && (forall i :: 0 <= i < |out.records| ==> Fits(c, names, data[i]))
          && out.error.value == FieldCountMismatch(|names|, |RowValues(c, data[|out.records|])|))
  }

  lemma EndsAtMisfitCons(c: Config, names: seq<string>, out: Emitted, data: seq<Row>, row: Row, r: Record)
    requires EndsAtMisfit(c, names, out, data) && Fits(c, names, row)
    ensures EndsAtMisfit(c, names, Emitted([r] + out.records, out.error), [row] + data)
  {
    var ds := [row] + data;
    var rs := [r] + out.records;
    assert forall i :: 1 <= i < |ds| ==> ds[i] == data[i - 1];
    if forall i :: 0 <= i < |data| ==> Fits(c, names, data[i]) {
      forall i | 0 <= i < |ds| ensures Fits(c, names, ds[i]) {
        if i > 0 {
          assert ds[i] == data[i - 1];
        }
      }
    } else {
      var i :| 0 <= i < |data| && !Fits(c, names, data[i]);
      assert ds[i + 1] == data[i];
    }
    if out.error.Some? {
      assert ds[|rs|] == data[|out.records|];
    }
  }

  /**
   * The generator runs to the end exactly when every row after the header
   * fits the fields; otherwise it stops at the first row that does not.
   */
  lemma {:induction false} RecordsStopAtMisfit(c: Config, names: seq<string>, rows: seq<Row>)
    ensures EndsAtMisfit(c, names, Records(c, Success(names), rows), DataRows(rows, c.headerRow))
    decreases |rows|
  {
    if rows != [] {
      RecordsStopAtMisfit(c, names, rows[1..]);
      RecordsHead(c, Success(names), rows);
      if rows[0].index > c.headerRow {
        var data := DataRows(rows, c.headerRow);
        if Fits(c, names, rows[0]) {
          var rest := Records(c, Success(names), rows[1..]);
          EndsAtMisfitCons(c, names, rest, DataRows(rows[1..], c.headerRow), rows[0], Combine(names, RowValues(c, rows[0])).value);
        } else {
          assert data[0] == rows[0];
        }
      }
    }
  }

  /**
   * With the header at index 0 = ["title", "date"], no row index column and
   * two data rows, the records pair each row's cells with the header names.
   */
  lemma TitleDateScenario()
    ensures var c := Merge(NoOverrides);
      var rows := [Row(0, ["title", "date"]), Row(1, ["A", "2020"]), Row(2, ["B", "2021"])];
      && FieldNames(c, ["title", "date"]) == ["title", "date"]
      && Records(c, Success(["title", "date"]), rows)
        == Emitted([[("title", Text("A")), ("date", Text("2020"))], [("title", Text("B")), ("date", Text("2021"))]], None)
  {
    var c := Merge(NoOverrides);
    var names := ["title", "date"];
    var fields := Success(names);
    var r1, r2 := Row(1, ["A", "2020"]), Row(2, ["B", "2021"]);
    assert RowValues(c, r1) == [Text("A"), Text("2020")];
    assert RowValues(c, r2) == [Text("B"), Text("2021")];
    CombineDistinct(names, RowValues(c, r1));
    CombineDistinct(names, RowValues(c, r2));
    assert Records(c, fields, [r2]) == Emitted([Zip(names, RowValues(c, r2))], None);
    assert [r1, r2][1..] == [r2];
    assert Records(c, fields, [r1, r2]) == Emitted([Zip(names, RowValues(c, r1)), Zip(names, RowValues(c, r2))], None);
    var rows := [Row(0, ["title", "date"]), r1, r2];
    assert rows[1..] == [r1, r2];
    assert Zip(names, RowValues(c, r1)) == [("title", Text("A")), ("date", Text("2020"))];
    assert Zip(names, RowValues(c, r2)) == [("title", Text("B")), ("date", Text("2021"))];
  }

  // ---------------------------------------------------------------------
  // initializeIterator over a whole source

  function ToOption<T>(r: Result<T, SourceError>): Option<T> {
    match r
    case Success(v) => Some(v)
    case Failure(_) => None
  }

  /** The names fields() gives at the first data row: the memoized list, else one built now. */
  function FieldList(book: Result<Workbook, SourceError>, c: Config, memo: Option<Assoc<string>>): Result<seq<string>, SourceError> {
    var f :- if memo.Some? then Success(memo.value) else FieldsOf(book, c);
    Success(Values(f))
  }

  predicate HasDataRow(rows: seq<Row>, headerRow: int) {
    exists j :: 0 <= j < |rows| && rows[j].index > headerRow
  }

  /** What initializeIterator yields before it ends, and the error that ends it. */
  function Iterate(book: Result<Workbook, SourceError>, c: Config, memo: Option<Assoc<string>>): Emitted {
    match SheetOf(book, c)
    case Failure(e) => Emitted([], Some(e))
    case Success(sheet) => Records(c, FieldList(book, c, memo), sheet.rows)
  }

  /** The memoized field list after initializeIterator: built at the first data row, if there is one. */
  function MemoAfter(book: Result<Workbook, SourceError>, c: Config, memo: Option<Assoc<string>>): Option<Assoc<string>> {
    if memo.Some? then memo
    else
      match SheetOf(book, c)
      case Failure(_) => None
      case Success(sheet) => if HasDataRow(sheet.rows, c.headerRow) then ToOption(FieldsOf(book, c)) else None
  }

  /** Records from row `i` on, one row unfolded. */
  lemma RecordsAt(c: Config, fields: Result<seq<string>, SourceError>, rows: seq<Row>, i: int)
    requires 0 <= i < |rows|
    ensures var rest := Records(c, fields, rows[i + 1..]);
      Records(c, fields, rows[i..]) ==
        if rows[i].index <= c.headerRow then rest
        else if fields.Failure? then Emitted([], Some(fields.error))
        else if !Fits(c, fields.value, rows[i]) then Emitted([], Some(FieldCountMismatch(|fields.value|, |RowValues(c, rows[i])|)))
        else Emitted([Combine(fields.value, RowValues(c, rows[i])).value] + rest.records, rest.error)
  {
    assert rows[i..][1..] == rows[i + 1..];
  }

  /** Records already yielded, followed by what the rest of the rows yield. */
  function Join(yielded: seq<Record>, rest: Emitted): (r: Emitted)
    ensures r.error == rest.error && |r.records| == |yielded| + |rest.records|
  {
    Emitted(yielded + rest.records, rest.error)
  }

  /** A row at or before the header row yields nothing and is not a data row. */
  lemma RecordsSkip(c: Config, fields: Result<seq<string>, SourceError>, rows: seq<Row>, i: int, yielded: seq<Record>)
    requires 0 <= i < |rows| && rows[i].index <= c.headerRow
    requires Records(c, fields, rows) == Join(yielded, Records(c, fields, rows[i..]))
    ensures Records(c, fields, rows) == Join(yielded, Records(c, fields, rows[i + 1..]))
    ensures HasDataRow(rows[..i + 1], c.headerRow) == HasDataRow(rows[..i], c.headerRow)
  {
    RecordsAt(c, fields, rows, i);
    HasDataRowExtend(rows, c.headerRow, i);
  }

  /**
   * A row after the header row is a data row; it ends the records with the
   * error of `r`, or adds the record `r` holds.
   */
  lemma RecordsTake(c: Config, fields: Result<seq<string>, SourceError>, rows: seq<Row>, i: int, yielded: seq<Record>,
                    r: Result<Record, SourceError>)
    requires 0 <= i < |rows| && rows[i].index > c.headerRow
    requires Records(c, fields, rows) == Join(yielded, Records(c, fields, rows[i..]))
    requires r == if fields.Failure? then Failure(fields.error) else Combine(fields.value, RowValues(c, rows[i]))
    ensures r.Failure? ==> Records(c, fields, rows) == Emitted(yielded, Some(r.error))
    ensures r.Success? ==> Records(c, fields, rows) == Join(yielded + [r.value], Records(c, fields, rows[i + 1..]))
    ensures HasDataRow(rows[..i + 1], c.headerRow)
  {
    RecordsTakeHere(c, fields, rows, i, r);
    HasDataRowExtend(rows, c.headerRow, i);
    if r.Success? {
      JoinJoin(yielded, [r.value], Records(c, fields, rows[i + 1..]));
    } else {
      assert yielded + [] == yielded;
    }
  }

  /** The generator from a row after the header row: the error of `r`, or the record `r` holds and the rest. */
  lemma RecordsTakeHere(c: Config, fields: Result<seq<string>, SourceError>, rows: seq<Row>, i: int,
                        r: Result<Record, SourceError>)
    requires 0 <= i < |rows| && rows[i].index > c.headerRow
    requires r == if fields.Failure? then Failure(fields.error) else Combine(fields.value, RowValues(c, rows[i]))
    ensures Records(c, fields, rows[i..]) ==
      if r.Failure? then Emitted([], Some(r.error)) else Join([r.value], Records(c, fields, rows[i + 1..]))
  {
    var tail := rows[i..];
    assert tail[0] == rows[i] && tail[1..] == rows[i + 1..];
    RecordsHead(c, fields, tail);
  }

  lemma JoinJoin(a: seq<Record>, b: seq<Record>, rest: Emitted)
    ensures Join(a, Join(b, rest)) == Join(a + b, rest)
  {
    assert a + (b + rest.records) == (a + b) + rest.records;
  }

  lemma HasDataRowExtend(rows: seq<Row>, headerRow: int, i: int)
    requires 0 <= i < |rows|
    ensures HasDataRow(rows[..i + 1], headerRow) <==> HasDataRow(rows[..i], headerRow) || rows[i].index > headerRow
  {
    assert rows[..i + 1][i] == rows[i];
    assert forall j :: 0 <= j < i ==> rows[..i + 1][j] == rows[..i][j];
  }

  /** A freshly built field list never names a field twice, so records zip with it. */
  lemma FieldListDistinct(book: Result<Workbook, SourceError>, c: Config)
    requires FieldList(book, c, None).Success?
    ensures Distinct(FieldList(book, c, None).value)
  {
    var f := FieldsOf(book, c).value;
    var names := if c.columns != [] then FieldNames(c, []) else FieldNames(c, HeadersOf(book, c).value);
    FieldMapShape(names);
  }

  /** A field list as fields() builds it: each name once, mapped to itself. */
  predicate IsFieldMap(f: Assoc<string>) {
    UniqueKeys(f) && Values(f) == Keys(f)
  }

  /** Whatever fields() builds is a field map. */
  lemma FieldsOfIsFieldMap(book: Result<Workbook, SourceError>, c: Config)
    requires FieldsOf(book, c).Success?
    ensures IsFieldMap(FieldsOf(book, c).value)
  {
    var names := if c.columns != [] then FieldNames(c, []) else FieldNames(c, HeadersOf(book, c).value);
    FieldMapShape(names);
  }

  /** A field map's names are distinct, so the records over them zip each data row with them. */
  lemma RecordsOfFieldMap(c: Config, f: Assoc<string>, rows: seq<Row>)
    requires IsFieldMap(f)
    ensures Distinct(Values(f))
    ensures ZipsData(c, Values(f), Records(c, Success(Values(f)), rows).records, DataRows(rows, c.headerRow))
    ensures Records(c, Success(Values(f)), rows).error.None? ==>
      |Records(c, Success(Values(f)), rows).records| == |DataRows(rows, c.headerRow)|
  {
    forall i, j | 0 <= i < j < |f|
      ensures Values(f)[i] != Values(f)[j]
    {
      assert Values(f)[i] == Keys(f)[i] == f[i].0;
      assert Values(f)[j] == Keys(f)[j] == f[j].0;
    }
    RecordsOfDataRows(c, Values(f), rows);
  }

  // ---------------------------------------------------------------------
  // The reader property

  /**
   * The reader property of the class as the code leaves it: `unset` on a
   * typed property makes it uninitialised, which is neither null nor a reader.
   */
  datatype ReaderSlot = Uninitialised | Closed | Open(book: Workbook)

  /** openReader: the held reader, or the file opened; reading an uninitialised property throws. */
  function OpenReaderAt(slot: ReaderSlot, load: Result<Workbook, SourceError>): Result<(Workbook, ReaderSlot), SourceError> {
    match slot
    case Uninitialised => Failure(UninitialisedReader)
    case Open(book) => Success((book, slot))
    case Closed =>
      var book :- load;
      Success((book, Open(book)))
  }

  /** closeReader as written: an open reader is closed and the property unset. */
  function CloseReaderAsWritten(slot: ReaderSlot): Result<ReaderSlot, SourceError> {
    match slot
    case Uninitialised => Failure(UninitialisedReader)
    case Open(_) => Success(Uninitialised)
    case Closed => Success(Closed)
  }

  /** As written, closing a reader leaves a property that a second close, or an open, throws on. */
  lemma CloseAsWrittenBreaksReuse(book: Workbook, load: Result<Workbook, SourceError>)
    ensures CloseReaderAsWritten(Open(book)) == Success(Uninitialised)
    ensures CloseReaderAsWritten(Uninitialised).Failure?
    ensures OpenReaderAt(Uninitialised, load).Failure?
  {
  }

  /** closeReader as intended: an open reader is closed and the property set back to null. */
  function CloseReaderAt(slot: ReaderSlot): Result<ReaderSlot, SourceError> {
    match slot
    case Uninitialised => Failure(UninitialisedReader)
    case Open(_) => Success(Closed)
    case Closed => Success(Closed)
  }

  /**
   * As intended, closing always succeeds from a reachable state, a second
   * close does nothing, and opening afterwards opens the file again.
   */
  lemma CloseReaderReopens(slot: ReaderSlot, load: Result<Workbook, SourceError>)
    requires slot != Uninitialised
    ensures CloseReaderAt(slot) == Success(Closed)
    ensures CloseReaderAt(Closed) == Success(Closed)
    ensures OpenReaderAt(Closed, load) == if load.Success? then Success((load.value, Open(load.value))) else Failure(load.error)
  {
  }
}

/**
 * The isi_spreadsheet source plugin as an object: the configuration it was
 * given, the field list it memoizes and the reader it holds open. Each
 * method is proved to compute what the functions of Spreadsheet specify.
 */
module SpreadsheetSource {
  import opened Wrappers
  import opened Assoc
  import opened Php
  import opened Spreadsheet

  class Source {
    /** The configuration as given to the constructor or stored by setConfiguration. */
    var configuration: Overrides
    /** The memoized result of fields(). */
    var columns: Option<Assoc<string>>
    /** The open reader, if any. */
    var reader: Option<Workbook>
    /** The readable files, by path. */
    const files: map<string, Workbook>

    constructor(configuration: Overrides, files: map<string, Workbook>)
      ensures this.configuration == configuration && this.files == files
      ensures columns == None && reader == None
      ensures Valid()
    {
      this.configuration := configuration;
      this.files := files;
      columns := None;
      reader := None;
    }

    /** A memoized field list maps each of its names to itself, once. */
    ghost predicate Valid()
      reads this
    {
      columns.Some? ==> IsFieldMap(columns.value)
    }

    /** setConfiguration: store the supplied configuration merged over the defaults. */
    method SetConfiguration(o: Overrides)
      modifies this
      ensures configuration == Stored(o)
      ensures columns == old(columns) && reader == old(reader)
    {
      configuration := Stored(o);
    }

    /** getConfiguration. */
    function GetConfiguration(): Config
      reads this
    {
      Merge(configuration)
    }

    /** __toString. */
    function ToString(): string
      reads this
    {
      Describe(configuration)
    }

    /** getIds. */
    function GetIds(): Result<Assoc<string>, SourceError>
      reads this
    {
      Spreadsheet.GetIds(GetConfiguration())
    }

    /** The reader openReader gives in this state. */
    function Book(): Result<Workbook, SourceError>
      reads this
    {
      match reader
      case Some(wb) => Success(wb)
      case None => Load(files, GetConfiguration().file)
    }

    /** openReader: open the configured file unless a reader is already held, and return the reader. */
    method OpenReader() returns (r: Result<Workbook, SourceError>)
      modifies this
      ensures r == old(Book())
      ensures reader == ToOption(r)
      ensures configuration == old(configuration) && columns == old(columns)
    {
      if reader.None? {
        var loaded := Load(files, GetConfiguration().file);
        if loaded.Failure? {
          return loaded;
        }
        reader := Some(loaded.value);
      }
      r := Success(reader.value);
    }

    /** closeReader, as intended: close a held reader and hold none. */
    method CloseReader()
      modifies this
      ensures reader == None
      ensures configuration == old(configuration) && columns == old(columns)
    {
      if reader.Some? {
        reader := None;
      }
    }

    /** getWorksheet: a CSV file's first sheet, else the first sheet of the configured name. */
    method GetWorksheet() returns (r: Result<Sheet, SourceError>)
      modifies this
      ensures r == SheetOf(old(Book()), GetConfiguration())
      ensures reader == ToOption(old(Book()))
      ensures configuration == old(configuration) && columns == old(columns)
    {
      var loaded := OpenReader();
      if loaded.Failure? {
        return Failure(loaded.error);
      }
      var wb := loaded.value;
      if wb.format == Csv && wb.sheets != [] {
        return Success(wb.sheets[0]);
      }
      var name := GetConfiguration().worksheet;
      var again := OpenReader();
      var sheets := again.value.sheets;
      for i := 0 to |sheets|
        invariant forall j :: 0 <= j < i ==> Some(sheets[j].name) != name
      {
        if Some(sheets[i].name) == name {
          return Success(sheets[i]);
        }
      }
      r := Failure(WorksheetNotFound(name));
    }

    /** getHeaders: the cells of the first row at the header index. */
    method GetHeaders() returns (r: Result<seq<string>, SourceError>)
      modifies this
      ensures r == HeadersOf(old(Book()), GetConfiguration())
      ensures reader == ToOption(old(Book()))
      ensures configuration == old(configuration) && columns == old(columns)
    {
      var sheet := GetWorksheet();
      if sheet.Failure? {
        return Failure(sheet.error);
      }
      var rows := sheet.value.rows;
      var headerRow := GetConfiguration().headerRow;
      for i := 0 to |rows|
        invariant forall j :: 0 <= j < i ==> rows[j].index != headerRow
      {
        if rows[i].index == headerRow {
          return Success(rows[i].cells);
        }
      }
      r := Failure(HeaderRowNotFound);
    }

    /**
     * fields: the memoized list, or the configured columns (else the header
     * row) plus the row index column, each name mapped to itself, memoized.
     */
    method Fields() returns (r: Result<Assoc<string>, SourceError>)
      requires Valid()
      modifies this
      ensures Valid()
      ensures old(columns).Some? ==> r == Success(old(columns).value) && reader == old(reader)
      ensures old(columns).None? ==> r == FieldsOf(old(Book()), GetConfiguration())
      ensures old(columns).None? ==>
        reader == if GetConfiguration().columns != [] then old(reader) else ToOption(old(Book()))
      ensures columns == if old(columns).Some? then old(columns) else ToOption(r)
      ensures configuration == old(configuration)
    {
      if columns.None? {
        ghost var book := Book();
        var c := GetConfiguration();
        var names := c.columns;
        ghost var headers := [];
        if names == [] {
          var found := GetHeaders();
          if found.Failure? {
            return Failure(found.error);
          }
          names := found.value;
          headers := found.value;
          assert HeadersOf(book, c) == Success(headers);
        }
        if TruthyOpt(c.rowIndexColumn) {
          names := names + [c.rowIndexColumn.value];
        }
        assert names == FieldNames(c, headers);
        var combined := Combine(names, names);
        columns := Some(combined.value);
        assert FieldsOf(book, c) == Success(FieldMap(names));
        FieldMapShape(names);
      }
      r := Success(columns.value);
    }

    /**
     * initializeIterator: every row after the header row, in order, as a
     * record of the fields and the row's values; the first error ends it.
     */
    method InitializeIterator() returns (out: Emitted)
      requires Valid()
      modifies this
      ensures Valid()
      ensures out == Iterate(old(Book()), GetConfiguration(), old(columns))
      ensures columns == MemoAfter(old(Book()), GetConfiguration(), old(columns))
      ensures reader == ToOption(old(Book()))
      ensures configuration == old(configuration)
    {
      var sheet := GetWorksheet();
      if sheet.Failure? {
        return Emitted([], Some(sheet.error));
      }
      var c := GetConfiguration();
      ghost var fields := FieldList(Book(), c, columns);
      ghost var memo := if columns.Some? then columns else ToOption(FieldsOf(Book(), c));
      if columns.None? && FieldsOf(Book(), c).Success? {
        FieldsOfIsFieldMap(Book(), c);
      }
      out := EmitRows(c, sheet.value.rows, fields, memo);
    }

    /**
     * An open reader under configuration `c`, where `fields` is what fields()
     * gives and `memo` what it leaves memoized.
     */
    ghost predicate Ready(c: Config, fields: Result<seq<string>, SourceError>, memo: Option<Assoc<string>>)
      reads this
    {
      && reader.Some?
      && c == GetConfiguration()
      && (columns.None? ==> fields == FieldList(Book(), c, None) && memo == ToOption(FieldsOf(Book(), c)))
      && (columns.Some? ==> columns == memo && fields == Success(Values(columns.value)))
      && (memo.Some? ==> IsFieldMap(memo.value))
    }

    /**
     * The loop of initializeIterator over the selected sheet's rows;
     * `fields` and `memo` are what fields() returns and memoizes when first
     * called.
     */
    method EmitRows(c: Config, rows: seq<Row>, ghost fields: Result<seq<string>, SourceError>, ghost memo: Option<Assoc<string>>)
      returns (out: Emitted)
      requires Ready(c, fields, memo)
      modifies this
      ensures out == Records(c, fields, rows)
      ensures columns == if HasDataRow(rows, c.headerRow) then memo else old(columns)
      ensures reader == old(reader) && configuration == old(configuration)
      ensures Valid()
    {
      var records := [];
      for i := 0 to |rows|
        invariant Ready(c, fields, memo)
        invariant reader == old(reader) && configuration == old(configuration)
        invariant columns == if HasDataRow(rows[..i], c.headerRow) then memo else old(columns)
        invariant Records(c, fields, rows) == Join(records, Records(c, fields, rows[i..]))
      {
        if rows[i].index <= c.headerRow {
          RecordsSkip(c, fields, rows, i, records);
          continue;
        }
        var record := NextRecord(c, rows[i], fields, memo);
        RecordsTake(c, fields, rows, i, records, record);
        if record.Failure? {
          return Emitted(records, Some(record.error));
        }
        records := records + [record.value];
      }
      assert rows[..|rows|] == rows && rows[|rows|..] == [];
      out := Emitted(records, None);
    }

    /** The body of initializeIterator's loop for a row after the header: fields(), then array_combine. */
    method NextRecord(c: Config, row: Row, ghost fields: Result<seq<string>, SourceError>, ghost memo: Option<Assoc<string>>)
      returns (r: Result<Record, SourceError>)
      requires Ready(c, fields, memo)
      modifies this
      ensures Ready(c, fields, memo)
      ensures r == if fields.Failure? then Failure(fields.error) else Combine(fields.value, RowValues(c, row))
      ensures columns == memo
      ensures reader == old(reader) && configuration == old(configuration)
      ensures Valid()
    {
      var values := RowValues(c, row);
      var f := Fields();
      if f.Failure? {
        return Failure(f.error);
      }
      r := Combine(Values(f.value), values);
    }
  }
}

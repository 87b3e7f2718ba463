/**
 * The partition writer of `split_files` for one input file: every row that passes the file's
 * filters and is not a copy of the header line is written, `rows_count` data rows to a
 * partition, each partition opening with the header line when headers are known and wanted.
 */
module ChunkWriter {
  import opened Common
  import opened Structurer
  import opened Evaluator
  import opened Partitions
  import opened SplitLoop

  /** `range(n)` as column keys. */
  function Indices(n: nat): (r: seq<Atom>)
    ensures |r| == n && forall j :: 0 <= j < n ==> r[j] == Index(j)
  {
    seq(n, j requires 0 <= j < n => Index(j))
  }

  /** The `row_data` dictionary: cells keyed by header name, or by position when the file has no headers. */
  function RowData(headers: seq<string>, row: Row): map<Atom, Value>
  {
    ZipMap(if headers != [] then Words(headers) else Indices(|row|), row)
  }

  /** Without headers, the key `N` of a filter reads the row's cell at position `N`. */
  lemma RowDataByPosition(row: Row, j: nat)
    requires j < |row|
    ensures Index(j) in RowData([], row) && RowData([], row)[Index(j)] == row[j]
  {
    ZipMapDistinct(Indices(|row|), row, j);
  }

  /** With distinct headers, the key of a header reads the row's cell under it. */
  lemma RowDataByName(headers: seq<string>, row: Row, j: nat)
    requires j < |headers| && j < |row|
    requires forall a, b :: 0 <= a < b < |headers| ==> headers[a] != headers[b]
    ensures Word(headers[j]) in RowData(headers, row) && RowData(headers, row)[Word(headers[j])] == row[j]
  {
    ZipMapDistinct(Words(headers), row, j);
  }

  /** `validate_by_filters(row_data, filters)` as a test of one row. */
  function RowTest(headers: seq<string>, filters: seq<(Atom, seq<Piece>)>, parse: string -> Option<real>): Row -> Result<bool>
  {
    row => Validate(RowData(headers, row), filters, parse)
  }

  /** The rows `split_files` writes for one file, over all of its partitions. */
  function Accepted(rows: seq<Row>, headers: seq<string>, filters: seq<(Atom, seq<Piece>)>, parse: string -> Option<real>): Result<seq<Row>>
  {
    Filtered(rows, |rows|, filters != [], RowTest(headers, filters, parse), TextRow(headers))
  }

  /** The rows written, or the exception raised, once the first `k` rows of a file are read. */
  function AcceptedUpTo(rows: seq<Row>, k: nat, headers: seq<string>, filters: seq<(Atom, seq<Piece>)>, parse: string -> Option<real>): Result<seq<Row>>
    requires k <= |rows|
  {
    Filtered(rows, k, filters != [], RowTest(headers, filters, parse), TextRow(headers))
  }

  /** The rows written for a file are those that pass its filters and are not its header line. */
  lemma AcceptedRows(rows: seq<Row>, headers: seq<string>, filters: seq<(Atom, seq<Piece>)>, parse: string -> Option<real>)
    requires Accepted(rows, headers, filters, parse).Ok?
    ensures forall r :: r in Accepted(rows, headers, filters, parse).value ==>
              r in rows && r != TextRow(headers) && (filters == [] || Validate(RowData(headers, r), filters, parse) == Ok(true))
    ensures forall r :: r in rows && r != TextRow(headers) && (filters == [] || Validate(RowData(headers, r), filters, parse) == Ok(true)) ==>
              r in Accepted(rows, headers, filters, parse).value
  {
    var test := RowTest(headers, filters, parse);
    FilteredRows(rows, |rows|, filters != [], test, TextRow(headers));
    FilteredWithin(rows, |rows|, filters != [], test, TextRow(headers));
    forall r | r in rows && r != TextRow(headers) && (filters == [] || Validate(RowData(headers, r), filters, parse) == Ok(true))
      ensures r in Accepted(rows, headers, filters, parse).value
    {
      var j :| 0 <= j < |rows| && rows[j] == r;
      assert filters == [] || test(rows[j]) == Ok(true);
    }
  }

  /** Without filters, every row but copies of the header line is written, in order. */
  lemma NoFiltersKeepsRows(rows: seq<Row>, headers: seq<string>, parse: string -> Option<real>)
    ensures Accepted(rows, headers, [], parse).Ok?
    ensures forall r :: r in Accepted(rows, headers, [], parse).value <==> r in rows && r != TextRow(headers)
    ensures TextRow(headers) !in rows ==> Accepted(rows, headers, [], parse) == Ok(rows)
  {
    UnfilteredKeeps(rows, |rows|, RowTest(headers, [], parse), TextRow(headers));
    assert rows[..|rows|] == rows;
  }

  /**
   * The loop of `split_files` over the rows of one file. A new partition opens when the number
   * of rows written so far is a multiple of `rows_count`, unless the previous row was not
   * written. The file's partitions come back in order, each as the lines written to it.
   */
  method SplitFile(rows: seq<Row>, headers: seq<string>, filters: seq<(Atom, seq<Piece>)>, rowsCount: nat,
                   addHeaders: bool, parse: string -> Option<real>)
    returns (parts: seq<seq<Row>>, fault: Option<Fault>)
    requires rowsCount > 0
    ensures parts == [] <==> rows == []
    ensures forall p :: 0 <= p < |parts| ==>
              |Lead(headers, addHeaders)| <= |parts[p]| && parts[p][..|Lead(headers, addHeaders)|] == Lead(headers, addHeaders)
    ensures forall p :: 0 <= p < |parts| - 1 ==> |parts[p]| == |Lead(headers, addHeaders)| + rowsCount
    ensures parts != [] ==> |parts[|parts| - 1]| <= |Lead(headers, addHeaders)| + rowsCount
    ensures fault == None <==> Accepted(rows, headers, filters, parse).Ok?
    ensures fault != None ==> fault == Some(Accepted(rows, headers, filters, parse).fault)
    ensures fault == None ==> Flat(Bodies(parts, |Lead(headers, addHeaders)|)) == Accepted(rows, headers, filters, parse).value
    ensures fault == None && parts != [] && |parts[|parts| - 1]| == |Lead(headers, addHeaders)| ==>
              |Accepted(rows, headers, filters, parse).value| == rowsCount * (|parts| - 1)
    ensures fault == None && rows != [] ==>
              (|parts[|parts| - 1]| == |Lead(headers, addHeaders)| <==>
               |Accepted(rows, headers, filters, parse).value| % rowsCount == 0 &&
               Accepted(rows[..|rows| - 1], headers, filters, parse) == Accepted(rows, headers, filters, parse))
    ensures fault != None ==>
              exists i :: 0 <= i < |rows| && AcceptedUpTo(rows, i, headers, filters, parse) == Ok(Flat(Bodies(parts, |Lead(headers, addHeaders)|)))
                          && AcceptedUpTo(rows, i + 1, headers, filters, parse) == Err(fault.value)
    ensures fault != None ==>
              parts != [] && (|parts[|parts| - 1]| == |Lead(headers, addHeaders)| <==>
                              |Flat(Bodies(parts, |Lead(headers, addHeaders)|))| % rowsCount == 0)
  {
    parts, fault := WriteParts(rows, TextRow(headers), filters != [], RowTest(headers, filters, parse),
                               Lead(headers, addHeaders), rowsCount);
    if rows != [] {
      AcceptedPrefix(rows, |rows| - 1, headers, filters, parse);
    }
    if fault != None {
      RaisedAt(rows, headers, filters, parse, filters != [], RowTest(headers, filters, parse), Flat(Bodies(parts, |Lead(headers, addHeaders)|)), fault.value);
    }
  }

  /** The loop's account of the raising row, in terms of the rows of the file. */
  lemma RaisedAt(rows: seq<Row>, headers: seq<string>, filters: seq<(Atom, seq<Piece>)>, parse: string -> Option<real>,
                 filtered: bool, test: Row -> Result<bool>, written: seq<Row>, f: Fault)
    requires filtered == (filters != []) && test == RowTest(headers, filters, parse)
    requires exists i :: 0 <= i < |rows| && Filtered(rows, i, filtered, test, TextRow(headers)) == Ok(written)
                         && Filtered(rows, i + 1, filtered, test, TextRow(headers)) == Err(f)
    ensures exists i :: 0 <= i < |rows| && AcceptedUpTo(rows, i, headers, filters, parse) == Ok(written)
                        && AcceptedUpTo(rows, i + 1, headers, filters, parse) == Err(f)
  {
    var i :| 0 <= i < |rows| && Filtered(rows, i, filtered, test, TextRow(headers)) == Ok(written)
             && Filtered(rows, i + 1, filtered, test, TextRow(headers)) == Err(f);
    assert AcceptedUpTo(rows, i, headers, filters, parse) == Ok(written);
    assert AcceptedUpTo(rows, i + 1, headers, filters, parse) == Err(f);
  }

  /**
   * The rows written once the first `k` rows are read are those written for the file cut after
   * them, and so is the exception raised while reading them.
   */
  lemma AcceptedPrefix(rows: seq<Row>, k: nat, headers: seq<string>, filters: seq<(Atom, seq<Piece>)>, parse: string -> Option<real>)
    requires k <= |rows|
    ensures Accepted(rows[..k], headers, filters, parse) == AcceptedUpTo(rows, k, headers, filters, parse)
  {
    PrefixAgrees(rows[..k], rows, k, filters != [], RowTest(headers, filters, parse), TextRow(headers));
  }

}

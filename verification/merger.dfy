/**
 * `unite_files`: the rows of several files are written one after another to a single output,
 * preceded by a header line. In the modes where each file's first row names its columns, every
 * later row is rearranged under the output's headers by column name; otherwise rows are only cut
 * to the width of the headers.
 */
module Merger {
  import opened Common

  /** Python's `row[:len(headers)]` unless the row fits or there are no headers. */
  function Fit(row: Row, headers: Row, noHeaders: bool): (r: Row)
    ensures r <= row
    ensures noHeaders || |r| <= |headers|
    ensures |row| <= |headers| || noHeaders ==> r == row
  {
    if |row| <= |headers| || noHeaders then row else row[..|headers|]
  }

  /**
   * `[data.get(key) for key in headers]` where `data` pairs the file's own headers with the row's
   * cells (the later of two equal file headers wins); a column the file lacks comes out empty.
   */
  function Align(fileHeaders: Row, row: Row, headers: Row): (r: Row)
    ensures |r| == |headers|
  {
    var data := ZipMap(fileHeaders, row);
    seq(|headers|, k requires 0 <= k < |headers| => if headers[k] in data then data[headers[k]] else Empty)
  }

  /** Whether a file's first row is its header line and its later rows are rearranged by name. */
  predicate Realigned(filename: string, headersFilename: string, noHeaders: bool)
  {
    !noHeaders && (headersFilename == "" || filename == headersFilename)
  }

  /** The header line of the output: the first row of `headers_filename`, or of the first file when none is named. */
  function HeaderLine(headersFilename: string, filenames: seq<string>, read: string -> seq<Row>, noHeaders: bool): (r: Result<Row>)
    ensures noHeaders ==> r == Ok([])
    ensures !noHeaders && headersFilename != "" ==>
              r == if read(headersFilename) == [] then Err(StopIteration) else Ok(read(headersFilename)[0])
    ensures !noHeaders && headersFilename == "" ==>
              r == if filenames == [] then Err(IndexError)
                   else if read(filenames[0]) == [] then Err(StopIteration) else Ok(read(filenames[0])[0])
  {
    if noHeaders then Ok([])
    else if headersFilename == "" && filenames == [] then Err(IndexError)
    else
      var source := if headersFilename != "" then headersFilename else filenames[0];
      if read(source) == [] then Err(StopIteration) else Ok(read(source)[0])
  }

  /** The line written for row `j` of a file. */
  function Line(rows: seq<Row>, j: nat, headers: Row, realign: bool, noHeaders: bool): Row
    requires j < |rows|
  {
    Fit(if realign then Align(rows[0], rows[j], headers) else rows[j], headers, noHeaders)
  }

  /** The lines written for the first `k` rows of one file; a realigned file's first row is not written. */
  function FileLinesUpTo(rows: seq<Row>, k: nat, headers: Row, realign: bool, noHeaders: bool): seq<Row>
    requires k <= |rows|
    decreases k
  {
    if k == 0 then []
    else FileLinesUpTo(rows, k - 1, headers, realign, noHeaders)
         + (if realign && k == 1 then [] else [Line(rows, k - 1, headers, realign, noHeaders)])
  }

  function FileLines(rows: seq<Row>, headers: Row, realign: bool, noHeaders: bool): seq<Row>
  {
    FileLinesUpTo(rows, |rows|, headers, realign, noHeaders)
  }

  /** The lines written for the first `m` files. */
  function FilesUpTo(filenames: seq<string>, m: nat, read: string -> seq<Row>, headersFilename: string, headers: Row, noHeaders: bool): seq<Row>
    requires m <= |filenames|
    decreases m
  {
    if m == 0 then []
    else FilesUpTo(filenames, m - 1, read, headersFilename, headers, noHeaders)
         + FileLines(read(filenames[m - 1]), headers, Realigned(filenames[m - 1], headersFilename, noHeaders), noHeaders)
  }

  /** The whole output: the header line when it is not empty, then every file's lines in order. */
  function United(headersFilename: string, filenames: seq<string>, read: string -> seq<Row>, noHeaders: bool): Result<seq<Row>>
  {
    match HeaderLine(headersFilename, filenames, read, noHeaders)
    case Err(f) => Err(f)
    case Ok(headers) =>
      Ok((if headers != [] then [headers] else [])
         + FilesUpTo(filenames, |filenames|, read, headersFilename, headers, noHeaders))
  }

  /** The loops of `unite_files`; `read` stands for the contents of the named files. */
  method UniteFiles(headersFilename: string, filenames: seq<string>, read: string -> seq<Row>, noHeaders: bool)
    returns (r: Result<seq<Row>>)
    ensures r == United(headersFilename, filenames, read, noHeaders)
  {
    var header := ReadHeaderLine(headersFilename, filenames, read, noHeaders);
    if header.Err? {
      return Err(header.fault);
    }
    var headers := header.value;
    var out := WriteFiles(filenames, read, headersFilename, headers, !noHeaders && headersFilename == "", noHeaders);
    r := Ok((if headers != [] then [headers] else []) + out);
  }

  /** Lines 304-308 of `unite_files`: the header line, read from `headers_filename` or the first file. */
  method ReadHeaderLine(headersFilename: string, filenames: seq<string>, read: string -> seq<Row>, noHeaders: bool)
    returns (r: Result<Row>)
    ensures r == HeaderLine(headersFilename, filenames, read, noHeaders)
  {
    if noHeaders {
      return Ok([]);
    }
    var source;
    if headersFilename != "" {
      source := headersFilename;
    } else if filenames == [] {
      return Err(IndexError);
    } else {
      source := filenames[0];
    }
    if read(source) == [] {
      return Err(StopIteration);
    }
    r := Ok(read(source)[0]);
  }

  /** The loop over the files, each written after the lines of the files before it. */
  method WriteFiles(filenames: seq<string>, read: string -> seq<Row>, headersFilename: string, headers: Row, skip: bool, noHeaders: bool)
    returns (out: seq<Row>)
    requires skip == (!noHeaders && headersFilename == "")
    ensures out == FilesUpTo(filenames, |filenames|, read, headersFilename, headers, noHeaders)
  {
    out := [];
    var f := 0;
    while f < |filenames|
      invariant 0 <= f <= |filenames|
      invariant out == FilesUpTo(filenames, f, read, headersFilename, headers, noHeaders)
    {
      var lines := UniteFile(filenames[f], read(filenames[f]), headersFilename, headers, skip, noHeaders);
      out := out + lines;
      f := f + 1;
    }
  }

  /** The rows of one file as they are written to the output. */
  method UniteFile(filename: string, rows: seq<Row>, headersFilename: string, headers: Row, skip: bool, noHeaders: bool)
    returns (lines: seq<Row>)
    requires skip == (!noHeaders && headersFilename == "")
    ensures lines == FileLines(rows, headers, Realigned(filename, headersFilename, noHeaders), noHeaders)
  {
    ghost var realign := Realigned(filename, headersFilename, noHeaders);
    lines := [];
    var fileHeaders: Row := [];
    var i := 0;
    while i < |rows|
      invariant 0 <= i <= |rows|
      invariant lines == FileLinesUpTo(rows, i, headers, realign, noHeaders)
      invariant realign && i > 0 ==> fileHeaders == rows[0]
    {
      var row := rows[i];
      if !noHeaders && (skip || filename == headersFilename) {
        if i == 0 {
          fileHeaders := row;
          i := i + 1;
          continue;
        }
        row := Align(fileHeaders, row, headers);
      }
      row := if |row| <= |headers| || noHeaders then row else row[..|headers|];
      lines := lines + [row];
      i := i + 1;
    }
  }

  /** A column the file has, under distinct file headers, takes the row's cell in that column. */
  lemma AlignByName(fileHeaders: Row, row: Row, headers: Row, k: nat, j: nat)
    requires k < |headers| && j < |fileHeaders| && j < |row| && fileHeaders[j] == headers[k]
    requires forall a, b :: 0 <= a < b < |fileHeaders| ==> fileHeaders[a] != fileHeaders[b]
    ensures Align(fileHeaders, row, headers)[k] == row[j]
  {
    ZipMapDistinct(fileHeaders, row, j);
  }

  /** A column the row has no cell for comes out empty. */
  lemma AlignMissing(fileHeaders: Row, row: Row, headers: Row, k: nat)
    requires k < |headers|
    requires forall j :: 0 <= j < |fileHeaders| && j < |row| ==> fileHeaders[j] != headers[k]
    ensures Align(fileHeaders, row, headers)[k] == Empty
  {
    ZipMapKeys(fileHeaders, row);
  }

  /** A row laid out under the output's own distinct headers, with one cell per header, is unchanged. */
  lemma AlignIdentity(headers: Row, row: Row)
    requires |row| == |headers|
    requires forall a, b :: 0 <= a < b < |headers| ==> headers[a] != headers[b]
    ensures Align(headers, row, headers) == row
  {
    forall k | 0 <= k < |headers|
      ensures Align(headers, row, headers)[k] == row[k]
    {
      AlignByName(headers, row, headers, k, k);
    }
  }

  /** A file that is not realigned contributes every row, in order, cut to the width of the headers. */
  lemma {:induction false} PlainLines(rows: seq<Row>, k: nat, headers: Row, noHeaders: bool)
    requires k <= |rows|
    ensures FileLinesUpTo(rows, k, headers, false, noHeaders) == seq(k, j requires 0 <= j < k => Fit(rows[j], headers, noHeaders))
    decreases k
  {
    if k > 0 {
      PlainLines(rows, k - 1, headers, noHeaders);
    }
  }

  /** A realigned file contributes every row after its header line, laid out under the output's headers. */
  lemma {:induction false} RealignedLines(rows: seq<Row>, k: nat, headers: Row)
    requires 1 <= k <= |rows|
    ensures FileLinesUpTo(rows, k, headers, true, false) == seq(k - 1, j requires 0 <= j < k - 1 => Align(rows[0], rows[j + 1], headers))
    decreases k
  {
    if k > 1 {
      RealignedLines(rows, k - 1, headers);
    }
  }

  /** The rows of the first `m` files, one after another. */
  function Concat(filenames: seq<string>, m: nat, read: string -> seq<Row>): seq<Row>
    requires m <= |filenames|
  {
    if m == 0 then [] else Concat(filenames, m - 1, read) + read(filenames[m - 1])
  }

  /** The rows of the first `m` files without their first rows. */
  function DataRows(filenames: seq<string>, m: nat, read: string -> seq<Row>): seq<Row>
    requires m <= |filenames|
  {
    if m == 0 then []
    else DataRows(filenames, m - 1, read) + (if read(filenames[m - 1]) == [] then [] else read(filenames[m - 1])[1..])
  }

  /** With `no_headers`, no header line is written and every row of every file passes unchanged. */
  lemma NoHeadersPassThrough(headersFilename: string, filenames: seq<string>, read: string -> seq<Row>)
    ensures United(headersFilename, filenames, read, true) == Ok(Concat(filenames, |filenames|, read))
  {
    assert HeaderLine(headersFilename, filenames, read, true) == Ok([]);
    NoHeadersFiles(headersFilename, filenames, |filenames|, read);
    assert [] + Concat(filenames, |filenames|, read) == Concat(filenames, |filenames|, read);
  }

  lemma {:induction false} NoHeadersFiles(headersFilename: string, filenames: seq<string>, m: nat, read: string -> seq<Row>)
    requires m <= |filenames|
    ensures FilesUpTo(filenames, m, read, headersFilename, [], true) == Concat(filenames, m, read)
    decreases m
  {
    if m > 0 {
      NoHeadersFiles(headersFilename, filenames, m - 1, read);
      var rows := read(filenames[m - 1]);
      PlainLines(rows, |rows|, [], true);
      assert FileLines(rows, [], false, true) == rows;
    }
  }

  /**
   * When no header file is named and every file opens with the same distinct header line and
   * has that many cells in every later row, the output is that header line once, then every
   * file's data rows in order.
   */
  lemma SameHeaders(filenames: seq<string>, read: string -> seq<Row>, headers: Row)
    requires filenames != [] && headers != []
    requires forall a, b :: 0 <= a < b < |headers| ==> headers[a] != headers[b]
    requires forall f :: f in filenames ==> read(f) != [] && read(f)[0] == headers
    requires forall f, j :: f in filenames && 0 <= j < |read(f)| ==> |read(f)[j]| == |headers|
    ensures United("", filenames, read, false) == Ok([headers] + DataRows(filenames, |filenames|, read))
  {
    SameHeadersFiles(filenames, |filenames|, read, headers);
  }

  lemma {:induction false} SameHeadersFiles(filenames: seq<string>, m: nat, read: string -> seq<Row>, headers: Row)
    requires m <= |filenames|
    requires forall a, b :: 0 <= a < b < |headers| ==> headers[a] != headers[b]
    requires forall f :: f in filenames ==> read(f) != [] && read(f)[0] == headers
    requires forall f, j :: f in filenames && 0 <= j < |read(f)| ==> |read(f)[j]| == |headers|
    ensures FilesUpTo(filenames, m, read, "", headers, false) == DataRows(filenames, m, read)
    decreases m
  {
    if m > 0 {
      SameHeadersFiles(filenames, m - 1, read, headers);
      var f := filenames[m - 1];
      var rows := read(f);
      assert f in filenames;
      RealignedLines(rows, |rows|, headers);
      forall j | 0 <= j < |rows| - 1
        ensures Align(rows[0], rows[j + 1], headers) == rows[1..][j]
      {
        assert rows[j + 1] in rows;
        AlignIdentity(headers, rows[j + 1]);
      }
      assert FileLines(rows, headers, true, false) == rows[1..];
    }
  }

  /** Columns are matched by name, whatever their order in the file, and a missing one is empty. */
  lemma ColumnsByName()
    ensures Align([Text("b"), Text("a")], [Text("2"), Text("1")], [Text("a"), Text("b"), Text("c")])
            == [Text("1"), Text("2"), Empty]
  {
    var fh, row, hs := [Text("b"), Text("a")], [Text("2"), Text("1")], [Text("a"), Text("b"), Text("c")];
    AlignByName(fh, row, hs, 0, 1);
    AlignByName(fh, row, hs, 1, 0);
    AlignMissing(fh, row, hs, 2);
  }
}

/**
 * The row loop of `split_files` for one file, for any row test: which rows are written, and
 * how they are laid out over partitions of `rows_count` rows each.
 */
module SplitLoop {
  import opened Common
  import opened Partitions

  /**
   * The rows among the first `k` that are written, or the exception of the first row whose test
   * raises: a row is written when it passes the test (every row passes when there are no filters)
   * and is not a copy of the header line.
   */
  function Filtered(rows: seq<Row>, k: nat, filtered: bool, test: Row -> Result<bool>, header: Row): Result<seq<Row>>
    requires k <= |rows|
    decreases k
  {
    if k == 0 then Ok([])
    else match Filtered(rows, k - 1, filtered, test, header)
      case Err(f) => Err(f)
      case Ok(w) =>
        match (if filtered then test(rows[k - 1]) else Ok(true))
        case Err(f) => Err(f)
        case Ok(b) => if b && rows[k - 1] != header then Ok(w + [rows[k - 1]]) else Ok(w)
  }

  lemma {:induction false} FilteredFaultStays(rows: seq<Row>, i: nat, k: nat, filtered: bool, test: Row -> Result<bool>, header: Row)
    requires i <= k <= |rows| && Filtered(rows, i, filtered, test, header).Err?
    ensures Filtered(rows, k, filtered, test, header) == Filtered(rows, i, filtered, test, header)
    decreases k
  {
    if k > i {
      FilteredFaultStays(rows, i, k - 1, filtered, test, header);
    }
  }

  /**
   * When no test raises, the rows written are exactly those that pass and are not the header
   * line, and no test raised on any of them.
   */
  lemma {:induction false} FilteredRows(rows: seq<Row>, k: nat, filtered: bool, test: Row -> Result<bool>, header: Row)
    requires k <= |rows| && Filtered(rows, k, filtered, test, header).Ok?
    ensures filtered ==> forall j :: 0 <= j < k ==> test(rows[j]).Ok?
    ensures forall r :: r in Filtered(rows, k, filtered, test, header).value ==> r != header && (!filtered || test(r) == Ok(true))
    ensures forall j :: 0 <= j < k && rows[j] != header && (!filtered || test(rows[j]) == Ok(true)) ==>
              rows[j] in Filtered(rows, k, filtered, test, header).value
    decreases k
  {
    if k > 0 {
      FilteredRows(rows, k - 1, filtered, test, header);
    }
  }

  /** Without filters, the first `k` rows are written except copies of the header line, in order. */
  lemma {:induction false} UnfilteredKeeps(rows: seq<Row>, k: nat, test: Row -> Result<bool>, header: Row)
    requires k <= |rows|
    ensures Filtered(rows, k, false, test, header).Ok?
    ensures forall r :: r in Filtered(rows, k, false, test, header).value <==> r in rows[..k] && r != header
    ensures header !in rows[..k] ==> Filtered(rows, k, false, test, header) == Ok(rows[..k])
    decreases k
  {
    if k > 0 {
      UnfilteredKeeps(rows, k - 1, test, header);
      assert rows[..k] == rows[..k - 1] + [rows[k - 1]];
    }
  }

  /** Only rows of the file are written. */
  lemma {:induction false} FilteredWithin(rows: seq<Row>, k: nat, filtered: bool, test: Row -> Result<bool>, header: Row)
    requires k <= |rows| && Filtered(rows, k, filtered, test, header).Ok?
    ensures forall r :: r in Filtered(rows, k, filtered, test, header).value ==> r in rows[..k]
    decreases k
  {
    if k > 0 {
      FilteredWithin(rows, k - 1, filtered, test, header);
      assert rows[..k] == rows[..k - 1] + [rows[k - 1]];
    }
  }

  /** Rows beyond the first `k` do not change what the first `k` produce. */
  lemma {:induction false} PrefixAgrees(a: seq<Row>, b: seq<Row>, k: nat, filtered: bool, test: Row -> Result<bool>, header: Row)
    requires k <= |a| && k <= |b| && a[..k] == b[..k]
    ensures Filtered(a, k, filtered, test, header) == Filtered(b, k, filtered, test, header)
    decreases k
  {
    if k > 0 {
      assert a[..k - 1] == b[..k - 1] by {
        assert a[..k - 1] == a[..k][..k - 1];
        assert b[..k - 1] == b[..k][..k - 1];
      }
      assert a[k - 1] == a[..k][k - 1] == b[..k][k - 1] == b[k - 1];
      PrefixAgrees(a, b, k - 1, filtered, test, header);
    }
  }

  /**
   * The loop itself, for the header line `header`, the partition lead `lead` and the row test
   * `test`, which is consulted only when `filtered`.
   */
  method WriteParts(rows: seq<Row>, header: Row, filtered: bool, test: Row -> Result<bool>, lead: seq<Row>, rowsCount: nat)
    returns (parts: seq<seq<Row>>, fault: Option<Fault>)
    requires rowsCount > 0
    ensures parts == [] <==> rows == []
    ensures forall p :: 0 <= p < |parts| ==> |lead| <= |parts[p]| && parts[p][..|lead|] == lead
    ensures forall p :: 0 <= p < |parts| - 1 ==> |parts[p]| == |lead| + rowsCount
    ensures parts != [] ==> |parts[|parts| - 1]| <= |lead| + rowsCount
    ensures fault == None <==> Filtered(rows, |rows|, filtered, test, header).Ok?
    ensures fault != None ==> fault == Some(Filtered(rows, |rows|, filtered, test, header).fault)
    ensures fault == None ==> Flat(Bodies(parts, |lead|)) == Filtered(rows, |rows|, filtered, test, header).value
    ensures fault == None && parts != [] && |parts[|parts| - 1]| == |lead| ==>
              |Filtered(rows, |rows|, filtered, test, header).value| == rowsCount * (|parts| - 1)
    ensures fault == None && rows != [] ==>
              (|parts[|parts| - 1]| == |lead| <==>
               |Filtered(rows, |rows|, filtered, test, header).value| % rowsCount == 0 &&
               Filtered(rows, |rows| - 1, filtered, test, header) == Filtered(rows, |rows|, filtered, test, header))
    ensures fault != None ==>
              exists i :: 0 <= i < |rows| && Filtered(rows, i, filtered, test, header) == Ok(Flat(Bodies(parts, |lead|)))
                          && Filtered(rows, i + 1, filtered, test, header) == Err(fault.value)
    ensures fault != None ==>
              parts != [] && (|parts[|parts| - 1]| == |lead| <==> |Flat(Bodies(parts, |lead|))| % rowsCount == 0)
  {
    parts := [];
    fault := None;
    var count := 0;
    var skip := false;
    ghost var w := Writer([], [], 0, false, []);
    var i := 0;
    while i < |rows|
      invariant 0 <= i <= |rows|
      invariant Progress(rows, i, filtered, test, header, lead, rowsCount, w)
      invariant parts == w.parts && count == w.count && skip == w.skip
    {
      var pass;
      parts, count, skip, pass, w := Step(rows, i, header, filtered, test, lead, rowsCount, parts, count, skip, w);
      if pass.Err? {
        fault := Some(pass.fault);
        Outcome(rows, header, filtered, test, lead, rowsCount, parts, fault, w, i);
        return;
      }
      i := i + 1;
    }
    Outcome(rows, header, filtered, test, lead, rowsCount, parts, fault, w, i);
  }

  /** What `WriteParts` returns, from the writer it ends with: after every row, or at the row `i` whose test raised. */
  lemma Outcome(rows: seq<Row>, header: Row, filtered: bool, test: Row -> Result<bool>, lead: seq<Row>, n: nat,
                parts: seq<seq<Row>>, fault: Option<Fault>, w: Writer, i: nat)
    requires n > 0 && parts == w.parts
    requires fault == None ==> Progress(rows, |rows|, filtered, test, header, lead, n, w)
    requires fault != None ==> i < |rows| && Ready(w, lead, n) && Filtered(rows, i, filtered, test, header) == Ok(w.written)
                               && Filtered(rows, i + 1, filtered, test, header) == Err(fault.value)
    ensures parts == [] <==> rows == []
    ensures forall p :: 0 <= p < |parts| ==> |lead| <= |parts[p]| && parts[p][..|lead|] == lead
    ensures forall p :: 0 <= p < |parts| - 1 ==> |parts[p]| == |lead| + n
    ensures parts != [] ==> |parts[|parts| - 1]| <= |lead| + n
    ensures fault == None <==> Filtered(rows, |rows|, filtered, test, header).Ok?
    ensures fault != None ==> fault == Some(Filtered(rows, |rows|, filtered, test, header).fault)
    ensures fault == None ==> Flat(Bodies(parts, |lead|)) == Filtered(rows, |rows|, filtered, test, header).value
    ensures fault == None && parts != [] && |parts[|parts| - 1]| == |lead| ==>
              |Filtered(rows, |rows|, filtered, test, header).value| == n * (|parts| - 1)
    ensures fault == None && rows != [] ==>
              (|parts[|parts| - 1]| == |lead| <==>
               |Filtered(rows, |rows|, filtered, test, header).value| % n == 0 &&
               Filtered(rows, |rows| - 1, filtered, test, header) == Filtered(rows, |rows|, filtered, test, header))
    ensures fault != None ==>
              exists i :: 0 <= i < |rows| && Filtered(rows, i, filtered, test, header) == Ok(Flat(Bodies(parts, |lead|)))
                          && Filtered(rows, i + 1, filtered, test, header) == Err(fault.value)
    ensures fault != None ==>
              parts != [] && (|parts[|parts| - 1]| == |lead| <==> |Flat(Bodies(parts, |lead|))| % n == 0)
  {
    if fault == None {
      Finished(rows, filtered, test, header, lead, n, w);
    } else {
      Raised(rows, i, filtered, test, header, lead, n, w, fault.value);
    }
  }

  /** The loop invariant after `i` rows: the writer's state, and the rows written so far. */
  ghost predicate Progress(rows: seq<Row>, i: nat, filtered: bool, test: Row -> Result<bool>, header: Row,
                           lead: seq<Row>, n: nat, w: Writer)
  {
    i <= |rows| && Between(w, lead, n) && (i == 0 <==> w.bodies == [])
    && Filtered(rows, i, filtered, test, header) == Ok(w.written)
    && (i > 0 ==> (w.skip <==> Filtered(rows, i - 1, filtered, test, header) == Filtered(rows, i, filtered, test, header)))
  }

  /** Reading row `i`: the invariant holds for `i + 1` rows, or the row's test raised. */
  method Step(rows: seq<Row>, i: nat, header: Row, filtered: bool, test: Row -> Result<bool>,
              lead: seq<Row>, rowsCount: nat, parts: seq<seq<Row>>, count: nat, skip: bool, ghost w: Writer)
    returns (parts': seq<seq<Row>>, count': nat, skip': bool, pass: Result<bool>, ghost w': Writer)
    requires i < |rows| && rowsCount > 0 && Progress(rows, i, filtered, test, header, lead, rowsCount, w)
    requires parts == w.parts && count == w.count && skip == w.skip
    ensures parts' == w'.parts && count' == w'.count
    ensures pass.Ok? ==> Progress(rows, i + 1, filtered, test, header, lead, rowsCount, w') && skip' == w'.skip
    ensures pass.Err? ==> Filtered(rows, i + 1, filtered, test, header) == Err(pass.fault)
    ensures pass.Err? ==> Ready(w', lead, rowsCount)
    ensures pass.Err? ==> Filtered(rows, i, filtered, test, header) == Ok(w'.written)
  {
    ghost var written := w.written;
    parts', count', skip', pass, w' := ReadRow(rows, i, header, filtered, test, lead, rowsCount, parts, count, skip, w);
    FilteredStep(rows, i, filtered, test, header, written);
    if pass.Err? {
      assert !(pass == Ok(true) && rows[i] != header);
      assert w'.written == written;
    }
  }

  /** The partitions of a writer: each opens with the lead, all are full but the last. */
  lemma Shape(w: Writer, lead: seq<Row>, n: nat)
    requires Layout(w.parts, w.bodies, lead, n)
    ensures var parts := w.parts;
            && (parts == [] <==> w.bodies == [])
            && (forall p :: 0 <= p < |parts| ==> |lead| <= |parts[p]| && parts[p][..|lead|] == lead)
            && (forall p :: 0 <= p < |parts| - 1 ==> |parts[p]| == |lead| + n)
            && (parts != [] ==> |parts[|parts| - 1]| <= |lead| + n)
            && Bodies(parts, |lead|) == w.bodies
  {
    AssembleBodies(w.parts, w.bodies, lead);
  }

  /**
   * Where the test of a row raises, the partition for that row is already open: it holds only
   * the lead exactly when the rows written so far fill whole partitions.
   */
  lemma RaisingOpen(w: Writer, lead: seq<Row>, n: nat)
    requires n > 0 && Ready(w, lead, n)
    ensures w.parts != []
    ensures |w.parts[|w.parts| - 1]| == |lead| <==> |Flat(Bodies(w.parts, |lead|))| % n == 0
  {
    Shape(w, lead, n);
    OpensWhenFull(n, |w.bodies| - 1, |w.bodies[|w.bodies| - 1]|);
  }

  /** What the loop leaves when the test of row `i` raises `f`. */
  lemma Raised(rows: seq<Row>, i: nat, filtered: bool, test: Row -> Result<bool>, header: Row, lead: seq<Row>, n: nat,
               w: Writer, f: Fault)
    requires n > 0 && i < |rows| && Ready(w, lead, n)
    requires Filtered(rows, i, filtered, test, header) == Ok(w.written)
    requires Filtered(rows, i + 1, filtered, test, header) == Err(f)
    ensures var parts := w.parts;
            && parts != []
            && (forall p :: 0 <= p < |parts| ==> |lead| <= |parts[p]| && parts[p][..|lead|] == lead)
            && (forall p :: 0 <= p < |parts| - 1 ==> |parts[p]| == |lead| + n)
            && |parts[|parts| - 1]| <= |lead| + n
            && Filtered(rows, |rows|, filtered, test, header) == Err(f)
            && (exists j :: 0 <= j < |rows| && Filtered(rows, j, filtered, test, header) == Ok(Flat(Bodies(parts, |lead|)))
                            && Filtered(rows, j + 1, filtered, test, header) == Err(f))
            && (|parts[|parts| - 1]| == |lead| <==> |Flat(Bodies(parts, |lead|))| % n == 0)
  {
    FilteredFaultStays(rows, i + 1, |rows|, filtered, test, header);
    Shape(w, lead, n);
    RaisingOpen(w, lead, n);
    assert Filtered(rows, i, filtered, test, header) == Ok(Flat(Bodies(w.parts, |lead|)));
  }

  /** What the loop leaves once every row is read. */
  lemma Finished(rows: seq<Row>, filtered: bool, test: Row -> Result<bool>, header: Row, lead: seq<Row>, n: nat, w: Writer)
    requires n > 0 && Progress(rows, |rows|, filtered, test, header, lead, n, w)
    ensures var parts := w.parts;
            var written := Filtered(rows, |rows|, filtered, test, header);
            && (parts == [] <==> rows == [])
            && (forall p :: 0 <= p < |parts| ==> |lead| <= |parts[p]| && parts[p][..|lead|] == lead)
            && (forall p :: 0 <= p < |parts| - 1 ==> |parts[p]| == |lead| + n)
            && (parts != [] ==> |parts[|parts| - 1]| <= |lead| + n)
            && written.Ok?
            && Flat(Bodies(parts, |lead|)) == written.value
            && (parts != [] && |parts[|parts| - 1]| == |lead| ==> |written.value| == n * (|parts| - 1))
            && (rows != [] ==>
                 (|parts[|parts| - 1]| == |lead| <==>
                  |written.value| % n == 0 && Filtered(rows, |rows| - 1, filtered, test, header) == written))
  {
    Shape(w, lead, n);
    if w.bodies != [] {
      TimesIsProduct(n, |w.bodies| - 1);
      EmptyLast(w, lead, n);
    }
  }

  /**
   * One pass of the loop: open a partition when due, test the row when there are filters, and
   * write it unless it fails them or is a copy of the header line.
   */
  method ReadRow(rows: seq<Row>, i: nat, header: Row, filtered: bool, test: Row -> Result<bool>,
                 lead: seq<Row>, rowsCount: nat, parts: seq<seq<Row>>, count: nat, skip: bool, ghost w: Writer)
    returns (parts': seq<seq<Row>>, count': nat, skip': bool, pass: Result<bool>, ghost w': Writer)
    requires i < |rows| && rowsCount > 0 && Between(w, lead, rowsCount)
    requires parts == w.parts && count == w.count && skip == w.skip
    ensures pass == if filtered then test(rows[i]) else Ok(true)
    ensures |parts'| == |parts| + (if count % rowsCount == 0 && !skip then 1 else 0)
    ensures var kept := if count % rowsCount == 0 && !skip then parts else parts[..|parts| - 1];
            parts'[..|parts'| - 1] == kept
    ensures var open := if count % rowsCount == 0 && !skip then lead else parts[|parts| - 1];
            parts'[|parts'| - 1] == open + (if pass == Ok(true) && rows[i] != header then [rows[i]] else [])
    ensures count' == count + (if pass == Ok(true) && rows[i] != header then 1 else 0)
    ensures skip' == !(pass == Ok(true) && rows[i] != header)
    ensures parts' == w'.parts && count' == w'.count && w'.bodies != []
    ensures pass.Err? ==> Ready(w', lead, rowsCount)
    ensures pass.Ok? ==> Between(w', lead, rowsCount) && skip' == w'.skip
    ensures w'.written == w.written + (if pass == Ok(true) && rows[i] != header then [rows[i]] else [])
  {
    var row := rows[i];
    parts', w' := OpenIfDue(lead, rowsCount, parts, count, skip, w);
    // A row that fails the filters is passed over like a copy of the header line.
    pass := Ok(true);
    skip' := skip;
    if filtered {
      skip' := true;
      pass := test(row);
      if pass.Err? {
        count' := count;
        return;
      }
    }
    parts', count', skip', w' := Place(row, pass.value && row != header, lead, rowsCount, parts', count, w');
  }

  /** One more row read: its test's exception, or the rows written so far with or without it. */
  lemma FilteredStep(rows: seq<Row>, i: nat, filtered: bool, test: Row -> Result<bool>, header: Row, written: seq<Row>)
    requires i < |rows| && Filtered(rows, i, filtered, test, header) == Ok(written)
    ensures var pass := if filtered then test(rows[i]) else Ok(true);
            Filtered(rows, i + 1, filtered, test, header) ==
              if pass.Err? then Err(pass.fault)
              else Ok(written + if pass == Ok(true) && rows[i] != header then [rows[i]] else [])
  {
    assert written + [] == written;
  }

  /**
   * The head of the loop body: a new partition, opening with `lead`, when `count` is a multiple
   * of `rows_count` and the previous row was written.
   */
  method OpenIfDue(lead: seq<Row>, rowsCount: nat, parts: seq<seq<Row>>, count: nat, skip: bool, ghost w: Writer)
    returns (parts': seq<seq<Row>>, ghost w': Writer)
    requires rowsCount > 0 && Between(w, lead, rowsCount)
    requires parts == w.parts && count == w.count && skip == w.skip
    ensures parts' == if count % rowsCount == 0 && !skip then parts + [lead] else parts
    ensures parts' == w'.parts && Ready(w', lead, rowsCount)
    ensures w'.count == w.count && w'.written == w.written
  {
    OpenRule(w, lead, rowsCount);
    if count % rowsCount == 0 && !skip {
      Opened(w, lead, rowsCount);
      parts' := parts + [lead];
      w' := Opening(w, lead);
    } else {
      Kept(w, lead, rowsCount);
      parts', w' := parts, w;
    }
  }

  /** The tail of the loop body: the row goes to the open partition when `writes`, otherwise `skip` is set. */
  method Place(row: Row, writes: bool, lead: seq<Row>, rowsCount: nat, parts: seq<seq<Row>>, count: nat, ghost w: Writer)
    returns (parts': seq<seq<Row>>, count': nat, skip': bool, ghost w': Writer)
    requires Ready(w, lead, rowsCount) && parts == w.parts && count == w.count
    ensures |parts'| == |parts| && parts'[..|parts| - 1] == parts[..|parts| - 1]
    ensures parts'[|parts| - 1] == parts[|parts| - 1] + (if writes then [row] else [])
    ensures count' == count + (if writes then 1 else 0) && skip' == !writes
    ensures parts' == w'.parts && count' == w'.count && skip' == w'.skip && w'.bodies != []
    ensures w'.written == w.written + (if writes then [row] else [])
    ensures Between(w', lead, rowsCount)
  {
    if writes {
      Wrote(w, lead, rowsCount, row);
      parts' := parts[..|parts| - 1] + [parts[|parts| - 1] + [row]];
      count' := count + 1;
      skip' := false;
      w' := Writing(w, row);
    } else {
      Skipped(w, lead, rowsCount);
      parts', count', skip' := parts, count, true;
      w' := w.(skip := true);
    }
  }
}

/**
 * The shape of the partitions `split_files` writes for one file, and the state of its writer
 * between two rows: the arithmetic of `count % rows_count` and the step lemmas of the loop.
 */
module Partitions {
  import opened Common

  /** The line each partition opens with: the header line when the file has headers and they are wanted. */
  function Lead(headers: seq<string>, addHeaders: bool): seq<Row>
  {
    if headers != [] && addHeaders then [TextRow(headers)] else []
  }

  /** The concatenation of the partitions' data rows. */
  function Flat(cs: seq<seq<Row>>): seq<Row>
  {
    if cs == [] then [] else Flat(cs[..|cs| - 1]) + cs[|cs| - 1]
  }

  lemma FlatAppend(cs: seq<seq<Row>>, c: seq<Row>)
    ensures Flat(cs + [c]) == Flat(cs) + c
  {
    assert (cs + [c])[..|cs|] == cs;
  }

  /** The data rows of each partition, once its lead is dropped. */
  function Bodies(parts: seq<seq<Row>>, h: nat): seq<seq<Row>>
    requires forall p :: 0 <= p < |parts| ==> h <= |parts[p]|
  {
    seq(|parts|, p requires 0 <= p < |parts| => parts[p][h..])
  }

  /** Euclidean remainder is unique. */
  lemma ModOf(x: int, n: int, q: int, r: int)
    requires n > 0 && 0 <= r < n && x == n * q + r
    ensures x % n == r
  {
    var q', r' := x / n, x % n;
    assert x == n * q' + r' && 0 <= r' < n;
    var d := q - q';
    assert n * d == r' - r;
    assert d >= 1 ==> n * d >= n;
    assert d <= -1 ==> n * -d >= n;
  }

  /** `n * m`, unfolded one partition at a time. */
  function Times(n: nat, m: nat): nat
  {
    if m == 0 then 0 else Times(n, m - 1) + n
  }

  lemma {:induction false} TimesIsProduct(n: nat, m: nat)
    ensures Times(n, m) == n * m
  {
    if m > 0 {
      TimesIsProduct(n, m - 1);
    }
  }

  /** `count % rows_count == 0` with `m` full partitions and `l` rows in the open one. */
  lemma OpensWhenFull(n: nat, m: nat, l: nat)
    requires n > 0 && l <= n
    ensures (Times(n, m) + l) % n == 0 <==> l == 0 || l == n
  {
    TimesIsProduct(n, m);
    if l < n {
      ModOf(n * m + l, n, m, l);
    } else {
      assert n * m + l == n * (m + 1) + 0;
      ModOf(n * m + l, n, m + 1, 0);
    }
  }

  /** The partitions written so far: each is the lead followed by its data rows, all full but the last. */
  ghost predicate Layout(parts: seq<seq<Row>>, bodies: seq<seq<Row>>, lead: seq<Row>, n: nat)
  {
    |parts| == |bodies|
    && (forall p :: 0 <= p < |parts| ==> parts[p] == lead + bodies[p])
    && (forall p :: 0 <= p < |bodies| - 1 ==> |bodies[p]| == n)
    && (bodies != [] ==> |bodies[|bodies| - 1]| <= n)
  }

  /**
   * The state of the writer over one file: the partitions, their data rows, every row written
   * so far, and the variables `count` and `skip` of `split_files`.
   */
  datatype Writer = Writer(parts: seq<seq<Row>>, bodies: seq<seq<Row>>, count: nat, skip: bool, written: seq<Row>)

  /** At the head of the loop: `count` rows are written, and `skip` is set exactly when the last row read was not. */
  ghost predicate Between(w: Writer, lead: seq<Row>, n: nat)
  {
    Layout(w.parts, w.bodies, lead, n) && w.written == Flat(w.bodies) && w.count == |w.written|
    && (w.bodies == [] ==> w.count == 0 && !w.skip)
    && (w.bodies != [] ==> w.count == Times(n, |w.bodies| - 1) + |w.bodies[|w.bodies| - 1]|)
    && (w.bodies != [] && w.bodies[|w.bodies| - 1] == [] ==> w.skip)
    && (w.bodies != [] && |w.bodies[|w.bodies| - 1]| == n ==> !w.skip)
  }

  /** Once the row's partition is chosen: there is an open partition with room. */
  ghost predicate Ready(w: Writer, lead: seq<Row>, n: nat)
  {
    Layout(w.parts, w.bodies, lead, n) && w.written == Flat(w.bodies) && w.count == |w.written|
    && w.bodies != [] && |w.bodies[|w.bodies| - 1]| < n
    && w.count == Times(n, |w.bodies| - 1) + |w.bodies[|w.bodies| - 1]|
  }

  /** Opening a partition: it starts with the lead and holds no data rows yet. */
  function Opening(w: Writer, lead: seq<Row>): Writer
  {
    w.(parts := w.parts + [lead], bodies := w.bodies + [[]])
  }

  /** Writing a row to the open partition. */
  function Writing(w: Writer, row: Row): Writer
    requires w.parts != [] && w.bodies != []
  {
    Writer(w.parts[..|w.parts| - 1] + [w.parts[|w.parts| - 1] + [row]],
           w.bodies[..|w.bodies| - 1] + [w.bodies[|w.bodies| - 1] + [row]],
           w.count + 1, false, w.written + [row])
  }

  /** `count % rows_count == 0 and not skip` holds exactly when the open partition is full (or there is none) and the last row was written. */
  lemma OpenRule(w: Writer, lead: seq<Row>, n: nat)
    requires n > 0 && Between(w, lead, n)
    ensures (w.count % n == 0 && !w.skip) <==> !w.skip && (w.bodies == [] || |w.bodies[|w.bodies| - 1]| == n)
  {
    if w.bodies != [] {
      OpensWhenFull(n, |w.bodies| - 1, |w.bodies[|w.bodies| - 1]|);
    }
  }

  /** Opening a partition after a full one (or as the first) leaves room for the row. */
  lemma Opened(w: Writer, lead: seq<Row>, n: nat)
    requires n > 0 && Between(w, lead, n) && !w.skip
    requires w.bodies == [] || |w.bodies[|w.bodies| - 1]| == n
    ensures Ready(Opening(w, lead), lead, n)
  {
    var w' := Opening(w, lead);
    LayoutOpens(w.parts, w.bodies, lead, n);
    FlatAppend(w.bodies, []);
    assert w.bodies + [[]] == w'.bodies;
    assert w'.bodies[|w'.bodies| - 1] == [];
    assert w.count == Times(n, |w.bodies|);
  }

  /** A new partition holding only the lead keeps the layout, when the previous one is full. */
  lemma LayoutOpens(parts: seq<seq<Row>>, bodies: seq<seq<Row>>, lead: seq<Row>, n: nat)
    requires Layout(parts, bodies, lead, n)
    requires bodies == [] || |bodies[|bodies| - 1]| == n
    ensures Layout(parts + [lead], bodies + [[]], lead, n)
  {
    assert lead + [] == lead;
    forall p | 0 <= p < |bodies|
      ensures (bodies + [[]])[p] == bodies[p] && |bodies[p]| == n
    {
    }
  }

  /** Without a new partition, the open one still has room. */
  lemma Kept(w: Writer, lead: seq<Row>, n: nat)
    requires n > 0 && Between(w, lead, n)
    requires !(!w.skip && (w.bodies == [] || |w.bodies[|w.bodies| - 1]| == n))
    ensures Ready(w, lead, n)
  {
  }

  /** Writing the row to the open partition. */
  lemma Wrote(w: Writer, lead: seq<Row>, n: nat, row: Row)
    requires Ready(w, lead, n)
    ensures Between(Writing(w, row), lead, n)
  {
    var w' := Writing(w, row);
    var l := |w.bodies| - 1;
    LayoutGrows(w.parts, w.bodies, lead, n, row);
    FlatGrows(w.bodies[..l], w.bodies[l], row);
    assert w.bodies[..l] + [w.bodies[l]] == w.bodies;
    assert |w'.bodies[l]| == |w.bodies[l]| + 1;
  }

  /** Appending a row to the last partition, which has room, keeps the layout. */
  lemma LayoutGrows(parts: seq<seq<Row>>, bodies: seq<seq<Row>>, lead: seq<Row>, n: nat, row: Row)
    requires Layout(parts, bodies, lead, n) && bodies != [] && |bodies[|bodies| - 1]| < n
    ensures var l := |bodies| - 1;
            Layout(parts[..l] + [parts[l] + [row]], bodies[..l] + [bodies[l] + [row]], lead, n)
  {
    var l := |bodies| - 1;
    assert lead + bodies[l] + [row] == lead + (bodies[l] + [row]);
  }

  /** Appending a row to the last partition appends it to the concatenation. */
  lemma FlatGrows(init: seq<seq<Row>>, last: seq<Row>, row: Row)
    ensures Flat(init + [last + [row]]) == Flat(init + [last]) + [row]
  {
    FlatAppend(init, last + [row]);
    FlatAppend(init, last);
    assert Flat(init) + (last + [row]) == Flat(init) + last + [row];
  }

  /** Skipping the row leaves the partitions as they are. */
  lemma Skipped(w: Writer, lead: seq<Row>, n: nat)
    requires Ready(w, lead, n)
    ensures Between(w.(skip := true), lead, n)
  {
  }

  /**
   * Between two rows, the open partition holds no data row exactly when `count` is a multiple of
   * `rows_count` and the last row read was not written.
   */
  lemma EmptyLast(w: Writer, lead: seq<Row>, n: nat)
    requires n > 0 && Between(w, lead, n) && w.bodies != []
    ensures |w.parts[|w.parts| - 1]| == |lead| <==> w.count % n == 0 && w.skip
  {
    var l := |w.bodies| - 1;
    assert w.parts[l] == lead + w.bodies[l];
    OpensWhenFull(n, l, |w.bodies[l]|);
  }

  lemma AssembleBodies(parts: seq<seq<Row>>, bodies: seq<seq<Row>>, lead: seq<Row>)
    requires |parts| == |bodies| && forall p :: 0 <= p < |parts| ==> parts[p] == lead + bodies[p]
    ensures forall p :: 0 <= p < |parts| ==> |lead| <= |parts[p]| && parts[p][..|lead|] == lead
    ensures Bodies(parts, |lead|) == bodies
  {
    forall p | 0 <= p < |parts|
      ensures parts[p][..|lead|] == lead && parts[p][|lead|..] == bodies[p]
    {
      assert parts[p] == lead + bodies[p];
    }
  }
}

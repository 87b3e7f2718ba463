/**
 * The query structurer (`process_query`). The connective positions are found once, then for
 * each of them a copy of the first token is inserted after the connective and the three
 * tokens before it, the connective and the three tokens after the copy are emitted.
 * The list operations are reproduced as written, Python slicing included.
 */
module Structurer {
  import opened Common

  /** An element of the structured filter: a tuple of tokens, or a single token between tuples. */
  datatype Piece = Group(items: seq<Atom>) | Item(a: Atom)

  /** Only the exact lower-case words `and` and `or` are connectives. */
  predicate IsConnective(a: Atom)
  {
    a == Word("and") || a == Word("or")
  }

  /** The positions at or after `from` that hold a connective, in increasing order. */
  function PositionsFrom(s: seq<Atom>, from: nat): (r: seq<nat>)
    requires from <= |s|
    ensures forall k :: 0 <= k < |r| ==> from <= r[k] < |s| && IsConnective(s[r[k]])
    decreases |s| - from
  {
    if from == |s| then []
    else if IsConnective(s[from]) then [from] + PositionsFrom(s, from + 1)
    else PositionsFrom(s, from + 1)
  }

  /** Every connective at or after `from` is listed, each once, in increasing order. */
  lemma {:induction false} PositionsExact(s: seq<Atom>, from: nat)
    requires from <= |s|
    ensures forall i :: from <= i < |s| && IsConnective(s[i]) ==> i in PositionsFrom(s, from)
    ensures forall a, b :: 0 <= a < b < |PositionsFrom(s, from)| ==> PositionsFrom(s, from)[a] < PositionsFrom(s, from)[b]
    decreases |s| - from
  {
    if from < |s| {
      PositionsExact(s, from + 1);
    }
  }

  /** `logical_indexes`. */
  function ConnectivePositions(s: seq<Atom>): seq<nat>
  {
    PositionsFrom(s, 0)
  }

  /** A slice bound as Python normalises it: negative counts from the end, then clamped. */
  function Clamp(i: int, n: nat): nat
  {
    if i < 0 then (if i + n < 0 then 0 else i + n) else if i > n then n else i
  }

  /** Python's `s[lo:hi]`. */
  function PySlice<T>(s: seq<T>, lo: int, hi: int): seq<T>
  {
    var a := Clamp(lo, |s|);
    var b := Clamp(hi, |s|);
    if a <= b then s[a..b] else []
  }

  /** Python's `s.insert(i, x)` for a position inside the list. */
  function Insert<T>(s: seq<T>, i: nat, x: T): (r: seq<T>)
    requires i <= |s|
    ensures |r| == |s| + 1
  {
    s[..i] + [x] + s[i..]
  }

  lemma InsertAt<T>(s: seq<T>, i: nat, x: T)
    requires i <= |s|
    ensures forall j :: 0 <= j < |s| + 1 ==>
              Insert(s, i, x)[j] == if j < i then s[j] else if j == i then x else s[j - 1]
  {
    var r := Insert(s, i, x);
    forall j | 0 <= j < |s| + 1
      ensures r[j] == if j < i then s[j] else if j == i then x else s[j - 1]
    {
      if j < i {
        assert r[j] == s[..i][j];
      } else if j > i {
        assert r[j] == s[i..][j - i - 1];
      }
    }
  }

  /** Inserting at the end is appending. */
  lemma InsertAtEnd<T>(s: seq<T>, x: T)
    ensures Insert(s, |s|, x) == s + [x]
  {
    assert s[..|s|] == s;
  }

  /** The pieces emitted for the connective at `idx` once the column copy is in place. */
  function Emitted(list: seq<Atom>, idx: nat): seq<Piece>
    requires idx < |list|
  {
    [Group(PySlice(list, idx - 3, idx)), Item(list[idx]), Group(PySlice(list, idx + 1, idx + 4))]
  }

  /** The loop over the connective positions from the `k`-th on, each insertion shifting the list behind it. */
  function Expand(list: seq<Atom>, idxs: seq<nat>, k: nat): seq<Piece>
    requires k <= |idxs|
    requires forall j :: k <= j < |idxs| ==> idxs[j] < |list|
    decreases |idxs| - k
  {
    if k == |idxs| then []
    else
      var list' := Insert(list, idxs[k] + 1, list[0]);
      Emitted(list', idxs[k]) + Expand(list', idxs, k + 1)
  }

  /** What `process_query` returns before any index conversion. */
  function Structure(s: seq<Atom>): seq<Piece>
  {
    var idxs := ConnectivePositions(s);
    if idxs == [] then [Group(s)] else Expand(s, idxs, 0)
  }

  /**
   * `(int(t[0]),) + t[1:]` for one tuple; strings are left alone. It raises exactly when the
   * tuple is empty or its head is text `int()` rejects, and otherwise only the head changes, to
   * the number it denotes.
   */
  function ToIndex(p: Piece): (r: Result<Piece>)
    ensures r.Ok? <==> Convertible(p)
    ensures r.Err? ==> (r.fault == IndexError <==> p.items == []) && (r.fault == IndexError || r.fault == ValueError)
    ensures r.Ok? && p.Item? ==> r.value == p
    ensures r.Ok? && p.Group? ==>
              r.value.Group? && |r.value.items| == |p.items| && r.value.items[1..] == p.items[1..]
              && r.value.items[0] == (if p.items[0].Index? then p.items[0] else Index(ParseInt(p.items[0].w).value))
  {
    match p
    case Item(_) => Ok(p)
    case Group(items) =>
      if items == [] then Err(IndexError)
      else match items[0]
        case Index(_) => Ok(p)
        case Word(w) =>
          match ParseInt(w)
          case None => Err(ValueError)
          case Some(n) => Ok(Group([Index(n)] + items[1..]))
  }

  /** The `indexes=True` pass: converts tuple heads in order, stopping at the first exception. */
  function ToIndexes(ps: seq<Piece>): Result<seq<Piece>>
  {
    if ps == [] then Ok([])
    else match ToIndex(ps[0])
      case Err(f) => Err(f)
      case Ok(p) =>
        match ToIndexes(ps[1..])
        case Err(f) => Err(f)
        case Ok(rest) => Ok([p] + rest)
  }

  function Prepend(done: seq<Piece>, r: Result<seq<Piece>>): Result<seq<Piece>>
  {
    match r
    case Err(f) => Err(f)
    case Ok(rest) => Ok(done + rest)
  }

  lemma PrependNothing(r: Result<seq<Piece>>)
    ensures Prepend([], r) == r
  {
    if r.Ok? {
      assert [] + r.value == r.value;
    }
  }

  lemma PrependTwice(done: seq<Piece>, p: Piece, r: Result<seq<Piece>>)
    ensures Prepend(done, Prepend([p], r)) == Prepend(done + [p], r)
  {
    if r.Ok? {
      assert done + ([p] + r.value) == done + [p] + r.value;
    }
  }

  /** `process_query(statements, indexes)`. */
  method ProcessQuery(statements0: seq<Atom>, indexes: bool) returns (r: Result<seq<Piece>>)
    ensures r == if indexes then ToIndexes(Structure(statements0)) else Ok(Structure(statements0))
  {
    var processed := StructurePass(statements0);
    if indexes {
      r := IndexesPass(processed);
    } else {
      r := Ok(processed);
    }
  }

  /** Lines 72-82 of `process_query`: the insertions and the emitted pieces. */
  method StructurePass(statements0: seq<Atom>) returns (processed: seq<Piece>)
    ensures processed == Structure(statements0)
  {
    var logicalIndexes := ConnectivePositions(statements0);
    var statements;
    processed, statements := Insertions(statements0, logicalIndexes);
    if logicalIndexes == [] {
      processed := processed + [Group(statements)];
    }
  }

  /** Lines 74-80 of `process_query`: the loop over the connective positions. */
  method Insertions(statements0: seq<Atom>, logicalIndexes: seq<nat>) returns (processed: seq<Piece>, statements: seq<Atom>)
    requires forall j :: 0 <= j < |logicalIndexes| ==> logicalIndexes[j] < |statements0|
    ensures processed == Expand(statements0, logicalIndexes, 0)
    ensures logicalIndexes == [] ==> processed == [] && statements == statements0
  {
    statements := statements0;
    processed := [];
    for k := 0 to |logicalIndexes|
      invariant |statements| == |statements0| + k
      invariant k == 0 ==> statements == statements0
      invariant forall j :: 0 <= j < |logicalIndexes| ==> logicalIndexes[j] < |statements|
      invariant processed + Expand(statements, logicalIndexes, k) == Expand(statements0, logicalIndexes, 0)
    {
      var idx := logicalIndexes[k];
      ghost var before, done := statements, processed;
      statements := CopyColumn(statements, idx);
      processed := processed + Emitted(statements, idx);
      ExpandStep(before, logicalIndexes, k, done, statements0);
    }
    assert processed + [] == processed;
  }

  /** Lines 75-78 of `process_query`: a copy of the first token goes right after the connective. */
  method CopyColumn(statements: seq<Atom>, idx: nat) returns (r: seq<Atom>)
    requires idx < |statements|
    ensures r == Insert(statements, idx + 1, statements[0])
  {
    if idx < |statements| - 1 {
      r := Insert(statements, idx + 1, statements[0]);
    } else {
      InsertAtEnd(statements, statements[0]);
      r := statements + [statements[0]];
    }
  }

  /** One connective handled: its pieces are emitted from the list with the copy inserted. */
  lemma ExpandStep(list: seq<Atom>, idxs: seq<nat>, k: nat, done: seq<Piece>, list0: seq<Atom>)
    requires k < |idxs| && forall j :: 0 <= j < |idxs| ==> idxs[j] < |list| && idxs[j] < |list0|
    requires done + Expand(list, idxs, k) == Expand(list0, idxs, 0)
    ensures var next := Insert(list, idxs[k] + 1, list[0]);
            (done + Emitted(next, idxs[k])) + Expand(next, idxs, k + 1) == Expand(list0, idxs, 0)
  {
    var next := Insert(list, idxs[k] + 1, list[0]);
    assert Expand(list, idxs, k) == Emitted(next, idxs[k]) + Expand(next, idxs, k + 1);
    assert done + (Emitted(next, idxs[k]) + Expand(next, idxs, k + 1))
        == (done + Emitted(next, idxs[k])) + Expand(next, idxs, k + 1);
  }

  /** Lines 83-86 of `process_query`: the head of every tuple goes through `int`, in place. */
  method IndexesPass(processed: seq<Piece>) returns (r: Result<seq<Piece>>)
    ensures r == ToIndexes(processed)
  {
    var converted := processed;
    assert processed[0..] == processed;
    PrependNothing(ToIndexes(processed));
    for i := 0 to |processed|
      invariant |converted| == |processed|
      invariant converted[i..] == processed[i..]
      invariant ToIndexes(processed) == Prepend(converted[..i], ToIndexes(processed[i..]))
    {
      assert processed[i..][1..] == processed[i + 1..];
      match ToIndex(converted[i])
      case Err(f) =>
        assert converted[i] == processed[i];
        assert ToIndexes(processed[i..]) == Err(f);
        return Err(f);
      case Ok(p) =>
        PrependTwice(converted[..i], p, ToIndexes(processed[i + 1..]));
        converted := converted[i := p];
        assert converted[..i + 1] == converted[..i] + [p];
    }
    assert processed[|processed|..] == [];
    assert converted[..|processed|] == converted;
    assert converted + [] == converted;
    r := Ok(converted);
  }

  /** Positions without a connective do not contribute to `logical_indexes`. */
  lemma {:induction false} SkipPlain(s: seq<Atom>, from: nat, to: nat)
    requires from <= to <= |s|
    requires forall i :: from <= i < to ==> !IsConnective(s[i])
    ensures PositionsFrom(s, from) == PositionsFrom(s, to)
    decreases (to as int) - (from as int)
  {
    if from < to {
      SkipPlain(s, from + 1, to);
    }
  }

  /** The connective positions of a list whose only connectives are at `c` and `d`. */
  lemma TwoPositions(s: seq<Atom>, c: nat, d: nat)
    requires c < d < |s| && IsConnective(s[c]) && IsConnective(s[d])
    requires forall i :: 0 <= i < |s| && i != c && i != d ==> !IsConnective(s[i])
    ensures ConnectivePositions(s) == [c, d]
  {
    SkipPlain(s, 0, c);
    SkipPlain(s, c + 1, d);
    SkipPlain(s, d + 1, |s|);
  }

  /** With no connective the whole token list is the single tuple. */
  lemma NoConnective(s: seq<Atom>)
    requires forall i :: 0 <= i < |s| ==> !IsConnective(s[i])
    ensures Structure(s) == [Group(s)]
  {
    SkipPlain(s, 0, |s|);
  }

  /** The connective positions of a list whose only connective is at `c`. */
  lemma SolePosition(s: seq<Atom>, c: nat)
    requires c < |s| && IsConnective(s[c])
    requires forall i :: 0 <= i < |s| && i != c ==> !IsConnective(s[i])
    ensures ConnectivePositions(s) == [c]
  {
    SkipPlain(s, 0, c);
    SkipPlain(s, c + 1, |s|);
  }

  /**
   * With a single connective `c` at index 3 or later, the left tuple is the three tokens before
   * it and the right tuple is the column token followed by up to two tokens after the connective.
   */
  lemma OneConnective(s: seq<Atom>, c: nat)
    requires 3 <= c < |s| && IsConnective(s[c])
    requires forall i :: 0 <= i < |s| && i != c ==> !IsConnective(s[i])
    ensures var hi := if c + 3 <= |s| then c + 3 else |s|;
            Structure(s) == [Group(s[c - 3..c]), Item(s[c]), Group([s[0]] + s[c + 1..hi])]
  {
    SolePosition(s, c);
    var list' := Insert(s, c + 1, s[0]);
    assert Expand(s, [c], 0) == Emitted(list', c) + Expand(list', [c], 1);
    assert Structure(s) == Emitted(list', c);
    var hi := if c + 3 <= |s| then c + 3 else |s|;
    InsertSlices(s, c, hi);
  }

  /** The two slices of `s` with a copy of `s[0]` inserted after position `c`. */
  lemma InsertSlices(s: seq<Atom>, c: nat, hi: nat)
    requires 3 <= c < hi <= |s| && hi <= c + 3 && (hi < c + 3 ==> hi == |s|)
    ensures PySlice(Insert(s, c + 1, s[0]), c - 3, c) == s[c - 3..c]
    ensures PySlice(Insert(s, c + 1, s[0]), c + 1, c + 4) == [s[0]] + s[c + 1..hi]
  {
    var list' := Insert(s, c + 1, s[0]);
    InsertAt(s, c + 1, s[0]);
    assert Clamp(c - 3, |list'|) == c - 3 && Clamp(c, |list'|) == c;
    assert Clamp(c + 1, |list'|) == c + 1 && Clamp(c + 4, |list'|) == hi + 1;
    assert list'[c - 3..c] == s[c - 3..c];
    assert list'[c + 1..hi + 1] == [s[0]] + s[c + 1..hi];
  }

  /** The well-formed one-connective filter `col op1 v1 and|or op2 v2`: the second clause reuses the column. */
  lemma OneConnectiveClauses(s: seq<Atom>)
    requires |s| == 6 && IsConnective(s[3])
    requires forall i :: 0 <= i < 6 && i != 3 ==> !IsConnective(s[i])
    ensures Structure(s) == [Group([s[0], s[1], s[2]]), Item(s[3]), Group([s[0], s[4], s[5]])]
  {
    OneConnective(s, 3);
    assert Structure(s) == [Group(s[0..3]), Item(s[3]), Group([s[0]] + s[4..6])];
    assert s[0..3] == [s[0], s[1], s[2]];
    assert [s[0]] + s[4..6] == [s[0], s[4], s[5]];
  }

  /** A connective among the first three tokens gets an empty left tuple. */
  lemma EarlyConnective(s: seq<Atom>, c: nat)
    requires c < 3 && c < |s| && IsConnective(s[c])
    requires forall i :: 0 <= i < |s| && i != c ==> !IsConnective(s[i])
    ensures Structure(s)[0] == Group([])
  {
    SolePosition(s, c);
    assert [c][1..] == [];
  }

  /**
   * With connectives at 3 and 6, the positions are not shifted by the first insertion: the
   * fourth piece is the tuple `(and|or, column, op2)` and the fifth is the second value token,
   * not the second connective.
   */
  lemma TwoConnectivesMisalign(s: seq<Atom>)
    requires |s| == 9 && IsConnective(s[3]) && IsConnective(s[6])
    requires forall i :: 0 <= i < 9 && i != 3 && i != 6 ==> !IsConnective(s[i])
    ensures |Structure(s)| == 6
    ensures Structure(s)[3] == Group([s[3], s[0], s[4]])
    ensures Structure(s)[4] == Item(s[5])
    ensures Structure(s)[5] == Group([s[0], s[6], s[7]])
  {
    var l2 := Insert(Insert(s, 4, s[0]), 7, s[0]);
    TwoExpansions(s);
    TwoInsertions(s);
    assert l2[3..6] == [s[3], s[0], s[4]];
    assert l2[7..10] == [s[0], s[6], s[7]];
  }

  /** With connectives at 3 and 6 only, the structure is what the two insertions emit. */
  lemma TwoExpansions(s: seq<Atom>)
    requires |s| == 9 && IsConnective(s[3]) && IsConnective(s[6])
    requires forall i :: 0 <= i < 9 && i != 3 && i != 6 ==> !IsConnective(s[i])
    ensures Structure(s) == Emitted(Insert(s, 4, s[0]), 3) + Emitted(Insert(Insert(s, 4, s[0]), 7, s[0]), 6)
  {
    var l1 := Insert(s, 4, s[0]);
    var l2 := Insert(l1, 7, l1[0]);
    assert l1[0] == s[0];
    TwoPositions(s, 3, 6);
    assert Expand(s, [3, 6], 0) == Emitted(l1, 3) + Expand(l1, [3, 6], 1);
    assert Expand(l1, [3, 6], 1) == Emitted(l2, 6) + Expand(l2, [3, 6], 2);
  }

  /** The list after both insertions, from position 3 on. */
  lemma TwoInsertions(s: seq<Atom>)
    requires |s| == 9
    ensures Insert(Insert(s, 4, s[0]), 7, s[0])[3..] == [s[3], s[0], s[4], s[5], s[0], s[6], s[7], s[8]]
  {
    var l1 := Insert(s, 4, s[0]);
    assert l1 == s[..4] + [s[0]] + s[4..];
    assert l1[3..] == [s[3], s[0], s[4], s[5], s[6], s[7], s[8]];
    var l2 := Insert(l1, 7, s[0]);
    assert l2 == l1[..7] + [s[0]] + l1[7..];
  }

  /**
   * With connectives at 5 and 6, the second insertion puts a copy of the column right after the
   * second connective's shifted position: the single token emitted between the last two tuples is
   * the column token itself.
   */
  lemma AdjacentConnectives(s: seq<Atom>)
    requires |s| == 9 && IsConnective(s[5]) && IsConnective(s[6])
    requires forall i :: 0 <= i < 9 && i != 5 && i != 6 ==> !IsConnective(s[i])
    ensures Structure(s) == [Group([s[2], s[3], s[4]]), Item(s[5]), Group([s[0], s[6], s[7]]),
                             Group([s[3], s[4], s[5]]), Item(s[0]), Group([s[0], s[6], s[7]])]
  {
    var l1 := Insert(s, 6, s[0]);
    var l2 := Insert(l1, 7, s[0]);
    AdjacentExpansions(s);
    AdjacentInsertions(s);
    assert l1[2..5] == [s[2], s[3], s[4]] && l1[6..9] == [s[0], s[6], s[7]];
    assert l2[3..6] == [s[3], s[4], s[5]] && l2[7..10] == [s[0], s[6], s[7]];
  }

  /** With connectives at 5 and 6 only, the structure is what the two insertions emit. */
  lemma AdjacentExpansions(s: seq<Atom>)
    requires |s| == 9 && IsConnective(s[5]) && IsConnective(s[6])
    requires forall i :: 0 <= i < 9 && i != 5 && i != 6 ==> !IsConnective(s[i])
    ensures Structure(s) == Emitted(Insert(s, 6, s[0]), 5) + Emitted(Insert(Insert(s, 6, s[0]), 7, s[0]), 6)
  {
    var l1 := Insert(s, 6, s[0]);
    var l2 := Insert(l1, 7, l1[0]);
    assert l1[0] == s[0];
    TwoPositions(s, 5, 6);
    assert Expand(s, [5, 6], 0) == Emitted(l1, 5) + Expand(l1, [5, 6], 1);
    assert Expand(l1, [5, 6], 1) == Emitted(l2, 6) + Expand(l2, [5, 6], 2);
  }

  /** The list after each of the two insertions. */
  lemma AdjacentInsertions(s: seq<Atom>)
    requires |s| == 9
    ensures Insert(s, 6, s[0]) == s[..6] + [s[0]] + s[6..]
    ensures Insert(Insert(s, 6, s[0]), 7, s[0]) == s[..6] + [s[0], s[0]] + s[6..]
  {
    var l1 := Insert(s, 6, s[0]);
    assert l1[..7] == s[..6] + [s[0]] && l1[7..] == s[6..];
  }

  /**
   * When the column token is already a number and the two tuple heads that are text convert,
   * the conversion succeeds, and the fifth piece is still the column number standing alone.
   */
  lemma AdjacentConverted(s: seq<Atom>)
    requires |s| == 9 && s[0].Index? && IsConnective(s[5]) && IsConnective(s[6])
    requires forall i :: 0 <= i < 9 && i != 5 && i != 6 ==> !IsConnective(s[i])
    requires s[2].Word? && ParseInt(s[2].w).Some? && s[3].Word? && ParseInt(s[3].w).Some?
    ensures ToIndexes(Structure(s)).Ok?
    ensures var qs := ToIndexes(Structure(s)).value;
            |qs| == 6 && qs[4] == Item(s[0])
            && forall k :: 0 <= k < 4 ==> (qs[k].Group? && |qs[k].items| == 3) || (qs[k].Item? && qs[k].a.Word?)
  {
    AdjacentConnectives(s);
    var ps := Structure(s);
    assert Convertible(ps[0]) && Convertible(ps[2]) && Convertible(ps[3]) && Convertible(ps[5]);
    ConvertedShape(ps, s[0]);
  }

  /** Six convertible pieces, the fifth a lone token: the conversion keeps the lone tokens and the tuple lengths. */
  lemma ConvertedShape(ps: seq<Piece>, col: Atom)
    requires |ps| == 6 && ps[4] == Item(col) && ps[1].Item? && ps[1].a.Word?
    requires forall k :: 0 <= k < 6 && k != 1 && k != 4 ==> ps[k].Group? && |ps[k].items| == 3 && Convertible(ps[k])
    ensures ToIndexes(ps).Ok?
    ensures var qs := ToIndexes(ps).value;
            |qs| == 6 && qs[4] == Item(col)
            && forall k :: 0 <= k < 4 ==> (qs[k].Group? && |qs[k].items| == 3) || (qs[k].Item? && qs[k].a.Word?)
  {
    ToIndexesOk(ps);
    ToIndexesShape(ps);
  }

  /** A tuple whose head is a number, or a string `int()` accepts, converts. */
  predicate Convertible(p: Piece)
  {
    p.Item? || (p.items != [] && (p.items[0].Index? || ParseInt(p.items[0].w).Some?))
  }

  /** The conversion succeeds when every tuple head converts. */
  lemma {:induction false} ToIndexesOk(ps: seq<Piece>)
    requires forall k :: 0 <= k < |ps| ==> Convertible(ps[k])
    ensures ToIndexes(ps).Ok?
  {
    if ps != [] {
      ToIndexesOk(ps[1..]);
    }
  }

  /** Converting tuple heads keeps the number of pieces, every single token, and the length of every tuple. */
  lemma {:induction false} ToIndexesShape(ps: seq<Piece>)
    requires ToIndexes(ps).Ok?
    ensures var qs := ToIndexes(ps).value;
            |qs| == |ps| &&
            forall k :: 0 <= k < |ps| ==>
              (ps[k].Item? ==> qs[k] == ps[k]) &&
              (ps[k].Group? ==> qs[k].Group? && |qs[k].items| == |ps[k].items|)
  {
    if ps != [] {
      ToIndexesShape(ps[1..]);
      var qs := ToIndexes(ps).value;
      assert qs == [ToIndex(ps[0]).value] + ToIndexes(ps[1..]).value;
      forall k | 0 <= k < |ps|
        ensures (ps[k].Item? ==> qs[k] == ps[k]) && (ps[k].Group? ==> qs[k].Group? && |qs[k].items| == |ps[k].items|)
      {
        if k > 0 {
          assert ps[k] == ps[1..][k - 1];
        }
      }
    }
  }
}

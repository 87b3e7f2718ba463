/**
 * The row test (`validate_by_filters`): the stored filters of a file are flattened into one
 * boolean expression, clauses joined by their own connectives and the filters of different
 * columns joined by `and`, and that expression is evaluated against the row's cells.
 * Python parses the expression (a `SyntaxError` when clauses and connectives do not alternate)
 * into an `or` of `and`-runs and evaluates it left to right with short-circuiting.
 */
module Evaluator {
  import opened Common
  import opened Structurer
  import opened Operators

  /** One `OPERATORS["op"][0](data[key], val)` call of the expression. */
  datatype Test = Test(key: Atom, op: Atom, lit: Value)

  /** An element of the assembled expression: a call, or a connective word between calls. */
  datatype Elem = Clause(t: Test) | Conn(word: Atom)

  const AndWord: Atom := Word("and")
  const OrWord: Atom := Word("or")

  /**
   * How the third element of a clause enters the expression: a column number, or a token that
   * `float()` accepts (the `parse` parameter), is a number; any other token is quoted and stays
   * the text it is.
   */
  function Literal(a: Atom, parse: string -> Option<real>): (r: Value)
    ensures r.Num? <==> a.Index? || parse(a.w).Some?
    ensures a.Index? ==> r == Num(a.i as real)
    ensures a.Word? && parse(a.w).Some? ==> r.n == parse(a.w).value
    ensures r.Text? ==> r.s == a.w
    ensures !r.Empty?
  {
    match a
    case Index(i) => Num(i as real)
    case Word(w) =>
      match parse(w)
      case Some(x) => Num(x)
      case None => Text(w)
  }

  /**
   * The expression after the first `j` pieces of one filter. A connective word is copied as it
   * is; anything else must unpack into a triple: a clause of another length does not, and a lone
   * column number is no sequence at all.
   */
  function PiecesUpTo(ps: seq<Piece>, j: nat, parse: string -> Option<real>): Result<seq<Elem>>
    requires j <= |ps|
    decreases j
  {
    if j == 0 then Ok([])
    else match PiecesUpTo(ps, j - 1, parse)
      case Err(f) => Err(f)
      case Ok(q) =>
        match ps[j - 1]
        case Item(a) => if a.Index? then Err(TypeError) else Ok(q + [Conn(a)])
        case Group(items) =>
          if |items| != 3 then Err(UnpackError)
          else Ok(q + [Clause(Test(items[0], items[1], Literal(items[2], parse)))])
  }

  /** The expression after the first `i` filters, an `and` following every filter but the last. */
  function FiltersUpTo(fs: seq<(Atom, seq<Piece>)>, i: nat, parse: string -> Option<real>): Result<seq<Elem>>
    requires i <= |fs|
    decreases i
  {
    if i == 0 then Ok([])
    else match FiltersUpTo(fs, i - 1, parse)
      case Err(f) => Err(f)
      case Ok(q) =>
        match PiecesUpTo(fs[i - 1].1, |fs[i - 1].1|, parse)
        case Err(f) => Err(f)
        case Ok(e) => Ok(q + e + if i < |fs| then [Conn(AndWord)] else [])
  }

  /** The whole expression assembled from the filters, in the order they were stored. */
  function Flatten(fs: seq<(Atom, seq<Piece>)>, parse: string -> Option<real>): Result<seq<Elem>>
  {
    FiltersUpTo(fs, |fs|, parse)
  }

  predicate IsJoin(e: Elem)
  {
    e == Conn(AndWord) || e == Conn(OrWord)
  }

  /** The expression parses: calls and `and`/`or` alternate, starting and ending with a call. */
  predicate WellFormed(q: seq<Elem>)
    decreases |q|
  {
    |q| >= 1 && q[0].Clause? && (|q| == 1 || (|q| >= 3 && IsJoin(q[1]) && WellFormed(q[2..])))
  }

  /** Python's parse of a well-formed expression: the runs of calls between consecutive `or`s. */
  function Terms(q: seq<Elem>): (r: seq<seq<Test>>)
    requires WellFormed(q)
    ensures |r| >= 1
    decreases |q|
  {
    if |q| == 1 then [[q[0].t]]
    else
      var rest := Terms(q[2..]);
      if q[1] == Conn(OrWord) then [[q[0].t]] + rest else [[q[0].t] + rest[0]] + rest[1..]
  }

  /** One call: the column must be in the row, then the operator is applied to the cell and the literal. */
  function EvalTest(data: map<Atom, Value>, t: Test): Result<bool>
  {
    if t.key !in data then Err(KeyError) else Apply(t.op, data[t.key], t.lit)
  }

  /** An `and`-run, evaluated left to right, stopping at the first false call or the first exception. */
  function EvalAnd(data: map<Atom, Value>, t: seq<Test>): Result<bool>
  {
    if t == [] then Ok(true)
    else match EvalTest(data, t[0])
      case Err(f) => Err(f)
      case Ok(b) => if b then EvalAnd(data, t[1..]) else Ok(false)
  }

  /** An `or` of runs, evaluated left to right, stopping at the first true run or the first exception. */
  function EvalOr(data: map<Atom, Value>, ts: seq<seq<Test>>): Result<bool>
  {
    if ts == [] then Ok(false)
    else match EvalAnd(data, ts[0])
      case Err(f) => Err(f)
      case Ok(b) => if b then Ok(true) else EvalOr(data, ts[1..])
  }

  /** `eval(query)` of a parsed expression, or the `SyntaxError` of one that does not parse. */
  function Eval(data: map<Atom, Value>, q: seq<Elem>): Result<bool>
  {
    if WellFormed(q) then EvalOr(data, Terms(q)) else Err(SyntaxError)
  }

  /** What `validate_by_filters(data, filters)` returns or raises. */
  function Validate(data: map<Atom, Value>, fs: seq<(Atom, seq<Piece>)>, parse: string -> Option<real>): Result<bool>
  {
    match Flatten(fs, parse)
    case Err(f) => Err(f)
    case Ok(q) => Eval(data, q)
  }

  lemma {:induction false} PiecesFaultStays(ps: seq<Piece>, j: nat, k: nat, parse: string -> Option<real>)
    requires j <= k <= |ps| && PiecesUpTo(ps, j, parse).Err?
    ensures PiecesUpTo(ps, k, parse) == PiecesUpTo(ps, j, parse)
    decreases k
  {
    if k > j {
      PiecesFaultStays(ps, j, k - 1, parse);
    }
  }

  lemma {:induction false} FiltersFaultStays(fs: seq<(Atom, seq<Piece>)>, i: nat, k: nat, parse: string -> Option<real>)
    requires i <= k <= |fs| && FiltersUpTo(fs, i, parse).Err?
    ensures FiltersUpTo(fs, k, parse) == FiltersUpTo(fs, i, parse)
    decreases k
  {
    if k > i {
      FiltersFaultStays(fs, i, k - 1, parse);
    }
  }

  /** Pieces that are triples or connective words assemble without an exception. */
  lemma {:induction false} PiecesAssemble(ps: seq<Piece>, j: nat, parse: string -> Option<real>)
    requires j <= |ps|
    requires forall k :: 0 <= k < j ==> (ps[k].Group? && |ps[k].items| == 3) || (ps[k].Item? && ps[k].a.Word?)
    ensures PiecesUpTo(ps, j, parse).Ok?
  {
    if j > 0 {
      PiecesAssemble(ps, j - 1, parse);
    }
  }

  /**
   * A column number standing alone between the tuples of a filter is not a string, so it is
   * unpacked like a clause and raises `TypeError`, whatever the row.
   */
  lemma ColumnNumberRaises(data: map<Atom, Value>, key: Atom, ps: seq<Piece>, j: nat, parse: string -> Option<real>)
    requires j < |ps| && ps[j].Item? && ps[j].a.Index?
    requires forall k :: 0 <= k < j ==> (ps[k].Group? && |ps[k].items| == 3) || (ps[k].Item? && ps[k].a.Word?)
    ensures Validate(data, [(key, ps)], parse) == Err(TypeError)
  {
    PiecesAssemble(ps, j, parse);
    PiecesFaultStays(ps, j + 1, |ps|, parse);
    assert FiltersUpTo([(key, ps)], 0, parse) == Ok([]);
  }

  /** `validate_by_filters`: the two loops that assemble the expression, then its evaluation. */
  method ValidateByFilters(data: map<Atom, Value>, filters: seq<(Atom, seq<Piece>)>, parse: string -> Option<real>)
    returns (r: Result<bool>)
    ensures r == Validate(data, filters, parse)
  {
    var query: seq<Elem> := [];
    var i := 0;
    while i < |filters|
      invariant 0 <= i <= |filters|
      invariant FiltersUpTo(filters, i, parse) == Ok(query)
    {
      var value := filters[i].1;
      ghost var before := query;
      var j := 0;
      assert query[|before|..] == [];
      while j < |value|
        invariant 0 <= j <= |value|
        invariant |before| <= |query| && query[..|before|] == before
        invariant PiecesUpTo(value, j, parse) == Ok(query[|before|..])
      {
        ghost var e := query[|before|..];
        match value[j] {
        case Item(a) =>
          if a.Index? {
            PiecesFaultStays(value, j + 1, |value|, parse);
            FiltersFaultStays(filters, i + 1, |filters|, parse);
            return Err(TypeError);
          }
          query := query + [Conn(a)];
          assert query[|before|..] == e + [Conn(a)];
        case Group(items) =>
          if |items| != 3 {
            PiecesFaultStays(value, j + 1, |value|, parse);
            FiltersFaultStays(filters, i + 1, |filters|, parse);
            return Err(UnpackError);
          }
          var t := Test(items[0], items[1], Literal(items[2], parse));
          query := query + [Clause(t)];
          assert query[|before|..] == e + [Clause(t)];
        }
        j := j + 1;
      }
      assert query == before + query[|before|..];
      if i < |filters| - 1 {
        query := query + [Conn(AndWord)];
      } else {
        assert query + [] == query;
      }
      i := i + 1;
    }
    if !WellFormed(query) {
      return Err(SyntaxError);
    }
    r := EvalOr(data, Terms(query));
  }

  /** Every call of the run returns true. */
  predicate Holds(data: map<Atom, Value>, t: seq<Test>)
  {
    forall x :: x in t ==> EvalTest(data, x) == Ok(true)
  }

  /** A run holds exactly when every call in it returns true. */
  lemma {:induction false} AndAll(data: map<Atom, Value>, t: seq<Test>)
    ensures EvalAnd(data, t) == Ok(true) <==> Holds(data, t)
  {
    if t != [] {
      AndAll(data, t[1..]);
      assert t == [t[0]] + t[1..];
    }
  }

  /** Without exceptions, a run's value is whether every call in it holds. */
  lemma {:induction false} AndValue(data: map<Atom, Value>, t: seq<Test>)
    requires forall x :: x in t ==> EvalTest(data, x).Ok?
    ensures EvalAnd(data, t) == Ok(Holds(data, t))
  {
    AndAll(data, t);
    if t != [] {
      AndValue(data, t[1..]);
    }
  }

  /** Without exceptions, an `or` of runs holds when some run holds entirely. */
  lemma {:induction false} OrValue(data: map<Atom, Value>, ts: seq<seq<Test>>)
    requires forall k, x :: 0 <= k < |ts| && x in ts[k] ==> EvalTest(data, x).Ok?
    ensures EvalOr(data, ts) == Ok(exists k :: 0 <= k < |ts| && Holds(data, ts[k]))
  {
    if ts != [] {
      forall x | x in ts[0]
        ensures EvalTest(data, x).Ok?
      {
      }
      AndValue(data, ts[0]);
      var tail := ts[1..];
      forall k, x | 0 <= k < |tail| && x in tail[k]
        ensures EvalTest(data, x).Ok?
      {
        assert tail[k] == ts[k + 1];
      }
      OrValue(data, tail);
      if !Holds(data, ts[0]) {
        if exists k :: 0 <= k < |ts| && Holds(data, ts[k]) {
          var k :| 0 <= k < |ts| && Holds(data, ts[k]);
          assert tail[k - 1] == ts[k];
        }
        if exists k :: 0 <= k < |tail| && Holds(data, tail[k]) {
          var k :| 0 <= k < |tail| && Holds(data, tail[k]);
          assert tail[k] == ts[k + 1];
        }
      }
    }
  }

  /** Every call of a parsed run comes from the expression. */
  lemma {:induction false} TermsFromQuery(q: seq<Elem>)
    requires WellFormed(q)
    ensures forall k, x :: 0 <= k < |Terms(q)| && x in Terms(q)[k] ==> Clause(x) in q
    decreases |q|
  {
    if |q| > 1 {
      TermsFromQuery(q[2..]);
      var rest := Terms(q[2..]);
      forall k, x | 0 <= k < |Terms(q)| && x in Terms(q)[k]
        ensures Clause(x) in q
      {
        if q[1] == Conn(OrWord) {
          if k > 0 {
            assert Terms(q)[k] == rest[k - 1];
            assert Clause(x) in q[2..];
          }
        } else {
          if k > 0 {
            assert Terms(q)[k] == rest[k];
            assert Clause(x) in q[2..];
          } else if x != q[0].t {
            assert x in rest[0];
            assert Clause(x) in q[2..];
          }
        }
      }
    }
  }

  /**
   * `and` binds tighter than `or`: when no call raises, a parsed expression holds exactly when
   * some run of calls between consecutive `or`s holds entirely.
   */
  lemma Precedence(data: map<Atom, Value>, q: seq<Elem>)
    requires WellFormed(q)
    requires forall x :: Clause(x) in q ==> EvalTest(data, x).Ok?
    ensures Eval(data, q).Ok?
    ensures Eval(data, q).value <==> exists k :: 0 <= k < |Terms(q)| && Holds(data, Terms(q)[k])
  {
    TermsFromQuery(q);
    OrValue(data, Terms(q));
    assert Eval(data, q) == EvalOr(data, Terms(q));
  }

  /** Without `or`, the expression is a single run holding every call of the expression. */
  lemma {:induction false} NoOrOneTerm(q: seq<Elem>)
    requires WellFormed(q) && Conn(OrWord) !in q
    ensures |Terms(q)| == 1
    ensures forall x :: x in Terms(q)[0] <==> Clause(x) in q
    decreases |q|
  {
    if |q| > 1 {
      var rest := q[2..];
      assert q == [q[0], q[1]] + rest;
      NoOrOneTerm(rest);
      assert q[1] == Conn(AndWord);
      assert Terms(q) == [[q[0].t] + Terms(rest)[0]];
    }
  }

  /** Without `or`, a row passes exactly when every call returns true (whatever the others raise). */
  lemma NoOr(data: map<Atom, Value>, q: seq<Elem>)
    requires WellFormed(q) && Conn(OrWord) !in q
    ensures Eval(data, q) == Ok(true) <==> forall x :: Clause(x) in q ==> EvalTest(data, x) == Ok(true)
  {
    NoOrOneTerm(q);
    var ts := Terms(q);
    AndAll(data, ts[0]);
    assert ts == [ts[0]];
    OrOfOne(data, ts[0]);
    assert Eval(data, q) == EvalOr(data, [ts[0]]);
  }

  lemma OrOfOne(data: map<Atom, Value>, t: seq<Test>)
    ensures EvalOr(data, [t]) == EvalAnd(data, t)
  {
    assert [t][1..] == [];
  }

  /** Joining two expressions with `and` parses exactly when both parse. */
  lemma {:induction false} WellFormedJoin(a: seq<Elem>, b: seq<Elem>)
    ensures WellFormed(a + [Conn(AndWord)] + b) <==> WellFormed(a) && WellFormed(b)
    decreases |a|
  {
    var q := a + [Conn(AndWord)] + b;
    if a == [] {
      assert q[0] == Conn(AndWord);
    } else if |a| == 1 {
      assert q[2..] == b;
      assert q[0] == a[0];
    } else {
      assert q[2..] == a[2..] + [Conn(AndWord)] + b;
      assert q[0] == a[0] && q[1] == a[1];
      WellFormedJoin(a[2..], b);
    }
  }

  /** The expression of one filter holding one clause. */
  lemma OneClauseQuery(fs: seq<(Atom, seq<Piece>)>, key: Atom, op: Atom, v: Atom, parse: string -> Option<real>)
    requires |fs| == 1 && fs[0].1 == [Group([key, op, v])]
    ensures Flatten(fs, parse) == Ok([Clause(Test(key, op, Literal(v, parse)))])
  {
    var t := Test(key, op, Literal(v, parse));
    assert PiecesUpTo(fs[0].1, 0, parse) == Ok([]);
    assert PiecesUpTo(fs[0].1, 1, parse) == Ok([] + [Clause(t)]);
    assert FiltersUpTo(fs, 0, parse) == Ok([]);
    assert [] + [Clause(t)] == [Clause(t)];
    assert PiecesUpTo(fs[0].1, |fs[0].1|, parse) == Ok([Clause(t)]);
    assert FiltersUpTo(fs, 1, parse) == Ok([] + [Clause(t)] + []);
    assert [] + [Clause(t)] + [] == [Clause(t)];
  }

  /** A single `column op value` filter is one operator call on the row's cell. */
  lemma SingleClause(data: map<Atom, Value>, col: Atom, key: Atom, op: Atom, v: Atom, parse: string -> Option<real>)
    ensures Validate(data, [(col, [Group([key, op, v])])], parse) ==
            if key !in data then Err(KeyError) else Apply(op, data[key], Literal(v, parse))
  {
    var t := Test(key, op, Literal(v, parse));
    OneClauseQuery([(col, [Group([key, op, v])])], key, op, v, parse);
    assert WellFormed([Clause(t)]);
    assert Terms([Clause(t)]) == [[t]];
    OrOfOne(data, [t]);
    assert [t][1..] == [];
    assert EvalAnd(data, [t]) == EvalTest(data, t);
  }

  /** The expression of two filters is the first's, an `and`, then the second's. */
  lemma TwoFiltersQuery(f1: (Atom, seq<Piece>), f2: (Atom, seq<Piece>), parse: string -> Option<real>)
    requires Flatten([f1], parse).Ok? && Flatten([f2], parse).Ok?
    ensures Flatten([f1, f2], parse) == Ok(Flatten([f1], parse).value + [Conn(AndWord)] + Flatten([f2], parse).value)
  {
    var fs := [f1, f2];
    assert FiltersUpTo([f1], 0, parse) == Ok([]);
    assert FiltersUpTo([f2], 0, parse) == Ok([]);
    assert FiltersUpTo(fs, 0, parse) == Ok([]);
    var a := PiecesUpTo(f1.1, |f1.1|, parse).value;
    var b := PiecesUpTo(f2.1, |f2.1|, parse).value;
    assert Flatten([f1], parse).value == [] + a + [];
    assert Flatten([f2], parse).value == [] + b + [];
    assert [] + a + [] == a && [] + b + [] == b;
    assert FiltersUpTo(fs, 1, parse) == Ok([] + a + [Conn(AndWord)]);
    assert [] + a + [Conn(AndWord)] == a + [Conn(AndWord)];
    assert a + [Conn(AndWord)] + b + [] == a + [Conn(AndWord)] + b;
  }

  /**
   * The filters of two columns, neither using `or`, are conjoined: a row passes both together
   * exactly when it passes each alone.
   */
  lemma AndAcrossColumns(data: map<Atom, Value>, f1: (Atom, seq<Piece>), f2: (Atom, seq<Piece>), parse: string -> Option<real>)
    requires Flatten([f1], parse).Ok? && Flatten([f2], parse).Ok?
    requires Conn(OrWord) !in Flatten([f1], parse).value && Conn(OrWord) !in Flatten([f2], parse).value
    ensures Validate(data, [f1, f2], parse) == Ok(true) <==>
            Validate(data, [f1], parse) == Ok(true) && Validate(data, [f2], parse) == Ok(true)
  {
    var a := Flatten([f1], parse).value;
    var b := Flatten([f2], parse).value;
    TwoFiltersQuery(f1, f2, parse);
    var q := a + [Conn(AndWord)] + b;
    WellFormedJoin(a, b);
    if WellFormed(q) {
      assert Conn(OrWord) !in q;
      NoOr(data, q);
      NoOr(data, a);
      NoOr(data, b);
      assert forall x :: Clause(x) in q <==> Clause(x) in a || Clause(x) in b;
    }
  }

  /** `a and b or c`: a false `a` skips `b`, whatever `b` would raise, and the row passes on `c`. */
  lemma ShortCircuit(data: map<Atom, Value>, a: Test, b: Test, c: Test)
    requires EvalTest(data, a) == Ok(false) && EvalTest(data, c) == Ok(true)
    ensures Terms([Clause(a), Conn(AndWord), Clause(b), Conn(OrWord), Clause(c)]) == [[a, b], [c]]
    ensures Eval(data, [Clause(a), Conn(AndWord), Clause(b), Conn(OrWord), Clause(c)]) == Ok(true)
    ensures Eval(data, [Clause(c), Conn(OrWord), Clause(b)]) == Ok(true)
  {
    var q := [Clause(a), Conn(AndWord), Clause(b), Conn(OrWord), Clause(c)];
    assert q[2..] == [Clause(b), Conn(OrWord), Clause(c)];
    assert q[2..][2..] == [Clause(c)];
    assert WellFormed([Clause(c)]) && Terms([Clause(c)]) == [[c]];
    assert WellFormed(q[2..]) && Terms(q[2..]) == [[b], [c]];
    assert [[b], [c]][0] == [b] && [[b], [c]][1..] == [[c]] && [a] + [b] == [a, b];
    assert WellFormed(q) && Terms(q) == [[a, b], [c]];
    assert EvalAnd(data, [a, b]) == Ok(false);
    assert [[a, b], [c]][1..] == [[c]];
    assert [c][1..] == [];
    assert EvalAnd(data, [c]) == Ok(true);
    OrOfOne(data, [c]);
    assert EvalOr(data, [[a, b], [c]]) == Ok(true);
    var p := [Clause(c), Conn(OrWord), Clause(b)];
    assert p[2..] == [Clause(b)];
    assert WellFormed([Clause(b)]) && Terms([Clause(b)]) == [[b]];
    assert WellFormed(p) && Terms(p) == [[c], [b]];
  }

  /**
   * The columns' filters are joined by a plain `and` with no parentheses, so an `or` inside
   * one column's filter also bypasses the filters stored after it: a row that fails column 1's
   * filter still passes when the first alternative of column 0's filter holds.
   */
  lemma OrLeaksAcrossColumns(parse: string -> Option<real>)
    requires parse("1") == Some(1.0) && parse("2") == Some(2.0) && parse("10") == Some(10.0)
    ensures var data := map[Index(0) := Num(1.0), Index(1) := Num(5.0)];
            var f0 := (Index(0), [Group([Index(0), Word("="), Word("1")]), Item(OrWord), Group([Index(0), Word("="), Word("2")])]);
            var f1 := (Index(1), [Group([Index(1), Word(">"), Word("10")])]);
            Validate(data, [f1], parse) == Ok(false) && Validate(data, [f0, f1], parse) == Ok(true)
  {
    var data := map[Index(0) := Num(1.0), Index(1) := Num(5.0)];
    var f0 := (Index(0), [Group([Index(0), Word("="), Word("1")]), Item(OrWord), Group([Index(0), Word("="), Word("2")])]);
    var f1 := (Index(1), [Group([Index(1), Word(">"), Word("10")])]);
    SingleClause(data, Index(1), Index(1), Word(">"), Word("10"), parse);
    var t0 := Test(Index(0), Word("="), Num(1.0));
    var t1 := Test(Index(0), Word("="), Num(2.0));
    var t2 := Test(Index(1), Word(">"), Num(10.0));
    var a := [Clause(t0), Conn(OrWord), Clause(t1)];
    assert PiecesUpTo(f0.1, 0, parse) == Ok([]);
    assert [] + [Clause(t0)] == [Clause(t0)];
    assert PiecesUpTo(f0.1, 1, parse) == Ok([Clause(t0)]);
    assert [Clause(t0)] + [Conn(OrWord)] == [Clause(t0), Conn(OrWord)];
    assert PiecesUpTo(f0.1, 2, parse) == Ok([Clause(t0), Conn(OrWord)]);
    assert [Clause(t0), Conn(OrWord)] + [Clause(t1)] == a;
    assert PiecesUpTo(f0.1, 3, parse) == Ok(a);
    assert FiltersUpTo([f0], 0, parse) == Ok([]);
    assert [] + a + [] == a;
    assert FiltersUpTo([f0], 1, parse) == Ok(a);
    OneClauseQuery([f1], Index(1), Word(">"), Word("10"), parse);
    TwoFiltersQuery(f0, f1, parse);
    var q := a + [Conn(AndWord)] + [Clause(t2)];
    assert q == [Clause(t0), Conn(OrWord), Clause(t1), Conn(AndWord), Clause(t2)];
    assert q[2..] == [Clause(t1), Conn(AndWord), Clause(t2)];
    assert q[2..][2..] == [Clause(t2)];
    assert WellFormed([Clause(t2)]) && Terms([Clause(t2)]) == [[t2]];
    assert [[t2]][0] == [t2] && [[t2]][1..] == [] && [t1] + [t2] == [t1, t2];
    assert WellFormed(q[2..]) && Terms(q[2..]) == [[t1, t2]];
    assert WellFormed(q) && Terms(q) == [[t0], [t1, t2]];
    assert [t0][1..] == [];
    assert EvalAnd(data, [t0]) == Ok(true);
    assert Eval(data, q) == Ok(true);
  }

  /**
   * Every cell read from a CSV file is text, so ordering or substring tests against a literal
   * that `float()` accepts raise `TypeError`, and `=` is never true.
   */
  lemma TextCellAgainstNumber(data: map<Atom, Value>, key: Atom, op: string, w: string, parse: string -> Option<real>)
    requires key in data && data[key].Text? && parse(w).Some?
    ensures op in {">", "<", "contains", "~contains"} ==>
              Validate(data, [(key, [Group([key, Word(op), Word(w)])])], parse) == Err(TypeError)
    ensures Validate(data, [(key, [Group([key, Word("="), Word(w)])])], parse) == Ok(false)
  {
    SingleClause(data, key, key, Word(op), Word(w), parse);
    SingleClause(data, key, key, Word("="), Word(w), parse);
  }
}

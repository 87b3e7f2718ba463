/**
 * Entering one filter line for a file in the filtering menu: the line is tokenized, checked by
 * an ordered cascade (the first failing check is the one reported), and, when it passes,
 * structured and stored in the file's filter dictionary under its column, replacing any filter
 * stored for that column before.
 */
module FilterEntry {
  import opened Common
  import opened Tokenizer
  import opened Structurer
  import opened Operators
  import opened Evaluator

  /** Why a filter line was refused; each is one message of the menu. */
  datatype Reason =
    | EmptyFilter        // the line has no tokens
    | UnknownColumn      // no header matches the first token, ignoring case
    | ColumnNotNumber    // without headers, the first token is not a column number
    | TooFewArguments    // fewer than three tokens
    | MissingConnective  // more than three tokens but no `and`/`or` among them
    | NotOperators       // a token in an operator position is not a registered operator
    | BadValues          // a `ValueError` while storing: exact-case header lookup or `int()` of a clause head

  /** What entering one line does: refuse it, store a filter under a column, or raise out of the menu. */
  datatype Outcome = Rejected(reason: Reason) | Stored(key: Atom, filter: seq<Piece>) | Crashed(fault: Fault)

  /** Python's `s[1::3]`: the tokens in operator positions 1, 4, 7, ... */
  function EveryThird(s: seq<string>): seq<string>
  {
    seq((|s| + 1) / 3, k requires 0 <= k < (|s| + 1) / 3 => s[3 * k + 1])
  }

  function LowerAll(names: seq<string>): (r: seq<string>)
    ensures |r| == |names| && forall i :: 0 <= i < |names| ==> r[i] == Lower(names[i])
  {
    seq(|names|, i requires 0 <= i < |names| => Lower(names[i]))
  }

  /** The checks of the menu, in their order; `None` when the line passes all of them. */
  function Check(s: seq<string>, headers: seq<string>): Option<Reason>
  {
    if s == [] then Some(EmptyFilter)
    else if headers != [] && Lower(s[0]) !in LowerAll(headers) then Some(UnknownColumn)
    else if headers == [] && !IsDigits(s[0]) then Some(ColumnNotNumber)
    else if |s| < 3 then Some(TooFewArguments)
    else if |s| > 3 && "and" !in s && "or" !in s then Some(MissingConnective)
    else if exists op :: op in EveryThird(s) && op !in Symbols then Some(NotOperators)
    else None
  }

  /**
   * A line passes the cascade exactly when it has at least three tokens, its first token names
   * a header up to case (or, without headers, is a column number), a longer line holds a
   * connective, and every token in an operator position is a registered operator.
   */
  lemma CheckPasses(s: seq<string>, headers: seq<string>)
    ensures Check(s, headers) == None <==>
              |s| >= 3
              && (headers != [] ==> exists i :: 0 <= i < |headers| && Lower(headers[i]) == Lower(s[0]))
              && (headers == [] ==> IsDigits(s[0]))
              && (|s| > 3 ==> "and" in s || "or" in s)
              && forall k :: 0 <= k < |s| && k % 3 == 1 ==> s[k] in Symbols
  {
    if |s| >= 3 {
      var ops := EveryThird(s);
      forall k | 0 <= k < |s| && k % 3 == 1
        ensures s[k] in ops
      {
        assert ops[k / 3] == s[k];
      }
      forall op | op in ops
        ensures exists k :: 0 <= k < |s| && k % 3 == 1 && s[k] == op
      {
        var j :| 0 <= j < |ops| && ops[j] == op;
        assert (3 * j + 1) % 3 == 1;
      }
    }
    if headers != [] && s != [] {
      var low := LowerAll(headers);
      if Lower(s[0]) in low {
        var i :| 0 <= i < |low| && low[i] == Lower(s[0]);
      }
    }
  }

  /**
   * The outcome for a token list: with headers the column is looked up again with its exact
   * case and the tokens are structured as they are; without headers the first token becomes the
   * zero-based column index and every clause head is converted with `int()`.
   */
  function Decide(tokens: seq<string>, headers: seq<string>): Outcome
  {
    match Check(tokens, headers)
    case Some(reason) => Rejected(reason)
    case None =>
      if headers != [] then
        if tokens[0] !in headers then Rejected(BadValues)
        else Stored(Word(tokens[0]), Structure(Words(tokens)))
      else
        var atoms := HeadlessAtoms(tokens);
        match ToIndexes(Structure(atoms))
        case Ok(ps) => Stored(atoms[0], ps)
        case Err(f) => if f == ValueError then Rejected(BadValues) else Crashed(f)
  }

  /** Assignment to a key of an insertion-ordered dictionary: in place when present, appended otherwise. */
  function Put<K(==), V>(es: seq<(K, V)>, k: K, v: V): seq<(K, V)>
  {
    if es == [] then [(k, v)]
    else if es[0].0 == k then [(k, v)] + es[1..]
    else [es[0]] + Put(es[1..], k, v)
  }

  /** The value stored under `k`. */
  function Lookup<K(==), V>(es: seq<(K, V)>, k: K): Option<V>
  {
    if es == [] then None else if es[0].0 == k then Some(es[0].1) else Lookup(es[1..], k)
  }

  predicate UniqueKeys<K(==), V>(es: seq<(K, V)>)
  {
    forall i, j :: 0 <= i < j < |es| ==> es[i].0 != es[j].0
  }

  /** After storing, the key holds the new value and every other key keeps its own. */
  lemma {:induction false} PutLookup<K, V>(es: seq<(K, V)>, k: K, v: V, other: K)
    ensures Lookup(Put(es, k, v), k) == Some(v)
    ensures other != k ==> Lookup(Put(es, k, v), other) == Lookup(es, other)
  {
    if es != [] && es[0].0 != k {
      PutLookup(es[1..], k, v, other);
    }
  }

  /** Storing under a key that is already present replaces its value in place and changes nothing else. */
  lemma {:induction false} PutInPlace<K, V>(es: seq<(K, V)>, k: K, v: V)
    requires UniqueKeys(es) && exists i :: 0 <= i < |es| && es[i].0 == k
    ensures |Put(es, k, v)| == |es|
    ensures forall i :: 0 <= i < |es| ==> Put(es, k, v)[i] == if es[i].0 == k then (k, v) else es[i]
  {
    var r := Put(es, k, v);
    if es[0].0 != k {
      var j :| 0 <= j < |es| && es[j].0 == k;
      assert es[1..][j - 1].0 == k;
      PutInPlace(es[1..], k, v);
      assert forall i :: 0 < i < |es| ==> r[i] == Put(es[1..], k, v)[i - 1];
    }
  }

  /** Storing under a new key appends it last. */
  lemma {:induction false} PutNew<K, V>(es: seq<(K, V)>, k: K, v: V)
    requires forall i :: 0 <= i < |es| ==> es[i].0 != k
    ensures Put(es, k, v) == es + [(k, v)]
  {
    if es != [] {
      PutNew(es[1..], k, v);
      assert es == [es[0]] + es[1..];
      assert [es[0]] + (es[1..] + [(k, v)]) == es + [(k, v)];
    }
  }

  /** Storing keeps the keys distinct. */
  lemma PutUnique<K, V>(es: seq<(K, V)>, k: K, v: V)
    requires UniqueKeys(es)
    ensures UniqueKeys(Put(es, k, v))
  {
    if exists i :: 0 <= i < |es| && es[i].0 == k {
      PutInPlace(es, k, v);
    } else {
      PutNew(es, k, v);
    }
  }

  /**
   * The storing branch of the menu for a line that passed the cascade: with headers the column is
   * looked up with its exact case, without headers the column number becomes a zero-based index.
   */
  method Store(statements: seq<string>, headers: seq<string>) returns (outcome: Outcome)
    requires Check(statements, headers) == None
    ensures outcome == Decide(statements, headers)
  {
    if headers != [] {
      if statements[0] !in headers {
        return Rejected(BadValues);
      }
      var processed := ProcessQuery(Words(statements), false);
      outcome := Stored(Word(statements[0]), processed.value);
    } else {
      var key := Index(DecimalValue(statements[0]) - 1);
      var processed := ProcessQuery([key] + Words(statements[1..]), true);
      if processed.Err? {
        return if processed.fault == ValueError then Rejected(BadValues) else Crashed(processed.fault);
      }
      outcome := Stored(key, processed.value);
    }
  }

  /** The filter dictionary of one file, in insertion order. */
  class FilterSet {
    var entries: seq<(Atom, seq<Piece>)>

    ghost predicate Valid()
      reads this
    {
      UniqueKeys(entries)
    }

    constructor ()
      ensures entries == [] && Valid()
    {
      entries := [];
    }

    /** One pass of the menu's input loop for a non-empty line other than `/help`. */
    method Enter(query: string, headers: seq<string>) returns (outcome: Outcome)
      requires Valid()
      modifies this
      ensures Valid()
      ensures outcome == Decide(Tokens(query), headers)
      ensures entries == if outcome.Stored? then Put(old(entries), outcome.key, outcome.filter) else old(entries)
    {
      var statements := ParseQuery(query);
      var operators := EveryThird(statements);
      if statements == [] {
        return Rejected(EmptyFilter);
      } else if headers != [] && Lower(statements[0]) !in LowerAll(headers) {
        return Rejected(UnknownColumn);
      } else if headers == [] && !IsDigits(statements[0]) {
        return Rejected(ColumnNotNumber);
      } else if |statements| < 3 {
        return Rejected(TooFewArguments);
      } else if |statements| > 3 && "and" !in statements && "or" !in statements {
        return Rejected(MissingConnective);
      } else if exists op :: op in operators && op !in Symbols {
        return Rejected(NotOperators);
      }
      assert Check(statements, headers) == None;
      outcome := Store(statements, headers);
      if !outcome.Stored? {
        return;
      }
      PutUnique(entries, outcome.key, outcome.filter);
      entries := Put(entries, outcome.key, outcome.filter);
    }
  }

  /**
   * A column that names a header only up to case passes the column check, so a line that is
   * otherwise well formed passes every check, and then fails the exact lookup.
   */
  lemma CaseOnlyMatch(s: seq<string>, headers: seq<string>, i: nat)
    requires |s| >= 3 && i < |headers| && Lower(headers[i]) == Lower(s[0]) && s[0] !in headers
    requires |s| > 3 ==> "and" in s || "or" in s
    requires forall k :: 0 <= k < |s| && k % 3 == 1 ==> s[k] in Symbols
    ensures Check(s, headers) == None
    ensures Decide(s, headers) == Rejected(BadValues)
  {
    CheckPasses(s, headers);
  }

  /** For instance, `price > 5` against the header `Price`. */
  lemma PriceAgainstHeader()
    ensures Decide(["price", ">", "5"], ["Price"]) == Rejected(BadValues)
  {
    assert forall i :: 0 <= i < 5 ==> Lower("Price")[i] == "price"[i] == Lower("price")[i];
    assert Lower("Price") == Lower("price");
    CaseOnlyMatch(["price", ">", "5"], ["Price"], 0);
  }

  /** The first failing check is reported: a short line with an unknown column is refused for its column. */
  lemma FirstCheckWins()
    ensures Check(["x", "?"], ["a"]) == Some(UnknownColumn)
    ensures Check(["x", "?"], []) == Some(ColumnNotNumber)
    ensures Check(["1", "?"], []) == Some(TooFewArguments)
    ensures Check(["1", "?", "2", "3"], []) == Some(MissingConnective)
    ensures Check(["1", "?", "2"], []) == Some(NotOperators)
  {
    assert Lower("x")[0] == 'x' && Lower("a")[0] == 'a';
    assert IsDigits("1");
    assert !IsDigits("x");
    assert EveryThird(["1", "?", "2"]) == ["?"];
    assert "?" !in Symbols;
  }

  /** A line `column op value` naming an exact header is stored as that one clause. */
  lemma SimpleClauseStored(col: string, op: string, val: string, headers: seq<string>)
    requires col in headers && op in Symbols
    requires !IsConnective(Word(col)) && !IsConnective(Word(op)) && !IsConnective(Word(val))
    ensures Decide([col, op, val], headers) == Stored(Word(col), [Group([Word(col), Word(op), Word(val)])])
  {
    var s := [col, op, val];
    var i :| 0 <= i < |headers| && headers[i] == col;
    assert LowerAll(headers)[i] == Lower(col);
    assert EveryThird(s) == [op];
    assert Words(s) == [Word(col), Word(op), Word(val)];
    NoConnective(Words(s));
  }

  /**
   * Without headers, column numbers count from 1: `N op value` is stored under index N - 1 with
   * the clause's head converted to that index.
   */
  lemma NumberedClauseStored(col: string, op: string, val: string)
    requires IsDigits(col) && op in Symbols
    requires !IsConnective(Word(op)) && !IsConnective(Word(val))
    ensures Decide([col, op, val], []) ==
            Stored(Index(DecimalValue(col) - 1), [Group([Index(DecimalValue(col) - 1), Word(op), Word(val)])])
  {
    var s := [col, op, val];
    var atoms := HeadlessAtoms(s);
    assert Check(s, []) == None by {
      assert EveryThird(s) == [op];
    }
    assert atoms == [Index(DecimalValue(col) - 1), Word(op), Word(val)];
    NoConnective(atoms);
    assert ToIndexes([Group(atoms)]) == Ok([Group(atoms)]) by {
      assert ToIndex(Group(atoms)) == Ok(Group(atoms));
      assert [Group(atoms)][1..] == [] && [Group(atoms)] + [] == [Group(atoms)];
    }
    HeadlessStored(s);
  }

  /** `column op1 v1 and op2 v2` is stored as two clauses on the same column around the connective. */
  lemma ConnectedClausesStored(col: string, op1: string, v1: string, conn: string, op2: string, v2: string, headers: seq<string>)
    requires col in headers && op1 in Symbols && op2 in Symbols && (conn == "and" || conn == "or")
    requires !IsConnective(Word(col)) && !IsConnective(Word(v1)) && !IsConnective(Word(v2))
    ensures Decide([col, op1, v1, conn, op2, v2], headers) ==
            Stored(Word(col), [Group([Word(col), Word(op1), Word(v1)]), Item(Word(conn)),
                               Group([Word(col), Word(op2), Word(v2)])])
  {
    var s := [col, op1, v1, conn, op2, v2];
    assert Check(s, headers) == None by {
      var i :| 0 <= i < |headers| && headers[i] == col;
      assert LowerAll(headers)[i] == Lower(col);
      assert s[3..] == [conn, op2, v2];
      assert EveryThird(s) == [op1, op2];
      assert conn in s;
    }
    var w := Words(s);
    assert w == [Word(col), Word(op1), Word(v1), Word(conn), Word(op2), Word(v2)];
    OneConnectiveClauses(w);
  }

  /**
   * The cascade checks only operator positions and the presence of a connective, so
   * `c > 1 and <` is accepted and stored; its second clause is the pair `(c, <)`, which makes
   * every later evaluation of the row test raise on unpacking.
   */
  lemma AcceptedButUnusable(data: map<Atom, Value>, parse: string -> Option<real>)
    ensures Decide(["c", ">", "1", "and", "<"], ["c"]) ==
            Stored(Word("c"), [Group([Word("c"), Word(">"), Word("1")]), Item(AndWord), Group([Word("c"), Word("<")])])
    ensures Validate(data, [(Word("c"), [Group([Word("c"), Word(">"), Word("1")]), Item(AndWord), Group([Word("c"), Word("<")])])], parse)
            == Err(UnpackError)
  {
    var s := ["c", ">", "1", "and", "<"];
    assert LowerAll(["c"])[0] == Lower("c");
    assert s[3..] == ["and", "<"];
    assert EveryThird(s) == [">", "<"];
    var w := Words(s);
    assert w == [Word("c"), Word(">"), Word("1"), Word("and"), Word("<")];
    OneConnective(w, 3);
    assert w[0..3] == [Word("c"), Word(">"), Word("1")];
    assert [w[0]] + w[4..5] == [Word("c"), Word("<")];
    var ps := [Group([Word("c"), Word(">"), Word("1")]), Item(AndWord), Group([Word("c"), Word("<")])];
    assert PiecesUpTo(ps, 3, parse).Err?;
    PiecesFaultStays(ps, 3, 3, parse);
    var fs := [(Word("c"), ps)];
    assert FiltersUpTo(fs, 0, parse) == Ok([]);
    assert FiltersUpTo(fs, 1, parse) == Err(UnpackError);
  }

  /** The token list structured for a headerless file: the column number, then the other tokens as text. */
  function HeadlessAtoms(s: seq<string>): (r: seq<Atom>)
    requires s != [] && IsDigits(s[0])
    ensures |r| == |s| && r[0] == Index(DecimalValue(s[0]) - 1)
    ensures forall i :: 1 <= i < |s| ==> r[i] == Word(s[i])
  {
    [Index(DecimalValue(s[0]) - 1)] + Words(s[1..])
  }

  /** Without headers, a line that passes the checks and whose clause heads all convert is stored under its column number. */
  lemma HeadlessStored(s: seq<string>)
    requires Check(s, []) == None
    requires ToIndexes(Structure(HeadlessAtoms(s))).Ok?
    ensures Decide(s, []) == Stored(HeadlessAtoms(s)[0], ToIndexes(Structure(HeadlessAtoms(s))).value)
  {
  }

  /** The pieces of `1 > 7 8 < and and = 5` and its like convert, and then raise on the lone column number. */
  lemma AdjacentPiecesRaise(s: seq<string>, data: map<Atom, Value>, parse: string -> Option<real>)
    requires |s| == 9 && IsDigits(s[0])
    requires IsConnective(Word(s[5])) && IsConnective(Word(s[6]))
    requires forall i :: 1 <= i < 9 && i != 5 && i != 6 ==> !IsConnective(Word(s[i]))
    requires ParseInt(s[2]).Some? && ParseInt(s[3]).Some?
    ensures ToIndexes(Structure(HeadlessAtoms(s))).Ok?
    ensures Validate(data, [(HeadlessAtoms(s)[0], ToIndexes(Structure(HeadlessAtoms(s))).value)], parse) == Err(TypeError)
  {
    var atoms := HeadlessAtoms(s);
    AdjacentConverted(atoms);
    ColumnNumberRaises(data, atoms[0], ToIndexes(Structure(atoms)).value, 4, parse);
  }

  /**
   * Without headers, the column token becomes an `int` before structuring, so with two adjacent
   * connectives (`1 > 7 8 < and and = 5`) the copy of the column is emitted as a lone token
   * between tuples: the line is accepted and stored, and every evaluation of the row test then
   * raises `TypeError` on unpacking it.
   */
  lemma AdjacentConnectivesUnusable(s: seq<string>, data: map<Atom, Value>, parse: string -> Option<real>)
    requires |s| == 9 && Check(s, []) == None
    requires IsConnective(Word(s[5])) && IsConnective(Word(s[6]))
    requires forall i :: 1 <= i < 9 && i != 5 && i != 6 ==> !IsConnective(Word(s[i]))
    requires ParseInt(s[2]).Some? && ParseInt(s[3]).Some?
    ensures Decide(s, []).Stored?
    ensures Validate(data, [(Decide(s, []).key, Decide(s, []).filter)], parse) == Err(TypeError)
  {
    AdjacentPiecesRaise(s, data, parse);
    HeadlessStored(s);
  }
}

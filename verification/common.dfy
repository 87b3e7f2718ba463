/** Types and helpers shared by every component of the table splitter/merger model. */
module Common {

  datatype Option<T> = None | Some(value: T)

  /** The exceptions that the filtering and merging code can raise. */
  datatype Fault =
    | SyntaxError   // the assembled boolean expression does not parse
    | UnpackError   // a structured clause is not a triple (Python raises `ValueError` there, and nothing catches it)
    | KeyError      // an unknown operator symbol, or a column missing from the row
    | TypeError     // an ordering or substring test between values of different kinds, or unpacking a number
    | ValueError    // `int(...)` of a token that is not an integer
    | IndexError    // the first element of an empty clause, or of an empty file list, was asked for
    | StopIteration // the header line of an empty file was asked for

  datatype Result<T> = Ok(value: T) | Err(fault: Fault)

  /** An element of a token list: a text token, or the integer column index that replaces one. */
  datatype Atom = Word(w: string) | Index(i: int)

  /** A cell of a row, or a filter literal after numeric coercion; `Empty` is Python's `None`. */
  datatype Value = Num(n: real) | Text(s: string) | Empty

  type Row = seq<Value>

  /** Lower-cases the ASCII letters of `s`. */
  function Lower(s: string): string
  {
    seq(|s|, i requires 0 <= i < |s| => if 'A' <= s[i] <= 'Z' then (s[i] as int + 32) as char else s[i])
  }

  /** Wraps every string as a `Word` atom. */
  function Words(s: seq<string>): (r: seq<Atom>)
    ensures |r| == |s| && forall i :: 0 <= i < |s| ==> r[i] == Word(s[i])
  {
    seq(|s|, i requires 0 <= i < |s| => Word(s[i]))
  }

  /** A row made of the header names. */
  function TextRow(names: seq<string>): (r: Row)
    ensures |r| == |names| && forall i :: 0 <= i < |names| ==> r[i] == Text(names[i])
  {
    seq(|names|, i requires 0 <= i < |names| => Text(names[i]))
  }

  /** `str.isdigit()` restricted to ASCII digits. */
  predicate IsDigits(s: string)
  {
    |s| > 0 && forall i :: 0 <= i < |s| ==> '0' <= s[i] <= '9'
  }

  function DecimalValue(s: string): nat
    requires IsDigits(s) || s == ""
  {
    if s == "" then 0 else 10 * DecimalValue(s[..|s| - 1]) + (s[|s| - 1] as int - '0' as int)
  }

  /** `int(w)` for an optional sign followed by ASCII digits; `None` where Python raises `ValueError`. */
  function ParseInt(w: string): Option<int>
  {
    if IsDigits(w) then Some(DecimalValue(w))
    else if |w| > 1 && w[0] == '-' && IsDigits(w[1..]) then Some(-(DecimalValue(w[1..]) as int))
    else if |w| > 1 && w[0] == '+' && IsDigits(w[1..]) then Some(DecimalValue(w[1..]))
    else None
  }

  /** Python's `str.split(c)`: the pieces between occurrences of `c`, always at least one. */
  function Split(s: string, c: char): (r: seq<string>)
    ensures |r| >= 1
  {
    if s == [] then [""]
    else
      var rest := Split(s[1..], c);
      if s[0] == c then [""] + rest else [[s[0]] + rest[0]] + rest[1..]
  }

  /** Python's `c.join(parts)`. */
  function Join(parts: seq<string>, c: char): string
  {
    if parts == [] then ""
    else if |parts| == 1 then parts[0]
    else parts[0] + [c] + Join(parts[1..], c)
  }

  /** `Join` inverts `Split`. */
  lemma {:induction false} JoinSplit(s: string, c: char)
    ensures Join(Split(s, c), c) == s
  {
    if s != [] {
      JoinSplit(s[1..], c);
      var rest := Split(s[1..], c);
      if s[0] == c {
        assert Join([""] + rest, c) == "" + [c] + Join(rest, c);
        assert s == [s[0]] + s[1..];
      } else {
        if |rest| == 1 {
          assert s == [s[0]] + rest[0];
        } else {
          assert Join(rest, c) == rest[0] + [c] + Join(rest[1..], c);
          var r := [[s[0]] + rest[0]] + rest[1..];
          assert r[1..] == rest[1..];
          assert s == [s[0]] + s[1..];
        }
      }
    }
  }

  /** No piece of a split contains the separator. */
  lemma {:induction false} SplitPiecesFree(s: string, c: char)
    ensures forall k :: 0 <= k < |Split(s, c)| ==> c !in Split(s, c)[k]
  {
    if s != [] {
      SplitPiecesFree(s[1..], c);
    }
  }

  /** Splitting at a separator occurrence splits the pieces list there. */
  lemma {:induction false} SplitAt(a: string, b: string, c: char)
    ensures Split(a + [c] + b, c) == Split(a, c) + Split(b, c)
  {
    if a == [] {
      assert [c] + b == a + [c] + b;
      assert ([c] + b)[1..] == b;
    } else {
      assert (a + [c] + b)[1..] == a[1..] + [c] + b;
      SplitAt(a[1..], b, c);
    }
  }

  /** A string free of the separator is a single piece. */
  lemma {:induction false} SplitFree(b: string, c: char)
    requires c !in b
    ensures Split(b, c) == [b]
  {
    if b != [] {
      SplitFree(b[1..], c);
      assert b == [b[0]] + b[1..];
    }
  }

  /** Python's `dict(zip(keys, vals))`: pairs up to the shorter length, later keys win. */
  function ZipMap<K, V>(keys: seq<K>, vals: seq<V>): map<K, V>
    decreases |keys|
  {
    var n := if |keys| < |vals| then |keys| else |vals|;
    if n == 0 then map[]
    else ZipMap(keys[..n - 1], vals[..n - 1])[keys[n - 1] := vals[n - 1]]
  }

  /** The keys of the dictionary are exactly the keys paired with a value. */
  lemma {:induction false} ZipMapKeys<K, V>(keys: seq<K>, vals: seq<V>)
    ensures forall j :: 0 <= j < |keys| && j < |vals| ==> keys[j] in ZipMap(keys, vals)
    ensures forall k :: k in ZipMap(keys, vals) ==> exists j :: 0 <= j < |keys| && j < |vals| && keys[j] == k
    decreases |keys|
  {
    var n := if |keys| < |vals| then |keys| else |vals|;
    if n > 0 {
      ZipMapKeys(keys[..n - 1], vals[..n - 1]);
    }
  }

  /** A repeated key keeps the value paired with its last occurrence. */
  lemma {:induction false} LaterKeyWins<K, V>(keys: seq<K>, vals: seq<V>, j: nat)
    requires j < |keys| && j < |vals|
    requires forall b :: j < b < |keys| && b < |vals| ==> keys[b] != keys[j]
    ensures keys[j] in ZipMap(keys, vals) && ZipMap(keys, vals)[keys[j]] == vals[j]
    decreases |keys|
  {
    var n := if |keys| < |vals| then |keys| else |vals|;
    if j < n - 1 {
      assert keys[n - 1] != keys[j];
      LaterKeyWins(keys[..n - 1], vals[..n - 1], j);
    }
  }

  /** With distinct keys, each key is paired with the value at its own position. */
  lemma ZipMapDistinct<K, V>(keys: seq<K>, vals: seq<V>, j: nat)
    requires j < |keys| && j < |vals|
    requires forall a, b :: 0 <= a < b < |keys| ==> keys[a] != keys[b]
    ensures keys[j] in ZipMap(keys, vals) && ZipMap(keys, vals)[keys[j]] == vals[j]
  {
    LaterKeyWins(keys, vals, j);
  }
}

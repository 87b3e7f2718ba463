/**
 * The operator registry (`OPERATORS`): `>`, `<` and `=` are Python's plain comparisons,
 * `contains` lower-cases text operands and tests substring membership, `~contains` negates it.
 */
module Operators {
  import opened Common

  /** The registered operator symbols. */
  const Symbols: set<string> := {">", "<", "=", "contains", "~contains"}

  /** Python's `y in x` for two strings, by walking the suffixes of `x`. */
  function Occurs(y: string, x: string): bool
    decreases |x|
  {
    y <= x || (x != [] && Occurs(y, x[1..]))
  }

  /** A match at position `i` is found by the walk. */
  lemma {:induction false} OccursAt(y: string, x: string, i: nat)
    requires i <= |x| && y <= x[i..]
    ensures Occurs(y, x)
    decreases i
  {
    if i > 0 {
      assert x[1..][i - 1..] == x[i..];
      OccursAt(y, x[1..], i - 1);
    }
  }

  /** A walk that succeeds names a position where `y` starts. */
  lemma {:induction false} OccursWitness(y: string, x: string) returns (i: nat)
    requires Occurs(y, x)
    ensures i <= |x| && y <= x[i..]
    decreases |x|
  {
    if y <= x {
      i := 0;
    } else {
      var k := OccursWitness(y, x[1..]);
      assert x[1..][k..] == x[k + 1..];
      i := k + 1;
    }
  }

  /** `Occurs` is substring membership: `y` is a prefix of some suffix of `x`. */
  lemma OccursIff(y: string, x: string)
    ensures Occurs(y, x) <==> exists i :: 0 <= i <= |x| && y <= x[i..]
  {
    if Occurs(y, x) {
      var i := OccursWitness(y, x);
    }
    if exists i :: 0 <= i <= |x| && y <= x[i..] {
      var i :| 0 <= i <= |x| && y <= x[i..];
      OccursAt(y, x, i);
    }
  }

  /** Python's `a < b` on strings: code-point lexicographic order. */
  function LexLess(a: string, b: string): bool
    decreases |a|
  {
    if a == [] then b != []
    else if b == [] then false
    else if a[0] != b[0] then a[0] < b[0]
    else LexLess(a[1..], b[1..])
  }

  /** Exactly one of `a < b`, `a == b`, `b < a` holds for two strings. */
  lemma {:induction false} LexTrichotomy(a: string, b: string)
    ensures LexLess(a, b) || a == b || LexLess(b, a)
    ensures !(LexLess(a, b) && LexLess(b, a))
    ensures LexLess(a, b) ==> a != b
    decreases |a|
  {
    if a != [] && b != [] && a[0] == b[0] {
      LexTrichotomy(a[1..], b[1..]);
      if a[1..] == b[1..] {
        assert a == [a[0]] + a[1..] && b == [b[0]] + b[1..];
      }
    }
  }

  /** Python's `x < y`: numbers by value, strings lexicographically, anything else raises. */
  function Less(x: Value, y: Value): Result<bool>
  {
    match (x, y)
    case (Num(a), Num(b)) => Ok(a < b)
    case (Text(a), Text(b)) => Ok(LexLess(a, b))
    case _ => Err(TypeError)
  }

  /** `contains(x, y)`: text operands are lower-cased, then `y in x`, which raises unless both are text. */
  function Contains(x: Value, y: Value): Result<bool>
  {
    match (x, y)
    case (Text(a), Text(b)) => Ok(Occurs(Lower(b), Lower(a)))
    case _ => Err(TypeError)
  }

  function Negate(r: Result<bool>): Result<bool>
  {
    match r
    case Ok(b) => Ok(!b)
    case Err(f) => Err(f)
  }

  /** `OPERATORS[op][0](x, y)`: an unknown symbol is a `KeyError` of the registry. */
  function Apply(op: Atom, x: Value, y: Value): (r: Result<bool>)
    ensures !(op.Word? && op.w in Symbols) <==> r == Err(KeyError)
    ensures r.Err? ==> r.fault == KeyError || r.fault == TypeError
    ensures op == Word("=") ==> r == Ok(x == y)
  {
    if op == Word(">") then Less(y, x)
    else if op == Word("<") then Less(x, y)
    else if op == Word("=") then Ok(x == y)
    else if op == Word("contains") then Contains(x, y)
    else if op == Word("~contains") then Negate(Contains(x, y))
    else Err(KeyError)
  }

  /** `contains` on text is case-insensitive substring membership; an empty literal is always contained. */
  lemma ContainsIsSubstring(a: string, b: string)
    ensures Apply(Word("contains"), Text(a), Text(b)) == Ok(exists i :: 0 <= i <= |a| && Lower(b) <= Lower(a)[i..])
    ensures Apply(Word("contains"), Text(a), Text("")) == Ok(true)
  {
    OccursIff(Lower(b), Lower(a));
  }

  /** `~contains` is the negation of `contains`, and raises exactly when `contains` does. */
  lemma NotContainsNegates(x: Value, y: Value)
    ensures Apply(Word("~contains"), x, y).Ok? <==> Apply(Word("contains"), x, y).Ok?
    ensures Apply(Word("contains"), x, y).Ok? ==>
              Apply(Word("~contains"), x, y).value == !Apply(Word("contains"), x, y).value
    ensures Apply(Word("contains"), x, y).Ok? <==> x.Text? && y.Text?
  {
  }

  /** On two texts exactly one of `<`, `=`, `>` holds, and none of them folds case. */
  lemma TextOrder(a: string, b: string)
    ensures Apply(Word("<"), Text(a), Text(b)).Ok? && Apply(Word(">"), Text(a), Text(b)).Ok?
    ensures var lt := Apply(Word("<"), Text(a), Text(b)).value;
            var gt := Apply(Word(">"), Text(a), Text(b)).value;
            var eq := Apply(Word("="), Text(a), Text(b)).value;
            (lt || eq || gt) && !(lt && eq) && !(lt && gt) && !(eq && gt)
  {
    LexTrichotomy(a, b);
  }

  /** Comparisons are case-sensitive while `contains` is not. */
  lemma CaseSensitivity()
    ensures Apply(Word("="), Text("A"), Text("a")) == Ok(false)
    ensures Apply(Word(">"), Text("a"), Text("B")) == Ok(true)
    ensures Apply(Word("contains"), Text("Hello World"), Text("world")) == Ok(true)
  {
    assert Lower("Hello World")[6..] == "world";
    assert Lower("world") == "world";
    ContainsIsSubstring("Hello World", "world");
  }

  /** A number against a text: `=` is false, the ordering and substring operators raise. */
  lemma MixedKinds(n: real, t: string, op: string)
    requires op in {">", "<", "contains", "~contains"}
    ensures Apply(Word("="), Num(n), Text(t)) == Ok(false)
    ensures Apply(Word(op), Num(n), Text(t)) == Err(TypeError)
    ensures Apply(Word(op), Text(t), Num(n)) == Err(TypeError)
  {
  }
}

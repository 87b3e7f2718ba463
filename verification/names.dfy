/**
 * File names: `get_extension` is the text after the last `.`, and the `N`-th partition of a
 * file is written to the name's stem (everything before the last `.`) followed by `_N.csv`.
 */
module Names {
  import opened Common

  /**
   * `filename.split('.')[-1]`: the longest suffix without a `.`, which is the whole name when
   * it has no `.` and otherwise follows the last one.
   */
  function Extension(filename: string): (r: string)
    ensures '.' !in r
    ensures |r| <= |filename| && filename[|filename| - |r|..] == r
    ensures |r| < |filename| ==> filename[|filename| - |r| - 1] == '.'
  {
    LastPiece(filename, '.');
    var pieces := Split(filename, '.');
    pieces[|pieces| - 1]
  }

  /** The last piece of a split is a separator-free suffix, preceded by the separator unless it is everything. */
  lemma LastPiece(s: string, c: char)
    ensures var p := Split(s, c);
            var r := p[|p| - 1];
            c !in r && |r| <= |s| && s[|s| - |r|..] == r && (|r| < |s| ==> s[|s| - |r| - 1] == c)
  {
    SplitPiecesFree(s, c);
    JoinSplit(s, c);
    var p := Split(s, c);
    var r := p[|p| - 1];
    if |p| >= 2 {
      JoinLast(p, c);
      var init := Join(p[..|p| - 1], c);
      assert s == init + [c] + r;
      assert s[|s| - |r|..] == r;
      assert s[|s| - |r| - 1] == c;
    } else {
      assert s == r;
    }
  }

  /** `'.'.join(filename.split('.')[:-1])`. */
  function Stem(filename: string): string
  {
    var pieces := Split(filename, '.');
    Join(pieces[..|pieces| - 1], '.')
  }

  /** `str(n)` for a natural number. */
  function NatString(n: nat): (r: string)
    ensures IsDigits(r)
  {
    if n < 10 then [('0' as int + n) as char]
    else NatString(n / 10) + [('0' as int + n % 10) as char]
  }

  /** The name of the `n`-th partition written for `filename`: extension `csv`, stem `<stem>_<n>`. */
  function PartitionName(filename: string, n: nat): (r: string)
    ensures Extension(r) == "csv"
    ensures Stem(r) == Stem(filename) + "_" + NatString(n)
  {
    var a := Stem(filename) + "_" + NatString(n);
    SplitAt(a, "csv", '.');
    SplitFree("csv", '.');
    JoinSplit(a, '.');
    assert (Split(a, '.') + ["csv"])[..|Split(a, '.')|] == Split(a, '.');
    assert a + ['.'] + "csv" == Stem(filename) + "_" + NatString(n) + ".csv";
    a + ['.'] + "csv"
  }

  /** Reading the decimal text back gives the number. */
  lemma {:induction false} NatStringValue(n: nat)
    ensures DecimalValue(NatString(n)) == n
  {
    if n >= 10 {
      NatStringValue(n / 10);
      var s := NatString(n);
      assert s[..|s| - 1] == NatString(n / 10);
    }
  }

  /** The last separator splits off the last piece of a join. */
  lemma {:induction false} JoinLast(parts: seq<string>, c: char)
    requires |parts| >= 2
    ensures Join(parts, c) == Join(parts[..|parts| - 1], c) + [c] + parts[|parts| - 1]
    decreases |parts|
  {
    if |parts| > 2 {
      JoinLast(parts[1..], c);
      assert parts[1..][..|parts| - 2] == parts[..|parts| - 1][1..];
    } else {
      assert parts[..1] == [parts[0]];
    }
  }

  /** A name holds a `.` exactly when splitting it gives more than one piece. */
  lemma DotSplits(filename: string)
    ensures '.' in filename <==> |Split(filename, '.')| >= 2
  {
    SplitPiecesFree(filename, '.');
    JoinSplit(filename, '.');
    if '.' !in filename {
      SplitFree(filename, '.');
    }
  }

  /** A name with a `.` is its stem, a `.`, and its extension. */
  lemma StemDotExtension(filename: string)
    requires '.' in filename
    ensures Stem(filename) + "." + Extension(filename) == filename
  {
    DotSplits(filename);
    JoinSplit(filename, '.');
    JoinLast(Split(filename, '.'), '.');
  }

  /** An extension holds no `.`; a name without one is all extension and has an empty stem. */
  lemma ExtensionShape(filename: string)
    ensures '.' !in Extension(filename)
    ensures '.' !in filename ==> Extension(filename) == filename && Stem(filename) == ""
  {
    SplitPiecesFree(filename, '.');
    if '.' !in filename {
      SplitFree(filename, '.');
    }
  }

  /** Different partitions of one file get different names. */
  lemma DistinctPartitionNames(filename: string, m: nat, n: nat)
    requires m != n
    ensures PartitionName(filename, m) != PartitionName(filename, n)
  {
    if PartitionName(filename, m) == PartitionName(filename, n) {
      var p := Stem(filename) + "_";
      assert (p + NatString(m))[|p|..] == NatString(m);
      assert (p + NatString(n))[|p|..] == NatString(n);
      NatStringValue(m);
      NatStringValue(n);
      assert false;
    }
  }
}

/**
 * The filter-line tokenizer (`parse_query`): a space separates bare words, a double quote
 * opens a literal that runs to the next double quote (or to the end of the line).
 */
module Tokenizer {
  import opened Common

  /** The pending bare word, emitted only when it is not empty. */
  function Flush(word: string): seq<string>
  {
    if word == "" then [] else [word]
  }

  /**
   * The tokens still to come from the rest `q` of the line when `word` has been gathered so far.
   * A quote takes the character after it unconditionally (even a second quote), then runs to
   * the next quote; a quote that is the last character ends the scan.
   */
  function Scan(q: string, word: string): seq<string>
    decreases |q|, 1
  {
    if q == [] then Flush(word)
    else if q[0] == '"' then
      if |q| == 1 then Flush(word) else Quoted(q[2..], word + [q[1]])
    else if q[0] == ' ' then Flush(word) + Scan(q[1..], "")
    else Scan(q[1..], word + [q[0]])
  }

  /** Inside a quoted literal that has gathered `lit`: runs to the next quote, which is dropped. */
  function Quoted(q: string, lit: string): seq<string>
    decreases |q|, 0
  {
    if q == [] then [lit]
    else if q[0] == '"' then [lit] + Scan(q[1..], "")
    else Quoted(q[1..], lit + [q[0]])
  }

  /** The tokens of one filter line. */
  function Tokens(query: string): seq<string>
  {
    Scan(query, "")
  }

  /** `parse_query`: the character-index state machine of the source. */
  method ParseQuery(query: string) returns (statements: seq<string>)
    ensures statements == Tokens(query)
    ensures "" !in statements
  {
    statements := [];
    var idx := -1;
    var statement := "";
    while idx < |query| - 1
      invariant -1 <= idx <= |query| - 1
      invariant statements + Scan(query[idx + 1..], statement) == Tokens(query)
      decreases |query| - idx
    {
      idx := idx + 1;
      if query[idx] == '"' {
        ghost var before := statement;
        ghost var open := idx;
        idx := idx + 1;
        if idx == |query| {
          assert query[open..] == ['"'];
          break;
        }
        statement := statement + [query[idx]];
        while idx < |query| - 1 && query[idx + 1] != '"'
          invariant open + 1 <= idx <= |query| - 1
          invariant Quoted(query[idx + 1..], statement) == Scan(query[open..], before)
        {
          assert query[idx + 1..][1..] == query[idx + 2..];
          idx := idx + 1;
          statement := statement + [query[idx]];
        }
        if idx < |query| - 1 {
          assert query[idx + 1..][1..] == query[idx + 2..];
        }
        statements := statements + [statement];
        statement := "";
        idx := if idx < |query| - 1 then idx + 1 else idx;
      } else if query[idx] == ' ' {
        assert query[idx..][1..] == query[idx + 1..];
        if statement != "" {
          statements := statements + [statement];
          statement := "";
        }
      } else {
        assert query[idx..][1..] == query[idx + 1..];
        statement := statement + [query[idx]];
      }
    }
    if statement != "" {
      statements := statements + [statement];
    }
    TokensNonEmpty(query);
  }

  /** Python's `[t for t in parts if t]`. */
  function NonEmpty(parts: seq<string>): seq<string>
  {
    if parts == [] then [] else Flush(parts[0]) + NonEmpty(parts[1..])
  }

  lemma {:induction false} NonEmptyAppend(a: seq<string>, b: seq<string>)
    ensures NonEmpty(a + b) == NonEmpty(a) + NonEmpty(b)
  {
    if a == [] {
      assert a + b == b;
    } else {
      assert (a + b)[0] == a[0];
      assert (a + b)[1..] == a[1..] + b;
      NonEmptyAppend(a[1..], b);
    }
  }

  /** No token is ever empty. */
  lemma {:induction false} ScanNonEmpty(q: string, word: string)
    ensures "" !in Scan(q, word)
    decreases |q|, 1
  {
    if q == [] {
    } else if q[0] == '"' {
      if |q| > 1 {
        QuotedNonEmpty(q[2..], word + [q[1]]);
      }
    } else if q[0] == ' ' {
      ScanNonEmpty(q[1..], "");
    } else {
      ScanNonEmpty(q[1..], word + [q[0]]);
    }
  }

  lemma {:induction false} QuotedNonEmpty(q: string, lit: string)
    requires lit != ""
    ensures "" !in Quoted(q, lit)
    decreases |q|, 0
  {
    if q == [] {
    } else if q[0] == '"' {
      ScanNonEmpty(q[1..], "");
    } else {
      QuotedNonEmpty(q[1..], lit + [q[0]]);
    }
  }

  /** No token is ever empty, and the empty line has no tokens. */
  lemma TokensNonEmpty(query: string)
    ensures "" !in Tokens(query)
    ensures query == "" ==> Tokens(query) == []
  {
    ScanNonEmpty(query, "");
  }

  lemma {:induction false} ScanQuoteFree(q: string, word: string)
    requires '"' !in q
    ensures Scan(q, word) == NonEmpty([word + Split(q, ' ')[0]] + Split(q, ' ')[1..])
  {
    if q == [] {
      assert word + "" == word;
    } else {
      var rest := Split(q[1..], ' ');
      ScanQuoteFree(q[1..], if q[0] == ' ' then "" else word + [q[0]]);
      if q[0] == ' ' {
        assert "" + rest[0] == rest[0];
        assert [rest[0]] + rest[1..] == rest;
        assert word + "" == word;
        NonEmptyAppend([word], rest);
      } else {
        assert word + ([q[0]] + rest[0]) == word + [q[0]] + rest[0];
      }
    }
  }

  /** Outside quotes only the space separates: a quote-free line splits like `[t for t in q.split(' ') if t]`. */
  lemma QuoteFreeIsSplit(query: string)
    requires '"' !in query
    ensures Tokens(query) == NonEmpty(Split(query, ' '))
  {
    ScanQuoteFree(query, "");
    var parts := Split(query, ' ');
    assert "" + parts[0] == parts[0];
    assert [parts[0]] + parts[1..] == parts;
  }

  lemma {:induction false} ScanSeparates(a: string, b: string, word: string)
    requires '"' !in a
    ensures Scan(a + " " + b, word) == Scan(a, word) + Scan(b, "")
  {
    if a == [] {
      assert a + " " + b == " " + b;
      assert (" " + b)[1..] == b;
    } else {
      assert (a + " " + b)[1..] == a[1..] + " " + b;
      if a[0] == ' ' {
        ScanSeparates(a[1..], b, "");
      } else {
        ScanSeparates(a[1..], b, word + [a[0]]);
      }
    }
  }

  /** A space after a quote-free prefix separates its tokens from those of the rest of the line. */
  lemma SpaceSeparates(a: string, b: string)
    requires '"' !in a
    ensures Tokens(a + " " + b) == Tokens(a) + Tokens(b)
  {
    ScanSeparates(a, b, "");
  }

  lemma {:induction false} QuotedRun(body: string, lit: string, rest: string)
    requires '"' !in body
    ensures Quoted(body + "\"" + rest, lit) == [lit + body] + Scan(rest, "")
  {
    if body == [] {
      assert body + "\"" + rest == "\"" + rest;
      assert ("\"" + rest)[1..] == rest;
      assert lit + body == lit;
    } else {
      assert (body + "\"" + rest)[1..] == body[1..] + "\"" + rest;
      QuotedRun(body[1..], lit + [body[0]], rest);
      assert lit + [body[0]] + body[1..] == lit + body;
    }
  }

  lemma {:induction false} QuotedToEnd(body: string, lit: string)
    requires '"' !in body
    ensures Quoted(body, lit) == [lit + body]
  {
    if body == [] {
      assert lit + body == lit;
    } else {
      QuotedToEnd(body[1..], lit + [body[0]]);
      assert lit + [body[0]] + body[1..] == lit + body;
    }
  }

  /**
   * A closed quoted run is one token with its spaces kept and its quotes dropped; it is glued to
   * any bare word gathered just before the opening quote.
   */
  lemma QuotedLiteral(word: string, body: string, rest: string)
    requires body != "" && '"' !in body
    ensures Scan("\"" + body + "\"" + rest, word) == [word + body] + Scan(rest, "")
  {
    var q := "\"" + body + "\"" + rest;
    assert q[2..] == body[1..] + "\"" + rest;
    assert q[1] == body[0];
    QuotedRun(body[1..], word + [body[0]], rest);
    assert word + [body[0]] + body[1..] == word + body;
  }

  /** An unterminated quote takes the rest of the line as one token, without error. */
  lemma UnterminatedQuote(word: string, body: string)
    requires '"' !in body
    ensures Scan("\"" + body, word) == if body == "" then Flush(word) else [word + body]
  {
    if body != "" {
      var q := "\"" + body;
      assert q[2..] == body[1..];
      QuotedToEnd(body[1..], word + [body[0]]);
      assert word + [body[0]] + body[1..] == word + body;
    }
  }
}

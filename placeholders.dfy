/** The query rewriter of backend/config/database.js: every MySQL-style `?` placeholder is
    replaced, left to right, by PostgreSQL's numbered `$1`, `$2`, ... */
module Placeholders {
  import opened JsValues

  /** The number of occurrences of `c` in `s`. */
  function CountChar(s: string, c: char): (n: nat)
    ensures n <= |s|
  {
    if s == [] then 0 else (if s[0] == c then 1 else 0) + CountChar(s[1..], c)
  }

  lemma {:induction false} CountCharAppend(a: string, b: string, c: char)
    ensures CountChar(a + b, c) == CountChar(a, c) + CountChar(b, c)
  {
    if a == [] {
      assert a + b == b;
    } else {
      assert (a + b)[1..] == a[1..] + b;
      CountCharAppend(a[1..], b, c);
    }
  }

  /** The text that replaces the `n`-th placeholder. */
  function Token(n: nat): string {
    "$" + NatToString(n)
  }

  /** The rewrite of `q` when the first `?` of `q` is placeholder number `next` of the whole query. */
  function Rewrite(q: string, next: nat): string {
    if q == [] then []
    else if q[0] == '?' then Token(next) + Rewrite(q[1..], next + 1)
    else [q[0]] + Rewrite(q[1..], next)
  }

  /** `mapPlaceholders`: one pass over the query with a counter that is bumped at each `?`.
      (Its second parameter, the number of bound values, is not used by the source.) */
  method MapPlaceholders(query: string) returns (mapped: string)
    ensures mapped == Rewrite(query, 1)
  {
    var index := 0;
    mapped := "";
    var i := 0;
    while i < |query|
      invariant 0 <= i <= |query| && index >= 0
      invariant mapped + Rewrite(query[i..], index + 1) == Rewrite(query, 1)
    {
      assert query[i..][1..] == query[i + 1..];
      if query[i] == '?' {
        index := index + 1;
        mapped := mapped + Token(index);
      } else {
        mapped := mapped + [query[i]];
      }
      i := i + 1;
    }
    assert query[i..] == [];
  }

  /** Rewriting a concatenation: the numbering of the second part continues after the
      placeholders of the first. */
  lemma {:induction false} RewriteAppend(a: string, b: string, next: nat)
    ensures Rewrite(a + b, next) == Rewrite(a, next) + Rewrite(b, next + CountChar(a, '?'))
  {
    if a == [] {
      assert a + b == b;
    } else {
      assert (a + b)[0] == a[0];
      assert (a + b)[1..] == a[1..] + b;
      if a[0] == '?' {
        RewriteAppend(a[1..], b, next + 1);
      } else {
        RewriteAppend(a[1..], b, next);
      }
    }
  }

  /** The `?` that follows `k` earlier placeholders becomes `$(k+1)`, and the text around it is rewritten on its own. */
  lemma KthPlaceholder(before: string, after: string)
    ensures Rewrite(before + "?" + after, 1)
         == Rewrite(before, 1) + Token(CountChar(before, '?') + 1) + Rewrite(after, CountChar(before, '?') + 2)
  {
    var k := CountChar(before, '?');
    assert before + "?" + after == before + ("?" + after);
    RewriteAppend(before, "?" + after, 1);
    assert ("?" + after)[0] == '?' && ("?" + after)[1..] == after;
    assert Rewrite("?" + after, k + 1) == Token(k + 1) + Rewrite(after, k + 2);
  }

  /** A query without placeholders is passed through unchanged. */
  lemma {:induction false} NoPlaceholderUnchanged(q: string, next: nat)
    requires CountChar(q, '?') == 0
    ensures Rewrite(q, next) == q
  {
    if q != [] {
      NoPlaceholderUnchanged(q[1..], next);
      assert q == [q[0]] + q[1..];
    }
  }

  lemma TokenCounts(n: nat)
    ensures CountChar(Token(n), '?') == 0 && CountChar(Token(n), '$') == 1
  {
    var d := NatToString(n);
    CountCharAppend("$", d, '?');
    CountCharAppend("$", d, '$');
    DigitsHaveNo(d, '?');
    DigitsHaveNo(d, '$');
  }

  lemma {:induction false} DigitsHaveNo(d: string, c: char)
    requires AllDigits(d) && !IsDigit(c)
    ensures CountChar(d, c) == 0
  {
    if d != [] { DigitsHaveNo(d[1..], c); }
  }

  /** No `?` survives, and the output holds one more `$` for each `?` of the input. */
  lemma {:induction false} RewriteCounts(q: string, next: nat)
    ensures CountChar(Rewrite(q, next), '?') == 0
    ensures CountChar(Rewrite(q, next), '$') == CountChar(q, '$') + CountChar(q, '?')
  {
    if q != [] {
      if q[0] == '?' {
        RewriteCounts(q[1..], next + 1);
        TokenCounts(next);
        CountCharAppend(Token(next), Rewrite(q[1..], next + 1), '?');
        CountCharAppend(Token(next), Rewrite(q[1..], next + 1), '$');
      } else {
        RewriteCounts(q[1..], next);
        CountCharAppend([q[0]], Rewrite(q[1..], next), '?');
        CountCharAppend([q[0]], Rewrite(q[1..], next), '$');
      }
    }
  }
}

/** Small shared vocabulary: an optional value, JavaScript's notion of white space,
    ASCII case folding, substring search and sums over sequences of integers. */
module Common {

  datatype Option<+T> = None | Some(value: T) {
    /** The value, or `default` when there is none (JavaScript's `x || default` on a present value). */
    function GetOr(default: T): T {
      match this
      case Some(v) => v
      case None => default
    }
  }

  /** The outcome of an operation that can fail with an error of type `E`. */
  datatype Result<+T, +E> = Ok(value: T) | Err(error: E)

  /** An HTTP response: a JSON body with status 200 (or `created`, 201), or an error status
      with the `error` message of its JSON body. */
  datatype Reply<+T> = Json(body: T, created: bool) | Failure(status: int, message: string)

  /** The WhiteSpace and LineTerminator code points of ECMAScript: what `trim()` removes and `\s` matches. */
  predicate IsJsSpace(c: char) {
    c == ' ' || c == '\t' || c == '\n' || c == '\r' || c == '\U{000B}' || c == '\U{000C}'
    || c == '\U{00A0}' || c == '\U{1680}' || ('\U{2000}' <= c <= '\U{200A}')
    || c == '\U{2028}' || c == '\U{2029}' || c == '\U{202F}' || c == '\U{205F}'
    || c == '\U{3000}' || c == '\U{FEFF}'
  }

  /** The code points a regular-expression `.` does not match. */
  predicate IsLineTerminator(c: char) {
    c == '\n' || c == '\r' || c == '\U{2028}' || c == '\U{2029}'
  }

  predicate IsUpperAscii(c: char) { 'A' <= c <= 'Z' }

  /** ASCII lower-casing; other code points are left as they are. */
  function LowerChar(c: char): (r: char)
    ensures IsUpperAscii(c) ==> r as int == c as int + 32
    ensures !IsUpperAscii(c) ==> r == c
  {
    if IsUpperAscii(c) then (c as int + 32) as char else c
  }

  function Lower(s: string): (r: string)
    ensures |r| == |s|
    ensures forall i :: 0 <= i < |s| ==> r[i] == LowerChar(s[i])
  {
    seq(|s|, i requires 0 <= i < |s| => LowerChar(s[i]))
  }

  lemma {:induction false} LowerAppend(a: string, b: string)
    ensures Lower(a + b) == Lower(a) + Lower(b)
  {
    var l, r := Lower(a + b), Lower(a) + Lower(b);
    assert |l| == |r|;
    forall i | 0 <= i < |l| ensures l[i] == r[i] {
      if i < |a| {
        assert (a + b)[i] == a[i] && r[i] == Lower(a)[i];
      } else {
        assert (a + b)[i] == b[i - |a|] && r[i] == Lower(b)[i - |a|];
      }
    }
  }

  function TrimStart(s: string): (r: string)
    ensures |r| <= |s| && r == s[|s| - |r|..]
    ensures r == [] || !IsJsSpace(r[0])
    ensures forall i :: 0 <= i < |s| - |r| ==> IsJsSpace(s[i])
  {
    if s != [] && IsJsSpace(s[0]) then TrimStart(s[1..]) else s
  }

  function TrimEnd(s: string): (r: string)
    ensures |r| <= |s| && r == s[..|r|]
    ensures r == [] || !IsJsSpace(r[|r| - 1])
    ensures forall i :: |r| <= i < |s| ==> IsJsSpace(s[i])
  {
    if s != [] && IsJsSpace(s[|s| - 1]) then TrimEnd(s[..|s| - 1]) else s
  }

  /** `String.prototype.trim`. */
  function Trim(s: string): (r: string)
    ensures |r| <= |s|
    ensures r == [] || (!IsJsSpace(r[0]) && !IsJsSpace(r[|r| - 1]))
  {
    TrimEnd(TrimStart(s))
  }

  /** `x` occurs in `t` starting at position `i`. */
  ghost predicate OccursAt(x: string, t: string, i: int) {
    0 <= i && i + |x| <= |t| && t[i..i + |x|] == x
  }

  /** `t.includes(x)`, computed by scanning `t`. */
  function Contains(t: string, x: string): (b: bool)
    ensures b <==> exists i :: OccursAt(x, t, i)
    decreases |t|
  {
    if |x| <= |t| && t[..|x|] == x then
      assert OccursAt(x, t, 0);
      true
    else if t == [] then
      assert forall i :: !OccursAt(x, t, i);
      false
    else
      var b := Contains(t[1..], x);
      assert b ==> exists i :: OccursAt(x, t, i) by {
        if b {
          var j :| OccursAt(x, t[1..], j);
          assert t[j + 1..j + 1 + |x|] == t[1..][j..j + |x|];
          assert OccursAt(x, t, j + 1);
        }
      }
      assert (exists i :: OccursAt(x, t, i)) ==> b by {
        if exists i :: OccursAt(x, t, i) {
          var i :| OccursAt(x, t, i);
          assert i != 0;
          assert t[1..][i - 1..i - 1 + |x|] == t[i..i + |x|];
          assert OccursAt(x, t[1..], i - 1);
        }
      }
      b
  }

  function Sum(xs: seq<int>): int {
    if xs == [] then 0 else xs[0] + Sum(xs[1..])
  }

  lemma {:induction false} SumAppend(a: seq<int>, b: seq<int>)
    ensures Sum(a + b) == Sum(a) + Sum(b)
  {
    if a != [] {
      assert (a + b)[1..] == a[1..] + b;
      SumAppend(a[1..], b);
    } else {
      assert a + b == b;
    }
  }

  /** Every value lies in lo..hi, so the sum of `n` such values lies in n*lo .. n*hi. */
  lemma {:induction false} SumBounds(xs: seq<int>, lo: int, hi: int)
    requires forall i :: 0 <= i < |xs| ==> lo <= xs[i] <= hi
    ensures |xs| * lo <= Sum(xs) <= |xs| * hi
  {
    if xs != [] {
      SumBounds(xs[1..], lo, hi);
      assert |xs| * lo == lo + |xs[1..]| * lo;
      assert |xs| * hi == hi + |xs[1..]| * hi;
    }
  }

  /** The number of entries equal to `v`. */
  function Occurrences(xs: seq<int>, v: int): (n: nat)
    ensures n <= |xs|
  {
    if xs == [] then 0 else (if xs[0] == v then 1 else 0) + Occurrences(xs[1..], v)
  }

  /** A value that does not occur has no occurrences. */
  lemma {:induction false} OccurrencesAbsent(xs: seq<int>, v: int)
    requires v !in xs
    ensures Occurrences(xs, v) == 0
  {
    if xs != [] {
      assert xs[0] != v;
      assert v !in xs[1..];
      OccurrencesAbsent(xs[1..], v);
    }
  }

  lemma {:induction false} OccurrencesAppend(a: seq<int>, b: seq<int>, v: int)
    ensures Occurrences(a + b, v) == Occurrences(a, v) + Occurrences(b, v)
  {
    if a != [] {
      assert (a + b)[1..] == a[1..] + b;
      OccurrencesAppend(a[1..], b, v);
    } else {
      assert a + b == b;
    }
  }

  /** When every value lies in 1..5, the five value counts add up to the length. */
  lemma {:induction false} OccurrencesPartition(xs: seq<int>)
    requires forall i :: 0 <= i < |xs| ==> 1 <= xs[i] <= 5
    ensures Occurrences(xs, 1) + Occurrences(xs, 2) + Occurrences(xs, 3)
            + Occurrences(xs, 4) + Occurrences(xs, 5) == |xs|
  {
    if xs != [] {
      OccurrencesPartition(xs[1..]);
    }
  }
  /** JavaScript's `.length`: the number of UTF-16 code units, two for a code point above U+FFFF. */
  function Utf16Length(s: string): (n: nat)
    ensures |s| <= n <= 2 * |s|
  {
    if s == [] then 0 else (if s[0] as int >= 0x1_0000 then 2 else 1) + Utf16Length(s[1..])
  }

  /** Every code point lies in the Basic Multilingual Plane. */
  predicate Bmp(s: string) { forall i :: 0 <= i < |s| ==> s[i] as int < 0x1_0000 }

  lemma {:induction false} BmpLength(s: string)
    requires Bmp(s)
    ensures Utf16Length(s) == |s|
  {
    if s != [] { BmpLength(s[1..]); }
  }
}

/**
 * The JavaScript built-ins the checklist code leans on, stated over exact
 * values: `Array.prototype.findIndex`/`find`, `[...new Set(xs)]`,
 * `String.prototype.trim` and `Math.round` of a quotient.
 */
module Js {
  import opened Wrappers

  /** No value occurs twice. */
  predicate Distinct<T(==)>(xs: seq<T>) {
    forall a, b :: 0 <= a < b < |xs| ==> xs[a] != xs[b]
  }

  /** `xs.findIndex(p)`: the first index whose element satisfies `p`, or -1. */
  function FindIndex<T>(xs: seq<T>, p: T -> bool): (r: int)
    ensures -1 <= r < |xs|
    ensures r == -1 <==> forall k :: 0 <= k < |xs| ==> !p(xs[k])
    ensures 0 <= r ==> p(xs[r]) && forall k :: 0 <= k < r ==> !p(xs[k])
  {
    if xs == [] then -1
    else if p(xs[0]) then 0
    else
      var r := FindIndex(xs[1..], p);
      assert forall k :: 1 <= k < |xs| ==> xs[k] == xs[1..][k - 1];
      if r == -1 then -1 else r + 1
  }

  /** `xs.find(p)`: the first element satisfying `p`, if any. */
  function Find<T>(xs: seq<T>, p: T -> bool): (r: Option<T>)
    ensures r.None? <==> forall k :: 0 <= k < |xs| ==> !p(xs[k])
    ensures r.Some? ==>
      exists k :: 0 <= k < |xs| && xs[k] == r.value && p(xs[k]) && (forall j :: 0 <= j < k ==> !p(xs[j]))
  {
    var i := FindIndex(xs, p);
    if i < 0 then None else Some(xs[i])
  }

  /** When exactly one element satisfies `p`, `find` returns that element. */
  lemma FindUnique<T>(xs: seq<T>, p: T -> bool, k: nat)
    requires k < |xs| && p(xs[k])
    requires forall j :: 0 <= j < |xs| && j != k ==> !p(xs[j])
    ensures Find(xs, p) == Some(xs[k])
  {
  }

  /** The index of the first occurrence of `x` in `xs`. */
  ghost function IndexOf<T>(xs: seq<T>, x: T): (i: nat)
    requires x in xs
    ensures i < |xs| && xs[i] == x && x !in xs[..i]
  {
    if xs[0] == x then 0 else 1 + IndexOf(xs[1..], x)
  }

  lemma {:induction false} IndexOfPrefix<T>(xs: seq<T>, n: nat, x: T)
    requires n <= |xs| && x in xs[..n]
    ensures IndexOf(xs, x) == IndexOf(xs[..n], x)
  {
    if xs[0] != x {
      assert xs[1..][..n - 1] == xs[..n][1..];
      IndexOfPrefix(xs[1..], n - 1, x);
    }
  }

  /**
   * `[...new Set(xs)]`: each distinct value once, in the order of its
   * first occurrence in `xs`.
   */
  function Dedup<T(==)>(xs: seq<T>): (r: seq<T>)
    ensures DedupOf(xs, r)
  {
    if xs == [] then []
    else
      var init, last := xs[..|xs| - 1], xs[|xs| - 1];
      var d := Dedup(init);
      var r := if last in d then d else d + [last];
      DedupStep(xs, d, r);
      r
  }

  /**
   * `r` lists each value of `xs` once, and nothing else, in the order of
   * first occurrence in `xs`.
   */
  ghost predicate DedupOf<T>(xs: seq<T>, r: seq<T>) {
    && (forall a :: 0 <= a < |r| ==> r[a] in xs)
    && (forall k :: 0 <= k < |xs| ==> xs[k] in r)
    && (forall a, b :: 0 <= a < b < |r| ==> r[a] != r[b])
    && (forall a, b :: 0 <= a < b < |r| ==> IndexOf(xs, r[a]) < IndexOf(xs, r[b]))
  }

  /** Deduplicating one more element: kept when new, dropped when already met. */
  lemma DedupStep<T>(xs: seq<T>, d: seq<T>, r: seq<T>)
    requires |xs| > 0 && DedupOf(xs[..|xs| - 1], d)
    requires r == if xs[|xs| - 1] in d then d else d + [xs[|xs| - 1]]
    ensures DedupOf(xs, r)
  {
    if xs[|xs| - 1] in d {
      PrefixIndices(xs, d);
      DedupKeep(xs, d);
    } else {
      DedupAppend(xs, d);
    }
  }

  /** The values kept from the prefix are first met in the prefix. */
  lemma PrefixIndices<T>(xs: seq<T>, d: seq<T>)
    requires |xs| > 0 && forall a :: 0 <= a < |d| ==> d[a] in xs[..|xs| - 1]
    ensures forall a :: 0 <= a < |d| ==>
      d[a] in xs && IndexOf(xs, d[a]) == IndexOf(xs[..|xs| - 1], d[a]) < |xs| - 1
  {
    forall a | 0 <= a < |d|
      ensures d[a] in xs && IndexOf(xs, d[a]) == IndexOf(xs[..|xs| - 1], d[a]) < |xs| - 1
    {
      IndexOfPrefix(xs, |xs| - 1, d[a]);
    }
  }

  lemma DedupKeep<T>(xs: seq<T>, d: seq<T>)
    requires |xs| > 0 && DedupOf(xs[..|xs| - 1], d) && xs[|xs| - 1] in d
    requires forall a :: 0 <= a < |d| ==>
      d[a] in xs && IndexOf(xs, d[a]) == IndexOf(xs[..|xs| - 1], d[a])
    ensures DedupOf(xs, d)
  {
    forall k | 0 <= k < |xs| - 1 ensures xs[k] in d {
      assert xs[k] == xs[..|xs| - 1][k];
    }
  }

  /** A value met only at the end is first met there. */
  lemma IndexOfLast<T>(xs: seq<T>)
    requires |xs| > 0 && xs[|xs| - 1] !in xs[..|xs| - 1]
    ensures IndexOf(xs, xs[|xs| - 1]) == |xs| - 1
  {
  }

  lemma DedupAppend<T>(xs: seq<T>, d: seq<T>)
    requires |xs| > 0 && DedupOf(xs[..|xs| - 1], d) && xs[|xs| - 1] !in d
    ensures DedupOf(xs, d + [xs[|xs| - 1]])
  {
    var init, last, r := xs[..|xs| - 1], xs[|xs| - 1], d + [xs[|xs| - 1]];
    assert forall a :: 0 <= a < |r| ==> r[a] in xs by {
      forall a | 0 <= a < |r| ensures r[a] in xs {
        if a < |d| {
          assert r[a] == d[a] && d[a] in init;
        }
      }
    }
    assert forall k :: 0 <= k < |xs| ==> xs[k] in r by {
      forall k | 0 <= k < |xs| ensures xs[k] in r {
        if k < |init| {
          assert xs[k] == init[k] && init[k] in d;
        } else {
          assert xs[k] == r[|d|];
        }
      }
    }
    assert forall a, b :: 0 <= a < b < |r| ==> r[a] != r[b] by {
      forall a, b | 0 <= a < b < |r| ensures r[a] != r[b] {
        if b == |d| {
          assert r[a] == d[a] && r[b] == last;
        } else {
          assert r[a] == d[a] && r[b] == d[b];
        }
      }
    }
    assert forall a, b :: 0 <= a < b < |r| ==> IndexOf(xs, r[a]) < IndexOf(xs, r[b]) by {
      assert last !in init by {
        forall k | 0 <= k < |init| ensures init[k] != last {
          assert init[k] in d;
        }
      }
      IndexOfLast(xs);
      PrefixIndices(xs, d);
      forall a, b | 0 <= a < b < |r| ensures IndexOf(xs, r[a]) < IndexOf(xs, r[b]) {
        assert r[a] == d[a];
        if b < |d| {
          assert r[b] == d[b];
          assert IndexOf(init, d[a]) < IndexOf(init, d[b]);
        } else {
          assert r[b] == last;
        }
      }
    }
  }

  /** JavaScript's WhiteSpace and LineTerminator code points, which `trim` removes. */
  predicate IsJsWhitespace(c: char) {
    c == '\t' || c == '\n' || c == '\U{000B}' || c == '\U{000C}' || c == '\r' || c == ' '
    || c == '\U{00A0}' || c == '\U{1680}' || ('\U{2000}' <= c <= '\U{200A}')
    || c == '\U{2028}' || c == '\U{2029}' || c == '\U{202F}' || c == '\U{205F}'
    || c == '\U{3000}' || c == '\U{FEFF}'
  }

  function TrimStart(s: string): string {
    if s != [] && IsJsWhitespace(s[0]) then TrimStart(s[1..]) else s
  }

  function TrimEnd(s: string): string {
    if s != [] && IsJsWhitespace(s[|s| - 1]) then TrimEnd(s[..|s| - 1]) else s
  }

  /** `s.trim()`. */
  function Trim(s: string): string {
    TrimEnd(TrimStart(s))
  }

  /** A string is blank when it has nothing but whitespace. */
  predicate IsBlank(s: string) {
    forall k :: 0 <= k < |s| ==> IsJsWhitespace(s[k])
  }

  /** `s.trim() === ""` holds exactly for blank strings. */
  lemma {:induction false} TrimEmptyIffBlank(s: string)
    ensures Trim(s) == "" <==> IsBlank(s)
  {
    if s != [] && IsJsWhitespace(s[0]) {
      TrimEmptyIffBlank(s[1..]);
      assert IsBlank(s) <==> IsBlank(s[1..]) by {
        assert forall k :: 1 <= k < |s| ==> s[k] == s[1..][k - 1];
      }
    } else if s != [] {
      TrimEndKeepsFirst(s);
    }
  }

  lemma {:induction false} TrimEndKeepsFirst(s: string)
    requires s != [] && !IsJsWhitespace(s[0])
    ensures TrimEnd(s) != []
  {
    if IsJsWhitespace(s[|s| - 1]) {
      TrimEndKeepsFirst(s[..|s| - 1]);
    }
  }

  /**
   * `Math.round(n / d)` for an exact quotient (d > 0): the integer nearest to
   * n / d, halves rounding up.
   */
  function Round(n: int, d: int): (r: int)
    requires d > 0
    ensures 2 * d * r - d <= 2 * n < 2 * d * r + d
  {
    var q := (2 * n + d) / (2 * d);
    assert 2 * n + d == 2 * d * q + (2 * n + d) % (2 * d);
    q
  }

  /** `Math.round((n / d) * 100)`, the percentage the pages and handlers show. */
  function Percent(n: int, d: int): (r: int)
    requires d > 0
    ensures 2 * d * r - d <= 200 * n < 2 * d * r + d
  {
    Round(100 * n, d)
  }

  /** Rounding is monotone in the numerator. */
  lemma RoundMonotone(n1: int, n2: int, d: int)
    requires d > 0 && n1 <= n2
    ensures Round(n1, d) <= Round(n2, d)
  {
    var r1, r2 := Round(n1, d), Round(n2, d);
    if r1 > r2 {
      ScaleMonotone(2 * d, r2 + 1, r1);
    }
  }

  lemma ScaleMonotone(m: int, x: int, y: int)
    requires m > 0 && x <= y
    ensures m * x <= m * y
  {
    assert m * y - m * x == m * (y - x);
  }

  /** A share of a whole is a percentage from 0 to 100: 0 for none of it, 100 for all of it. */
  lemma PercentBounds(n: int, d: int)
    requires d > 0 && 0 <= n <= d
    ensures 0 <= Percent(n, d) <= 100
    ensures n == 0 ==> Percent(n, d) == 0
    ensures n == d ==> Percent(n, d) == 100
  {
    var r := Percent(n, d);
    SignOfProduct(d, 2 * r + 1);
    SignOfProduct(d, 2 * r - 201);
    SignOfProduct(d, 2 * r - 1);
    SignOfProduct(d, 2 * r - 199);
  }

  /** With a positive factor, a product has the other factor's sign. */
  lemma SignOfProduct(d: int, x: int)
    requires d > 0
    ensures d * x > 0 <==> x > 0
  {
    if x <= 0 {
      ScaleMonotone(d, x, 0);
    } else {
      ScaleMonotone(d, 1, x);
    }
  }

  /** `xs.filter(p)`: the elements satisfying `p`, in their order in `xs`. */
  function Filter<T>(xs: seq<T>, p: T -> bool): (r: seq<T>)
    ensures |r| <= |xs|
    ensures forall k :: 0 <= k < |r| ==> p(r[k]) && r[k] in xs
    ensures forall k :: 0 <= k < |xs| && p(xs[k]) ==> xs[k] in r
  {
    if xs == [] then []
    else
      var init, last := xs[..|xs| - 1], xs[|xs| - 1];
      assert forall k :: 0 <= k < |init| ==> init[k] == xs[k];
      Filter(init, p) + (if p(last) then [last] else [])
  }

  /** Filtering distributes over concatenation. */
  lemma {:induction false} FilterAppend<T>(a: seq<T>, b: seq<T>, p: T -> bool)
    ensures Filter(a + b, p) == Filter(a, p) + Filter(b, p)
  {
    if b == [] {
      assert a + b == a;
    } else {
      var b' := b[..|b| - 1];
      assert (a + b)[..|a + b| - 1] == a + b';
      assert (a + b)[|a + b| - 1] == b[|b| - 1];
      FilterAppend(a, b', p);
    }
  }

  /** The positions of `xs` whose element satisfies `p`. */
  ghost function Positions<T>(xs: seq<T>, p: T -> bool): set<int> {
    set k | 0 <= k < |xs| && p(xs[k])
  }

  /** A filter keeps one element per position that satisfies `p`. */
  lemma {:induction false} FilterCount<T>(xs: seq<T>, p: T -> bool)
    ensures |Filter(xs, p)| == |Positions(xs, p)|
  {
    if xs != [] {
      var n := |xs| - 1;
      FilterCount(xs[..n], p);
      PositionsStep(xs, p);
    }
  }

  /** One more element adds its position when it satisfies `p`. */
  lemma PositionsStep<T>(xs: seq<T>, p: T -> bool)
    requires xs != []
    ensures var n := |xs| - 1;
      |Positions(xs, p)| == |Positions(xs[..n], p)| + (if p(xs[n]) then 1 else 0)
  {
    var n := |xs| - 1;
    var init := xs[..n];
    var before, after := Positions(init, p), Positions(xs, p);
    var added: set<int> := if p(xs[n]) then {n} else {};
    assert after == before + added by {
      forall k | k in after ensures k in before + added {
        if k < n {
          assert init[k] == xs[k];
        }
      }
      forall k | k in before ensures k in after {
        assert init[k] == xs[k];
      }
    }
    assert before !! added;
  }

  /** When every element satisfies `p`, filtering keeps them all. */
  lemma {:induction false} FilterAll<T>(xs: seq<T>, p: T -> bool)
    requires forall k :: 0 <= k < |xs| ==> p(xs[k])
    ensures Filter(xs, p) == xs
  {
    if xs != [] {
      FilterAll(xs[..|xs| - 1], p);
    }
  }

  /** When no element satisfies `p`, filtering keeps none. */
  lemma {:induction false} FilterNone<T>(xs: seq<T>, p: T -> bool)
    requires forall k :: 0 <= k < |xs| ==> !p(xs[k])
    ensures Filter(xs, p) == []
  {
    if xs != [] {
      FilterNone(xs[..|xs| - 1], p);
    }
  }

  /**
   * When `r` holds exactly where one of the exclusive `p` and `q` holds,
   * the two filters together keep as many elements as filtering by `r`.
   */
  lemma {:induction false} FilterSplit<T>(xs: seq<T>, p: T -> bool, q: T -> bool, r: T -> bool)
    requires forall k :: 0 <= k < |xs| ==> (r(xs[k]) <==> p(xs[k]) || q(xs[k])) && !(p(xs[k]) && q(xs[k]))
    ensures |Filter(xs, p)| + |Filter(xs, q)| == |Filter(xs, r)|
  {
    if xs != [] {
      var init := xs[..|xs| - 1];
      assert forall k :: 0 <= k < |init| ==> init[k] == xs[k];
      FilterSplit(init, p, q, r);
    }
  }

  /** A weaker condition keeps at least as many elements. */
  lemma FilterWeaker<T>(xs: seq<T>, p: T -> bool, q: T -> bool)
    requires forall k :: 0 <= k < |xs| ==> p(xs[k]) ==> q(xs[k])
    ensures |Filter(xs, p)| <= |Filter(xs, q)|
  {
    FilterSplit(xs, p, (x: T) => q(x) && !p(x), q);
  }

  /** When exactly one element satisfies `p`, filtering keeps just that one. */
  lemma {:induction false} FilterSingle<T>(xs: seq<T>, p: T -> bool, k: nat)
    requires k < |xs| && p(xs[k])
    requires forall j :: 0 <= j < |xs| && j != k ==> !p(xs[j])
    ensures Filter(xs, p) == [xs[k]]
  {
    var init := xs[..|xs| - 1];
    if k == |xs| - 1 {
      FilterNone(init, p);
    } else {
      FilterSingle(init, p, k);
    }
  }

  /** `xs.map(f)`. */
  function Map<T, U>(xs: seq<T>, f: T -> U): (r: seq<U>)
    ensures |r| == |xs| && forall k :: 0 <= k < |xs| ==> r[k] == f(xs[k])
  {
    seq(|xs|, k requires 0 <= k < |xs| => f(xs[k]))
  }

  /** A list without repetitions has as many distinct values as elements. */
  lemma {:induction false} DistinctCard<T>(xs: seq<T>)
    requires Distinct(xs)
    ensures |set x | x in xs| == |xs|
  {
    if xs != [] {
      var init := xs[..|xs| - 1];
      DistinctCard(init);
      assert (set x | x in xs) == (set x | x in init) + {xs[|xs| - 1]};
      assert xs[|xs| - 1] !in init;
    }
  }

  /** A subset has no more elements than its superset. */
  lemma {:induction false} SubsetCard<T>(a: set<T>, b: set<T>)
    requires a <= b
    ensures |a| <= |b|
  {
    if a != {} {
      var x :| x in a;
      SubsetCard(a - {x}, b - {x});
    }
  }

  /**
   * A list without repetitions drawn from another has at most its length,
   * and with the same length it holds the same elements.
   */
  lemma DistinctInto<T>(xs: seq<T>, ys: seq<T>)
    requires Distinct(xs) && Distinct(ys)
    requires forall k :: 0 <= k < |xs| ==> xs[k] in ys
    ensures |xs| <= |ys|
    ensures |xs| == |ys| ==> forall y :: y in ys <==> y in xs
  {
    var a, b := set x | x in xs, set y | y in ys;
    DistinctCard(xs);
    DistinctCard(ys);
    SubsetCard(a, b);
    if |xs| == |ys| {
      SubsetCard(b - a, b);
      assert |b - a| == |b| - |a| == 0;
      assert a == b;
      forall y ensures y in ys <==> y in xs {
        assert y in ys <==> y in b;
        assert y in xs <==> y in a;
      }
    }
  }

  /** Keeping every element is the same as keeping as many elements as there are. */
  lemma {:induction false} FilterFull<T>(xs: seq<T>, p: T -> bool)
    requires |Filter(xs, p)| == |xs|
    ensures forall k :: 0 <= k < |xs| ==> p(xs[k])
  {
    if xs != [] {
      var init := xs[..|xs| - 1];
      assert |Filter(init, p)| <= |init|;
      FilterFull(init, p);
      forall k | 0 <= k < |xs| ensures p(xs[k]) {
        if k < |init| { assert xs[k] == init[k]; }
      }
    }
  }
}

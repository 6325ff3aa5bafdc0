/** Vocabulary shared by every component: optional values, powers of two, the code-point order
    Python uses on strings, and sums and concatenations over sequences. */
module Util {

  datatype Option<+T> = None | Some(value: T) {
    function GetOr(default: T): T {
      if Some? then value else default
    }
  }

  function Min(a: int, b: int): int { if a <= b then a else b }

  function Max(a: int, b: int): int { if a <= b then b else a }

  function Pow2(n: nat): (r: nat)
    ensures r >= 1
  {
    if n == 0 then 1 else 2 * Pow2(n - 1)
  }

  /** Python's `<=` on strings: lexicographic on code points. */
  predicate StringLe(a: string, b: string) {
    a == [] || (b != [] && (a[0] < b[0] || (a[0] == b[0] && StringLe(a[1..], b[1..]))))
  }

  lemma StringLeTotal(a: string, b: string)
    ensures StringLe(a, b) || StringLe(b, a)
  {
  }

  lemma StringLeTransitive(a: string, b: string, c: string)
    requires StringLe(a, b) && StringLe(b, c)
    ensures StringLe(a, c)
  {
  }

  lemma {:induction false} StringLeAntisymmetric(a: string, b: string)
    requires StringLe(a, b) && StringLe(b, a)
    ensures a == b
  {
    if a == [] {
    } else {
      StringLeAntisymmetric(a[1..], b[1..]);
      assert a == [a[0]] + a[1..] && b == [b[0]] + b[1..];
    }
  }

  /** The order is lexicographic: a beginning comes first, and else the first difference decides. */
  lemma {:induction false} FirstDifferenceDecides(common: string, a: string, b: string)
    requires a == [] || b == [] || a[0] != b[0]
    ensures StringLe(common + a, common + b) <==> a == [] || (b != [] && a[0] < b[0])
  {
    if common == [] {
      assert common + a == a && common + b == b;
    } else {
      assert (common + a)[1..] == common[1..] + a && (common + b)[1..] == common[1..] + b;
      FirstDifferenceDecides(common[1..], a, b);
    }
  }

  ghost predicate PassesOn(p: nat -> bool, i: nat) { p(i) ==> p(i + 1) }

  /** What holds at 0, and passes from every number below `k` to the next, holds at `k`. */
  lemma {:induction false} Induct(p: nat -> bool, k: nat)
    requires p(0) && forall i: nat :: i < k ==> PassesOn(p, i)
    ensures p(k)
  {
    if k == 0 {
    } else {
      Induct(p, k - 1);
      assert PassesOn(p, k - 1);
    }
  }

  /** A function that does not fall before `k` is no smaller there than anywhere before. */
  lemma {:induction false} Climbs(f: nat -> nat, j: nat, k: nat)
    requires j <= k && forall i: nat :: i < k ==> f(i) <= f(i + 1)
    ensures f(j) <= f(k)
  {
    if j == k {
    } else {
      Climbs(f, j, k - 1);
      assert f(k - 1) <= f(k - 1 + 1);
    }
  }

  predicate StartsWith(s: string, prefix: string) {
    |prefix| <= |s| && s[..|prefix|] == prefix
  }

  /** Sum of `f` over the elements of `s`. */
  function Sum<T>(f: T -> int, s: seq<T>): int {
    if s == [] then 0 else f(s[0]) + Sum(f, s[1..])
  }

  lemma SumAppend<T>(f: T -> int, a: seq<T>, b: seq<T>)
    ensures Sum(f, a + b) == Sum(f, a) + Sum(f, b)
  {
    if a == [] {
      assert a + b == b;
    } else {
      assert (a + b)[1..] == a[1..] + b;
      SumAppend(f, a[1..], b);
    }
  }

  lemma SumUpdate<T>(f: T -> int, s: seq<T>, i: nat, x: T)
    requires i < |s|
    ensures Sum(f, s[i := x]) == Sum(f, s) - f(s[i]) + f(x)
  {
    if i == 0 {
      assert s[i := x][1..] == s[1..];
    } else {
      assert s[i := x][1..] == s[1..][i - 1 := x];
      SumUpdate(f, s[1..], i - 1, x);
    }
  }

  /** Equal summands at every position give equal sums. */
  lemma {:induction false} SumPointwise<T>(f: T -> int, a: seq<T>, b: seq<T>)
    requires |a| == |b|
    requires forall i :: 0 <= i < |a| ==> f(a[i]) == f(b[i])
    ensures Sum(f, a) == Sum(f, b)
  {
    if a == [] {
    } else {
      SumPointwise(f, a[1..], b[1..]);
    }
  }

  lemma {:induction false} SumBounds<T>(f: T -> int, s: seq<T>, lo: int, hi: int)
    requires forall i :: 0 <= i < |s| ==> lo <= f(s[i]) <= hi
    ensures lo * |s| <= Sum(f, s) <= hi * |s|
  {
    if s == [] {
    } else {
      SumBounds(f, s[1..], lo, hi);
      assert lo * |s| == lo + lo * |s[1..]| && hi * |s| == hi + hi * |s[1..]|;
    }
  }

  /** Concatenation of a list of lists, left to right. */
  function Flatten<T>(ss: seq<seq<T>>): seq<T> {
    if ss == [] then [] else ss[0] + Flatten(ss[1..])
  }

  lemma FlattenAppend<T>(a: seq<seq<T>>, b: seq<seq<T>>)
    ensures Flatten(a + b) == Flatten(a) + Flatten(b)
  {
    if a == [] {
      assert a + b == b;
    } else {
      assert (a + b)[1..] == a[1..] + b;
      FlattenAppend(a[1..], b);
    }
  }

  ghost predicate GrowsByOne<A, B>(f: seq<A> -> seq<B>, init: seq<A>, last: A) {
    f(init + [last]) == f(init) + f([last])
  }

  /** What grows by one list with every element is put together piece by piece. */
  lemma {:induction false} PutTogether<A(!new), B>(f: seq<A> -> seq<B>, a: seq<A>, b: seq<A>)
    requires f([]) == [] && forall init, last :: GrowsByOne(f, init, last)
    ensures f(a + b) == f(a) + f(b)
  {
    if b == [] {
      assert a + b == a;
    } else {
      var init, last := b[..|b| - 1], b[|b| - 1];
      PutTogether(f, a, init);
      assert b == init + [last] && a + b == (a + init) + [last];
      assert GrowsByOne(f, a + init, last) && GrowsByOne(f, init, last);
    }
  }

  /** The elements of a sequence, as a set. */
  function Elements<T>(s: seq<T>): set<T> {
    set x | x in s
  }

  /** `f` applied to every element, in order. */
  function Map<A, B>(f: A -> B, s: seq<A>): (r: seq<B>)
    ensures |r| == |s|
    ensures forall i :: 0 <= i < |s| ==> r[i] == f(s[i])
  {
    if s == [] then [] else [f(s[0])] + Map(f, s[1..])
  }

  predicate Distinct<T(==)>(s: seq<T>) {
    forall i, j :: 0 <= i < j < |s| ==> s[i] != s[j]
  }

  /** A duplicate-free sequence whose elements all lie in `u` is no longer than `u` is large. */
  lemma DistinctLength<T>(s: seq<T>, u: set<T>)
    requires Distinct(s)
    requires forall x :: x in s ==> x in u
    ensures |s| <= |u|
    ensures |s| == |Elements(s)|
  {
    if s == [] {
      assert Elements(s) == {};
    } else {
      var last := s[|s| - 1];
      var rest := s[..|s| - 1];
      assert s == rest + [last];
      assert last !in rest;
      DistinctLength(rest, u - {last});
      assert Elements(s) == Elements(rest) + {last};
    }
  }

  lemma PrefixSnoc<T>(s: seq<T>, n: nat)
    requires 0 < n <= |s|
    ensures s[..n] == s[..n - 1] + [s[n - 1]]
  {
  }
}

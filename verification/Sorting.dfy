/** Python's `sorted`: a stable sort under a total preorder. */
module Sorting {

  ghost predicate TotalPreorder<T(!new)>(le: (T, T) -> bool) {
    && (forall x, y :: le(x, y) || le(y, x))
    && (forall x, y, z :: le(x, y) && le(y, z) ==> le(x, z))
  }

  ghost predicate SortedBy<T>(le: (T, T) -> bool, s: seq<T>) {
    forall i, j :: 0 <= i < j < |s| ==> le(s[i], s[j])
  }

  /** Puts `x` in front of the first element it may precede, so equal elements keep their order. */
  function Insert<T>(le: (T, T) -> bool, x: T, s: seq<T>): seq<T> {
    if s == [] then [x]
    else if le(x, s[0]) then [x] + s
    else [s[0]] + Insert(le, x, s[1..])
  }

  function Sort<T>(le: (T, T) -> bool, s: seq<T>): seq<T> {
    if s == [] then [] else Insert(le, s[0], Sort(le, s[1..]))
  }

  lemma {:induction false} InsertMultiset<T>(le: (T, T) -> bool, x: T, s: seq<T>)
    ensures multiset(Insert(le, x, s)) == multiset(s) + multiset{x}
  {
    if s == [] || le(x, s[0]) {
    } else {
      InsertMultiset(le, x, s[1..]);
      assert s == [s[0]] + s[1..];
    }
  }

  lemma {:induction false} InsertLength<T>(le: (T, T) -> bool, x: T, s: seq<T>)
    ensures |Insert(le, x, s)| == |s| + 1
  {
    if s == [] || le(x, s[0]) {
    } else {
      InsertLength(le, x, s[1..]);
    }
  }

  lemma {:induction false} SortMultiset<T>(le: (T, T) -> bool, s: seq<T>)
    ensures multiset(Sort(le, s)) == multiset(s)
    ensures |Sort(le, s)| == |s|
  {
    if s == [] {
    } else {
      SortMultiset(le, s[1..]);
      InsertMultiset(le, s[0], Sort(le, s[1..]));
      InsertLength(le, s[0], Sort(le, s[1..]));
      assert s == [s[0]] + s[1..];
    }
  }

  lemma {:induction false} InsertSorted<T(!new)>(le: (T, T) -> bool, x: T, s: seq<T>)
    requires TotalPreorder(le) && SortedBy(le, s)
    ensures SortedBy(le, Insert(le, x, s))
  {
    if s == [] || le(x, s[0]) {
    } else {
      InsertSorted(le, x, s[1..]);
      InsertMultiset(le, x, s[1..]);
      var tail := Insert(le, x, s[1..]);
      forall y | y in tail ensures le(s[0], y) {
        assert y in multiset(tail);
        assert y == x || y in s[1..];
      }
    }
  }

  lemma {:induction false} SortSorted<T(!new)>(le: (T, T) -> bool, s: seq<T>)
    requires TotalPreorder(le)
    ensures SortedBy(le, Sort(le, s))
  {
    if s == [] {
    } else {
      SortSorted(le, s[1..]);
      InsertSorted(le, s[0], Sort(le, s[1..]));
    }
  }

  /** What is inserted stands in front of everything it may precede. */
  lemma {:induction false} InsertPlace<T>(le: (T, T) -> bool, x: T, s: seq<T>) returns (p: nat)
    ensures var out := Insert(le, x, s);
      p < |out| && out[p] == x && forall j :: 0 <= j < p ==> !le(x, out[j])
  {
    if s == [] || le(x, s[0]) {
      p := 0;
    } else {
      p := InsertPlace(le, x, s[1..]);
      p := p + 1;
    }
  }

  /** A sorted list is a fixed point, so sorting twice is sorting once. */
  lemma {:induction false} SortFixed<T(!new)>(le: (T, T) -> bool, s: seq<T>)
    requires SortedBy(le, s)
    ensures Sort(le, s) == s
  {
    if s == [] {
    } else {
      SortFixed(le, s[1..]);
      assert s == [s[0]] + s[1..];
    }
  }

  lemma SameHead<T(!new)>(le: (T, T) -> bool, a: seq<T>, b: seq<T>)
    requires SortedBy(le, a) && SortedBy(le, b) && a != [] && b != []
    requires multiset(a) == multiset(b)
    requires forall x, y :: x in a && y in a && le(x, y) && le(y, x) ==> x == y
    ensures a[0] == b[0]
  {
    assert a[0] in multiset(b) && b[0] in multiset(a);
    assert a[0] in b && b[0] in a;
  }

  lemma TailMultiset<T>(s: seq<T>)
    requires s != []
    ensures multiset(s[1..]) == multiset(s) - multiset{s[0]}
  {
    assert s == [s[0]] + s[1..];
  }

  lemma SameMultisetSameLength<T>(a: seq<T>, b: seq<T>)
    requires multiset(a) == multiset(b)
    ensures |a| == |b|
  {
    assert |a| == |multiset(a)| == |multiset(b)| == |b|;
  }

  /** When the order separates the elements of a list, its sorted arrangement is unique. */
  lemma {:induction false} SortedUnique<T(!new)>(le: (T, T) -> bool, a: seq<T>, b: seq<T>)
    requires SortedBy(le, a) && SortedBy(le, b)
    requires multiset(a) == multiset(b)
    requires forall x, y :: x in a && y in a && le(x, y) && le(y, x) ==> x == y
    ensures a == b
  {
    SameMultisetSameLength(a, b);
    if a == [] {
    } else {
      SameHead(le, a, b);
      TailMultiset(a);
      TailMultiset(b);
      SortedUnique(le, a[1..], b[1..]);
      assert a == [a[0]] + a[1..] && b == [b[0]] + b[1..];
    }
  }

  lemma SortElements<T>(le: (T, T) -> bool, s: seq<T>)
    ensures forall x :: x in Sort(le, s) <==> x in s
    ensures |Sort(le, s)| == |s|
  {
    SortMultiset(le, s);
    forall x ensures x in Sort(le, s) <==> x in s {
      assert x in Sort(le, s) <==> x in multiset(Sort(le, s));
      assert x in s <==> x in multiset(s);
    }
  }

  lemma {:induction false} AtMostOnce<T>(s: seq<T>, x: T)
    requires forall i, j :: 0 <= i < j < |s| ==> s[i] != s[j]
    ensures multiset(s)[x] <= 1
  {
    if s == [] {
    } else {
      AtMostOnce(s[1..], x);
      assert s == [s[0]] + s[1..];
      if x == s[0] {
        assert x !in s[1..];
        assert x !in multiset(s[1..]);
      }
    }
  }

  /** Duplicate-free lists with the same elements are permutations of each other. */
  lemma SameElementsSameMultiset<T>(a: seq<T>, b: seq<T>)
    requires forall i, j :: 0 <= i < j < |a| ==> a[i] != a[j]
    requires forall i, j :: 0 <= i < j < |b| ==> b[i] != b[j]
    requires forall x :: x in a <==> x in b
    ensures multiset(a) == multiset(b)
  {
    forall x ensures multiset(a)[x] == multiset(b)[x] {
      AtMostOnce(a, x);
      AtMostOnce(b, x);
      assert x in multiset(a) <==> x in a;
      assert x in multiset(b) <==> x in b;
    }
  }
}

/** Stable sorting by a key, and when the sorted order does not depend on the order of the input. */
module Sorting {
  import opened Basics

  /** Keys compare lexicographically, a proper prefix first. */
  type Key = seq<int>

  predicate Leq(a: Key, b: Key) {
    a == [] || (b != [] && (a[0] < b[0] || (a[0] == b[0] && Leq(a[1..], b[1..]))))
  }

  lemma {:induction false} LeqTotal(a: Key, b: Key)
    ensures Leq(a, b) || Leq(b, a)
  {
    if a != [] && b != [] && a[0] == b[0] {
      LeqTotal(a[1..], b[1..]);
    }
  }

  lemma {:induction false} LeqAntisymmetric(a: Key, b: Key)
    requires Leq(a, b) && Leq(b, a)
    ensures a == b
  {
    if a != [] && b != [] {
      LeqAntisymmetric(a[1..], b[1..]);
      assert a == [a[0]] + a[1..] && b == [b[0]] + b[1..];
    }
  }

  lemma {:induction false} LeqTransitive(a: Key, b: Key, c: Key)
    requires Leq(a, b) && Leq(b, c)
    ensures Leq(a, c)
  {
    if a != [] && a[0] == b[0] == c[0] {
      LeqTransitive(a[1..], b[1..], c[1..]);
    }
  }

  // ----- keys made of strings and numbers -----

  /** The code points of a string; strings compare by code point. */
  function Codes(s: string): (r: Key)
    ensures |r| == |s| && forall i :: 0 <= i < |s| ==> r[i] == s[i] as int
  {
    seq(|s|, i requires 0 <= i < |s| => s[i] as int)
  }

  /** A string as one component of a tuple key: the terminator sorts before every code point. */
  function Terminated(s: string): Key {
    Codes(s) + [-1]
  }

  lemma CodesAreInjective(a: string, b: string)
    requires Codes(a) == Codes(b)
    ensures a == b
  {
    forall i | 0 <= i < |a|
      ensures a[i] == b[i]
    {
      assert Codes(a)[i] == Codes(b)[i];
    }
  }

  lemma ComponentsSeparate(a: string, x: Key, b: string, y: Key)
    requires Terminated(a) + x == Terminated(b) + y
    ensures a == b && x == y
  {
    var s, t := Terminated(a) + x, Terminated(b) + y;
    assert s[|a|] == -1 && t[|b|] == -1;
    assert forall i :: 0 <= i < |a| ==> s[i] == a[i] as int;
    assert forall i :: 0 <= i < |b| ==> t[i] == b[i] as int;
    assert |a| == |b|;
    assert Codes(a) == s[..|a|] && Codes(b) == t[..|b|];
    CodesAreInjective(a, b);
    assert x == s[|a| + 1..] && y == t[|b| + 1..];
  }

  lemma TerminatedTail(a: string, x: Key)
    ensures a == "" ==> Terminated(a) + x == [-1] + x
    ensures a != "" ==> Terminated(a) + x == [a[0] as int] + (Terminated(a[1..]) + x)
    ensures a != "" ==> Codes(a) == [a[0] as int] + Codes(a[1..]) && a == [a[0]] + a[1..]
  {
  }

  lemma LeqOfCons(m: int, x: Key, n: int, y: Key)
    ensures Leq([m] + x, [n] + y) <==> m < n || (m == n && Leq(x, y))
  {
    assert ([m] + x)[1..] == x && ([n] + y)[1..] == y;
  }

  /** The terminator orders tuples component by component: the first component decides unless equal. */
  lemma {:induction false} TupleOrder(a: string, x: Key, b: string, y: Key)
    ensures Leq(Terminated(a) + x, Terminated(b) + y)
       <==> (a == b && Leq(x, y)) || (a != b && Leq(Codes(a), Codes(b)))
    decreases |a|
  {
    TerminatedTail(a, x);
    TerminatedTail(b, y);
    var m, n := if a == "" then -1 else a[0] as int, if b == "" then -1 else b[0] as int;
    LeqOfCons(m, if a == "" then x else Terminated(a[1..]) + x, n, if b == "" then y else Terminated(b[1..]) + y);
    if a != "" && b != "" {
      LeqOfCons(m, Codes(a[1..]), n, Codes(b[1..]));
      TupleOrder(a[1..], x, b[1..], y);
      hide Leq, Terminated, Codes;
    }
  }

  // ----- sorting -----

  function Insert<T>(key: T -> Key, x: T, s: seq<T>): seq<T> {
    if s == [] || Leq(key(x), key(s[0])) then [x] + s else [s[0]] + Insert(key, x, s[1..])
  }

  /** The stable sort of `s` by `key`. */
  function SortBy<T>(key: T -> Key, s: seq<T>): seq<T> {
    if s == [] then [] else Insert(key, s[0], SortBy(key, s[1..]))
  }

  ghost predicate Sorted<T(!new)>(key: T -> Key, s: seq<T>) {
    forall i, j :: 0 <= i < j < |s| ==> Leq(key(s[i]), key(s[j]))
  }

  ghost predicate KeysDiffer<T(!new)>(key: T -> Key, s: seq<T>) {
    forall i, j :: 0 <= i < j < |s| ==> key(s[i]) != key(s[j])
  }

  lemma {:induction false} InsertPermutes<T(!new)>(key: T -> Key, x: T, s: seq<T>)
    ensures multiset(Insert(key, x, s)) == multiset(s) + multiset{x}
  {
    if s != [] {
      assert s == [s[0]] + s[1..];
      InsertPermutes(key, x, s[1..]);
    }
  }

  lemma {:induction false} SortPermutes<T(!new)>(key: T -> Key, s: seq<T>)
    ensures multiset(SortBy(key, s)) == multiset(s)
    ensures |SortBy(key, s)| == |s|
  {
    if s != [] {
      SortPermutes(key, s[1..]);
      InsertPermutes(key, s[0], SortBy(key, s[1..]));
      assert s == [s[0]] + s[1..];
    }
    assert |multiset(SortBy(key, s))| == |SortBy(key, s)| && |multiset(s)| == |s|;
  }

  lemma SortedTail<T(!new)>(key: T -> Key, s: seq<T>)
    requires Sorted(key, s) && s != []
    ensures Sorted(key, s[1..]) && forall x :: x in s[1..] ==> Leq(key(s[0]), key(x))
  {
    assert forall i, j :: 1 <= i < j < |s| ==> Leq(key(s[i]), key(s[j]));
    forall x | x in s[1..]
      ensures Leq(key(s[0]), key(x))
    {
      var i :| 0 <= i < |s[1..]| && s[1..][i] == x;
      assert s[i + 1] == x;
    }
  }

  lemma SortedCons<T(!new)>(key: T -> Key, x: T, s: seq<T>)
    requires Sorted(key, s) && forall y :: y in s ==> Leq(key(x), key(y))
    ensures Sorted(key, [x] + s)
  {
    var t := [x] + s;
    forall i, j | 0 <= i < j < |t|
      ensures Leq(key(t[i]), key(t[j]))
    {
      assert t[j] == s[j - 1] && s[j - 1] in s;
      if i > 0 {
        assert t[i] == s[i - 1];
      }
    }
  }

  lemma {:induction false} InsertSorted<T(!new)>(key: T -> Key, x: T, s: seq<T>)
    requires Sorted(key, s)
    ensures Sorted(key, Insert(key, x, s))
  {
    hide Sorted;
    if s == [] {
      SortedCons(key, x, s);
    } else {
      SortedTail(key, s);
      LeqTotal(key(x), key(s[0]));
      if Leq(key(x), key(s[0])) {
        forall y | y in s
          ensures Leq(key(x), key(y))
        {
          if y != s[0] {
            assert s == [s[0]] + s[1..];
            LeqTransitive(key(x), key(s[0]), key(y));
          }
        }
        SortedCons(key, x, s);
      } else {
        InsertSorted(key, x, s[1..]);
        var rest := Insert(key, x, s[1..]);
        InsertPermutes(key, x, s[1..]);
        forall y | y in rest
          ensures Leq(key(s[0]), key(y))
        {
          assert y in multiset(rest);
          assert y == x || y in multiset(s[1..]);
        }
        SortedCons(key, s[0], rest);
      }
    }
  }

  lemma {:induction false} SortSorts<T(!new)>(key: T -> Key, s: seq<T>)
    ensures Sorted(key, SortBy(key, s))
  {
    if s != [] {
      SortSorts(key, s[1..]);
      InsertSorted(key, s[0], SortBy(key, s[1..]));
    }
  }

  /** Different keys make different elements, wherever they stand. */
  ghost predicate KeyIdentifies<T(!new)>(key: T -> Key, s: seq<T>) {
    forall x, y :: x in s && y in s && key(x) == key(y) ==> x == y
  }

  lemma HeadIsLeast<T(!new)>(key: T -> Key, s: seq<T>)
    requires Sorted(key, s) && s != []
    ensures forall x :: x in s ==> Leq(key(s[0]), key(x))
  {
    SortedTail(key, s);
    LeqTotal(key(s[0]), key(s[0]));
    assert s == [s[0]] + s[1..];
  }

  lemma HeadsAgree<T(!new)>(key: T -> Key, a: seq<T>, b: seq<T>)
    requires a != [] && b != [] && Sorted(key, a) && Sorted(key, b)
    requires multiset(a) == multiset(b) && KeyIdentifies(key, a)
    ensures a[0] == b[0] && multiset(a[1..]) == multiset(b[1..])
  {
    MembersOfMultiset(a, b);
    HeadIsLeast(key, a);
    HeadIsLeast(key, b);
    hide Sorted;
    assert a[0] in b && b[0] in a;
    LeqAntisymmetric(key(a[0]), key(b[0]));
    assert a == [a[0]] + a[1..] && b == [b[0]] + b[1..];
    assert multiset(a[1..]) == multiset(a) - multiset{a[0]};
    assert multiset(b[1..]) == multiset(b) - multiset{b[0]};
  }

  /** A sorted arrangement is determined by its elements when keys identify them. */
  lemma {:induction false} SortedIsUnique<T(!new)>(key: T -> Key, a: seq<T>, b: seq<T>)
    requires Sorted(key, a) && Sorted(key, b) && multiset(a) == multiset(b) && KeyIdentifies(key, a)
    ensures a == b
  {
    assert |multiset(a)| == |a| && |multiset(b)| == |b|;
    if a != [] {
      SortedTail(key, a);
      SortedTail(key, b);
      HeadsAgree(key, a, b);
      hide Sorted;
      assert a == [a[0]] + a[1..] && b == [b[0]] + b[1..];
      SortedIsUnique(key, a[1..], b[1..]);
    }
  }

  /** Sorting forgets the order of the input when keys identify elements. */
  lemma SortForgetsOrder<T(!new)>(key: T -> Key, a: seq<T>, b: seq<T>)
    requires multiset(a) == multiset(b) && KeyIdentifies(key, a)
    ensures SortBy(key, a) == SortBy(key, b)
  {
    SortPermutes(key, a);
    SortPermutes(key, b);
    SortSorts(key, a);
    SortSorts(key, b);
    MembersOfMultiset(a, SortBy(key, a));
    SortedIsUnique(key, SortBy(key, a), SortBy(key, b));
  }

  lemma {:induction false} SortedIsFixed<T(!new)>(key: T -> Key, s: seq<T>)
    requires Sorted(key, s)
    ensures SortBy(key, s) == s
  {
    if s != [] {
      SortedTail(key, s);
      SortedIsFixed(key, s[1..]);
      assert s == [s[0]] + s[1..];
      if |s| > 1 {
        assert s[1] in s[1..];
      }
    }
  }

  lemma SortMembers<T(!new)>(key: T -> Key, s: seq<T>)
    ensures |SortBy(key, s)| == |s| && forall x :: x in SortBy(key, s) <==> x in s
  {
    SortPermutes(key, s);
    MembersOfMultiset(s, SortBy(key, s));
  }

  // ----- sorting and mapping -----

  lemma {:induction false} InsertCommutes<T, U>(f: T -> U, kt: T -> Key, ku: U -> Key, x: T, s: seq<T>)
    requires forall y :: ku(f(y)) == kt(y)
    ensures Map(f, Insert(kt, x, s)) == Insert(ku, f(x), Map(f, s))
  {
    if s != [] {
      InsertCommutes(f, kt, ku, x, s[1..]);
      assert Map(f, s)[1..] == Map(f, s[1..]);
    }
  }

  /** Mapping a function that keeps keys commutes with sorting. */
  lemma {:induction false} SortCommutes<T, U>(f: T -> U, kt: T -> Key, ku: U -> Key, s: seq<T>)
    requires forall y :: ku(f(y)) == kt(y)
    ensures Map(f, SortBy(kt, s)) == SortBy(ku, Map(f, s))
  {
    if s != [] {
      SortCommutes(f, kt, ku, s[1..]);
      InsertCommutes(f, kt, ku, s[0], SortBy(kt, s[1..]));
      assert Map(f, s)[1..] == Map(f, s[1..]);
    }
  }

  lemma {:induction false} InsertByOrder<T>(k: T -> Key, l: T -> Key, x: T, s: seq<T>)
    requires forall y :: y in s ==> (Leq(k(x), k(y)) <==> Leq(l(x), l(y)))
    ensures Insert(k, x, s) == Insert(l, x, s)
  {
    if s != [] {
      InsertByOrder(k, l, x, s[1..]);
    }
  }

  /** Two keys that order the elements alike sort alike. */
  lemma {:induction false} SortByOrder<T(!new)>(k: T -> Key, l: T -> Key, s: seq<T>)
    requires forall i, j :: 0 <= i < j < |s| ==> (Leq(k(s[i]), k(s[j])) <==> Leq(l(s[i]), l(s[j])))
    ensures SortBy(k, s) == SortBy(l, s)
  {
    if s != [] {
      assert forall i, j :: 1 <= i < j < |s| ==> (Leq(k(s[i]), k(s[j])) <==> Leq(l(s[i]), l(s[j])));
      SortByOrder(k, l, s[1..]);
      SortMembers(l, s[1..]);
      forall y | y in SortBy(l, s[1..])
        ensures Leq(k(s[0]), k(y)) <==> Leq(l(s[0]), l(y))
      {
        var j :| 0 <= j < |s[1..]| && s[1..][j] == y;
        assert s[j + 1] == y;
      }
      InsertByOrder(k, l, s[0], SortBy(l, s[1..]));
    }
  }

  /** Keys that differ before either ends decide the order of all their extensions. */
  lemma {:induction false} FrontDecides(p: Key, x: Key, q: Key, y: Key)
    requires forall u: Key, v: Key :: p + u == q + v ==> u == v
    requires p != q
    ensures Leq(p + x, q + y) <==> Leq(p, q)
    decreases |p|
  {
    assert p == [] ==> p + q == q + [];
    assert q == [] ==> p + [] == q + p;
    if p != [] && q != [] && p[0] == q[0] {
      forall u: Key, v: Key | p[1..] + u == q[1..] + v
        ensures u == v
      {
        assert p + u == [p[0]] + (p[1..] + u) && q + v == [q[0]] + (q[1..] + v);
      }
      assert p == [p[0]] + p[1..] && q == [q[0]] + q[1..];
      FrontDecides(p[1..], x, q[1..], y);
      assert (p + x)[1..] == p[1..] + x && (q + y)[1..] == q[1..] + y;
    }
  }

  lemma {:induction false} SharedFront(p: Key, x: Key, y: Key)
    ensures Leq(p + x, p + y) <==> Leq(x, y)
  {
    if p == [] {
      assert p + x == x && p + y == y;
    } else {
      SharedFront(p[1..], x, y);
      assert (p + x)[1..] == p[1..] + x && (p + y)[1..] == p[1..] + y;
    }
  }

  /** A function that keeps the order of keys, and that keys tell apart, commutes with sorting. */
  lemma {:induction false} MonotoneInsertCommutes<T(!new)>(f: T -> T, k: T -> Key, x: T, s: seq<T>)
    requires Sorted(k, s)
    requires forall y, z :: y in [x] + s && z in [x] + s && Leq(k(y), k(z)) ==> Leq(k(f(y)), k(f(z)))
    requires forall y, z :: y in [x] + s && z in [x] + s && k(f(y)) == k(f(z)) ==> f(y) == f(z)
    ensures Map(f, Insert(k, x, s)) == Insert(k, f(x), Map(f, s))
  {
    hide Leq;
    if s != [] && !Leq(k(x), k(s[0])) {
      var rest := s[1..];
      assert s == [s[0]] + rest && Map(f, s) == [f(s[0])] + Map(f, rest) && Map(f, s)[1..] == Map(f, rest);
      SortedTail(k, s);
      assert forall y :: y in [x] + rest ==> y in [x] + s;
      MonotoneInsertCommutes(f, k, x, rest);
      LeqTotal(k(x), k(s[0]));
      assert x in [x] + s && s[0] in [x] + s;
      if Leq(k(f(x)), k(f(s[0]))) {
        LeqAntisymmetric(k(f(x)), k(f(s[0])));
        assert rest != [] ==> rest[0] in rest && rest[0] in [x] + s;
        assert Insert(k, f(x), Map(f, rest)) == [f(x)] + Map(f, rest);
      }
    } else if s != [] {
      assert x in [x] + s && s[0] in [x] + s;
    }
  }

  lemma SortFirst<T>(k: T -> Key, x: T, rest: seq<T>)
    ensures SortBy(k, [x] + rest) == Insert(k, x, SortBy(k, rest))
  {
    assert ([x] + rest)[1..] == rest;
  }

  lemma MapFirst<T, U>(f: T -> U, x: T, rest: seq<T>)
    ensures Map(f, [x] + rest) == [f(x)] + Map(f, rest)
  {
  }

  lemma {:induction false} MonotoneSortCommutes<T(!new)>(f: T -> T, k: T -> Key, s: seq<T>)
    requires forall y, z :: y in s && z in s && Leq(k(y), k(z)) ==> Leq(k(f(y)), k(f(z)))
    requires forall y, z :: y in s && z in s && k(f(y)) == k(f(z)) ==> f(y) == f(z)
    ensures Map(f, SortBy(k, s)) == SortBy(k, Map(f, s))
  {
    if s != [] {
      hide *;
      var x, rest := s[0], s[1..];
      assert s == [x] + rest;
      MonotoneSortCommutes(f, k, rest);
      SortMembers(k, rest);
      SortSorts(k, rest);
      assert forall y :: y in [x] + SortBy(k, rest) ==> y in s;
      MonotoneInsertCommutes(f, k, x, SortBy(k, rest));
      SortFirst(k, x, rest);
      SortFirst(k, f(x), Map(f, rest));
      MapFirst(f, x, rest);
    }
  }
}

/**
  Stable insertion sort by a real-valued key: the meaning given here to
  `sorted(..., key=...)`, `list.sort` and `np.sort`, which are all that the
  drift algorithms rely on for their order.
*/
module Sorting {

  ghost predicate SortedBy<T>(key: T -> real, s: seq<T>) {
    forall i, j :: 0 <= i < j < |s| ==> key(s[i]) <= key(s[j])
  }

  /** Inserts `x` behind every element whose key is not larger. */
  function Insert<T>(key: T -> real, s: seq<T>, x: T): (r: seq<T>)
    ensures |r| == |s| + 1
  {
    if s == [] || key(x) < key(s[0]) then [x] + s else [s[0]] + Insert(key, s[1..], x)
  }

  function Sort<T>(key: T -> real, s: seq<T>): (r: seq<T>)
    ensures |r| == |s|
  {
    if s == [] then [] else Insert(key, Sort(key, s[..|s| - 1]), s[|s| - 1])
  }

  function Map<T, U>(f: T -> U, s: seq<T>): (r: seq<U>)
    ensures |r| == |s| && forall i :: 0 <= i < |s| ==> r[i] == f(s[i])
  {
    seq(|s|, i requires 0 <= i < |s| => f(s[i]))
  }

  lemma {:induction false} InsertElements<T>(key: T -> real, s: seq<T>, x: T)
    ensures multiset(Insert(key, s, x)) == multiset(s) + multiset{x}
  {
    if s == [] || key(x) < key(s[0]) {
    } else {
      InsertElements(key, s[1..], x);
      assert s == [s[0]] + s[1..];
    }
  }

  lemma {:induction false} InsertKeeps<T>(key: T -> real, s: seq<T>, x: T)
    requires SortedBy(key, s)
    ensures SortedBy(key, Insert(key, s, x))
  {
    if s == [] || key(x) < key(s[0]) {
    } else {
      var tail := s[1..];
      var r := Insert(key, tail, x);
      InsertKeeps(key, tail, x);
      InsertElements(key, tail, x);
      forall i | 0 <= i < |r| ensures key(s[0]) <= key(r[i]) {
        assert r[i] in multiset(r);
        assert r[i] in multiset(tail) || r[i] == x;
      }
    }
  }

  lemma {:induction false} SortSorts<T>(key: T -> real, s: seq<T>)
    ensures SortedBy(key, Sort(key, s))
    ensures multiset(Sort(key, s)) == multiset(s)
  {
    if s == [] {
    } else {
      var p := s[..|s| - 1];
      SortSorts(key, p);
      InsertKeeps(key, Sort(key, p), s[|s| - 1]);
      InsertElements(key, Sort(key, p), s[|s| - 1]);
      assert s == p + [s[|s| - 1]];
    }
  }

  lemma {:induction false} SameElements<T>(s: seq<T>, t: seq<T>)
    requires multiset(s) == multiset(t)
    ensures forall x :: x in s <==> x in t
  {
    forall x | x in s || x in t ensures x in s && x in t {
      assert x in multiset(s) <==> x in s;
      assert x in multiset(t) <==> x in t;
    }
  }

  lemma SortSnoc<T>(key: T -> real, s: seq<T>, x: T)
    ensures Sort(key, s + [x]) == Insert(key, Sort(key, s), x)
  {
  }

  lemma {:induction false} InsertAtEnd<T>(key: T -> real, s: seq<T>, x: T)
    requires forall i :: 0 <= i < |s| ==> key(s[i]) <= key(x)
    ensures Insert(key, s, x) == s + [x]
  {
    if s == [] {
    } else {
      InsertAtEnd(key, s[1..], x);
      assert s == [s[0]] + s[1..];
    }
  }

  /** Stability on input that is already in order: nothing moves. */
  lemma {:induction false} SortOfSorted<T>(key: T -> real, s: seq<T>)
    requires SortedBy(key, s)
    ensures Sort(key, s) == s
  {
    if s == [] {
    } else {
      var p := s[..|s| - 1];
      SortOfSorted(key, p);
      InsertAtEnd(key, p, s[|s| - 1]);
      assert s == p + [s[|s| - 1]];
    }
  }

  lemma {:induction false} InsertOfMap<T(!new), U>(k: T -> real, l: U -> real, f: T -> U, s: seq<T>, x: T)
    requires forall y, z :: k(y) < k(z) <==> l(f(y)) < l(f(z))
    ensures Insert(l, Map(f, s), f(x)) == Map(f, Insert(k, s, x))
  {
    if s == [] || k(x) < k(s[0]) {
    } else {
      InsertOfMap(k, l, f, s[1..], x);
      assert Map(f, s)[1..] == Map(f, s[1..]);
    }
  }

  /** Sorting commutes with any element-wise map that keeps the order of the keys. */
  lemma {:induction false} SortOfMap<T(!new), U>(k: T -> real, l: U -> real, f: T -> U, s: seq<T>)
    requires forall y, z :: k(y) < k(z) <==> l(f(y)) < l(f(z))
    ensures Sort(l, Map(f, s)) == Map(f, Sort(k, s))
  {
    if s == [] {
    } else {
      var p := s[..|s| - 1];
      SortOfMap(k, l, f, p);
      assert Map(f, s)[..|s| - 1] == Map(f, p);
      InsertOfMap(k, l, f, Sort(k, p), s[|s| - 1]);
    }
  }

  function Id(x: real): real { x }

  lemma HeadIsLeast(s: seq<real>, x: real)
    requires SortedBy(Id, s) && x in s
    ensures s[0] <= x
  {
  }

  lemma SortedTail<T>(key: T -> real, s: seq<T>)
    requires SortedBy(key, s) && s != []
    ensures SortedBy(key, s[1..])
  {
  }

  /** Two ascending arrangements of the same reals are the same sequence. */
  lemma {:induction false} SortedUnique(s: seq<real>, t: seq<real>)
    requires SortedBy(Id, s) && SortedBy(Id, t) && multiset(s) == multiset(t)
    ensures s == t
  {
    assert |s| == |multiset(s)| == |multiset(t)| == |t|;
    if s == [] {
    } else {
      assert s[0] == t[0] by {
        assert s[0] in multiset(s) && t[0] in multiset(t);
        HeadIsLeast(s, t[0]);
        HeadIsLeast(t, s[0]);
      }
      assert s[1..] == t[1..] by {
        RestOfMultiset(s);
        RestOfMultiset(t);
        SortedTail(Id, s);
        SortedTail(Id, t);
        SortedUnique(s[1..], t[1..]);
      }
      assert s == [s[0]] + s[1..] && t == [t[0]] + t[1..];
    }
  }

  lemma {:induction false} RestOfMultiset(s: seq<real>)
    requires s != []
    ensures multiset(s[1..]) == multiset(s) - multiset{s[0]}
  {
    assert s == [s[0]] + s[1..];
  }

  lemma {:induction false} SortOfPermutation(s: seq<real>, t: seq<real>)
    requires multiset(s) == multiset(t)
    ensures Sort(Id, s) == Sort(Id, t)
  {
    SortSorts(Id, s);
    SortSorts(Id, t);
    SortedUnique(Sort(Id, s), Sort(Id, t));
  }
}

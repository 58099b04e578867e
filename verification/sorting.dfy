/** The stable descending sort that `arr.sort((a, b) => key(b) - key(a))`
    performs. ECMAScript 2019 and later require `Array.prototype.sort` to be
    stable, so elements with equal keys keep their original order. The sort
    is an insertion sort that takes the input from left to right and puts each
    element after every element already placed whose key is not smaller. */
module Sorting {
  import opened Seqs

  /** Keys never increase from left to right. */
  predicate SortedDesc<T>(s: seq<T>, key: T -> real)
  {
    forall i, j :: 0 <= i < j < |s| ==> key(s[i]) >= key(s[j])
  }

  /** The elements whose key is `k`, in their order in `s`. */
  function WithKey<T>(s: seq<T>, key: T -> real, k: real): seq<T>
  {
    if s == [] then [] else (if key(s[0]) == k then [s[0]] else []) + WithKey(s[1..], key, k)
  }

  lemma {:induction false} WithKeyAppend<T>(a: seq<T>, b: seq<T>, key: T -> real, k: real)
    ensures WithKey(a + b, key, k) == WithKey(a, key, k) + WithKey(b, key, k)
  {
    if a == [] {
      assert a + b == b;
    } else {
      var ab := a + b;
      assert ab[0] == a[0] && ab[1..] == a[1..] + b;
      var h: seq<T> := if key(a[0]) == k then [a[0]] else [];
      assert WithKey(ab, key, k) == h + WithKey(a[1..] + b, key, k);
      assert WithKey(a, key, k) == h + WithKey(a[1..], key, k);
      WithKeyAppend(a[1..], b, key, k);
      assert h + (WithKey(a[1..], key, k) + WithKey(b, key, k))
          == (h + WithKey(a[1..], key, k)) + WithKey(b, key, k);
    }
  }

  /** `r` lists the elements of every key class in the same order as `s`:
      the order that a stable sort keeps. */
  ghost predicate StableFor<T>(r: seq<T>, s: seq<T>, key: T -> real)
  {
    forall k :: WithKey(r, key, k) == WithKey(s, key, k)
  }

  /** The elements of `s` that share the key of `x` hold every copy of `x`. */
  lemma {:induction false} WithKeyCount<T>(s: seq<T>, key: T -> real, x: T)
    ensures multiset(WithKey(s, key, key(x)))[x] == multiset(s)[x]
  {
    if s != [] {
      WithKeyCount(s[1..], key, x);
      assert s == [s[0]] + s[1..];
      var h: seq<T> := if key(s[0]) == key(x) then [s[0]] else [];
      assert WithKey(s, key, key(x)) == h + WithKey(s[1..], key, key(x));
      assert multiset(s) == multiset{s[0]} + multiset(s[1..]);
    }
  }

  /** An arrangement that keeps every key class as the input lists it is a
      permutation of the input. */
  lemma StablePermutation<T>(r: seq<T>, s: seq<T>, key: T -> real)
    requires StableFor(r, s, key)
    ensures multiset(r) == multiset(s)
  {
    forall x
      ensures multiset(r)[x] == multiset(s)[x]
    {
      WithKeyCount(r, key, x);
      WithKeyCount(s, key, x);
      assert WithKey(r, key, key(x)) == WithKey(s, key, key(x));
    }
  }

  /** Places `x` after the leading run of elements whose key is at least
      `key(x)`. */
  function Insert<T>(x: T, s: seq<T>, key: T -> real): (r: seq<T>)
    requires SortedDesc(s, key)
    ensures SortedDesc(r, key)
    ensures |r| == |s| + 1
    ensures forall y :: y in r ==> y == x || y in s
  {
    if s == [] then [x]
    else if key(s[0]) >= key(x) then
      assert s == [s[0]] + s[1..];
      var rest := Insert(x, s[1..], key);
      HeadBound(s, key);
      InsertHead(s[0], rest, key);
      [s[0]] + rest
    else [x] + s
  }

  /** The head of a sorted sequence has the largest key. */
  lemma HeadBound<T>(s: seq<T>, key: T -> real)
    requires s != [] && SortedDesc(s, key)
    ensures forall y :: y in s[1..] ==> key(s[0]) >= key(y)
  {
    forall y | y in s[1..]
      ensures key(s[0]) >= key(y)
    {
      var i :| 0 <= i < |s[1..]| && s[1..][i] == y;
      assert s[i + 1] == y;
    }
  }

  /** Putting an element with the largest key in front keeps a sequence
      sorted. */
  lemma InsertHead<T>(h: T, rest: seq<T>, key: T -> real)
    requires SortedDesc(rest, key)
    requires forall y :: y in rest ==> key(h) >= key(y)
    ensures SortedDesc([h] + rest, key)
  {
    var r := [h] + rest;
    forall i, j | 0 <= i < j < |r|
      ensures key(r[i]) >= key(r[j])
    {
      assert r[j] == rest[j - 1];
      if i > 0 {
        assert r[i] == rest[i - 1];
      } else {
        assert rest[j - 1] in rest;
      }
    }
  }

  /** The stable descending sort by `key`. */
  function SortDesc<T>(s: seq<T>, key: T -> real): (r: seq<T>)
    ensures SortedDesc(r, key)
    ensures |r| == |s|
  {
    if s == [] then []
    else
      var init, last := s[..|s| - 1], s[|s| - 1];
      Insert(last, SortDesc(init, key), key)
  }

  lemma {:induction false} WithKeyNone<T>(s: seq<T>, key: T -> real, k: real)
    requires forall i :: 0 <= i < |s| ==> key(s[i]) < k
    ensures WithKey(s, key, k) == []
  {
    if s != [] {
      WithKeyNone(s[1..], key, k);
    }
  }

  lemma SortedTail<T>(s: seq<T>, key: T -> real)
    requires s != [] && SortedDesc(s, key)
    ensures SortedDesc(s[1..], key)
  {
  }

  lemma {:induction false} WithKeyInsert<T>(x: T, s: seq<T>, key: T -> real, k: real)
    requires SortedDesc(s, key)
    ensures WithKey(Insert(x, s, key), key, k)
      == WithKey(s, key, k) + (if key(x) == k then [x] else [])
  {
    var xs: seq<T> := if key(x) == k then [x] else [];
    if s == [] {
      assert Insert(x, s, key) == [x];
      WithKeySingle(x, key, k);
    } else if key(s[0]) >= key(x) {
      SortedTail(s, key);
      var rest := Insert(x, s[1..], key);
      WithKeyInsert(x, s[1..], key, k);
      var hs: seq<T> := if key(s[0]) == k then [s[0]] else [];
      assert Insert(x, s, key) == [s[0]] + rest;
      WithKeyCons(s[0], rest, key, k);
      WithKeyCons(s[0], s[1..], key, k);
      assert s == [s[0]] + s[1..];
      assert hs + (WithKey(s[1..], key, k) + xs) == (hs + WithKey(s[1..], key, k)) + xs;
    } else {
      assert Insert(x, s, key) == [x] + s;
      WithKeyInsertFront(x, s, key, k);
    }
  }

  lemma WithKeySingle<T>(x: T, key: T -> real, k: real)
    ensures WithKey([x], key, k) == if key(x) == k then [x] else []
  {
    assert [x][1..] == [];
  }

  lemma WithKeyCons<T>(h: T, t: seq<T>, key: T -> real, k: real)
    ensures WithKey([h] + t, key, k) == (if key(h) == k then [h] else []) + WithKey(t, key, k)
  {
    WithKeyAppend([h], t, key, k);
    WithKeySingle(h, key, k);
  }

  /** An element whose key beats every key of `s` goes in front, and is
      alone in its class. */
  lemma WithKeyInsertFront<T>(x: T, s: seq<T>, key: T -> real, k: real)
    requires SortedDesc(s, key) && s != [] && key(s[0]) < key(x)
    ensures WithKey([x] + s, key, k) == WithKey(s, key, k) + (if key(x) == k then [x] else [])
  {
    WithKeyCons(x, s, key, k);
    if key(x) == k {
      forall i | 0 <= i < |s|
        ensures key(s[i]) < k
      {
        if i > 0 {
          assert key(s[0]) >= key(s[i]);
        }
      }
      WithKeyNone(s, key, k);
      assert WithKey(s, key, k) + [x] == [x] + WithKey(s, key, k);
    } else {
      assert WithKey(s, key, k) + [] == [] + WithKey(s, key, k);
    }
  }

  /** The sort is stable: each key class keeps its input order. */
  lemma {:induction false} SortDescStable<T>(s: seq<T>, key: T -> real)
    ensures StableFor(SortDesc(s, key), s, key)
  {
    if s != [] {
      var init, last := s[..|s| - 1], s[|s| - 1];
      assert s == init + [last];
      SortDescStable(init, key);
      forall k
        ensures WithKey(SortDesc(s, key), key, k) == WithKey(s, key, k)
      {
        WithKeyInsert(last, SortDesc(init, key), key, k);
        WithKeyAppend(init, [last], key, k);
      }
    }
  }

  /** The sort is a permutation of its input. */
  lemma SortDescPermutation<T>(s: seq<T>, key: T -> real)
    ensures multiset(SortDesc(s, key)) == multiset(s)
  {
    SortDescStable(s, key);
    StablePermutation(SortDesc(s, key), s, key);
  }

  lemma {:induction false} WithKeyHead<T>(s: seq<T>, key: T -> real)
    requires s != []
    ensures WithKey(s, key, key(s[0])) == [s[0]] + WithKey(s[1..], key, key(s[0]))
    ensures forall k :: k != key(s[0]) ==> WithKey(s, key, k) == WithKey(s[1..], key, k)
  {
  }

  lemma {:induction false} WithKeyMember<T>(s: seq<T>, key: T -> real, k: real)
    requires WithKey(s, key, k) != []
    ensures exists i :: 0 <= i < |s| && key(s[i]) == k
  {
    if key(s[0]) != k {
      WithKeyMember(s[1..], key, k);
      var i :| 0 <= i < |s[1..]| && key(s[1..][i]) == k;
      assert key(s[i + 1]) == k;
    }
  }

  /** Two sorted sequences that agree on every key class are equal. */
  lemma {:induction false} SortedStableUnique<T>(r1: seq<T>, r2: seq<T>, key: T -> real)
    requires SortedDesc(r1, key) && SortedDesc(r2, key)
    requires forall k :: WithKey(r1, key, k) == WithKey(r2, key, k)
    ensures r1 == r2
    decreases |r1|
  {
    if r1 == [] || r2 == [] {
      if r1 != [] {
        WithKeyHead(r1, key);
        assert false;
      } else if r2 != [] {
        WithKeyHead(r2, key);
        assert false;
      }
    } else {
      SameHead(r1, r2, key);
      SortedTail(r1, key);
      SortedTail(r2, key);
      SortedStableUnique(r1[1..], r2[1..], key);
      assert r1 == [r1[0]] + r1[1..] && r2 == [r2[0]] + r2[1..];
    }
  }

  /** Two non-empty sorted sequences that agree on every key class start
      with the same element, and their tails still agree on every class. */
  lemma SameHead<T>(r1: seq<T>, r2: seq<T>, key: T -> real)
    requires r1 != [] && r2 != []
    requires SortedDesc(r1, key) && SortedDesc(r2, key)
    requires forall k :: WithKey(r1, key, k) == WithKey(r2, key, k)
    ensures r1[0] == r2[0]
    ensures forall k :: WithKey(r1[1..], key, k) == WithKey(r2[1..], key, k)
  {
    var k1, k2 := key(r1[0]), key(r2[0]);
    WithKeyHead(r1, key);
    WithKeyHead(r2, key);
    WithKeyMember(r2, key, k1);
    WithKeyMember(r1, key, k2);
    assert k1 == k2;
    assert r1[0] == WithKey(r1, key, k1)[0] == WithKey(r2, key, k1)[0] == r2[0];
    forall k
      ensures WithKey(r1[1..], key, k) == WithKey(r2[1..], key, k)
    {
      if k == k1 {
        assert [r1[0]] + WithKey(r1[1..], key, k) == [r2[0]] + WithKey(r2[1..], key, k);
        assert WithKey(r1[1..], key, k) == ([r1[0]] + WithKey(r1[1..], key, k))[1..];
      }
    }
  }

  /** Sortedness and stability characterise the sort completely: any
      arrangement of `s` with both properties is `SortDesc(s, key)`. */
  lemma SortDescUnique<T>(s: seq<T>, r: seq<T>, key: T -> real)
    requires SortedDesc(r, key) && StableFor(r, s, key)
    ensures r == SortDesc(s, key)
  {
    SortDescStable(s, key);
    SortedStableUnique(r, SortDesc(s, key), key);
  }

  /** Selecting a key class and filtering commute. */
  lemma {:induction false} WithKeyFilter<T>(s: seq<T>, key: T -> real, k: real, p: T -> bool)
    ensures WithKey(Filter(s, p), key, k) == Filter(WithKey(s, key, k), p)
  {
    if s != [] {
      WithKeyFilter(s[1..], key, k, p);
      var head := if p(s[0]) then [s[0]] else [];
      assert Filter(s, p) == head + Filter(s[1..], p);
      WithKeyAppend(head, Filter(s[1..], p), key, k);
      if key(s[0]) == k {
        assert WithKey(s, key, k) == [s[0]] + WithKey(s[1..], key, k);
        assert ([s[0]] + WithKey(s[1..], key, k))[1..] == WithKey(s[1..], key, k);
        if p(s[0]) {
          assert WithKey(head, key, k) == [s[0]] by {
            assert head[1..] == [];
          }
        } else {
          assert WithKey(head, key, k) == [];
        }
      } else {
        assert WithKey(s, key, k) == WithKey(s[1..], key, k);
        if p(s[0]) {
          assert WithKey(head, key, k) == [] by {
            assert head[1..] == [];
          }
        }
      }
    }
  }

  /** A bound on every key of a list bounds every key of a filter of it. */
  lemma {:induction false} FilterBelow<T>(s: seq<T>, key: T -> real, p: T -> bool, b: real)
    requires forall i :: 0 <= i < |s| ==> key(s[i]) <= b
    ensures forall i :: 0 <= i < |Filter(s, p)| ==> key(Filter(s, p)[i]) <= b
  {
    if s != [] {
      FilterBelow(s[1..], key, p, b);
      var head := if p(s[0]) then [s[0]] else [];
      assert Filter(s, p) == head + Filter(s[1..], p);
    }
  }

  /** A filter keeps a sorted list sorted. */
  lemma {:induction false} FilterSorted<T>(s: seq<T>, key: T -> real, p: T -> bool)
    requires SortedDesc(s, key)
    ensures SortedDesc(Filter(s, p), key)
  {
    if s != [] {
      SortedTail(s, key);
      FilterSorted(s[1..], key, p);
      var rest := Filter(s[1..], p);
      if p(s[0]) {
        var r := [s[0]] + rest;
        forall i, j | 0 <= i < j < |r|
          ensures key(r[i]) >= key(r[j])
        {
          if i == 0 {
            FilterBelow(s[1..], key, p, key(s[0]));
            assert r[j] == rest[j - 1];
          } else {
            assert r[i] == rest[i - 1] && r[j] == rest[j - 1];
          }
        }
      }
    }
  }

  /** Sorting and then filtering gives the same list as filtering and then
      sorting, because the sort is stable. */
  lemma {:induction false} SortThenFilter<T>(s: seq<T>, key: T -> real, p: T -> bool)
    ensures Filter(SortDesc(s, key), p) == SortDesc(Filter(s, p), key)
  {
    var sorted := SortDesc(s, key);
    var r := Filter(sorted, p);
    FilterSorted(sorted, key, p);
    SortDescStable(s, key);
    forall k
      ensures WithKey(r, key, k) == WithKey(Filter(s, p), key, k)
    {
      WithKeyFilter(sorted, key, k, p);
      WithKeyFilter(s, key, k, p);
    }
    SortDescUnique(Filter(s, p), r, key);
  }
}

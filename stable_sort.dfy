/** The ordering that `Array.prototype.sort` gives with a comparator
    `(a, b) => key(a) - key(b)`: since ES2019 the sort is stable, so the
    result is the one permutation that orders by key and keeps equal-key
    elements in input order. It is written here as an insertion sort. */
module StableSort {

  function Filter<T>(s: seq<T>, p: T -> bool): (r: seq<T>)
    ensures |r| <= |s|
  {
    if s == [] then [] else (if p(s[0]) then [s[0]] else []) + Filter(s[1..], p)
  }

  /** Elements whose key is `k`. */
  function HasKey<T>(key: T -> int, k: int): T -> bool
  {
    x => key(x) == k
  }

  predicate SortedBy<T>(s: seq<T>, key: T -> int)
  {
    forall i, j :: 0 <= i < j < |s| ==> key(s[i]) <= key(s[j])
  }

  /** Puts `x` before the first element whose key is not smaller. */
  function Insert<T>(x: T, s: seq<T>, key: T -> int): (r: seq<T>)
    ensures |r| == |s| + 1
  {
    if s == [] || key(x) <= key(s[0]) then [x] + s else [s[0]] + Insert(x, s[1..], key)
  }

  /** The stable sort by `key`; what it gives is stated by the lemmas below. */
  function SortBy<T>(s: seq<T>, key: T -> int): (r: seq<T>)
    ensures |r| == |s|
  {
    if s == [] then [] else Insert(s[0], SortBy(s[1..], key), key)
  }

  lemma FilterCons<T>(x: T, s: seq<T>, p: T -> bool)
    ensures Filter([x] + s, p) == (if p(x) then [x] else []) + Filter(s, p)
  {
    assert ([x] + s)[1..] == s;
  }

  lemma {:induction false} InsertBounded<T>(x: T, s: seq<T>, key: T -> int, b: int)
    requires b <= key(x) && forall i :: 0 <= i < |s| ==> b <= key(s[i])
    ensures |Insert(x, s, key)| == |s| + 1
    ensures forall i :: 0 <= i < |Insert(x, s, key)| ==> b <= key(Insert(x, s, key)[i])
  {
    if s != [] && key(x) > key(s[0]) {
      InsertBounded(x, s[1..], key, b);
    }
  }

  lemma {:induction false} InsertSorted<T>(x: T, s: seq<T>, key: T -> int)
    requires SortedBy(s, key)
    ensures SortedBy(Insert(x, s, key), key)
  {
    if s != [] && key(x) > key(s[0]) {
      InsertSorted(x, s[1..], key);
      InsertBounded(x, s[1..], key, key(s[0]));
    }
  }

  lemma {:induction false} InsertPermutes<T>(x: T, s: seq<T>, key: T -> int)
    ensures multiset(Insert(x, s, key)) == multiset(s) + multiset{x}
  {
    if s != [] && key(x) > key(s[0]) {
      InsertPermutes(x, s[1..], key);
      assert s == [s[0]] + s[1..];
    }
  }

  /** The sort orders by key and is a permutation of its input. */
  lemma {:induction false} SortByCorrect<T>(s: seq<T>, key: T -> int)
    ensures SortedBy(SortBy(s, key), key)
    ensures multiset(SortBy(s, key)) == multiset(s)
  {
    if s != [] {
      SortByCorrect(s[1..], key);
      InsertSorted(s[0], SortBy(s[1..], key), key);
      InsertPermutes(s[0], SortBy(s[1..], key), key);
      assert s == [s[0]] + s[1..];
    }
  }

  /** Every element a filter keeps satisfies the predicate. */
  lemma {:induction false} FilterSatisfies<T>(s: seq<T>, p: T -> bool)
    ensures forall i :: 0 <= i < |Filter(s, p)| ==> p(Filter(s, p)[i])
  {
    if s != [] {
      FilterSatisfies(s[1..], p);
    }
  }

  /** Every element a filter keeps satisfies the predicate and has a key no
      smaller than a bound all of the input respects. */
  lemma {:induction false} FilterBounded<T>(s: seq<T>, p: T -> bool, key: T -> int, b: int)
    requires forall i :: 0 <= i < |s| ==> b <= key(s[i])
    ensures forall i :: 0 <= i < |Filter(s, p)| ==> b <= key(Filter(s, p)[i]) && p(Filter(s, p)[i])
  {
    if s != [] {
      FilterBounded(s[1..], p, key, b);
    }
  }

  lemma FilterInsertFront<T>(x: T, s: seq<T>, key: T -> int, p: T -> bool)
    requires SortedBy(s, key) && (s == [] || key(x) <= key(s[0]))
    ensures Filter(Insert(x, s, key), p)
         == if p(x) then Insert(x, Filter(s, p), key) else Filter(s, p)
  {
    assert Insert(x, s, key) == [x] + s;
    FilterCons(x, s, p);
    if s != [] {
      FilterBounded(s, p, key, key(s[0]));
    }
  }

  lemma {:induction false} FilterInsert<T>(x: T, s: seq<T>, key: T -> int, p: T -> bool)
    requires SortedBy(s, key)
    ensures Filter(Insert(x, s, key), p)
         == if p(x) then Insert(x, Filter(s, p), key) else Filter(s, p)
  {
    if s == [] || key(x) <= key(s[0]) {
      FilterInsertFront(x, s, key, p);
    } else {
      FilterInsert(x, s[1..], key, p);
      FilterInsertLater(x, s, key, p);
    }
  }

  lemma InsertAfterSmaller<T>(x: T, y: T, f: seq<T>, key: T -> int)
    requires key(x) > key(y)
    ensures Insert(x, [y] + f, key) == [y] + Insert(x, f, key)
  {
    assert ([y] + f)[1..] == f;
  }

  lemma FilterPastHead<T>(x: T, s: seq<T>, key: T -> int, p: T -> bool)
    requires s != [] && key(x) > key(s[0])
    ensures var head := if p(s[0]) then [s[0]] else [];
      Filter(Insert(x, s, key), p) == head + Filter(Insert(x, s[1..], key), p) &&
      Filter(s, p) == head + Filter(s[1..], p)
  {
    var s0, t := s[0], s[1..];
    assert Insert(x, s, key) == [s0] + Insert(x, t, key);
    FilterCons(s0, Insert(x, t, key), p);
    assert s == [s0] + t;
    FilterCons(s0, t, p);
  }

  lemma FilterInsertLater<T>(x: T, s: seq<T>, key: T -> int, p: T -> bool)
    requires s != [] && key(x) > key(s[0])
    requires Filter(Insert(x, s[1..], key), p)
          == if p(x) then Insert(x, Filter(s[1..], p), key) else Filter(s[1..], p)
    ensures Filter(Insert(x, s, key), p)
         == if p(x) then Insert(x, Filter(s, p), key) else Filter(s, p)
  {
    var s0 := s[0];
    var ft := Filter(s[1..], p);
    FilterPastHead(x, s, key, p);
    if p(x) && p(s0) {
      InsertAfterSmaller(x, s0, ft, key);
    } else if p(x) {
      assert Filter(s, p) == ft;
    }
  }

  /** Sorting then filtering gives what filtering then sorting gives: a
      group taken from the sorted whole is that group sorted on its own. */
  lemma {:induction false} FilterSortBy<T>(s: seq<T>, key: T -> int, p: T -> bool)
    ensures Filter(SortBy(s, key), p) == SortBy(Filter(s, p), key)
  {
    if s != [] {
      var s0, t := s[0], s[1..];
      var sorted := SortBy(t, key);
      assert SortBy(s, key) == Insert(s0, sorted, key);
      SortByCorrect(t, key);
      FilterInsert(s0, sorted, key, p);
      FilterSortBy(t, key, p);
      assert s == [s0] + t;
      FilterCons(s0, t, p);
      var ft := Filter(t, p);
      if p(s0) {
        assert Filter(s, p) == [s0] + ft;
        assert ([s0] + ft)[1..] == ft;
        assert SortBy(Filter(s, p), key) == Insert(s0, SortBy(ft, key), key);
      } else {
        assert Filter(s, p) == ft;
      }
    }
  }

  lemma {:induction false} SortByUniformKey<T>(s: seq<T>, key: T -> int, k: int)
    requires forall i :: 0 <= i < |s| ==> key(s[i]) == k
    ensures SortBy(s, key) == s
  {
    if s != [] {
      SortByUniformKey(s[1..], key, k);
    }
  }

  /** Stability: the elements with any one key keep their input order. */
  lemma SortByStable<T>(s: seq<T>, key: T -> int, k: int)
    ensures Filter(SortBy(s, key), HasKey(key, k)) == Filter(s, HasKey(key, k))
  {
    FilterSortBy(s, key, HasKey(key, k));
    FilterSatisfies(s, HasKey(key, k));
    SortByUniformKey(Filter(s, HasKey(key, k)), key, k);
  }
}

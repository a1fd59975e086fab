/** Stable sorting by a key under any total order. */
module StableSort {
  ghost predicate TotalOrder<K(!new)>(le: (K, K) -> bool) {
    && (forall a :: le(a, a))
    && (forall a, b :: le(a, b) || le(b, a))
    && (forall a, b :: le(a, b) && le(b, a) ==> a == b)
    && (forall a, b, c :: le(a, b) && le(b, c) ==> le(a, c))
  }

  /** Puts `x` before the first element it is not greater than. */
  function Insert<T, K>(x: T, s: seq<T>, key: T -> K, le: (K, K) -> bool): seq<T> {
    if s == [] || le(key(x), key(s[0])) then [x] + s else [s[0]] + Insert(x, s[1..], key, le)
  }

  function Sort<T, K>(s: seq<T>, key: T -> K, le: (K, K) -> bool): seq<T> {
    if s == [] then [] else Insert(s[0], Sort(s[1..], key, le), key, le)
  }

  ghost predicate InOrder<T, K>(s: seq<T>, key: T -> K, le: (K, K) -> bool) {
    forall i, j | 0 <= i < j < |s| :: le(key(s[i]), key(s[j]))
  }

  lemma {:induction false} InsertAdds<T, K>(x: T, s: seq<T>, key: T -> K, le: (K, K) -> bool)
    ensures multiset(Insert(x, s, key, le)) == multiset(s) + multiset{x}
  {
    if s != [] && !le(key(x), key(s[0])) {
      InsertAdds(x, s[1..], key, le);
      assert s == [s[0]] + s[1..];
    }
  }

  lemma {:induction false} InsertSorts<T, K(!new)>(x: T, s: seq<T>, key: T -> K, le: (K, K) -> bool)
    requires TotalOrder(le) && InOrder(s, key, le)
    ensures InOrder(Insert(x, s, key, le), key, le)
  {
    if s != [] && !le(key(x), key(s[0])) {
      InsertSorts(x, s[1..], key, le);
      var tail := Insert(x, s[1..], key, le);
      InsertAdds(x, s[1..], key, le);
      forall i | 0 <= i < |tail| ensures le(key(s[0]), key(tail[i])) {
        assert tail[i] in multiset(tail);
        assert tail[i] == x || tail[i] in s[1..];
      }
    }
  }

  lemma {:induction false} SortSorts<T, K(!new)>(s: seq<T>, key: T -> K, le: (K, K) -> bool)
    requires TotalOrder(le)
    ensures InOrder(Sort(s, key, le), key, le) && multiset(Sort(s, key, le)) == multiset(s)
  {
    if s != [] {
      SortSorts(s[1..], key, le);
      InsertSorts(s[0], Sort(s[1..], key, le), key, le);
      InsertAdds(s[0], Sort(s[1..], key, le), key, le);
      assert s == [s[0]] + s[1..];
    }
  }

  /** No two elements share a key. */
  ghost predicate DistinctKeys<T, K>(s: seq<T>, key: T -> K) {
    forall i, j | 0 <= i < j < |s| :: key(s[i]) != key(s[j])
  }

  /** In a sorted sequence a repeated key shows up between neighbours. */
  lemma {:induction false} NeighboursTell<T, K(!new)>(s: seq<T>, key: T -> K, le: (K, K) -> bool)
    requires TotalOrder(le) && InOrder(s, key, le)
    ensures DistinctKeys(s, key) <==> forall i | 0 <= i < |s| - 1 :: key(s[i]) != key(s[i + 1])
  {
    if forall i | 0 <= i < |s| - 1 :: key(s[i]) != key(s[i + 1]) {
      forall i, j | 0 <= i < j < |s| ensures key(s[i]) != key(s[j]) {
        assert le(key(s[i]), key(s[i + 1]));
        assert j == i + 1 || le(key(s[i + 1]), key(s[j]));
      }
    }
  }

  /** The same of a collection: no element twice and no key shared. */
  ghost predicate DistinctIn<T(!new), K>(m: multiset<T>, key: T -> K) {
    (forall x | x in m :: m[x] == 1) && forall x, y | x in m && y in m && x != y :: key(x) != key(y)
  }

  ghost predicate FreshKey<T(!new), K>(x: T, m: multiset<T>, key: T -> K) {
    forall y | y in m :: key(y) != key(x)
  }

  lemma DistinctFirst<T(!new), K>(x: T, rest: seq<T>, key: T -> K)
    ensures DistinctKeys([x] + rest, key) <==> DistinctKeys(rest, key) && FreshKey(x, multiset(rest), key)
  {
    if DistinctKeys([x] + rest, key) { FirstIsDistinct(x, rest, key); }
    if DistinctKeys(rest, key) && FreshKey(x, multiset(rest), key) { FirstIsFresh(x, rest, key); }
  }

  lemma FirstIsDistinct<T(!new), K>(x: T, rest: seq<T>, key: T -> K)
    requires DistinctKeys([x] + rest, key)
    ensures DistinctKeys(rest, key) && FreshKey(x, multiset(rest), key)
  {
    var s := [x] + rest;
    forall i, j | 0 <= i < j < |rest| ensures key(rest[i]) != key(rest[j]) { assert key(s[i + 1]) != key(s[j + 1]); }
    forall y | y in multiset(rest) ensures key(y) != key(x) {
      assert y in rest;
      var j :| 0 <= j < |rest| && rest[j] == y;
      assert key(s[0]) != key(s[j + 1]);
    }
  }

  lemma FirstIsFresh<T(!new), K>(x: T, rest: seq<T>, key: T -> K)
    requires DistinctKeys(rest, key) && FreshKey(x, multiset(rest), key)
    ensures DistinctKeys([x] + rest, key)
  {
    var s := [x] + rest;
    forall i, j | 0 <= i < j < |s| ensures key(s[i]) != key(s[j]) {
      assert s[j] == rest[j - 1] && rest[j - 1] in multiset(rest);
    }
  }

  lemma DistinctInFirst<T(!new), K>(x: T, m: multiset<T>, key: T -> K)
    ensures DistinctIn(m + multiset{x}, key) <==> DistinctIn(m, key) && FreshKey(x, m, key)
  {
    var n := m + multiset{x};
    forall y ensures y in n <==> y == x || y in m {}
    if DistinctIn(n, key) {
      assert n[x] == 1;
    }
  }

  /** Whether keys repeat depends on the elements alone, not on their order. */
  lemma {:induction false} DistinctByElements<T(!new), K>(s: seq<T>, key: T -> K)
    ensures DistinctKeys(s, key) <==> DistinctIn(multiset(s), key)
  {
    if s != [] {
      var x, rest := s[0], s[1..];
      assert s == [x] + rest && multiset(s) == multiset(rest) + multiset{x};
      DistinctFirst(x, rest, key);
      DistinctByElements(rest, key);
      DistinctInFirst(x, multiset(rest), key);
    }
  }

  lemma FirstIsLeast<T, K(!new)>(s: seq<T>, x: T, key: T -> K, le: (K, K) -> bool)
    requires TotalOrder(le) && InOrder(s, key, le) && x in s
    ensures le(key(s[0]), key(x))
  {
    var i :| 0 <= i < |s| && s[i] == x;
    assert s[0] == s[i] || le(key(s[0]), key(s[i]));
  }

  lemma SameHead<T, K(!new)>(s: seq<T>, t: seq<T>, key: T -> K, le: (K, K) -> bool)
    requires TotalOrder(le) && InOrder(s, key, le) && InOrder(t, key, le)
    requires s != [] && t != [] && s[0] in t && t[0] in s && DistinctKeys(s, key)
    ensures s[0] == t[0]
  {
    FirstIsLeast(s, t[0], key, le);
    FirstIsLeast(t, s[0], key, le);
    assert key(s[0]) == key(t[0]);
    assert exists j :: 0 <= j < |s| && s[j] == t[0];
  }

  lemma SameTail<T>(s: seq<T>, t: seq<T>)
    requires s != [] && t != [] && s[0] == t[0] && multiset(s) == multiset(t)
    ensures multiset(s[1..]) == multiset(t[1..])
  {
    assert s == [s[0]] + s[1..] && t == [t[0]] + t[1..];
    assert multiset(s[1..]) == multiset(s) - multiset{s[0]};
    assert multiset(t[1..]) == multiset(t) - multiset{t[0]};
  }

  /** With distinct keys there is one sorted arrangement of the elements. */
  lemma {:induction false} SortedIsUnique<T, K(!new)>(s: seq<T>, t: seq<T>, key: T -> K, le: (K, K) -> bool)
    requires TotalOrder(le) && InOrder(s, key, le) && InOrder(t, key, le)
    requires multiset(s) == multiset(t) && DistinctKeys(s, key)
    ensures s == t
  {
    SameLength(s, t);
    if s != [] {
      assert s[0] in multiset(t) && t[0] in multiset(s);
      SameHead(s, t, key, le);
      SameTail(s, t);
      SortedIsUnique(s[1..], t[1..], key, le);
      assert s == [s[0]] + s[1..] && t == [t[0]] + t[1..];
    }
  }

  lemma SameLength<T>(s: seq<T>, t: seq<T>)
    requires multiset(s) == multiset(t)
    ensures |s| == |t|
  {
    assert |multiset(s)| == |s| && |multiset(t)| == |t|;
  }
}

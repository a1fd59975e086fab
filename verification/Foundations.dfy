/** Result and option types shared by the component models. */
module Outcomes {
  datatype Option<+T> = None | Some(value: T)

  datatype Result<+T, +E> = Ok(value: T) | Err(error: E)
}

/** Sequence vocabulary: duplicate-freedom, order of occurrence and removal of one element. */
module Sequences {
  ghost predicate NoDup<T>(s: seq<T>) {
    forall i, j | 0 <= i < j < |s| :: s[i] != s[j]
  }

  /** `a` occurs in `s` at some position before an occurrence of `b`. */
  ghost predicate Before<T>(s: seq<T>, a: T, b: T) {
    exists i, j :: 0 <= i < j < |s| && s[i] == a && s[j] == b
  }

  function SetOf<T(==)>(s: seq<T>): set<T> {
    set x | x in s
  }

  /** `s` with every occurrence of `x` dropped; what `VecDeque::retain(|c| c != x)` leaves. */
  function Without<T(==)>(s: seq<T>, x: T): seq<T> {
    if s == [] then []
    else Without(s[..|s| - 1], x) + (if s[|s| - 1] == x then [] else [s[|s| - 1]])
  }

  lemma WithoutAppend<T>(s: seq<T>, y: T, x: T)
    ensures Without(s + [y], x) == Without(s, x) + (if y == x then [] else [y])
  {
    assert (s + [y])[..|s|] == s;
  }

  lemma {:induction false} WithoutElements<T>(s: seq<T>, x: T)
    ensures forall y :: y in Without(s, x) <==> y in s && y != x
    ensures |Without(s, x)| <= |s|
  {
    if s != [] {
      WithoutElements(s[..|s| - 1], x);
      assert s == s[..|s| - 1] + [s[|s| - 1]];
    }
  }

  lemma {:induction false} WithoutAbsent<T>(s: seq<T>, x: T)
    requires x !in s
    ensures Without(s, x) == s
  {
    if s != [] {
      WithoutAbsent(s[..|s| - 1], x);
      assert s == s[..|s| - 1] + [s[|s| - 1]];
    }
  }

  lemma {:induction false} WithoutNoDup<T>(s: seq<T>, x: T)
    requires NoDup(s)
    ensures NoDup(Without(s, x))
  {
    if s != [] {
      var front, last := s[..|s| - 1], s[|s| - 1];
      WithoutNoDup(front, x);
      WithoutElements(front, x);
      assert last !in front;
    }
  }

  /** Dropping an element never reorders the others. */
  lemma {:induction false} WithoutKeepsOrder<T>(s: seq<T>, x: T, a: T, b: T)
    requires Before(Without(s, x), a, b)
    ensures Before(s, a, b)
  {
    if s != [] {
      var front, last := s[..|s| - 1], s[|s| - 1];
      var w := Without(s, x);
      var i, j :| 0 <= i < j < |w| && w[i] == a && w[j] == b;
      if j < |Without(front, x)| {
        WithoutKeepsOrder(front, x, a, b);
        var p, q :| 0 <= p < q < |front| && front[p] == a && front[q] == b;
        assert s[p] == a && s[q] == b;
      } else {
        assert b == last && a in Without(front, x);
        WithoutElements(front, x);
        var p :| 0 <= p < |front| && front[p] == a;
        assert s[p] == a && s[|s| - 1] == b;
      }
    }
  }

  lemma {:induction false} SubsetSize<T>(a: set<T>, b: set<T>)
    requires a <= b
    ensures |a| <= |b|
  {
    if a != {} {
      var x :| x in a;
      SubsetSize(a - {x}, b - {x});
    }
  }

  /** The number of elements of a duplicate-free sequence is the size of its element set. */
  lemma {:induction false} NoDupSize<T>(s: seq<T>, elements: set<T>)
    requires NoDup(s)
    requires forall x :: x in s <==> x in elements
    ensures |s| == |elements|
  {
    if s == [] {
      assert elements == {};
    } else {
      var front, last := s[..|s| - 1], s[|s| - 1];
      forall x ensures x in front <==> x in elements - {last} {
        if x in s && x != last {
          var i :| 0 <= i < |s| && s[i] == x;
          assert front[i] == x;
        }
        if x in front {
          var i :| 0 <= i < |front| && front[i] == x;
          assert s[i] == x && s[i] != s[|s| - 1];
        }
      }
      NoDupSize(front, elements - {last});
      assert last in elements;
    }
  }
}

/** Character classes the validators use. */
module Text {
  /** Unicode White_Space, the class `str::trim` removes. */
  predicate IsWhitespace(c: char) {
    var n := c as int;
    9 <= n <= 13 || n == 32 || n == 0x85 || n == 0xA0 || n == 0x1680 || 0x2000 <= n <= 0x200A ||
    n == 0x2028 || n == 0x2029 || n == 0x202F || n == 0x205F || n == 0x3000
  }

  /** `value.trim().is_empty()` */
  predicate IsBlank(s: string) {
    forall i | 0 <= i < |s| :: IsWhitespace(s[i])
  }

  /** Unicode category Cc, the class `char::is_control` accepts. */
  predicate IsControl(c: char) {
    var n := c as int;
    n <= 0x1F || 0x7F <= n <= 0x9F
  }

  predicate HasControl(s: string) {
    exists i | 0 <= i < |s| :: IsControl(s[i])
  }

  function Lower(c: char): char {
    if 'A' <= c <= 'Z' then c - 'A' + 'a' else c
  }

  /** `to_ascii_lowercase` */
  function Lowered(s: string): (r: string)
    ensures |r| == |s|
  {
    seq(|s|, i requires 0 <= i < |s| => Lower(s[i]))
  }

  function Utf8Width(c: char): nat {
    var n := c as int;
    if n < 0x80 then 1 else if n < 0x800 then 2 else if n < 0x10000 then 3 else 4
  }

  /** `str::len()`: the length in UTF-8 bytes. */
  function ByteLength(s: string): nat {
    if s == "" then 0 else Utf8Width(s[0]) + ByteLength(s[1..])
  }

  /** A canonical identity: short, trimmed, and free of separators and control characters. */
  predicate ValidIdentity(s: string) {
    && s != "" && ByteLength(s) <= 256
    && !IsWhitespace(s[0]) && !IsWhitespace(s[|s| - 1])
    && '/' !in s && '\\' !in s && !HasControl(s)
  }
}

/** The order Rust sorts strings in: by UTF-8 bytes, which is the order of code points. */
module StringOrder {
  predicate Le(a: string, b: string) {
    a == "" || (b != "" && (a[0] < b[0] || (a[0] == b[0] && Le(a[1..], b[1..]))))
  }

  lemma {:induction false} LeReflexive(a: string)
    ensures Le(a, a)
  {
    if a != "" {
      LeReflexive(a[1..]);
    }
  }

  lemma {:induction false} LeTotal(a: string, b: string)
    ensures Le(a, b) || Le(b, a)
  {
    if a != "" && b != "" && a[0] == b[0] {
      LeTotal(a[1..], b[1..]);
    }
  }

  lemma {:induction false} LeAntisymmetric(a: string, b: string)
    requires Le(a, b) && Le(b, a)
    ensures a == b
  {
    if a != "" {
      LeAntisymmetric(a[1..], b[1..]);
      assert a == [a[0]] + a[1..] && b == [b[0]] + b[1..];
    }
  }

  lemma {:induction false} LeTransitive(a: string, b: string, c: string)
    requires Le(a, b) && Le(b, c)
    ensures Le(a, c)
  {
    if a != "" && a[0] == b[0] && b[0] == c[0] {
      LeTransitive(a[1..], b[1..], c[1..]);
    }
  }

  /** The strings first differ at `k`, where `a` has the lesser character. */
  ghost predicate LessAt(a: string, b: string, k: nat) {
    k < |a| && k < |b| && a[..k] == b[..k] && a[k] < b[k]
  }

  /** In order: `a` is a prefix of `b`, or has the lesser character where they first differ. */
  lemma {:induction false} LeIff(a: string, b: string)
    ensures Le(a, b) <==> a <= b || exists k: nat :: LessAt(a, b, k)
  {
    if a != "" && b != "" {
      var c, d := a[1..], b[1..];
      if a[0] == b[0] {
        LeIff(c, d);
        assert a == [a[0]] + c && b == [a[0]] + d;
        if k: nat :| LessAt(c, d, k) {
          assert a[..k + 1] == [a[0]] + c[..k] && b[..k + 1] == [a[0]] + d[..k];
          assert LessAt(a, b, k + 1);
        }
        if k: nat :| LessAt(a, b, k) {
          assert k > 0 && a[..k][1..] == c[..k - 1] && b[..k][1..] == d[..k - 1];
          assert LessAt(c, d, k - 1);
        }
        if a <= b { assert c == d[..|c|]; }
      } else if a[0] < b[0] {
        assert a[..0] == b[..0] && LessAt(a, b, 0);
      } else {
        forall k: nat ensures !LessAt(a, b, k) {
          if 0 < k <= |a| && k <= |b| { assert a[..k][0] == a[0] && b[..k][0] == b[0]; }
        }
      }
    }
  }

  ghost predicate StrictlySorted(s: seq<string>) {
    forall i, j | 0 <= i < j < |s| :: Le(s[i], s[j]) && s[i] != s[j]
  }

  /** Insertion into a strictly sorted sequence; an element already there is not repeated. */
  function Insert(x: string, s: seq<string>): (r: seq<string>)
    ensures forall y :: y in r <==> y == x || y in s
  {
    if s == [] then [x]
    else if x == s[0] then s
    else if Le(x, s[0]) then [x] + s
    else
      assert s == [s[0]] + s[1..];
      [s[0]] + Insert(x, s[1..])
  }

  lemma {:induction false} InsertSorted(x: string, s: seq<string>)
    requires StrictlySorted(s)
    ensures StrictlySorted(Insert(x, s))
  {
    if s != [] && x != s[0] {
      if Le(x, s[0]) {
        var r := [x] + s;
        forall j | 0 < j < |r| ensures Le(x, r[j]) && x != r[j] {
          if j > 1 {
            assert Le(s[0], s[j - 1]) && s[0] != s[j - 1];
            LeTransitive(x, s[0], s[j - 1]);
            if x == s[j - 1] { LeAntisymmetric(x, s[0]); }
          }
        }
      } else {
        LeTotal(x, s[0]);
        var tail := Insert(x, s[1..]);
        InsertSorted(x, s[1..]);
        forall j | 0 <= j < |tail| ensures Le(s[0], tail[j]) && s[0] != tail[j] {
          assert tail[j] in tail;
        }
      }
    }
  }

  /** `sort()` followed by `dedup()`. */
  function SortedDistinct(s: seq<string>): (r: seq<string>)
    ensures forall y :: y in r <==> y in s
    ensures StrictlySorted(r)
  {
    if s == [] then []
    else
      assert s == [s[0]] + s[1..];
      var tail := SortedDistinct(s[1..]);
      InsertSorted(s[0], tail);
      Insert(s[0], tail)
  }

  /** Two strictly sorted sequences with the same elements are equal. */
  lemma {:induction false} SortedUnique(s: seq<string>, t: seq<string>)
    requires StrictlySorted(s) && StrictlySorted(t)
    requires forall x :: x in s <==> x in t
    ensures s == t
  {
    if s == [] {
      assert forall i | 0 <= i < |t| :: t[i] in t;
    } else {
      assert s[0] in t && t != [] && t[0] in s;
      var i :| 0 <= i < |t| && t[i] == s[0];
      var j :| 0 <= j < |s| && s[j] == t[0];
      if i != 0 && j != 0 { LeAntisymmetric(s[0], t[0]); }
      assert s[0] == t[0];
      forall x ensures x in s[1..] <==> x in t[1..] {
        if x in s[1..] { Drop(s, t, x); }
        if x in t[1..] { Drop(t, s, x); }
      }
      SortedUnique(s[1..], t[1..]);
      assert s == [s[0]] + s[1..] && t == [t[0]] + t[1..];
    }
  }

  lemma Drop(s: seq<string>, t: seq<string>, x: string)
    requires StrictlySorted(s) && s != [] && t != [] && s[0] == t[0] && x in s[1..] && x in t
    ensures x in t[1..]
  {
    var k :| 0 <= k < |s[1..]| && s[1..][k] == x;
    assert s[k + 1] == x && x != s[0];
    var m :| 0 <= m < |t| && t[m] == x;
    assert t[1..][m - 1] == x;
  }

  /** The elements of a finite set in order. */
  ghost function Sorted(s: set<string>): (r: seq<string>)
    ensures forall y :: y in r <==> y in s
    ensures StrictlySorted(r)
  {
    if s == {} then []
    else
      var x :| x in s;
      var tail := Sorted(s - {x});
      InsertSorted(x, tail);
      Insert(x, tail)
  }

  /** Collecting the keys of a hash container in any order and sorting them. */
  method SortElements(s: set<string>) returns (r: seq<string>)
    ensures r == Sorted(s)
  {
    r := [];
    var rest := s;
    while rest != {}
      invariant rest <= s
      invariant StrictlySorted(r)
      invariant forall y :: y in r <==> y in s - rest
    {
      var x :| x in rest;
      InsertSorted(x, r);
      r := Insert(x, r);
      rest := rest - {x};
    }
    SortedUnique(r, Sorted(s));
  }
}

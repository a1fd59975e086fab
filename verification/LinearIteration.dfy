/**
 * Iterated linear maps, for any value type and any way of combining two values. Keeping this
 * independent of bit-vectors keeps the bit-vector reasoning in the CRC proofs small.
 */
module LinearIteration {
  function Iterate<T>(f: T -> T, x: T, n: nat): T {
    if n == 0 then x else f(Iterate(f, x, n - 1))
  }

  function Fold<T, B>(feed: (T, B) -> T, x: T, items: seq<B>): T {
    if items == [] then x else feed(Fold(feed, x, items[..|items| - 1]), items[|items| - 1])
  }

  lemma {:induction false} FoldAppend<T, B>(feed: (T, B) -> T, x: T, a: seq<B>, b: seq<B>)
    ensures Fold(feed, x, a + b) == Fold(feed, Fold(feed, x, a), b)
  {
    if b == [] {
      assert a + b == a;
    } else {
      FoldAppend(feed, x, a, b[..|b| - 1]);
      assert (a + b)[..|a + b| - 1] == a + b[..|b| - 1];
    }
  }

  ghost predicate Linear<T(!new)>(f: T -> T, add: (T, T) -> T) {
    forall x, y :: f(add(x, y)) == add(f(x), f(y))
  }

  lemma {:induction false} IterateLinear<T(!new)>(f: T -> T, add: (T, T) -> T, n: nat, x: T, y: T)
    requires Linear(f, add)
    ensures Iterate(f, add(x, y), n) == add(Iterate(f, x, n), Iterate(f, y, n))
  {
    if n > 0 {
      IterateLinear(f, add, n - 1, x, y);
    }
  }

  lemma IterationLinear<T(!new)>(f: T -> T, g: T -> T, add: (T, T) -> T, n: nat)
    requires Linear(f, add) && forall x :: g(x) == Iterate(f, x, n)
    ensures Linear(g, add)
  {
    forall x, y ensures g(add(x, y)) == add(g(x), g(y)) {
      IterateLinear(f, add, n, x, y);
    }
  }

  /** One step of a division register: move down and add `poly` when the low bit was set. */
  function Step<T>(add: (T, T) -> T, low: T -> bool, down: T -> T, poly: T, x: T): T {
    if low(x) then add(poly, down(x)) else down(x)
  }

  ghost predicate Abelian<T(!new)>(add: (T, T) -> T) {
    && (forall x, y, z :: add(add(x, y), z) == add(x, add(y, z)))
    && (forall x, y :: add(x, y) == add(y, x))
  }

  /** The low bit of a sum is set when exactly one of the summands has it set. */
  ghost predicate Detects<T(!new)>(low: T -> bool, add: (T, T) -> T) {
    forall x, y :: low(add(x, y)) <==> low(x) != low(y)
  }

  ghost predicate Cancels<T(!new)>(add: (T, T) -> T, poly: T) {
    forall x :: add(add(poly, poly), x) == x
  }

  ghost predicate Complements<T(!new)>(add: (T, T) -> T, ones: T) {
    forall r :: add(r, add(r, ones)) == ones
  }

  ghost predicate StepsBy<T(!new)>(shift: T -> T, add: (T, T) -> T, low: T -> bool, down: T -> T, poly: T) {
    forall x :: shift(x) == Step(add, low, down, poly, x)
  }

  lemma StepAdds<T(!new)>(add: (T, T) -> T, low: T -> bool, down: T -> T, poly: T, x: T, y: T)
    requires Abelian(add) && Linear(down, add) && Detects(low, add) && Cancels(add, poly)
    ensures Step(add, low, down, poly, add(x, y)) == add(Step(add, low, down, poly, x), Step(add, low, down, poly, y))
  {
    var u, v := down(x), down(y);
    assert add(add(poly, u), v) == add(poly, add(u, v));
    assert add(u, add(poly, v)) == add(poly, add(u, v)) by {
      assert add(u, add(poly, v)) == add(add(u, poly), v) == add(add(poly, u), v);
    }
    assert add(add(poly, u), add(poly, v)) == add(poly, add(u, add(poly, v)));
    assert add(poly, add(poly, add(u, v))) == add(add(poly, poly), add(u, v));
  }

  lemma StepLinear<T(!new)>(shift: T -> T, add: (T, T) -> T, low: T -> bool, down: T -> T, poly: T)
    requires Abelian(add) && Linear(down, add) && Detects(low, add) && Cancels(add, poly)
    requires StepsBy(shift, add, low, down, poly)
    ensures Linear(shift, add)
  {
    forall x, y ensures shift(add(x, y)) == add(shift(x), shift(y)) {
      StepAdds(add, low, down, poly, x, y);
    }
  }

  lemma SumOfFour<T(!new)>(add: (T, T) -> T, x: T, a: T, b: T, c: T, d: T)
    requires Abelian(add)
    ensures add(add(add(add(x, a), b), c), d) == add(x, add(add(add(a, b), c), d))
  {
    assert add(add(x, a), b) == add(x, add(a, b));
    assert add(add(x, add(a, b)), c) == add(x, add(add(a, b), c));
  }

  lemma IterateEight<T>(f: T -> T, x: T)
    ensures Iterate(f, x, 8) == f(f(f(f(f(f(f(f(x))))))))
  {
    assert Iterate(f, x, 1) == f(x);
    assert Iterate(f, x, 2) == f(f(x));
    assert Iterate(f, x, 3) == f(f(f(x)));
    assert Iterate(f, x, 4) == f(f(f(f(x))));
    assert Iterate(f, x, 5) == f(f(f(f(f(x)))));
    assert Iterate(f, x, 6) == f(f(f(f(f(f(x))))));
    assert Iterate(f, x, 7) == f(f(f(f(f(f(f(x)))))));
  }

  lemma FoldFour<T, B>(feed: (T, B) -> T, x: T, b: seq<B>)
    requires |b| == 4
    ensures Fold(feed, x, b) == feed(feed(feed(feed(x, b[0]), b[1]), b[2]), b[3])
  {
    assert b[..3][..2] == b[..2] && b[..2][..1] == b[..1] && b[..1][..0] == [];
    assert Fold(feed, x, b[..1]) == feed(x, b[0]);
    assert Fold(feed, x, b[..2]) == feed(Fold(feed, x, b[..1]), b[1]);
    assert Fold(feed, x, b[..3]) == feed(Fold(feed, x, b[..2]), b[2]);
  }

  /** Feeding an item is adding its value and applying `f`. */
  ghost predicate FeedsBy<T(!new), B(!new)>(feed: (T, B) -> T, f: T -> T, add: (T, T) -> T, value: B -> T) {
    forall c, i :: feed(c, i) == f(add(c, value(i)))
  }

  /** `word` spells a value as four items; each part comes down to its item after some steps of `f`. */
  ghost predicate Spells<T(!new), B>(
    word: T -> seq<B>, f: T -> T, add: (T, T) -> T, value: B -> T, p0: T -> T, p1: T -> T, p2: T -> T, p3: T -> T)
  {
    forall w ::
      && |word(w)| == 4
      && add(add(add(p0(w), p1(w)), p2(w)), p3(w)) == w
      && p0(w) == value(word(w)[0])
      && f(p1(w)) == value(word(w)[1])
      && f(f(p2(w))) == value(word(w)[2])
      && f(f(f(p3(w)))) == value(word(w)[3])
  }

  /** Feeding the items of a word to a register is adding the word and applying `f` four times. */
  lemma FeedingWord<T(!new), B(!new)>(
    f: T -> T, add: (T, T) -> T, feed: (T, B) -> T, value: B -> T, word: T -> seq<B>,
    p0: T -> T, p1: T -> T, p2: T -> T, p3: T -> T, x: T, w: T)
    requires Linear(f, add) && Abelian(add) && FeedsBy(feed, f, add, value)
    requires Spells(word, f, add, value, p0, p1, p2, p3)
    ensures Fold(feed, x, word(w)) == f(f(f(f(add(x, w)))))
  {
    var b, w0, w1, w2, w3 := word(w), p0(w), p1(w), p2(w), p3(w);
    FoldFour(feed, x, b);
    var s := add(x, w0);
    var t := add(s, w1);
    var u := add(t, w2);
    assert feed(x, b[0]) == f(s);
    assert feed(f(s), b[1]) == f(add(f(s), f(w1))) == f(f(t));
    assert add(f(f(t)), f(f(w2))) == f(add(f(t), f(w2))) == f(f(u));
    assert feed(f(f(t)), b[2]) == f(f(f(u)));
    assert add(f(f(f(u))), f(f(f(w3)))) == f(add(f(f(u)), f(f(w3)))) == f(f(add(f(u), f(w3))));
    SumOfFour(add, x, w0, w1, w2, w3);
  }

  /** Data followed by the word that complements its register leaves the same residue, whatever the data. */
  lemma Residue<T(!new), B(!new)>(
    f: T -> T, add: (T, T) -> T, feed: (T, B) -> T, value: B -> T, word: T -> seq<B>,
    p0: T -> T, p1: T -> T, p2: T -> T, p3: T -> T, ones: T, data: seq<B>)
    requires Linear(f, add) && Abelian(add) && FeedsBy(feed, f, add, value)
    requires Spells(word, f, add, value, p0, p1, p2, p3)
    requires Complements(add, ones)
    ensures Fold(feed, ones, data + word(add(Fold(feed, ones, data), ones))) == f(f(f(f(ones))))
  {
    var r := Fold(feed, ones, data);
    FoldAppend(feed, ones, data, word(add(r, ones)));
    FeedingWord(f, add, feed, value, word, p0, p1, p2, p3, r, add(r, ones));
  }
}

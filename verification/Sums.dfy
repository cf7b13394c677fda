/** Sums over sequences, and the facts about reordering and selecting that the amounts need. */
module Sums {

  /** The sum of `f` over the first `k` elements, as a loop accumulates it. */
  function SumTo<T>(f: T -> nat, s: seq<T>, k: nat): nat
    requires k <= |s|
  {
    if k == 0 then 0 else SumTo(f, s, k - 1) + f(s[k - 1])
  }

  function SumBy<T>(f: T -> nat, s: seq<T>): nat { SumTo(f, s, |s|) }

  lemma {:induction false} SumToCongruent<S, T>(f: S -> nat, s: seq<S>, g: T -> nat, t: seq<T>, k: nat)
    requires k <= |s| && k <= |t|
    requires forall i | 0 <= i < k :: f(s[i]) == g(t[i])
    ensures SumTo(f, s, k) == SumTo(g, t, k)
  {
    if k > 0 {
      SumToCongruent(f, s, g, t, k - 1);
    }
  }

  lemma SumByCongruent<S, T>(f: S -> nat, s: seq<S>, g: T -> nat, t: seq<T>)
    requires |s| == |t|
    requires forall i | 0 <= i < |s| :: f(s[i]) == g(t[i])
    ensures SumBy(f, s) == SumBy(g, t)
  {
    SumToCongruent(f, s, g, t, |s|);
  }

  /** A partial sum never exceeds the whole. */
  lemma {:induction false} PartialSum<T>(f: T -> nat, s: seq<T>, k: nat)
    requires k <= |s|
    ensures SumTo(f, s, k) <= SumBy(f, s)
    decreases |s| - k
  {
    if k < |s| {
      PartialSum(f, s, k + 1);
    }
  }

  lemma SumByMember<T>(f: T -> nat, s: seq<T>, k: nat)
    requires k < |s|
    ensures f(s[k]) <= SumBy(f, s)
  {
    PartialSum(f, s, k + 1);
  }

  lemma {:induction false} SumToAppend<T>(f: T -> nat, a: seq<T>, b: seq<T>, k: nat)
    requires k <= |b|
    ensures SumTo(f, a + b, |a| + k) == SumBy(f, a) + SumTo(f, b, k)
  {
    if k == 0 {
      SumToCongruent(f, a, f, a + b, |a|);
    } else {
      SumToAppend(f, a, b, k - 1);
    }
  }

  lemma SumByAppend<T>(f: T -> nat, a: seq<T>, b: seq<T>)
    ensures SumBy(f, a + b) == SumBy(f, a) + SumBy(f, b)
  {
    SumToAppend(f, a, b, |b|);
  }

  lemma SingleSum<T>(f: T -> nat, x: T)
    ensures SumBy(f, [x]) == f(x)
  {
    assert SumTo(f, [x], 1) == SumTo(f, [x], 0) + f(x);
  }

  lemma SumBySnoc<T>(f: T -> nat, s: seq<T>, x: T)
    ensures SumBy(f, s + [x]) == SumBy(f, s) + f(x)
  {
    SumByAppend(f, s, [x]);
    SingleSum(f, x);
  }

  lemma PairSum<T>(f: T -> nat, x: T, y: T)
    ensures SumBy(f, [x, y]) == f(x) + f(y)
  {
    assert SumTo(f, [x, y], 2) == SumTo(f, [x, y], 1) + f(y);
    assert SumTo(f, [x, y], 1) == SumTo(f, [x, y], 0) + f(x);
  }

  lemma {:induction false} SumToConstant<T>(f: T -> nat, s: seq<T>, c: nat, k: nat)
    requires k <= |s| && forall x | x in s :: f(x) == c
    ensures SumTo(f, s, k) == c * k
  {
    if k > 0 {
      SumToConstant(f, s, c, k - 1);
      assert s[k - 1] in s;
    }
  }

  lemma SumByConstant<T>(f: T -> nat, s: seq<T>, c: nat)
    requires forall x | x in s :: f(x) == c
    ensures SumBy(f, s) == c * |s|
  {
    SumToConstant(f, s, c, |s|);
  }

  lemma {:induction false} SumToMonotone<T>(f: T -> nat, s: seq<T>, t: seq<T>, k: nat)
    requires |s| == |t| && k <= |s|
    requires forall i | 0 <= i < |s| :: f(s[i]) <= f(t[i])
    ensures SumTo(f, s, k) <= SumTo(f, t, k)
  {
    if k > 0 {
      SumToMonotone(f, s, t, k - 1);
    }
  }

  lemma SumByMonotone<T>(f: T -> nat, s: seq<T>, t: seq<T>)
    requires |s| == |t|
    requires forall i | 0 <= i < |s| :: f(s[i]) <= f(t[i])
    ensures SumBy(f, s) <= SumBy(f, t)
  {
    SumToMonotone(f, s, t, |s|);
  }

  // ----- taking one element out

  function Without<T>(s: seq<T>, k: nat): (r: seq<T>)
    requires k < |s|
    ensures |r| == |s| - 1
  {
    seq(|s| - 1, i requires 0 <= i < |s| - 1 => if i < k then s[i] else s[i + 1])
  }

  lemma WithoutSlices<T>(s: seq<T>, k: nat)
    requires k < |s|
    ensures Without(s, k) == s[..k] + s[k + 1..]
    ensures s == s[..k] + [s[k]] + s[k + 1..]
  {
  }

  lemma WithoutMultiset<T>(s: seq<T>, k: nat)
    requires k < |s|
    ensures multiset(s) == multiset(Without(s, k)) + multiset{s[k]}
    ensures multiset(Without(s, k)) == multiset(s) - multiset{s[k]}
  {
    WithoutSlices(s, k);
    calc {
      multiset(s);
      multiset(s[..k] + [s[k]] + s[k + 1..]);
      multiset(s[..k]) + multiset{s[k]} + multiset(s[k + 1..]);
      multiset(s[..k] + s[k + 1..]) + multiset{s[k]};
    }
  }

  lemma WithoutSum<T>(f: T -> nat, s: seq<T>, k: nat)
    requires k < |s|
    ensures SumBy(f, s) == SumBy(f, Without(s, k)) + f(s[k])
  {
    WithoutSlices(s, k);
    SumByAppend(f, s[..k] + [s[k]], s[k + 1..]);
    SumBySnoc(f, s[..k], s[k]);
    SumByAppend(f, s[..k], s[k + 1..]);
  }

  lemma FindInMultiset<T>(x: T, s: seq<T>) returns (k: nat)
    requires x in multiset(s)
    ensures k < |s| && s[k] == x
  {
    k :| k < |s| && s[k] == x;
  }

  /** A selection never sums to more than what it was selected from. */
  lemma {:induction false} SumBySelection<T>(f: T -> nat, a: seq<T>, b: seq<T>)
    requires multiset(a) <= multiset(b)
    ensures SumBy(f, a) <= SumBy(f, b)
    decreases |a|
  {
    if a != [] {
      assert a[0] in multiset(a);
      var k := FindInMultiset(a[0], b);
      WithoutMultiset(a, 0);
      WithoutMultiset(b, k);
      SumBySelection(f, Without(a, 0), Without(b, k));
      WithoutSum(f, a, 0);
      WithoutSum(f, b, k);
    }
  }

  /** A sum does not depend on the order of the elements. */
  lemma SumByPermutation<T>(f: T -> nat, a: seq<T>, b: seq<T>)
    requires multiset(a) == multiset(b)
    ensures SumBy(f, a) == SumBy(f, b)
  {
    SumBySelection(f, a, b);
    SumBySelection(f, b, a);
  }

  lemma ConsIs<T>(s: seq<T>, x: T, t: seq<T>)
    requires |s| == |t| + 1 && s[0] == x
    requires forall j | 1 <= j < |s| :: s[j] == t[j - 1]
    ensures s == [x] + t
  {
  }

  // ----- images and duplicates

  /** `f` applied to every element. */
  function Image<S, T>(f: S -> T, s: seq<S>): (r: seq<T>)
    ensures |r| == |s| && forall i | 0 <= i < |s| :: r[i] == f(s[i])
  {
    seq(|s|, i requires 0 <= i < |s| => f(s[i]))
  }

  /** `t` is what a loop applying `f` has pushed after `n` elements. */
  ghost predicate ImageTo<S, T>(f: S -> T, s: seq<S>, n: nat, t: seq<T>) {
    |t| == n <= |s| && forall i | 0 <= i < n :: t[i] == f(s[i])
  }

  lemma ImageGrows<S, T>(f: S -> T, s: seq<S>, t: seq<T>)
    requires |t| < |s| && ImageTo(f, s, |t|, t)
    ensures ImageTo(f, s, |t| + 1, t + [f(s[|t|])])
  {
  }

  lemma ImageDone<S, T>(f: S -> T, s: seq<S>, t: seq<T>)
    requires ImageTo(f, s, |s|, t)
    ensures t == Image(f, s)
  {
  }

  lemma ImageWithout<S, T>(f: S -> T, s: seq<S>, k: nat)
    requires k < |s|
    ensures Image(f, Without(s, k)) == Without(Image(f, s), k)
  {
  }

  /** The image of a reordering is a reordering of the image. */
  lemma {:induction false} ImagePermutation<S, T>(f: S -> T, a: seq<S>, b: seq<S>)
    requires multiset(a) == multiset(b)
    ensures multiset(Image(f, a)) == multiset(Image(f, b))
    decreases |a|
  {
    assert |a| == |multiset(a)| == |multiset(b)| == |b|;
    if a != [] {
      assert a[0] in multiset(a);
      var k := FindInMultiset(a[0], b);
      WithoutMultiset(a, 0);
      WithoutMultiset(b, k);
      ImagePermutation(f, Without(a, 0), Without(b, k));
      ImageWithout(f, a, 0);
      ImageWithout(f, b, k);
      WithoutMultiset(Image(f, a), 0);
      WithoutMultiset(Image(f, b), k);
    }
  }

  /** The distinct elements of `s`, as the code collects them in a hash set. */
  function Elements<T(==)>(s: seq<T>): set<T> {
    set x | x in s
  }

  ghost predicate NoDuplicates<T>(s: seq<T>) {
    forall i, j | 0 <= i < j < |s| :: s[i] != s[j]
  }

  /** Comparing the size of that set with the length is an exact test for duplicates. */
  lemma {:induction false} DuplicateTest<T>(s: seq<T>)
    ensures |Elements(s)| <= |s|
    ensures |Elements(s)| == |s| <==> NoDuplicates(s)
  {
    if s != [] {
      var init, x := s[..|s| - 1], s[|s| - 1];
      DuplicateTest(init);
      assert s == init + [x];
      assert Elements(s) == Elements(init) + {x};
      if x in init {
        assert Elements(s) == Elements(init);
        var k :| 0 <= k < |init| && init[k] == x;
        assert s[k] == s[|s| - 1];
      } else if NoDuplicates(init) {
        assert NoDuplicates(s);
      } else {
        var i, j :| 0 <= i < j < |init| && init[i] == init[j];
        assert s[i] == s[j];
      }
    }
  }

  /** Having no duplicates does not depend on the order. */
  lemma NoDuplicatesPermutation<T>(a: seq<T>, b: seq<T>)
    requires multiset(a) == multiset(b) && NoDuplicates(a)
    ensures NoDuplicates(b)
  {
    assert |a| == |multiset(a)| == |multiset(b)| == |b|;
    forall x ensures x in Elements(a) <==> x in Elements(b) {
      assert x in multiset(a) <==> x in multiset(b);
    }
    assert Elements(a) == Elements(b);
    DuplicateTest(a);
    DuplicateTest(b);
  }
}

/** The three generators of Python's itertools that the permutation engine
    drives: `combinations`, `permutations` and `product`. Each is a function
    returning the tuples in the order the generator emits them (lexicographic
    by input position), with the cardinality and membership lemmas the engine's
    counting relies on. */
module Itertools {

  // ---------------------------------------------------------------- counting

  function Fact(n: nat): (r: nat)
    ensures r >= 1
  {
    if n == 0 then 1 else n * Fact(n - 1)
  }

  function Pow2(n: nat): (r: nat)
    ensures r >= 1
  {
    if n == 0 then 1 else 2 * Pow2(n - 1)
  }

  /** Binomial coefficient, by Pascal's rule. */
  function Binom(n: nat, r: nat): nat
  {
    if r == 0 then 1
    else if n == 0 then 0
    else Binom(n - 1, r - 1) + Binom(n - 1, r)
  }

  /** Binom(n, 0) + ... + Binom(n, m). */
  function BinomSum(n: nat, m: nat): nat
  {
    if m == 0 then Binom(n, 0) else BinomSum(n, m - 1) + Binom(n, m)
  }

  lemma {:induction false} BinomAbove(n: nat, r: nat)
    requires r > n
    ensures Binom(n, r) == 0
  {
    if n > 0 {
      BinomAbove(n - 1, r - 1);
      BinomAbove(n - 1, r);
    }
  }

  lemma {:induction false} BinomSumPascal(n: nat, m: nat)
    requires m >= 1
    ensures BinomSum(n + 1, m) == BinomSum(n, m) + BinomSum(n, m - 1)
  {
    if m > 1 {
      BinomSumPascal(n, m - 1);
    }
  }

  /** The rows of Pascal's triangle sum to powers of two. */
  lemma {:induction false} BinomSumIsPow2(n: nat)
    ensures BinomSum(n, n) == Pow2(n)
  {
    if n > 0 {
      BinomSumIsPow2(n - 1);
      BinomSumPascal(n - 1, n);
      BinomAbove(n - 1, n);
    }
  }

  // ------------------------------------------------------------ sequences

  predicate Distinct<T(==)>(s: seq<T>)
  {
    forall i, j | 0 <= i < j < |s| :: s[i] != s[j]
  }

  function PrependAll<T(==)>(x: T, ps: seq<seq<T>>): seq<seq<T>>
  {
    seq(|ps|, k requires 0 <= k < |ps| => [x] + ps[k])
  }

  function RemoveAt<T(==)>(s: seq<T>, i: nat): seq<T>
    requires i < |s|
  {
    s[..i] + s[i + 1..]
  }

  /** Adding the same element to two multisets keeps them apart. */
  lemma MultisetCancel<T>(a: multiset<T>, b: multiset<T>, x: T)
    requires a + multiset{x} == b + multiset{x}
    ensures a == b
  {
    forall y ensures a[y] == b[y] {
      assert (a + multiset{x})[y] == (b + multiset{x})[y];
    }
  }

  lemma RemoveAtMultiset<T>(s: seq<T>, i: nat)
    requires i < |s|
    ensures multiset(s) == multiset(RemoveAt(s, i)) + multiset{s[i]}
  {
    assert s == s[..i] + [s[i]] + s[i + 1..];
  }

  /** In a sequence without repetitions every element occurs exactly once. */
  lemma {:induction false} DistinctCounts<T>(s: seq<T>)
    requires Distinct(s)
    ensures forall x :: multiset(s)[x] == if x in s then 1 else 0
  {
    if s != [] {
      var t := s[1..];
      assert s == [s[0]] + t;
      assert Distinct(t) by {
        forall i, j | 0 <= i < j < |t| ensures t[i] != t[j] {
          assert t[i] == s[i + 1] && t[j] == s[j + 1];
        }
      }
      DistinctCounts(t);
      forall k | 0 <= k < |t| ensures t[k] != s[0] {
        assert t[k] == s[k + 1];
      }
    }
  }

  /** A rearrangement of a sequence without repetitions has none either. */
  lemma SameMultisetDistinct<T>(s: seq<T>, p: seq<T>)
    requires Distinct(s) && multiset(p) == multiset(s)
    ensures Distinct(p)
  {
    DistinctCounts(s);
    forall i, j | 0 <= i < j < |p| ensures p[i] != p[j] {
      assert p == p[..i] + [p[i]] + p[i + 1..j] + [p[j]] + p[j + 1..];
      assert multiset(p)[p[i]] >= 1 + multiset([p[j]])[p[i]];
    }
  }

  /** Two sequences without repetitions and with the same elements are
      rearrangements of each other. */
  lemma DistinctSameSetMultiset<T>(a: seq<T>, b: seq<T>)
    requires Distinct(a) && Distinct(b)
    requires forall x :: x in a <==> x in b
    ensures multiset(a) == multiset(b)
  {
    DistinctCounts(a);
    DistinctCounts(b);
    assert forall x :: multiset(a)[x] == multiset(b)[x];
  }

  // ---------------------------------------------------------- permutations

  /** `itertools.permutations(s)`: every ordering of the positions of `s`,
      first by which position comes first, then recursively. */
  function Permutations<T(==)>(s: seq<T>): seq<seq<T>>
    decreases |s|, 1, 0
  {
    if s == [] then [[]] else PermutationsFrom(s, 0)
  }

  /** The orderings of `s` whose first element is taken from position `i` or later. */
  function PermutationsFrom<T(==)>(s: seq<T>, i: nat): seq<seq<T>>
    requires i <= |s|
    decreases |s|, 0, |s| - i
  {
    if i == |s| then []
    else PrependAll(s[i], Permutations(RemoveAt(s, i))) + PermutationsFrom(s, i + 1)
  }

  /** There are n! orderings of an n-tuple (repeated values are not merged). */
  lemma {:induction false} PermutationsCount<T>(s: seq<T>)
    ensures |Permutations(s)| == Fact(|s|)
    decreases |s|, 1
  {
    if s != [] {
      PermutationsFromCount(s, 0);
    }
  }

  lemma {:induction false} PermutationsFromCount<T>(s: seq<T>, i: nat)
    requires i <= |s| && s != []
    ensures |PermutationsFrom(s, i)| == (|s| - i) * Fact(|s| - 1)
    decreases |s|, 0, |s| - i
  {
    if i < |s| {
      var f := Fact(|s| - 1);
      PermutationsCount(RemoveAt(s, i));
      PermutationsFromCount(s, i + 1);
      assert |PermutationsFrom(s, i)| == f + (|s| - i - 1) * f;
      MulSucc(|s| - i - 1, f);
    }
  }

  lemma MulSucc(a: nat, b: nat)
    ensures (a + 1) * b == b + a * b
  {
  }

  /** Every emitted ordering is a rearrangement of the input. */
  lemma {:induction false} PermutationsSound<T>(s: seq<T>, p: seq<T>)
    requires p in Permutations(s)
    ensures multiset(p) == multiset(s)
    decreases |s|, 1
  {
    if s != [] {
      PermutationsFromSound(s, 0, p);
    }
  }

  lemma {:induction false} PermutationsFromSound<T>(s: seq<T>, i: nat, p: seq<T>)
    requires i <= |s| && p in PermutationsFrom(s, i)
    ensures multiset(p) == multiset(s)
    decreases |s|, 0, |s| - i
  {
    var head := PrependAll(s[i], Permutations(RemoveAt(s, i)));
    if p in head {
      var k :| 0 <= k < |head| && head[k] == p;
      PermutationsSound(RemoveAt(s, i), Permutations(RemoveAt(s, i))[k]);
      RemoveAtMultiset(s, i);
    } else {
      PermutationsFromSound(s, i + 1, p);
    }
  }

  /** Every rearrangement of the input is emitted. */
  lemma {:induction false} PermutationsComplete<T>(s: seq<T>, p: seq<T>)
    requires multiset(p) == multiset(s)
    ensures p in Permutations(s)
    decreases |s|
  {
    if s == [] {
      assert p == [];
    } else {
      assert s[0] in multiset(p);
      assert p[0] in multiset(s) by {
        assert p == [p[0]] + p[1..];
      }
      var i :| 0 <= i < |s| && s[i] == p[0];
      RemoveAtMultiset(s, i);
      assert p == [p[0]] + p[1..];
      assert multiset(p) == multiset{p[0]} + multiset(p[1..]);
      assert multiset(p[1..]) == multiset(p) - multiset{p[0]};
      assert multiset(p[1..]) == multiset(RemoveAt(s, i));
      PermutationsComplete(RemoveAt(s, i), p[1..]);
      var rest := Permutations(RemoveAt(s, i));
      var k :| 0 <= k < |rest| && rest[k] == p[1..];
      assert PrependAll(s[i], rest)[k] == p;
      PermutationsFromContains(s, 0, i, p);
    }
  }

  lemma {:induction false} PermutationsFromContains<T>(s: seq<T>, j: nat, i: nat, p: seq<T>)
    requires j <= i < |s| && p in PrependAll(s[i], Permutations(RemoveAt(s, i)))
    ensures p in PermutationsFrom(s, j)
    decreases i - j
  {
    if j < i {
      PermutationsFromContains(s, j + 1, i, p);
    }
  }

  /** The identity ordering is emitted first. */
  lemma {:induction false} PermutationsFirst<T>(s: seq<T>)
    ensures |Permutations(s)| > 0 && Permutations(s)[0] == s
    decreases |s|
  {
    if s != [] {
      var rest := Permutations(RemoveAt(s, 0));
      PermutationsFirst(RemoveAt(s, 0));
      assert RemoveAt(s, 0) == s[1..];
      assert PrependAll(s[0], rest)[0] == [s[0]] + s[1..] == s;
    }
  }

  // ---------------------------------------------------------- combinations

  /** `itertools.combinations(s, r)`: the order-preserving selections of `r`
      positions of `s`, in lexicographic order of positions. */
  function Combinations<T(==)>(s: seq<T>, r: nat): seq<seq<T>>
    decreases |s|
  {
    if r == 0 then [[]]
    else if s == [] then []
    else PrependAll(s[0], Combinations(s[1..], r - 1)) + Combinations(s[1..], r)
  }

  /** `c` can be obtained from `s` by deleting elements. */
  predicate Subsequence<T(==)>(c: seq<T>, s: seq<T>)
    decreases |s|
  {
    if c == [] then true
    else if s == [] then false
    else (c[0] == s[0] && Subsequence(c[1..], s[1..])) || Subsequence(c, s[1..])
  }

  lemma {:induction false} SubsequenceMembers<T>(c: seq<T>, s: seq<T>)
    requires Subsequence(c, s)
    ensures forall x | x in c :: x in s
    decreases |s|
  {
    if c != [] {
      if c[0] == s[0] && Subsequence(c[1..], s[1..]) {
        SubsequenceMembers(c[1..], s[1..]);
        assert c == [c[0]] + c[1..];
      } else {
        SubsequenceMembers(c, s[1..]);
      }
    }
  }

  lemma {:induction false} CombinationsCount<T>(s: seq<T>, r: nat)
    ensures |Combinations(s, r)| == Binom(|s|, r)
    decreases |s|
  {
    if r > 0 && s != [] {
      CombinationsCount(s[1..], r - 1);
      CombinationsCount(s[1..], r);
    }
  }

  /** Every emitted combination has `r` elements, picked in order from `s`. */
  lemma {:induction false} CombinationsSound<T>(s: seq<T>, r: nat, c: seq<T>)
    requires c in Combinations(s, r)
    ensures |c| == r && Subsequence(c, s)
    decreases |s|
  {
    if r > 0 {
      var left := PrependAll(s[0], Combinations(s[1..], r - 1));
      if c in left {
        var k :| 0 <= k < |left| && left[k] == c;
        CombinationsSound(s[1..], r - 1, Combinations(s[1..], r - 1)[k]);
        assert c[1..] == Combinations(s[1..], r - 1)[k];
      } else {
        CombinationsSound(s[1..], r, c);
      }
    }
  }

  /** Every order-preserving selection of `r` elements is emitted. */
  lemma {:induction false} CombinationsComplete<T>(s: seq<T>, r: nat, c: seq<T>)
    requires |c| == r && Subsequence(c, s)
    ensures c in Combinations(s, r)
    decreases |s|
  {
    if r > 0 {
      if c[0] == s[0] && Subsequence(c[1..], s[1..]) {
        CombinationsComplete(s[1..], r - 1, c[1..]);
        var tails := Combinations(s[1..], r - 1);
        var k :| 0 <= k < |tails| && tails[k] == c[1..];
        assert PrependAll(s[0], tails)[k] == c;
      } else {
        CombinationsComplete(s[1..], r, c);
      }
    }
  }

  /** `chain.from_iterable(combinations(s, r) for r in range(1, m + 1))`. */
  function CombinationsUpTo<T(==)>(s: seq<T>, m: nat): seq<seq<T>>
  {
    if m == 0 then [] else CombinationsUpTo(s, m - 1) + Combinations(s, m)
  }

  /** Every non-empty order-preserving selection of `s`, by increasing size. */
  function NonEmptyCombinations<T(==)>(s: seq<T>): seq<seq<T>>
  {
    CombinationsUpTo(s, |s|)
  }

  lemma {:induction false} CombinationsUpToCount<T>(s: seq<T>, m: nat)
    ensures |CombinationsUpTo(s, m)| + 1 == BinomSum(|s|, m)
  {
    if m > 0 {
      CombinationsUpToCount(s, m - 1);
      CombinationsCount(s, m);
    }
  }

  /** There are 2^k - 1 non-empty combinations of k groups. */
  lemma NonEmptyCombinationsCount<T>(s: seq<T>)
    ensures |NonEmptyCombinations(s)| == Pow2(|s|) - 1
  {
    CombinationsUpToCount(s, |s|);
    BinomSumIsPow2(|s|);
  }

  /** The emitted combinations are non-empty, ordered selections from `s`,
      and sizes never decrease along the enumeration. */
  lemma {:induction false} CombinationsUpToSound<T>(s: seq<T>, m: nat)
    ensures forall i | 0 <= i < |CombinationsUpTo(s, m)| ::
      1 <= |CombinationsUpTo(s, m)[i]| <= m && Subsequence(CombinationsUpTo(s, m)[i], s)
    ensures forall i, j | 0 <= i < j < |CombinationsUpTo(s, m)| ::
      |CombinationsUpTo(s, m)[i]| <= |CombinationsUpTo(s, m)[j]|
  {
    if m > 0 {
      CombinationsUpToSound(s, m - 1);
      var prev, last := CombinationsUpTo(s, m - 1), Combinations(s, m);
      forall k | 0 <= k < |last| ensures |last[k]| == m && Subsequence(last[k], s) {
        CombinationsSound(s, m, last[k]);
      }
    }
  }

  /** Every non-empty ordered selection from `s` is emitted. */
  lemma {:induction false} CombinationsUpToComplete<T>(s: seq<T>, m: nat, c: seq<T>)
    requires 1 <= |c| <= m && Subsequence(c, s)
    ensures c in CombinationsUpTo(s, m)
  {
    if |c| == m {
      CombinationsComplete(s, m, c);
    } else {
      CombinationsUpToComplete(s, m - 1, c);
    }
  }

  // --------------------------------------------------------------- product

  /** `itertools.product(*xss)`: one element from each list, the first list
      varying slowest. */
  function Product<U(==)>(xss: seq<seq<U>>): seq<seq<U>>
  {
    if xss == [] then [[]] else ProductWith(xss[0], Product(xss[1..]))
  }

  function ProductWith<U(==)>(xs: seq<U>, tails: seq<seq<U>>): seq<seq<U>>
  {
    if xs == [] then [] else PrependAll(xs[0], tails) + ProductWith(xs[1..], tails)
  }

  /** |xss[0]| * ... * |xss[n-1]|. */
  function LengthProduct<U(==)>(xss: seq<seq<U>>): nat
  {
    if xss == [] then 1 else |xss[0]| * LengthProduct(xss[1..])
  }

  lemma {:induction false} ProductWithCount<U>(xs: seq<U>, tails: seq<seq<U>>)
    ensures |ProductWith(xs, tails)| == |xs| * |tails|
  {
    if xs != [] {
      ProductWithCount(xs[1..], tails);
    }
  }

  lemma {:induction false} ProductCount<U>(xss: seq<seq<U>>)
    ensures |Product(xss)| == LengthProduct(xss)
  {
    if xss != [] {
      ProductCount(xss[1..]);
      ProductWithCount(xss[0], Product(xss[1..]));
    }
  }

  lemma {:induction false} ProductWithMembers<U>(xs: seq<U>, tails: seq<seq<U>>, p: seq<U>)
    ensures p in ProductWith(xs, tails) <==> p != [] && p[0] in xs && p[1..] in tails
  {
    if xs != [] {
      ProductWithMembers(xs[1..], tails, p);
      var head := PrependAll(xs[0], tails);
      if p in head {
        var k :| 0 <= k < |head| && head[k] == p;
        assert p[1..] == tails[k];
      }
      if p != [] && p[0] == xs[0] && p[1..] in tails {
        var k :| 0 <= k < |tails| && tails[k] == p[1..];
        assert head[k] == [p[0]] + p[1..] == p;
      }
      assert xs == [xs[0]] + xs[1..];
    }
  }

  /** A tuple is emitted iff it picks, position by position, one element of
      each list. */
  lemma {:induction false} ProductMembers<U>(xss: seq<seq<U>>, p: seq<U>)
    ensures p in Product(xss) <==> |p| == |xss| && forall j | 0 <= j < |xss| :: p[j] in xss[j]
  {
    if xss != [] {
      ProductWithMembers(xss[0], Product(xss[1..]), p);
      if p != [] {
        ProductMembers(xss[1..], p[1..]);
        if |p| == |xss| && forall j | 0 <= j < |xss| :: p[j] in xss[j] {
          assert p[0] in xss[0];
          forall j | 0 <= j < |xss| - 1 ensures p[1..][j] in xss[1..][j] {
            assert p[1..][j] == p[j + 1];
          }
        }
        if p in Product(xss) {
          forall j | 0 <= j < |xss| ensures p[j] in xss[j] {
            if j > 0 {
              assert p[j] == p[1..][j - 1];
            }
          }
        }
      }
    }
  }

  /** When every list is non-empty, the first emitted tuple takes the first
      element of each. */
  lemma {:induction false} ProductFirst<U>(xss: seq<seq<U>>)
    requires forall j | 0 <= j < |xss| :: |xss[j]| > 0
    ensures |Product(xss)| > 0
    ensures Product(xss)[0] == seq(|xss|, j requires 0 <= j < |xss| => xss[j][0])
  {
    if xss != [] {
      ProductFirst(xss[1..]);
      var tails := Product(xss[1..]);
      assert ProductWith(xss[0], tails)[0] == PrependAll(xss[0][0], tails)[0] == [xss[0][0]] + tails[0];
    }
  }
}

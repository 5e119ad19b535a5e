/** The order Python's `sorted` uses on the engine's triples: strings compare
    code point by code point with a proper prefix first, and tuples compare
    component by component. Sorting is modelled by insertion sort; since the
    order is total and antisymmetric on triples, every sorting algorithm
    returns the same list, so this is the result of Python's `sorted` too. */
module Ordering {

  /** A resolved edge: (source label, relation, target label). */
  type Triple = (string, string, string)

  // --------------------------------------------------------------- strings

  predicate StrLe(a: string, b: string)
  {
    a == [] || (b != [] && (a[0] < b[0] || (a[0] == b[0] && StrLe(a[1..], b[1..]))))
  }

  lemma {:induction false} StrLeRefl(a: string)
    ensures StrLe(a, a)
  {
    if a != [] {
      StrLeRefl(a[1..]);
    }
  }

  lemma {:induction false} StrLeAntisym(a: string, b: string)
    requires StrLe(a, b) && StrLe(b, a)
    ensures a == b
  {
    if a != [] && b != [] {
      StrLeAntisym(a[1..], b[1..]);
      assert a == [a[0]] + a[1..] && b == [b[0]] + b[1..];
    }
  }

  lemma {:induction false} StrLeTrans(a: string, b: string, c: string)
    requires StrLe(a, b) && StrLe(b, c)
    ensures StrLe(a, c)
  {
    if a != [] && a[0] == b[0] && b[0] == c[0] {
      StrLeTrans(a[1..], b[1..], c[1..]);
    }
  }

  lemma {:induction false} StrLeTotal(a: string, b: string)
    ensures StrLe(a, b) || StrLe(b, a)
  {
    if a != [] && b != [] && a[0] == b[0] {
      StrLeTotal(a[1..], b[1..]);
    }
  }

  // --------------------------------------------------------------- triples

  predicate TripleLe(x: Triple, y: Triple)
  {
    if x.0 != y.0 then StrLe(x.0, y.0)
    else if x.1 != y.1 then StrLe(x.1, y.1)
    else StrLe(x.2, y.2)
  }

  lemma TripleLeRefl(x: Triple)
    ensures TripleLe(x, x)
  {
    StrLeRefl(x.2);
  }

  lemma TripleLeAntisym(x: Triple, y: Triple)
    requires TripleLe(x, y) && TripleLe(y, x)
    ensures x == y
  {
    if x.0 != y.0 {
      StrLeAntisym(x.0, y.0);
    } else if x.1 != y.1 {
      StrLeAntisym(x.1, y.1);
    } else {
      StrLeAntisym(x.2, y.2);
    }
  }

  lemma TripleLeTrans(x: Triple, y: Triple, z: Triple)
    requires TripleLe(x, y) && TripleLe(y, z)
    ensures TripleLe(x, z)
  {
    if x.0 != y.0 || y.0 != z.0 {
      StrLeRefl(y.0);
      StrLeTrans(x.0, y.0, z.0);
      if x.0 == z.0 {
        StrLeAntisym(x.0, y.0);
      }
    } else if x.1 != y.1 || y.1 != z.1 {
      StrLeRefl(y.1);
      StrLeTrans(x.1, y.1, z.1);
      if x.1 == z.1 {
        StrLeAntisym(x.1, y.1);
      }
    } else {
      StrLeTrans(x.2, y.2, z.2);
    }
  }

  lemma TripleLeTotal(x: Triple, y: Triple)
    ensures TripleLe(x, y) || TripleLe(y, x)
  {
    StrLeTotal(x.0, y.0);
    StrLeTotal(x.1, y.1);
    StrLeTotal(x.2, y.2);
  }

  // --------------------------------------------------------------- sorting

  predicate Sorted(s: seq<Triple>)
  {
    forall i, j {:trigger TripleLe(s[i], s[j])} | 0 <= i < j < |s| :: TripleLe(s[i], s[j])
  }

  /** Inserts `x` before the first element it does not follow. */
  function Insert(x: Triple, s: seq<Triple>): (r: seq<Triple>)
    requires Sorted(s)
    ensures Sorted(r)
    ensures |r| == |s| + 1
    ensures r[0] == x || (s != [] && r[0] == s[0])
  {
    if s == [] then [x]
    else if TripleLe(x, s[0]) then
      assert forall j | 0 <= j < |s| :: TripleLe(x, s[j]) by {
        TripleLeRefl(s[0]);
        forall j | 0 <= j < |s| ensures TripleLe(x, s[j]) {
          if j > 0 {
            TripleLeTrans(x, s[0], s[j]);
          }
        }
      }
      [x] + s
    else
      SortedTail(s);
      var rest := Insert(x, s[1..]);
      var r := [s[0]] + rest;
      assert Sorted(r) by {
        TripleLeTotal(x, s[0]);
        assert TripleLe(s[0], rest[0]) by {
          if rest[0] != x {
            assert rest[0] == s[1];
          }
        }
        TripleLeRefl(rest[0]);
        forall i, j | 0 <= i < j < |r| ensures TripleLe(r[i], r[j]) {
          if i == 0 {
            TripleLeTrans(s[0], rest[0], rest[j - 1]);
          } else {
            assert r[i] == rest[i - 1] && r[j] == rest[j - 1];
          }
        }
      }
      r
  }

  /** Insertion adds exactly `x` to the elements. */
  lemma {:induction false} InsertMultiset(x: Triple, s: seq<Triple>)
    requires Sorted(s)
    ensures multiset(Insert(x, s)) == multiset(s) + multiset{x}
  {
    if s != [] && !TripleLe(x, s[0]) {
      SortedTail(s);
      InsertMultiset(x, s[1..]);
      assert s == [s[0]] + s[1..];
    }
  }

  /** `sorted(s)`: a sorted list of the same length. */
  function Sort(s: seq<Triple>): (r: seq<Triple>)
    ensures Sorted(r)
    ensures |r| == |s|
  {
    if s == [] then []
    else Insert(s[0], Sort(s[1..]))
  }

  /** Sorting rearranges: it keeps every element and its number of
      occurrences. */
  lemma {:induction false} SortMultiset(s: seq<Triple>)
    ensures multiset(Sort(s)) == multiset(s)
  {
    if s != [] {
      SortMultiset(s[1..]);
      InsertMultiset(s[0], Sort(s[1..]));
      assert s == [s[0]] + s[1..];
    }
  }

  /** A sorted list is determined by its multiset of elements. */
  lemma {:induction false} SortedUnique(a: seq<Triple>, b: seq<Triple>)
    requires Sorted(a) && Sorted(b) && multiset(a) == multiset(b)
    ensures a == b
  {
    if a != [] {
      assert a == [a[0]] + a[1..];
      assert b == [b[0]] + b[1..] by {
        assert a[0] in multiset(b);
      }
      assert a[0] in multiset(b) && b[0] in multiset(a);
      var i :| 0 <= i < |b| && b[i] == a[0];
      var j :| 0 <= j < |a| && a[j] == b[0];
      if i > 0 {
        assert TripleLe(b[0], a[0]);
      } else {
        TripleLeRefl(b[0]);
      }
      if j > 0 {
        assert TripleLe(a[0], b[0]);
      } else {
        TripleLeRefl(a[0]);
      }
      TripleLeAntisym(a[0], b[0]);
      assert multiset(a[1..]) == multiset(a) - multiset{a[0]};
      assert multiset(b[1..]) == multiset(b) - multiset{b[0]};
      SortedTail(a);
      SortedTail(b);
      SortedUnique(a[1..], b[1..]);
    }
  }

  lemma SortedTail(s: seq<Triple>)
    requires Sorted(s) && s != []
    ensures Sorted(s[1..])
  {
    forall i, j | 0 <= i < j < |s| - 1 ensures TripleLe(s[1..][i], s[1..][j]) {
      assert s[1..][i] == s[i + 1] && s[1..][j] == s[j + 1];
    }
  }

  /** Sorting forgets the order of its input: rearrangements sort alike. */
  lemma SortCanonical(a: seq<Triple>, b: seq<Triple>)
    requires multiset(a) == multiset(b)
    ensures Sort(a) == Sort(b)
  {
    SortMultiset(a);
    SortMultiset(b);
    SortedUnique(Sort(a), Sort(b));
  }

  /** Sorting an already sorted list changes nothing. */
  lemma SortSorted(s: seq<Triple>)
    requires Sorted(s)
    ensures Sort(s) == s
  {
    SortMultiset(s);
    SortedUnique(Sort(s), s);
  }
}

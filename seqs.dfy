/**
 * The LINQ operators the writer uses, over sequences: `Where`, `Select` into a flat
 * sequence, `Except` (distinct set difference in first-occurrence order) and the stable
 * `OrderBy` on an integer key.
 */
module Seqs {

  predicate Distinct<T(==)>(s: seq<T>)
  {
    forall i, j :: 0 <= i < j < |s| ==> s[i] != s[j]
  }

  /** `a` is `b` with some elements left out and the rest in their original order. */
  predicate IsSubsequence<T(==)>(a: seq<T>, b: seq<T>)
    decreases |b|
  {
    a == [] ||
    (b != [] && ((a[0] == b[0] && IsSubsequence(a[1..], b[1..])) || IsSubsequence(a, b[1..])))
  }

  /** `s.Where(p)`. */
  function Where<T(!new)>(s: seq<T>, p: T -> bool): (r: seq<T>)
    ensures |r| <= |s|
    ensures forall x :: x in r <==> x in s && p(x)
  {
    if s == [] then [] else (if p(s[0]) then [s[0]] else []) + Where(s[1..], p)
  }

  /** `Where` keeps the elements it selects in the order they had. */
  lemma {:induction false} WhereIsSubsequence<T(!new)>(s: seq<T>, p: T -> bool)
    ensures IsSubsequence(Where(s, p), s)
  {
    if s != [] {
      WhereIsSubsequence(s[1..], p);
      if !p(s[0]) {
        assert Where(s, p) == Where(s[1..], p);
      } else {
        assert Where(s, p) == [s[0]] + Where(s[1..], p);
        assert Where(s, p)[1..] == Where(s[1..], p);
      }
    }
  }

  /** `Where` keeps every selected element as often as it occurs, and no other element. */
  lemma {:induction false} WhereCounts<T(!new)>(s: seq<T>, p: T -> bool, x: T)
    ensures multiset(Where(s, p))[x] == if p(x) then multiset(s)[x] else 0
  {
    if s != [] {
      WhereCounts(s[1..], p, x);
      assert s == [s[0]] + s[1..];
      assert multiset(s) == multiset([s[0]]) + multiset(s[1..]);
    }
  }

  /** A subsequence of a distinct sequence is distinct. */
  lemma {:induction false} SubsequenceDistinct<T>(a: seq<T>, b: seq<T>)
    requires IsSubsequence(a, b) && Distinct(b)
    ensures Distinct(a)
    ensures forall x :: x in a ==> x in b
    decreases |b|
  {
    if a != [] {
      assert Distinct(b[1..]) by {
        forall i, j | 0 <= i < j < |b[1..]| ensures b[1..][i] != b[1..][j] {
          assert b[1..][i] == b[i + 1] && b[1..][j] == b[j + 1];
        }
      }
      if a[0] == b[0] && IsSubsequence(a[1..], b[1..]) {
        SubsequenceDistinct(a[1..], b[1..]);
        assert b[0] !in b[1..];
        assert a[0] !in a[1..];
        forall i, j | 0 <= i < j < |a| ensures a[i] != a[j] {
          if i == 0 {
            assert a[j] == a[1..][j - 1];
          } else {
            assert a[i] == a[1..][i - 1] && a[j] == a[1..][j - 1];
          }
        }
        assert a == [a[0]] + a[1..];
      } else {
        SubsequenceDistinct(a, b[1..]);
      }
    }
  }

  /** The body of `Except`: `seen` holds the elements already excluded or yielded. */
  function ExceptFrom<T(==,!new)>(a: seq<T>, seen: set<T>): (r: seq<T>)
    ensures forall x :: x in r <==> x in a && x !in seen
    ensures Distinct(r)
  {
    if a == [] then []
    else if a[0] in seen then ExceptFrom(a[1..], seen)
    else [a[0]] + ExceptFrom(a[1..], seen + {a[0]})
  }

  /** `a.Except(b)`: the distinct elements of `a` that are not in `b`, by first occurrence. */
  function Except<T(==,!new)>(a: seq<T>, b: seq<T>): (r: seq<T>)
  {
    ExceptFrom(a, set x | x in b)
  }

  /** Except is exactly the set difference, without repetitions. */
  lemma ExceptIsDifference<T(!new)>(a: seq<T>, b: seq<T>)
    ensures Distinct(Except(a, b))
    ensures forall x :: x in Except(a, b) <==> x in a && x !in b
  {
  }

  /** On a sequence without repetitions, Except also keeps the order of `a`. */
  lemma {:induction false} ExceptOrder<T(!new)>(a: seq<T>, seen: set<T>)
    requires Distinct(a)
    ensures IsSubsequence(ExceptFrom(a, seen), a)
  {
    if a != [] {
      assert Distinct(a[1..]) by {
        forall i, j | 0 <= i < j < |a[1..]| ensures a[1..][i] != a[1..][j] {
          assert a[1..][i] == a[i + 1] && a[1..][j] == a[j + 1];
        }
      }
      if a[0] in seen {
        ExceptOrder(a[1..], seen);
      } else {
        ExceptOrder(a[1..], seen + {a[0]});
        assert ExceptFrom(a, seen)[1..] == ExceptFrom(a[1..], seen + {a[0]});
      }
    }
  }

  /** Every sequence contains nothing that is not in itself. */
  lemma ExceptSelf<T(!new)>(a: seq<T>)
    ensures Except(a, a) == []
  {
    ExceptFromCovered(a, set x | x in a);
  }

  lemma {:induction false} ExceptFromCovered<T(!new)>(a: seq<T>, seen: set<T>)
    requires forall x :: x in a ==> x in seen
    ensures ExceptFrom(a, seen) == []
  {
    if a != [] {
      ExceptFromCovered(a[1..], seen);
    }
  }

  predicate SortedBy<T>(s: seq<T>, key: T -> int)
  {
    forall i, j :: 0 <= i < j < |s| ==> key(s[i]) <= key(s[j])
  }

  /** Places `x` before the first element whose key is not smaller than its own. */
  function Insert<T>(x: T, s: seq<T>, key: T -> int): (r: seq<T>)
    ensures multiset(r) == multiset(s) + multiset{x}
  {
    if s == [] || key(x) <= key(s[0]) then [x] + s
    else
      assert s == [s[0]] + s[1..];
      [s[0]] + Insert(x, s[1..], key)
  }

  lemma {:induction false} InsertSorted<T>(x: T, s: seq<T>, key: T -> int)
    requires SortedBy(s, key)
    ensures SortedBy(Insert(x, s, key), key)
  {
    if s != [] && key(x) > key(s[0]) {
      var rest := Insert(x, s[1..], key);
      InsertSorted(x, s[1..], key);
      forall j | 0 <= j < |rest| ensures key(s[0]) <= key(rest[j]) {
        assert rest[j] in multiset(rest);
        assert rest[j] == x || rest[j] in s[1..];
      }
    }
  }

  /**
   * `s.OrderBy(key)`: an insertion sort, which like LINQ's OrderBy is stable
   * (see OrderByStable).
   */
  function OrderBy<T>(s: seq<T>, key: T -> int): (r: seq<T>)
    ensures multiset(r) == multiset(s)
    ensures SortedBy(r, key)
  {
    if s == [] then []
    else
      var rest := OrderBy(s[1..], key);
      InsertSorted(s[0], rest, key);
      assert s == [s[0]] + s[1..];
      Insert(s[0], rest, key)
  }

  /** The elements of `s` whose key is `k`, in order. */
  function WithKey<T>(s: seq<T>, key: T -> int, k: int): seq<T>
  {
    if s == [] then [] else (if key(s[0]) == k then [s[0]] else []) + WithKey(s[1..], key, k)
  }

  lemma {:induction false} WithKeyInsert<T>(x: T, s: seq<T>, key: T -> int, k: int)
    ensures WithKey(Insert(x, s, key), key, k)
         == (if key(x) == k then [x] else []) + WithKey(s, key, k)
  {
    if s == [] || key(x) <= key(s[0]) {
      assert ([x] + s)[1..] == s;
    } else {
      var r := Insert(x, s, key);
      assert r[0] == s[0] && r[1..] == Insert(x, s[1..], key);
      WithKeyInsert(x, s[1..], key, k);
      var h, e: seq<T> := if key(s[0]) == k then [s[0]] else [], if key(x) == k then [x] else [];
      var w := WithKey(s[1..], key, k);
      assert WithKey(r, key, k) == h + (e + w);
      assert WithKey(s, key, k) == h + w;
      // key(x) > key(s[0]): at most one of the two has key k
      assert h == [] || e == [];
      Assoc(h, e, w);
    }
  }

  /** Elements with equal keys keep their relative order: OrderBy is a stable sort. */
  lemma {:induction false} OrderByStable<T>(s: seq<T>, key: T -> int, k: int)
    ensures WithKey(OrderBy(s, key), key, k) == WithKey(s, key, k)
  {
    if s != [] {
      OrderByStable(s[1..], key, k);
      WithKeyInsert(s[0], OrderBy(s[1..], key), key, k);
    }
  }

  /** Sorting permutes: the same elements, each as often, and nothing else. */
  lemma OrderByElements<T>(s: seq<T>, key: T -> int)
    ensures |OrderBy(s, key)| == |s|
    ensures forall x :: x in OrderBy(s, key) <==> x in s
  {
    var r := OrderBy(s, key);
    assert |multiset(r)| == |multiset(s)|;
    forall x ensures x in r <==> x in s {
      assert x in r <==> x in multiset(r);
      assert x in s <==> x in multiset(s);
    }
  }

  lemma OrderByDistinct<T>(s: seq<T>, key: T -> int)
    requires Distinct(s)
    ensures Distinct(OrderBy(s, key))
  {
    var r := OrderBy(s, key);
    forall i, j | 0 <= i < j < |r| ensures r[i] != r[j] {
      if r[i] == r[j] {
        TwoOccurrences(r, i, j);
        DistinctCount(s, r[i]);
      }
    }
  }

  lemma TwoOccurrences<T>(s: seq<T>, i: nat, j: nat)
    requires i < j < |s| && s[i] == s[j]
    ensures multiset(s)[s[i]] >= 2
  {
    assert s == s[..j] + s[j..];
    assert s[i] in s[..j];
    assert s[j] in s[j..];
    assert multiset(s) == multiset(s[..j]) + multiset(s[j..]);
  }

  lemma {:induction false} DistinctCount<T>(s: seq<T>, x: T)
    requires Distinct(s)
    ensures multiset(s)[x] <= 1
  {
    if s != [] {
      assert Distinct(s[1..]) by {
        forall i, j | 0 <= i < j < |s[1..]| ensures s[1..][i] != s[1..][j] {
          assert s[1..][i] == s[i + 1] && s[1..][j] == s[j + 1];
        }
      }
      DistinctCount(s[1..], x);
      assert s == [s[0]] + s[1..];
      if s[0] == x {
        assert x !in s[1..];
        assert multiset(s[1..])[x] == 0;
      }
    }
  }

  /** The blocks one after the other (SelectMany of the identity). */
  function Concat<T>(bs: seq<seq<T>>): seq<T>
  {
    if bs == [] then [] else Concat(bs[..|bs| - 1]) + bs[|bs| - 1]
  }

  /** Where element `m` of block `k` lands in the concatenation. */
  function Pos<T>(bs: seq<seq<T>>, k: nat, m: nat): int
    requires k <= |bs|
  {
    |Concat(bs[..k])| + m
  }

  lemma {:induction false} ConcatAt<T>(bs: seq<seq<T>>, k: nat, m: nat)
    requires k < |bs| && m < |bs[k]|
    ensures 0 <= Pos(bs, k, m) < |Concat(bs)| && Concat(bs)[Pos(bs, k, m)] == bs[k][m]
  {
    var init := bs[..|bs| - 1];
    if k == |bs| - 1 {
      assert init == bs[..k];
    } else {
      assert init[..k] == bs[..k];
      ConcatAt(init, k, m);
    }
  }

  lemma {:induction false} ConcatPrefixGrows<T>(bs: seq<seq<T>>, k1: nat, k2: nat)
    requires k1 < k2 <= |bs|
    ensures Pos(bs, k1, |bs[k1]|) <= Pos(bs, k2, 0)
    decreases k2
  {
    var c := bs[..k2];
    assert c[..|c| - 1] == bs[..k2 - 1];
    if k1 < k2 - 1 {
      ConcatPrefixGrows(bs, k1, k2 - 1);
    }
  }

  /** An element of an earlier block precedes every element of a later one. */
  lemma BlockOrder<T>(bs: seq<seq<T>>, k1: nat, m1: nat, k2: nat, m2: nat)
    requires k1 < k2 < |bs| && m1 < |bs[k1]| && m2 < |bs[k2]|
    ensures 0 <= Pos(bs, k1, m1) < Pos(bs, k2, m2) < |Concat(bs)|
    ensures Concat(bs)[Pos(bs, k1, m1)] == bs[k1][m1] && Concat(bs)[Pos(bs, k2, m2)] == bs[k2][m2]
  {
    ConcatAt(bs, k1, m1);
    ConcatAt(bs, k2, m2);
    ConcatPrefixGrows(bs, k1, k2);
  }

  /** The concatenation is empty exactly when every block is. */
  lemma {:induction false} ConcatEmpty<T>(bs: seq<seq<T>>)
    ensures Concat(bs) == [] <==> forall k :: 0 <= k < |bs| ==> bs[k] == []
  {
    if bs != [] {
      var init := bs[..|bs| - 1];
      ConcatEmpty(init);
      assert forall k :: 0 <= k < |init| ==> init[k] == bs[k];
    }
  }

  /** Concatenating one more block appends it. */
  lemma ConcatSnoc<T>(bs: seq<seq<T>>, k: nat)
    requires k < |bs|
    ensures Concat(bs[..k + 1]) == Concat(bs[..k]) + bs[k]
  {
    assert bs[..k + 1][..k] == bs[..k];
  }

  /** A prefix one longer is the shorter prefix and the next element. */
  lemma PrefixSnoc<T>(s: seq<T>, i: nat)
    requires i < |s|
    ensures s[..i + 1] == s[..i] + [s[i]]
  {
  }

  /** Appending leaves a prefix of the first part alone. */
  lemma PrefixOfAppend<T>(a: seq<T>, b: seq<T>, n: nat)
    requires n <= |a|
    ensures (a + b)[..n] == a[..n]
  {
  }

  lemma Assoc<T>(a: seq<T>, b: seq<T>, c: seq<T>)
    ensures (a + b) + c == a + (b + c)
  {
  }
}

/** Sequence operations that several parts of the tracker rely on: the element-wise
    `map`, the order-keeping `filter`, and the stable sort by a key in descending
    order that stands both for `Array.prototype.sort` with a `(a, b) => b.k - a.k`
    comparator and for a remote query ordered by a column descending. */
module Lists {

  function Mapped<A, B>(xs: seq<A>, f: A -> B): (ys: seq<B>)
    ensures |ys| == |xs|
    ensures forall i :: 0 <= i < |xs| ==> ys[i] == f(xs[i])
  {
    if xs == [] then [] else [f(xs[0])] + Mapped(xs[1..], f)
  }

  /** The elements of `xs` that satisfy `keep`, in their original order. */
  function Filter<T>(xs: seq<T>, keep: T -> bool): (ys: seq<T>)
    ensures |ys| <= |xs|
    ensures forall i :: 0 <= i < |ys| ==> ys[i] in xs && keep(ys[i])
    ensures forall i :: 0 <= i < |xs| && keep(xs[i]) ==> xs[i] in ys
  {
    if xs == [] then []
    else (if keep(xs[0]) then [xs[0]] else []) + Filter(xs[1..], keep)
  }

  /** Filtering keeps `xs` untouched when every element passes. */
  lemma {:induction false} FilterAllKept<T>(xs: seq<T>, keep: T -> bool)
    requires forall i :: 0 <= i < |xs| ==> keep(xs[i])
    ensures Filter(xs, keep) == xs
  {
    if xs != [] {
      FilterAllKept(xs[1..], keep);
    }
  }

  /** Filtering one more element at the end adds it or not, and leaves the rest. */
  lemma {:induction false} FilterAppend<T>(xs: seq<T>, x: T, keep: T -> bool)
    ensures Filter(xs + [x], keep) == Filter(xs, keep) + (if keep(x) then [x] else [])
  {
    if xs == [] {
      assert [x] + [] == [x];
    } else {
      assert (xs + [x])[1..] == xs[1..] + [x];
      FilterAppend(xs[1..], x, keep);
    }
  }

  /** No element occurs twice. */
  ghost predicate NoDup<T>(s: seq<T>) {
    forall i, j :: 0 <= i < j < |s| ==> s[i] != s[j]
  }

  /** A rearrangement of a duplicate-free sequence is duplicate-free. */
  lemma PermutationKeepsNoDup<T>(a: seq<T>, b: seq<T>)
    requires NoDup(a) && multiset(a) == multiset(b)
    ensures NoDup(b)
  {
    NoDupCounts(a);
    forall i, j | 0 <= i < j < |b| ensures b[i] != b[j] {
      assert b == b[..j] + b[j..];
      assert b[i] in multiset(b[..j]) && b[j] in multiset(b[j..]);
      assert multiset(b)[b[j]] == multiset(b[..j])[b[j]] + multiset(b[j..])[b[j]];
    }
  }

  lemma {:induction false} NoDupCounts<T>(s: seq<T>)
    requires NoDup(s)
    ensures forall x :: multiset(s)[x] <= 1
  {
    if s != [] {
      assert s == [s[0]] + s[1..];
      assert NoDup(s[1..]) by {
        forall i, j | 0 <= i < j < |s[1..]| ensures s[1..][i] != s[1..][j] {
          assert s[1..][i] == s[i + 1] && s[1..][j] == s[j + 1];
        }
      }
      NoDupCounts(s[1..]);
      assert s[0] !in s[1..];
    }
  }

  /** Keys never increase from left to right. */
  ghost predicate Descending<T>(s: seq<T>, key: T -> int) {
    forall i, j :: 0 <= i < j < |s| ==> key(s[i]) >= key(s[j])
  }

  /** Places `x` in front of the first element of `t` whose key does not exceed its own. */
  function Insert<T>(x: T, t: seq<T>, key: T -> int): (r: seq<T>)
    ensures multiset(r) == multiset(t) + multiset{x}
  {
    if t == [] || key(x) >= key(t[0]) then [x] + t
    else
      assert t == [t[0]] + t[1..];
      [t[0]] + Insert(x, t[1..], key)
  }

  lemma {:induction false} InsertDescending<T>(x: T, t: seq<T>, key: T -> int)
    requires Descending(t, key)
    ensures Descending(Insert(x, t, key), key)
  {
    if t != [] && key(x) < key(t[0]) {
      var u := t[1..];
      assert Descending(u, key) by {
        forall i, j | 0 <= i < j < |u| ensures key(u[i]) >= key(u[j]) {
          assert u[i] == t[i + 1] && u[j] == t[j + 1];
        }
      }
      InsertDescending(x, u, key);
      forall i | 0 <= i < |u| ensures key(u[i]) <= key(t[0]) {
        assert u[i] == t[i + 1];
      }
      InsertBounded(x, u, key, key(t[0]));
      var r := Insert(x, u, key);
      var s := [t[0]] + r;
      forall i, j | 0 <= i < j < |s|
        ensures key(s[i]) >= key(s[j])
      {
        assert s[j] == r[j - 1];
        if i > 0 {
          assert s[i] == r[i - 1];
        }
      }
    }
  }

  /** Inserting under a bound keeps every key under it. */
  lemma {:induction false} InsertBounded<T>(x: T, t: seq<T>, key: T -> int, b: int)
    requires key(x) <= b
    requires forall i :: 0 <= i < |t| ==> key(t[i]) <= b
    ensures forall i :: 0 <= i < |Insert(x, t, key)| ==> key(Insert(x, t, key)[i]) <= b
  {
    if t != [] && key(x) < key(t[0]) {
      var u := t[1..];
      forall i | 0 <= i < |u| ensures key(u[i]) <= b {
        assert u[i] == t[i + 1];
      }
      InsertBounded(x, u, key, b);
      var r := Insert(x, u, key);
      var s := [t[0]] + r;
      forall i | 1 <= i < |s| ensures key(s[i]) <= b {
        assert s[i] == r[i - 1];
      }
    }
  }

  /** Stable insertion sort: keys descending, a permutation of the input. */
  function SortBy<T>(s: seq<T>, key: T -> int): (r: seq<T>)
    ensures multiset(r) == multiset(s)
    ensures |r| == |s|
    ensures Descending(r, key)
  {
    if s == [] then []
    else
      assert s == [s[0]] + s[1..];
      var rest := SortBy(s[1..], key);
      InsertDescending(s[0], rest, key);
      var r := Insert(s[0], rest, key);
      assert |multiset(r)| == |r|;
      r
  }

  /** Mapping and sorting commute when the map keeps the key: sorting rows and then
      converting them gives what converting them first and then sorting gives. */
  lemma {:induction false} InsertMapped<A, B>(x: A, t: seq<A>, f: A -> B, ka: A -> int, kb: B -> int)
    requires forall a :: kb(f(a)) == ka(a)
    ensures Insert(f(x), Mapped(t, f), kb) == Mapped(Insert(x, t, ka), f)
  {
    if t != [] && ka(x) < ka(t[0]) {
      InsertMapped(x, t[1..], f, ka, kb);
      assert Mapped(t, f)[1..] == Mapped(t[1..], f);
    }
  }

  lemma {:induction false} SortMapped<A, B>(xs: seq<A>, f: A -> B, ka: A -> int, kb: B -> int)
    requires forall a :: kb(f(a)) == ka(a)
    ensures SortBy(Mapped(xs, f), kb) == Mapped(SortBy(xs, ka), f)
  {
    if xs != [] {
      SortMapped(xs[1..], f, ka, kb);
      assert Mapped(xs, f)[1..] == Mapped(xs[1..], f);
      InsertMapped(xs[0], SortBy(xs[1..], ka), f, ka, kb);
    }
  }

  /** In a descending sequence the first `k` elements hold the `k` largest keys:
      nothing left out of the prefix has a key above anything in it. */
  lemma PrefixHoldsLargest<T>(s: seq<T>, key: T -> int, k: nat)
    requires Descending(s, key) && k <= |s|
    ensures forall x, y :: x in multiset(s[k..]) && y in s[..k] ==> key(x) <= key(y)
  {
    forall x, y | x in multiset(s[k..]) && y in s[..k]
      ensures key(x) <= key(y)
    {
      var a :| 0 <= a < |s[k..]| && s[k..][a] == x;
      var b :| 0 <= b < k && s[..k][b] == y;
      assert s[b] == y && s[k + a] == x;
    }
  }
}

/**
 * `sorted(xs, key=...)[:n]` as the page uses it: Python's sort is stable, so the result is the
 * unique ordering that is non-decreasing by key and keeps the input order among equal keys.
 * `SortBy` is a stable insertion sort; the lemmas show it is that unique ordering.
 */
module Ranking {

  /** Non-decreasing by `key`. */
  predicate SortedBy<T>(s: seq<T>, key: T -> real) {
    forall i, j :: 0 <= i < j < |s| ==> key(s[i]) <= key(s[j])
  }

  /** The elements of `s` whose key is `d`, in the order of `s`. */
  function WithKey<T>(s: seq<T>, key: T -> real, d: real): (r: seq<T>)
    ensures |r| <= |s|
  {
    if s == [] then []
    else (if key(s[0]) == d then [s[0]] else []) + WithKey(s[1..], key, d)
  }

  /** `WithKey` keeps exactly the elements with that key. */
  lemma {:induction false} WithKeyMembers<T>(s: seq<T>, key: T -> real, d: real, x: T)
    ensures x in WithKey(s, key, d) <==> x in s && key(x) == d
  {
    if s != [] {
      WithKeyMembers(s[1..], key, d, x);
      assert s == [s[0]] + s[1..];
    }
  }

  /** Places `x` in front of the first element whose key is not smaller than its own. */
  function Insert<T>(x: T, s: seq<T>, key: T -> real): (r: seq<T>)
    ensures |r| == |s| + 1
    ensures r[0] == x || (s != [] && r[0] == s[0])
    ensures SortedBy(s, key) ==> SortedBy(r, key)
  {
    if s == [] || key(x) <= key(s[0]) then [x] + s
    else
      var rest := Insert(x, s[1..], key);
      assert SortedBy(s, key) ==> SortedBy([s[0]] + rest, key) by {
        if SortedBy(s, key) {
          assert key(s[0]) <= key(rest[0]);
          forall i, j | 0 <= i < j < |rest| + 1
            ensures key(([s[0]] + rest)[i]) <= key(([s[0]] + rest)[j])
          {
            if i > 0 {
              assert ([s[0]] + rest)[i] == rest[i - 1];
            } else {
              assert key(rest[0]) <= key(rest[j - 1]);
            }
          }
        }
      }
      [s[0]] + rest
  }

  /** A stable ascending sort of `s` by `key` (insertion sort). */
  function SortBy<T>(s: seq<T>, key: T -> real): (r: seq<T>)
    ensures |r| == |s|
    ensures SortedBy(r, key)
  {
    if s == [] then [] else Insert(s[0], SortBy(s[1..], key), key)
  }

  lemma {:induction false} InsertPermutes<T>(x: T, s: seq<T>, key: T -> real)
    ensures multiset(Insert(x, s, key)) == multiset(s) + multiset{x}
  {
    if s != [] && key(s[0]) < key(x) {
      InsertPermutes(x, s[1..], key);
      assert s == [s[0]] + s[1..];
    }
  }

  /** The sort neither loses nor adds an element. */
  lemma {:induction false} SortByPermutes<T>(s: seq<T>, key: T -> real)
    ensures multiset(SortBy(s, key)) == multiset(s)
  {
    if s != [] {
      var x, u := s[0], s[1..];
      var t := SortBy(u, key);
      SortByPermutes(u, key);
      InsertPermutes(x, t, key);
      assert multiset(Insert(x, t, key)) == multiset(s) by {
        assert s == [x] + u;
      }
    }
  }

  lemma WithKeyCons<T>(h: T, t: seq<T>, key: T -> real, d: real)
    ensures WithKey([h] + t, key, d) == (if key(h) == d then [h] else []) + WithKey(t, key, d)
  {
    var l := [h] + t;
    assert l[0] == h && l[1..] == t;
  }

  /** Among the elements of one key, an inserted element goes first. */
  lemma {:induction false} InsertKeepsTies<T>(x: T, s: seq<T>, key: T -> real, d: real)
    ensures WithKey(Insert(x, s, key), key, d) == (if key(x) == d then [x] else []) + WithKey(s, key, d)
  {
    if s == [] || key(x) <= key(s[0]) {
      WithKeyCons(x, s, key, d);
    } else {
      var rest := Insert(x, s[1..], key);
      InsertKeepsTies(x, s[1..], key, d);
      WithKeyCons(s[0], rest, key, d);
      WithKeyCons(s[0], s[1..], key, d);
      assert [s[0]] + s[1..] == s;
      var w := WithKey(s[1..], key, d);
      if key(s[0]) == d {
        assert WithKey(rest, key, d) == w;
      } else if key(x) == d {
        assert WithKey(s, key, d) == w;
      }
    }
  }

  /** Among elements with equal keys the sort keeps the input order: the sort is stable. */
  lemma {:induction false} SortByStable<T>(s: seq<T>, key: T -> real, d: real)
    ensures WithKey(SortBy(s, key), key, d) == WithKey(s, key, d)
  {
    if s != [] {
      SortByStable(s[1..], key, d);
      InsertKeepsTies(s[0], SortBy(s[1..], key), key, d);
    }
  }

  lemma {:induction false} SortedHeadIsLeast<T>(s: seq<T>, key: T -> real, x: T)
    requires SortedBy(s, key) && x in s
    ensures key(s[0]) <= key(x)
  {
    var i :| 0 <= i < |s| && s[i] == x;
    if i > 0 {
      assert key(s[0]) <= key(s[i]);
    }
  }

  /** How `WithKey` of a non-empty sequence relates to `WithKey` of its tail. */
  lemma {:induction false} WithKeyUncons<T>(s: seq<T>, key: T -> real, d: real)
    requires s != []
    ensures key(s[0]) == d ==> |WithKey(s, key, d)| > 0 && WithKey(s, key, d)[0] == s[0]
    ensures WithKey(s[1..], key, d) == if key(s[0]) == d then WithKey(s, key, d)[1..] else WithKey(s, key, d)
  {
    var tail := WithKey(s[1..], key, d);
    if key(s[0]) == d {
      assert WithKey(s, key, d) == [s[0]] + tail;
      assert ([s[0]] + tail)[1..] == tail;
    }
  }

  /**
   * Two orderings that are both non-decreasing by key and agree, key by key, on the order of
   * the elements with that key are the same sequence.
   */
  lemma {:induction false} StableOrderIsUnique<T>(a: seq<T>, b: seq<T>, key: T -> real)
    requires SortedBy(a, key) && SortedBy(b, key)
    requires forall d :: WithKey(a, key, d) == WithKey(b, key, d)
    ensures a == b
  {
    if a == [] && b == [] {
    } else if a == [] || b == [] {
      var c := if a == [] then b else a;
      WithKeyUncons(c, key, key(c[0]));
      assert false;
    } else {
      var m := key(a[0]);
      assert key(b[0]) == m by {
        WithKeyMembers(a, key, m, a[0]);
        WithKeyMembers(b, key, m, a[0]);
        SortedHeadIsLeast(b, key, a[0]);
        WithKeyMembers(b, key, key(b[0]), b[0]);
        WithKeyMembers(a, key, key(b[0]), b[0]);
        SortedHeadIsLeast(a, key, b[0]);
      }
      assert a[0] == b[0] by {
        assert WithKey(a, key, m) == WithKey(b, key, m);
        WithKeyUncons(a, key, m);
        WithKeyUncons(b, key, m);
      }
      forall d ensures WithKey(a[1..], key, d) == WithKey(b[1..], key, d) {
        assert WithKey(a, key, d) == WithKey(b, key, d);
        WithKeyUncons(a, key, d);
        WithKeyUncons(b, key, d);
      }
      StableOrderIsUnique(a[1..], b[1..], key);
      assert a == [a[0]] + a[1..] && b == [b[0]] + b[1..];
    }
  }

  /**
   * `SortBy` is THE stable sort: any ordering of `s` that is non-decreasing by key and keeps
   * the input order among equal keys (what Python's `sorted` returns) equals it.
   */
  lemma {:induction false} SortByIsTheStableSort<T>(s: seq<T>, t: seq<T>, key: T -> real)
    requires SortedBy(t, key)
    requires forall d :: WithKey(t, key, d) == WithKey(s, key, d)
    ensures t == SortBy(s, key)
  {
    forall d ensures WithKey(t, key, d) == WithKey(SortBy(s, key), key, d) {
      SortByStable(s, key, d);
    }
    StableOrderIsUnique(t, SortBy(s, key), key);
  }

  /** `sorted(s, key=key)[:n]`. */
  function TopBy<T>(s: seq<T>, key: T -> real, n: nat): (r: seq<T>)
    ensures |r| == if |s| < n then |s| else n
    ensures SortedBy(r, key)
  {
    SortBy(s, key)[..if |s| < n then |s| else n]
  }

  /**
   * The kept elements come from `s`, and each of them is at least as near as every element
   * that was dropped, whichever part of `s` either came from.
   */
  lemma {:induction false} TopByKeepsNearest<T>(s: seq<T>, key: T -> real, n: nat)
    ensures multiset(TopBy(s, key, n)) <= multiset(s)
    ensures forall x, y | x in TopBy(s, key, n) && y in multiset(s) - multiset(TopBy(s, key, n)) ::
              key(x) <= key(y)
  {
    var t := SortBy(s, key);
    var m := if |s| < n then |s| else n;
    assert TopBy(s, key, n) == t[..m];
    var r, rest := t[..m], t[m..];
    SortByPermutes(s, key);
    assert multiset(s) - multiset(r) == multiset(rest) by {
      assert t == r + rest;
      assert multiset(t) == multiset(r) + multiset(rest);
    }
    SortedSplit(t, m, key);
  }

  /** In a sorted sequence every element of a prefix is at most every element after it. */
  lemma SortedSplit<T>(t: seq<T>, m: nat, key: T -> real)
    requires SortedBy(t, key) && m <= |t|
    ensures forall x, y | x in t[..m] && y in multiset(t[m..]) :: key(x) <= key(y)
  {
    forall x, y | x in t[..m] && y in multiset(t[m..]) ensures key(x) <= key(y) {
      var i :| 0 <= i < m && t[..m][i] == x;
      var j :| 0 <= j < |t| - m && t[m..][j] == y;
      assert t[i] == x && t[m + j] == y;
    }
  }

  /** No two elements of `s` have the same identity. */
  predicate DistinctBy<T, K(==)>(s: seq<T>, id: T -> K) {
    forall i, j :: 0 <= i < j < |s| ==> id(s[i]) != id(s[j])
  }

  function IdsOf<T, K>(s: seq<T>, id: T -> K): set<K> {
    set i | 0 <= i < |s| :: id(s[i])
  }

  lemma IdsOfCons<T, K>(h: T, t: seq<T>, id: T -> K)
    ensures IdsOf([h] + t, id) == {id(h)} + IdsOf(t, id)
  {
    var l := [h] + t;
    assert l[0] == h;
    forall v | v in IdsOf(l, id) ensures v in {id(h)} + IdsOf(t, id) {
      var k :| 0 <= k < |l| && v == id(l[k]);
      if k > 0 {
        assert l[k] == t[k - 1];
      }
    }
    forall v | v in IdsOf(t, id) ensures v in IdsOf(l, id) {
      var k :| 0 <= k < |t| && v == id(t[k]);
      assert t[k] == l[k + 1];
    }
  }

  /** Inserting adds exactly the identity of the new element. */
  lemma {:induction false} InsertIds<T, K>(x: T, s: seq<T>, key: T -> real, id: T -> K)
    ensures IdsOf(Insert(x, s, key), id) == IdsOf(s, id) + {id(x)}
  {
    if s == [] || key(x) <= key(s[0]) {
      IdsOfCons(x, s, id);
    } else {
      var tail := s[1..];
      InsertIds(x, tail, key, id);
      IdsOfCons(s[0], Insert(x, tail, key), id);
      IdsOfCons(s[0], tail, id);
      assert [s[0]] + tail == s;
    }
  }

  /** Inserting an element with a new identity keeps all identities distinct. */
  lemma {:induction false} InsertKeepsDistinct<T, K>(x: T, s: seq<T>, key: T -> real, id: T -> K)
    requires DistinctBy(s, id) && id(x) !in IdsOf(s, id)
    ensures DistinctBy(Insert(x, s, key), id)
  {
    var r := Insert(x, s, key);
    if s == [] || key(x) <= key(s[0]) {
      assert r == [x] + s;
      forall i, j | 0 <= i < j < |r| ensures id(r[i]) != id(r[j]) {
        assert r[j] == s[j - 1];
        if i == 0 {
          assert id(s[j - 1]) in IdsOf(s, id);
        } else {
          assert r[i] == s[i - 1];
        }
      }
    } else {
      var tail := s[1..];
      assert forall k :: 0 <= k < |tail| ==> tail[k] == s[k + 1];
      assert IdsOf(tail, id) <= IdsOf(s, id);
      InsertKeepsDistinct(x, tail, key, id);
      InsertIds(x, tail, key, id);
      var rest := Insert(x, tail, key);
      assert r == [s[0]] + rest;
      assert id(s[0]) !in IdsOf(tail, id);
      forall i, j | 0 <= i < j < |r| ensures id(r[i]) != id(r[j]) {
        assert r[j] == rest[j - 1];
        if i == 0 {
          assert id(r[j]) in IdsOf(rest, id);
        } else {
          assert r[i] == rest[i - 1];
        }
      }
    }
  }

  /** Sorting keeps elements with distinct identities distinct, and keeps their identities. */
  lemma {:induction false} SortByKeepsDistinct<T, K>(s: seq<T>, key: T -> real, id: T -> K)
    requires DistinctBy(s, id)
    ensures IdsOf(SortBy(s, key), id) == IdsOf(s, id)
    ensures DistinctBy(SortBy(s, key), id)
  {
    if s != [] {
      var tail := s[1..];
      assert forall k :: 0 <= k < |tail| ==> tail[k] == s[k + 1];
      SortByKeepsDistinct(tail, key, id);
      assert id(s[0]) !in IdsOf(tail, id);
      InsertKeepsDistinct(s[0], SortBy(tail, key), key, id);
      InsertIds(s[0], SortBy(tail, key), key, id);
      assert forall k :: 0 < k < |s| ==> s[k] == tail[k - 1];
    }
  }

  /** The kept elements of a list with distinct identities have distinct identities. */
  lemma {:induction false} TopByKeepsDistinct<T, K>(s: seq<T>, key: T -> real, id: T -> K, n: nat)
    requires DistinctBy(s, id)
    ensures DistinctBy(TopBy(s, key, n), id)
  {
    SortByKeepsDistinct(s, key, id);
  }

  /** The elements of one key in a prefix come first among the elements of that key. */
  lemma {:induction false} WithKeyOfPrefix<T>(s: seq<T>, key: T -> real, d: real, n: nat)
    requires n <= |s|
    ensures WithKey(s[..n], key, d) <= WithKey(s, key, d)
  {
    if n > 0 {
      WithKeyOfPrefix(s[1..], key, d, n - 1);
      assert s[..n][0] == s[0];
      assert s[..n][1..] == s[1..][..n - 1];
    }
  }

  /** Keeping the first `n` keeps, among elements with the same key, their original order. */
  lemma TopByStable<T>(s: seq<T>, key: T -> real, n: nat, d: real)
    ensures WithKey(TopBy(s, key, n), key, d) <= WithKey(s, key, d)
  {
    var t := SortBy(s, key);
    WithKeyOfPrefix(t, key, d, |TopBy(s, key, n)|);
    SortByStable(s, key, d);
  }
}

/**
 * `Array.prototype.sort` with a comparator of the form `key(b) - key(a)`
 * (descending by an integer key; the sort is stable), and
 * `Array.prototype.filter`.
 */
module Ordering {

  /** Non-increasing in `key` from left to right. */
  ghost predicate SortedDesc<T>(s: seq<T>, key: T -> int) {
    forall i, j :: 0 <= i < j < |s| ==> key(s[i]) >= key(s[j])
  }

  /**
   * Puts `x` in front of the first element whose key is smaller, so that it
   * stays ahead of the elements with an equal key that came after it.
   */
  function InsertDesc<T>(x: T, s: seq<T>, key: T -> int): (r: seq<T>)
    ensures multiset(r) == multiset(s) + multiset{x}
    ensures SortedDesc(s, key) ==> SortedDesc(r, key)
  {
    if s == [] || key(x) >= key(s[0]) then
      assert SortedDesc(s, key) ==> SortedDesc([x] + s, key) by {
        if SortedDesc(s, key) && s != [] {
          forall j | 0 < j < |s| + 1 ensures key(x) >= key(([x] + s)[j]) {
            assert ([x] + s)[j] == s[j - 1];
          }
        }
      }
      [x] + s
    else
      var rest := InsertDesc(x, s[1..], key);
      assert s == [s[0]] + s[1..];
      assert SortedDesc(s, key) ==> SortedDesc([s[0]] + rest, key) by {
        if SortedDesc(s, key) {
          assert s == [s[0]] + s[1..];
          forall j | 0 <= j < |rest| ensures key(s[0]) >= key(rest[j]) {
            assert rest[j] in multiset(rest);
            if rest[j] != x {
              assert rest[j] in multiset(s[1..]);
              var k :| 0 <= k < |s[1..]| && s[1..][k] == rest[j];
              assert s[k + 1] == rest[j];
            }
          }
        }
      }
      [s[0]] + rest
  }

  /** Insertion sort: a stable sort, non-increasing in `key`. */
  function SortDesc<T>(s: seq<T>, key: T -> int): (r: seq<T>)
    ensures multiset(r) == multiset(s)
    ensures |r| == |s|
    ensures SortedDesc(r, key)
  {
    if s == [] then []
    else
      assert s == [s[0]] + s[1..];
      InsertDesc(s[0], SortDesc(s[1..], key), key)
  }

  /** The elements of `s` that satisfy `p`, in their original order. */
  function Filter<T(!new)>(s: seq<T>, p: T -> bool): (r: seq<T>)
    ensures |r| <= |s|
    ensures forall k :: 0 <= k < |r| ==> p(r[k])
    ensures multiset(r) <= multiset(s)
  {
    if s == [] then []
    else
      assert s == [s[0]] + s[1..];
      if p(s[0]) then [s[0]] + Filter(s[1..], p) else Filter(s[1..], p)
  }

  /** Every element satisfying `p` is kept as often as it occurs; no other is kept. */
  lemma {:induction false} FilterCount<T(!new)>(s: seq<T>, p: T -> bool, x: T)
    ensures multiset(Filter(s, p))[x] == if p(x) then multiset(s)[x] else 0
  {
    if s != [] {
      FilterCount(s[1..], p, x);
      assert s == [s[0]] + s[1..];
    }
  }

  /** An element is kept exactly when it was present and satisfies `p`. */
  lemma FilterMembership<T(!new)>(s: seq<T>, p: T -> bool, x: T)
    ensures x in Filter(s, p) <==> x in s && p(x)
  {
    FilterCount(s, p, x);
    assert x in Filter(s, p) <==> multiset(Filter(s, p))[x] > 0;
    assert x in s <==> multiset(s)[x] > 0;
  }

  /** Filtering keeps the relative order, so it keeps a sorted list sorted. */
  lemma {:induction false} FilterKeepsSorted<T(!new)>(s: seq<T>, p: T -> bool, key: T -> int)
    requires SortedDesc(s, key)
    ensures SortedDesc(Filter(s, p), key)
  {
    if s != [] {
      SortedTail(s, key);
      FilterKeepsSorted(s[1..], p, key);
      var rest := Filter(s[1..], p);
      if p(s[0]) {
        HeadBoundsAll(s, key);
        BoundedBySubMultiset(s[0], rest, s[1..], key);
        ConsSorted(s[0], rest, key);
      }
    }
  }

  lemma SortedTail<T>(s: seq<T>, key: T -> int)
    requires s != [] && SortedDesc(s, key)
    ensures SortedDesc(s[1..], key)
  {
    forall i, j | 0 <= i < j < |s| - 1 ensures key(s[1..][i]) >= key(s[1..][j]) {
      assert s[1..][i] == s[i + 1] && s[1..][j] == s[j + 1];
    }
  }

  lemma HeadBoundsAll<T>(s: seq<T>, key: T -> int)
    requires s != [] && SortedDesc(s, key)
    ensures forall j :: 0 <= j < |s[1..]| ==> key(s[0]) >= key(s[1..][j])
  {
    forall j | 0 <= j < |s[1..]| ensures key(s[0]) >= key(s[1..][j]) {
      assert s[1..][j] == s[j + 1];
    }
  }

  lemma BoundedBySubMultiset<T>(x: T, t: seq<T>, u: seq<T>, key: T -> int)
    requires multiset(t) <= multiset(u)
    requires forall j :: 0 <= j < |u| ==> key(x) >= key(u[j])
    ensures forall j :: 0 <= j < |t| ==> key(x) >= key(t[j])
  {
    forall j | 0 <= j < |t| ensures key(x) >= key(t[j]) {
      assert t[j] in multiset(t);
      assert t[j] in multiset(u);
      var k :| 0 <= k < |u| && u[k] == t[j];
    }
  }

  lemma ConsSorted<T>(x: T, t: seq<T>, key: T -> int)
    requires SortedDesc(t, key)
    requires forall j :: 0 <= j < |t| ==> key(x) >= key(t[j])
    ensures SortedDesc([x] + t, key)
  {
    forall i, j | 0 <= i < j < |t| + 1 ensures key(([x] + t)[i]) >= key(([x] + t)[j]) {
      if i > 0 { assert ([x] + t)[i] == t[i - 1]; }
      assert ([x] + t)[j] == t[j - 1];
    }
  }

  /** A filter that keeps everything is the identity. */
  lemma {:induction false} FilterAll<T(!new)>(s: seq<T>, p: T -> bool)
    requires forall k :: 0 <= k < |s| ==> p(s[k])
    ensures Filter(s, p) == s
  {
    if s != [] {
      FilterAll(s[1..], p);
      assert [s[0]] + s[1..] == s;
    }
  }

  /** Filtering a concatenation filters each part. */
  lemma {:induction false} FilterAppend<T(!new)>(s: seq<T>, t: seq<T>, p: T -> bool)
    ensures Filter(s + t, p) == Filter(s, p) + Filter(t, p)
  {
    if s != [] {
      assert (s + t)[0] == s[0] && (s + t)[1..] == s[1..] + t;
      FilterAppend(s[1..], t, p);
      assert Filter(s + t, p) == (if p(s[0]) then [s[0]] else []) + Filter(s[1..] + t, p);
    } else {
      assert s + t == t;
    }
  }
}

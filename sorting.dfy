/** The `where` / `orderBy` part of the store queries: filtering a list
    of records and ordering it by a lexicographic key. `orderBy: [{ a: 'asc' },
    { b: 'desc' }]` becomes the key `(a, -b, id)`; the trailing id fixes the
    order among records that tie on the keys the query names. */
module Sorting {

  /** A sort key, compared lexicographically. */
  type Key = (int, int, int)

  predicate KeyLe(a: Key, b: Key) {
    a.0 < b.0 || (a.0 == b.0 && (a.1 < b.1 || (a.1 == b.1 && a.2 <= b.2)))
  }

  lemma KeyLeTotal(a: Key, b: Key)
    ensures KeyLe(a, b) || KeyLe(b, a)
  {
  }

  lemma KeyLeTransitive(a: Key, b: Key, c: Key)
    requires KeyLe(a, b) && KeyLe(b, c)
    ensures KeyLe(a, c)
  {
  }

  /** Every earlier element has a key no greater than every later one. */
  predicate SortedBy<T>(s: seq<T>, key: T -> Key) {
    forall i, j :: 0 <= i < j < |s| ==> KeyLe(key(s[i]), key(s[j]))
  }

  /** Keeps the elements that satisfy `p`, in their order. */
  function Filter<T>(s: seq<T>, p: T -> bool): (r: seq<T>)
    ensures |r| <= |s|
    ensures forall i :: 0 <= i < |r| ==> p(r[i])
  {
    if s == [] then []
    else if p(s[0]) then [s[0]] + Filter(s[1..], p)
    else Filter(s[1..], p)
  }

  /** The elements kept by `Filter` are exactly those of `s` satisfying `p`. */
  lemma {:induction false} FilterMembers<T>(s: seq<T>, p: T -> bool, x: T)
    ensures x in Filter(s, p) <==> x in s && p(x)
  {
    if s != [] {
      FilterMembers(s[1..], p, x);
      assert s == [s[0]] + s[1..];
    }
  }

  lemma FilterCons<T>(y: T, s: seq<T>, p: T -> bool)
    ensures Filter([y] + s, p) == if p(y) then [y] + Filter(s, p) else Filter(s, p)
  {
    assert ([y] + s)[0] == y && ([y] + s)[1..] == s;
  }

  /** Puts `x` in front of the first element whose key is not below its own. */
  function Insert<T>(x: T, s: seq<T>, key: T -> Key): (r: seq<T>)
    ensures multiset(r) == multiset(s) + multiset{x}
    ensures SortedBy(s, key) ==> SortedBy(r, key)
  {
    if s == [] then [x]
    else if KeyLe(key(x), key(s[0])) then
      assert SortedBy(s, key) ==> forall i :: 0 <= i < |s| ==> KeyLe(key(x), key(s[i])) by {
        if SortedBy(s, key) {
          forall i | 0 <= i < |s| ensures KeyLe(key(x), key(s[i])) {
            if i > 0 { KeyLeTransitive(key(x), key(s[0]), key(s[i])); }
          }
        }
      }
      [x] + s
    else
      var rest := Insert(x, s[1..], key);
      assert s == [s[0]] + s[1..];
      assert SortedBy(s, key) ==> SortedBy([s[0]] + rest, key) by {
        if SortedBy(s, key) {
          KeyLeTotal(key(x), key(s[0]));
          forall z | z in rest ensures KeyLe(key(s[0]), key(z)) {
            assert z in multiset(rest);
            if z != x {
              assert z in multiset(s[1..]);
              var i :| 0 <= i < |s[1..]| && s[1..][i] == z;
              assert s[i + 1] == z;
            }
          }
          SortedCons(s[0], rest, key);
        }
      }
      [s[0]] + rest
  }

  lemma SortedCons<T>(y: T, s: seq<T>, key: T -> Key)
    requires SortedBy(s, key)
    requires forall z :: z in s ==> KeyLe(key(y), key(z))
    ensures SortedBy([y] + s, key)
  {
    forall i, j | 0 <= i < j < |[y] + s|
      ensures KeyLe(key(([y] + s)[i]), key(([y] + s)[j]))
    {
      if i == 0 {
        assert ([y] + s)[j] == s[j - 1];
        assert s[j - 1] in s;
      } else {
        assert ([y] + s)[i] == s[i - 1] && ([y] + s)[j] == s[j - 1];
      }
    }
  }

  /** A stable insertion sort by `key`: the result is sorted and holds the
      same elements, each as often. */
  function SortBy<T>(s: seq<T>, key: T -> Key): (r: seq<T>)
    ensures SortedBy(r, key)
    ensures multiset(r) == multiset(s)
  {
    if s == [] then []
    else
      assert s == [s[0]] + s[1..];
      Insert(s[0], SortBy(s[1..], key), key)
  }

  lemma InsertCons<T>(x: T, y: T, s: seq<T>, key: T -> Key)
    ensures Insert(x, [y] + s, key) ==
            if KeyLe(key(x), key(y)) then [x] + ([y] + s) else [y] + Insert(x, s, key)
  {
    assert ([y] + s)[0] == y && ([y] + s)[1..] == s;
  }

  /** An element no greater than all of `t` goes in front. */
  lemma InsertInFront<T>(x: T, t: seq<T>, key: T -> Key)
    requires forall i :: 0 <= i < |t| ==> KeyLe(key(x), key(t[i]))
    ensures Insert(x, t, key) == [x] + t
  {
  }

  /** Filtering an inserted list is inserting into the filtered list (or not
      inserting at all). */
  lemma {:induction false} FilterInsert<T>(x: T, s: seq<T>, key: T -> Key, p: T -> bool)
    requires SortedBy(s, key)
    ensures Filter(Insert(x, s, key), p) ==
            if p(x) then Insert(x, Filter(s, p), key) else Filter(s, p)
  {
    if s != [] {
      var y, t := s[0], s[1..];
      assert s == [y] + t;
      InsertCons(x, y, t, key);
      FilterCons(y, t, p);
      if KeyLe(key(x), key(y)) {
        FilterCons(x, s, p);
        if p(x) {
          var fs := Filter(s, p);
          forall i | 0 <= i < |fs| ensures KeyLe(key(x), key(fs[i])) {
            FilterMembers(s, p, fs[i]);
            var k :| 0 <= k < |s| && s[k] == fs[i];
            if k > 0 { KeyLeTransitive(key(x), key(y), key(s[k])); }
          }
          InsertInFront(x, fs, key);
        }
      } else {
        SortedTail(s, key);
        FilterInsert(x, t, key, p);
        FilterCons(y, Insert(x, t, key), p);
        if p(x) && p(y) {
          InsertCons(x, y, Filter(t, p), key);
        }
      }
    }
  }

  lemma SortedTail<T>(s: seq<T>, key: T -> Key)
    requires SortedBy(s, key) && s != []
    ensures SortedBy(s[1..], key)
  {
    forall i, j | 0 <= i < j < |s[1..]| ensures KeyLe(key(s[1..][i]), key(s[1..][j])) {
      assert s[1..][i] == s[i + 1] && s[1..][j] == s[j + 1];
    }
  }

  /** Filtering and sorting commute: a `where` applied before the `orderBy`
      yields the same list, in the same order, as one applied after it. */
  lemma {:induction false} FilterSortCommute<T>(s: seq<T>, key: T -> Key, p: T -> bool)
    ensures Filter(SortBy(s, key), p) == SortBy(Filter(s, p), key)
  {
    if s != [] {
      FilterSortCommute(s[1..], key, p);
      FilterInsert(s[0], SortBy(s[1..], key), key, p);
      assert s == [s[0]] + s[1..];
      FilterCons(s[0], s[1..], p);
      if p(s[0]) {
        var f := [s[0]] + Filter(s[1..], p);
        assert f[0] == s[0] && f[1..] == Filter(s[1..], p);
      }
    }
  }

  /** The number of times `Filter` keeps `x` is its count in `s` when it
      satisfies `p`, and zero otherwise. */
  lemma {:induction false} FilterCount<T>(s: seq<T>, p: T -> bool, x: T)
    ensures multiset(Filter(s, p))[x] == if p(x) then multiset(s)[x] else 0
  {
    if s != [] {
      FilterCount(s[1..], p, x);
      assert s == [s[0]] + s[1..];
      assert multiset(s) == multiset{s[0]} + multiset(s[1..]);
      if p(s[0]) {
        assert multiset(Filter(s, p)) == multiset{s[0]} + multiset(Filter(s[1..], p));
      }
    }
  }

  // ------------------------------------------------------------------
  // A table keyed by ids below a bound, listed in id order
  // ------------------------------------------------------------------

  /** The records of `m` whose ids are below `n`, in ascending id order. */
  function Listing<R>(m: map<nat, R>, n: nat): seq<R>
    decreases n
  {
    if n == 0 then []
    else Listing(m, n - 1) + (if n - 1 in m then [m[n - 1]] else [])
  }

  /** When every record carries its own key as id, the listing holds each
      stored record below the bound exactly once and nothing else. */
  lemma {:induction false} ListingCount<R>(m: map<nat, R>, n: nat, id: R -> nat, x: R)
    requires forall k :: k in m ==> id(m[k]) == k
    ensures multiset(Listing(m, n))[x] == if id(x) < n && id(x) in m && m[id(x)] == x then 1 else 0
  {
    if n > 0 {
      ListingCount(m, n - 1, id, x);
      var last := if n - 1 in m then [m[n - 1]] else [];
      assert multiset(Listing(m, n)) == multiset(Listing(m, n - 1)) + multiset(last);
      if n - 1 in m && m[n - 1] == x {
        assert id(x) == n - 1;
      }
    }
  }
}

/** `order_by` and Python's `sorted`: a stable sort of rows by a key of up to
    three integers compared lexicographically (a descending field is a
    negated component). */
module Sorting {
  import opened Seqs

  type Key = (int, int, int)

  /** Lexicographic comparison of keys. */
  predicate KeyLe(x: Key, y: Key) {
    x.0 < y.0 || (x.0 == y.0 && (x.1 < y.1 || (x.1 == y.1 && x.2 <= y.2)))
  }

  lemma KeyLeTotal(x: Key, y: Key)
    ensures KeyLe(x, y) || KeyLe(y, x)
  {
  }

  predicate SortedBy<T>(s: seq<T>, key: T -> Key) {
    forall i, j :: 0 <= i < j < |s| ==> KeyLe(key(s[i]), key(s[j]))
  }

  /** Inserts x after every element whose key is not greater than x's key:
      equal keys keep their arrival order. */
  function Insert<T(==)>(x: T, s: seq<T>, key: T -> Key): (r: seq<T>)
    ensures multiset(r) == multiset(s) + multiset{x}
    ensures |r| == |s| + 1
  {
    if |s| == 0 then [x]
    else if KeyLe(key(s[|s| - 1]), key(x)) then s + [x]
    else
      assert s == s[..|s| - 1] + [s[|s| - 1]];
      Insert(x, s[..|s| - 1], key) + [s[|s| - 1]]
  }

  /** Inserting into a sorted sequence keeps it sorted. */
  lemma {:induction false} InsertSorted<T>(x: T, s: seq<T>, key: T -> Key)
    requires SortedBy(s, key)
    ensures SortedBy(Insert(x, s, key), key)
  {
    if |s| > 0 && !KeyLe(key(s[|s| - 1]), key(x)) {
      var init := s[..|s| - 1];
      var last := s[|s| - 1];
      InsertSorted(x, init, key);
      var m := Insert(x, init, key);
      forall y | y in m ensures KeyLe(key(y), key(last)) {
        assert y in multiset(m);
        if y != x {
          assert y in multiset(init);
          var k :| 0 <= k < |init| && init[k] == y;
          assert s[k] == y;
        }
      }
      var r := m + [last];
      forall i, j | 0 <= i < j < |r| ensures KeyLe(key(r[i]), key(r[j])) {
        if j == |r| - 1 {
          assert r[i] == m[i] && m[i] in m;
        } else {
          assert r[i] == m[i] && r[j] == m[j];
        }
      }
    }
  }

  /** A stable sort (see SortByStable): equal keys keep their input order. */
  function SortBy<T(==)>(s: seq<T>, key: T -> Key): (r: seq<T>)
    ensures SortedBy(r, key)
    ensures multiset(r) == multiset(s)
    ensures |r| == |s|
  {
    if |s| == 0 then []
    else
      assert s == s[..|s| - 1] + [s[|s| - 1]];
      var sorted := SortBy(s[..|s| - 1], key);
      InsertSorted(s[|s| - 1], sorted, key);
      Insert(s[|s| - 1], sorted, key)
  }

  /** Inserting x leaves the rows of each key in their order, x coming
      after the rows of its own key. */
  lemma {:induction false} InsertKeepsKeyOrder<T(!new)>(x: T, s: seq<T>, key: T -> Key, p: T -> bool, k: Key)
    requires forall y :: p(y) <==> key(y) == k
    ensures Where(Insert(x, s, key), p) == Where(s, p) + (if p(x) then [x] else [])
  {
    if |s| == 0 {
      assert Insert(x, s, key) == s + [x];
      WhereSnoc(s, x, p);
    } else if KeyLe(key(s[|s| - 1]), key(x)) {
      WhereSnoc(s, x, p);
    } else {
      var init, last := s[..|s| - 1], s[|s| - 1];
      assert s == init + [last];
      assert Insert(x, s, key) == Insert(x, init, key) + [last];
      InsertKeepsKeyOrder(x, init, key, p, k);
      WhereSnoc(Insert(x, init, key), last, p);
      WhereSnoc(init, last, p);
      var w := Where(init, p);
      if p(x) {
        assert !p(last);
        assert Where(Insert(x, s, key), p) == w + [x];
        assert Where(s, p) == w;
      } else {
        assert Where(Insert(x, s, key), p) == w + (if p(last) then [last] else []);
        assert Where(s, p) == w + (if p(last) then [last] else []);
      }
    }
  }

  /** The sort is stable: the rows of any one key come out in their input
      order. */
  lemma {:induction false} SortByStable<T(!new)>(s: seq<T>, key: T -> Key, p: T -> bool, k: Key)
    requires forall y :: p(y) <==> key(y) == k
    ensures Where(SortBy(s, key), p) == Where(s, p)
  {
    if |s| > 0 {
      var init, last := s[..|s| - 1], s[|s| - 1];
      assert s == init + [last];
      SortByStable(init, key, p, k);
      InsertKeepsKeyOrder(last, SortBy(init, key), key, p, k);
      WhereSnoc(init, last, p);
    }
  }

  /** A row whose key is not below the last row's goes at the end. */
  lemma InsertAtEnd<T>(x: T, s: seq<T>, key: T -> Key)
    requires |s| == 0 || KeyLe(key(s[|s| - 1]), key(x))
    ensures Insert(x, s, key) == s + [x]
  {
  }

  /** Sorting rows that are already in order changes nothing. */
  lemma {:induction false} SortSorted<T>(s: seq<T>, key: T -> Key)
    requires SortedBy(s, key)
    ensures SortBy(s, key) == s
  {
    if |s| > 0 {
      var init, last := s[..|s| - 1], s[|s| - 1];
      assert SortedBy(init, key) by {
        forall i, j | 0 <= i < j < |init| ensures KeyLe(key(init[i]), key(init[j])) {
          assert init[i] == s[i] && init[j] == s[j];
        }
      }
      SortSorted(init, key);
      assert s == init + [last];
      if |init| > 0 {
        assert init[|init| - 1] == s[|s| - 2];
      }
      InsertAtEnd(last, init, key);
    }
  }

  /** Sorting keeps exactly the same rows. */
  lemma SortKeepsMembers<T>(s: seq<T>, key: T -> Key, x: T)
    ensures x in SortBy(s, key) <==> x in s
  {
    var r := SortBy(s, key);
    assert x in r <==> x in multiset(r);
    assert x in s <==> x in multiset(s);
  }

  /** Sorting keeps rows distinct. */
  lemma SortNoDup<T(!new)>(ts: seq<T>, key: T -> Key)
    requires NoDup(ts)
    ensures NoDup(SortBy(ts, key))
  {
    var r := SortBy(ts, key);
    forall i, j | 0 <= i < j < |r| ensures r[i] != r[j] {
      if r[i] == r[j] {
        MultisetTwice(r, i, j);
        assert multiset(ts)[r[i]] >= 2;
        NoDupAtMostOnce(ts, r[i]);
        assert false;
      }
    }
  }

  lemma {:induction false} MultisetTwice<T>(s: seq<T>, i: nat, j: nat)
    requires 0 <= i < j < |s| && s[i] == s[j]
    ensures multiset(s)[s[i]] >= 2
  {
    assert s == s[..i] + [s[i]] + s[i + 1..j] + [s[j]] + s[j + 1..];
  }

  lemma {:induction false} NoDupAtMostOnce<T(!new)>(s: seq<T>, x: T)
    requires NoDup(s)
    ensures multiset(s)[x] <= 1
  {
    if |s| > 0 {
      var init := s[..|s| - 1];
      assert NoDup(init) by {
        assert forall i, j :: 0 <= i < j < |init| ==> init[i] == s[i] && init[j] == s[j];
      }
      NoDupAtMostOnce(init, x);
      assert s == init + [s[|s| - 1]];
      if x == s[|s| - 1] {
        assert x !in init by {
          assert forall k :: 0 <= k < |init| ==> init[k] == s[k];
        }
      }
    }
  }

  /** Filtering keeps rows in the order a sort put them in. */
  lemma {:induction false} WhereSorted<T(!new)>(ts: seq<T>, p: T -> bool, key: T -> Key)
    requires SortedBy(ts, key)
    ensures SortedBy(Where(ts, p), key)
  {
    if |ts| > 0 {
      assert SortedBy(ts[1..], key) by {
        assert forall i :: 0 <= i < |ts[1..]| ==> ts[1..][i] == ts[i + 1];
      }
      WhereSorted(ts[1..], p, key);
      var rest := Where(ts[1..], p);
      if p(ts[0]) {
        forall j | 0 <= j < |rest| ensures KeyLe(key(ts[0]), key(rest[j])) {
          assert rest[j] in ts[1..];
          var k :| 0 <= k < |ts[1..]| && ts[1..][k] == rest[j];
          assert ts[k + 1] == rest[j];
        }
        var r := [ts[0]] + rest;
        forall i, j | 0 <= i < j < |r| ensures KeyLe(key(r[i]), key(r[j])) {
          if i > 0 {
            assert r[i] == rest[i - 1] && r[j] == rest[j - 1];
          }
        }
      }
    }
  }
}

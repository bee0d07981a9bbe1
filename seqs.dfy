/** Querysets as sequences: filtering keeps table order, counting is length,
    de-duplication keeps first occurrences (the "append if not already
    there" pattern used by the application's loops). */
module Seqs {

  /** `queryset.filter(p)`: the rows satisfying p, in their original order. */
  function Where<T(!new)>(s: seq<T>, p: T -> bool): (r: seq<T>)
    ensures |r| <= |s|
    ensures forall x :: x in r <==> x in s && p(x)
  {
    if |s| == 0 then []
    else (if p(s[0]) then [s[0]] else []) + Where(s[1..], p)
  }

  /** Counting the rows that satisfy p and the rows that do not gives the
      size of the whole set. */
  lemma {:induction false} WherePartition<T(!new)>(s: seq<T>, p: T -> bool, q: T -> bool)
    requires forall x :: q(x) == !p(x)
    ensures |Where(s, p)| + |Where(s, q)| == |s|
  {
    if |s| > 0 {
      WherePartition(s[1..], p, q);
    }
  }

  /** Filtering twice by the same condition is filtering once. */
  lemma WhereIdempotent<T(!new)>(s: seq<T>, p: T -> bool)
    ensures Where(Where(s, p), p) == Where(s, p)
  {
    WhereAll(Where(s, p), p);
  }

  /** Two successive filters are one filter by the conjunction. */
  lemma {:induction false} WhereWhere<T(!new)>(s: seq<T>, p: T -> bool, q: T -> bool, pq: T -> bool)
    requires forall x :: pq(x) == (p(x) && q(x))
    ensures Where(Where(s, p), q) == Where(s, pq)
  {
    if |s| > 0 {
      WhereWhere(s[1..], p, q, pq);
      var head := if p(s[0]) then [s[0]] else [];
      assert Where(s, p) == head + Where(s[1..], p);
      WhereAppend(head, Where(s[1..], p), q);
    }
  }

  /** Filtering distributes over concatenation. */
  lemma {:induction false} WhereAppend<T(!new)>(a: seq<T>, b: seq<T>, p: T -> bool)
    ensures Where(a + b, p) == Where(a, p) + Where(b, p)
  {
    if |a| > 0 {
      WhereAppend(a[1..], b, p);
      WhereCons(a, b, p);
      AppendAssoc(if p(a[0]) then [a[0]] else [], Where(a[1..], p), Where(b, p));
    } else {
      assert a + b == b;
    }
  }

  lemma WhereCons<T(!new)>(a: seq<T>, b: seq<T>, p: T -> bool)
    requires |a| > 0
    ensures Where(a + b, p) == (if p(a[0]) then [a[0]] else []) + Where(a[1..] + b, p)
  {
    assert (a + b)[1..] == a[1..] + b;
    assert (a + b)[0] == a[0];
  }

  /** Filtering by a condition every row already meets changes nothing. */
  lemma {:induction false} WhereAll<T(!new)>(s: seq<T>, p: T -> bool)
    requires forall x :: x in s ==> p(x)
    ensures Where(s, p) == s
  {
    if |s| > 0 {
      WhereAll(s[1..], p);
      assert s == [s[0]] + s[1..];
    }
  }

  /** Filtering by a condition no row meets gives nothing. */
  lemma {:induction false} WhereNone<T(!new)>(s: seq<T>, p: T -> bool)
    requires forall x :: x in s ==> !p(x)
    ensures Where(s, p) == []
  {
    if |s| > 0 {
      WhereNone(s[1..], p);
    }
  }

  predicate NoDup<T(==,!new)>(s: seq<T>) {
    forall i, j :: 0 <= i < j < |s| ==> s[i] != s[j]
  }

  /** Filtering never introduces a duplicate. */
  lemma {:induction false} WhereNoDup<T(!new)>(s: seq<T>, p: T -> bool)
    requires NoDup(s)
    ensures NoDup(Where(s, p))
  {
    if |s| > 0 {
      WhereNoDup(s[1..], p);
      var rest := Where(s[1..], p);
      if p(s[0]) {
        assert s[0] !in s[1..];
        assert s[0] !in rest;
        var r := [s[0]] + rest;
        forall i, j | 0 <= i < j < |r| ensures r[i] != r[j] {
          if i == 0 { assert r[j] in rest; }
          else { assert r[i] == rest[i - 1] && r[j] == rest[j - 1]; }
        }
      }
    }
  }

  /** Keeps the first occurrence of every element, in order: the result of
      appending each element unless it is already present. */
  function Dedup<T(==,!new)>(s: seq<T>): (r: seq<T>)
    ensures NoDup(r)
    ensures forall x :: x in r <==> x in s
    ensures |r| <= |s|
  {
    if |s| == 0 then []
    else
      var d := Dedup(s[..|s| - 1]);
      var x := s[|s| - 1];
      assert forall y :: y in s <==> y in s[..|s| - 1] || y == x by {
        assert s == s[..|s| - 1] + [x];
      }
      if x in d then d else d + [x]
  }

  /** A sequence without duplicates is its own de-duplication. */
  lemma {:induction false} DedupNoDup<T(!new)>(s: seq<T>)
    requires NoDup(s)
    ensures Dedup(s) == s
  {
    if |s| > 0 {
      var p := s[..|s| - 1];
      assert NoDup(p);
      DedupNoDup(p);
      assert s[|s| - 1] !in p;
      assert s == p + [s[|s| - 1]];
    }
  }

  /** The number of elements equal to x. */
  function Occurrences<T(==,!new)>(s: seq<T>, x: T): nat {
    if |s| == 0 then 0 else (if s[0] == x then 1 else 0) + Occurrences(s[1..], x)
  }

  /** In a sequence without duplicates every member occurs exactly once. */
  lemma {:induction false} NoDupOccursOnce<T(!new)>(s: seq<T>, x: T)
    requires NoDup(s)
    ensures Occurrences(s, x) == if x in s then 1 else 0
  {
    if |s| > 0 {
      NoDupOccursOnce(s[1..], x);
      assert s[0] !in s[1..];
      assert x in s <==> x == s[0] || x in s[1..];
    }
  }

  /** Concatenation of the sequences in a sequence. */
  function Flatten<T(!new)>(ss: seq<seq<T>>): seq<T> {
    if |ss| == 0 then [] else ss[0] + Flatten(ss[1..])
  }

  lemma {:induction false} FlattenAppend<T(!new)>(ss: seq<seq<T>>, ts: seq<seq<T>>)
    ensures Flatten(ss + ts) == Flatten(ss) + Flatten(ts)
  {
    if |ss| > 0 {
      FlattenAppend(ss[1..], ts);
      assert (ss + ts)[1..] == ss[1..] + ts;
    } else {
      assert ss + ts == ts;
    }
  }

  /** Two sequences without duplicates and without a common element
      concatenate to one without duplicates. */
  lemma NoDupAppend<T(!new)>(a: seq<T>, b: seq<T>)
    requires NoDup(a) && NoDup(b)
    requires forall x :: x in a ==> x !in b
    ensures NoDup(a + b)
  {
    var r := a + b;
    forall i, j | 0 <= i < j < |r| ensures r[i] != r[j] {
      if j < |a| {
        assert r[i] == a[i] && r[j] == a[j];
      } else if i >= |a| {
        assert r[i] == b[i - |a|] && r[j] == b[j - |a|];
      } else {
        assert r[i] == a[i] && r[j] == b[j - |a|];
        assert r[i] in a && r[j] in b;
      }
    }
  }

  lemma NoDupCons<T(!new)>(x: T, s: seq<T>)
    requires NoDup(s) && x !in s
    ensures NoDup([x] + s)
  {
    NoDupAppend([x], s);
  }

  /** A sequence without duplicates drawn from a set is no longer than the
      set. */
  lemma {:induction false} NoDupBound<T(!new)>(s: seq<T>, bound: set<T>)
    requires NoDup(s)
    requires forall x :: x in s ==> x in bound
    ensures |s| <= |bound|
  {
    if |s| > 0 {
      assert s[0] !in s[1..];
      NoDupBound(s[1..], bound - {s[0]});
    }
  }

  /** n copies of x. */
  function Repeat<T(!new)>(x: T, n: nat): (r: seq<T>)
    ensures |r| == n
    ensures forall y :: y in r <==> n > 0 && y == x
  {
    if n == 0 then [] else [x] + Repeat(x, n - 1)
  }

  /** A sequence with no member is empty. */
  lemma NoMemberEmpty<T>(s: seq<T>)
    ensures (forall x :: x !in s) ==> s == []
  {
    if |s| > 0 {
      assert s[0] in s;
    }
  }

  /** A sequence without duplicates has as many elements as the set of
      its elements. */
  lemma {:induction false} NoDupCard<T(!new)>(s: seq<T>)
    requires NoDup(s)
    ensures |set x | x in s| == |s|
  {
    if |s| > 0 {
      var init := s[..|s| - 1];
      var last := s[|s| - 1];
      assert NoDup(init) by {
        assert forall i :: 0 <= i < |init| ==> init[i] == s[i];
      }
      NoDupCard(init);
      assert last !in init by {
        assert forall i :: 0 <= i < |init| ==> init[i] == s[i];
      }
      assert (set x | x in s) == (set x | x in init) + {last} by {
        assert s == init + [last];
      }
    }
  }

  /** A prefix one longer ends with the next element. */
  lemma TakeSnoc<T>(s: seq<T>, k: nat)
    requires k < |s|
    ensures s[..k + 1] == s[..k] + [s[k]]
  {
    assert s[..k + 1][..k] == s[..k];
  }

  /** A non-empty sequence is its prefix followed by its last element. */
  lemma LastSplit<T>(s: seq<T>)
    requires |s| > 0
    ensures s == s[..|s| - 1] + [s[|s| - 1]]
  {
  }

  /** The prefix of a sequence extended by one element is the sequence. */
  lemma SnocPrefix<T>(a: seq<T>, x: T)
    ensures (a + [x])[..|a|] == a
  {
  }

  /** Filtering a sequence extended by one element. */
  lemma WhereSnoc<T(!new)>(s: seq<T>, x: T, p: T -> bool)
    ensures Where(s + [x], p) == Where(s, p) + (if p(x) then [x] else [])
  {
    WhereAppend(s, [x], p);
    assert Where([x], p) == (if p(x) then [x] else []) + Where([], p);
  }

  /** Writing the same position twice keeps the second value. */
  lemma UpdateTwice<T>(s: seq<T>, i: nat, a: T, b: T)
    requires i < |s|
    ensures s[i := a][i := b] == s[i := b]
  {
    var x, y := s[i := a][i := b], s[i := b];
    forall k | 0 <= k < |x| ensures x[k] == y[k] { }
  }

  /** Concatenation is associative. */
  lemma AppendAssoc<T>(a: seq<T>, b: seq<T>, c: seq<T>)
    ensures a + (b + c) == (a + b) + c
  {
    var x, y := a + (b + c), (a + b) + c;
    forall k | 0 <= k < |x| ensures x[k] == y[k] { }
  }
}

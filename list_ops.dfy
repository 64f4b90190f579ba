/**
 * The two array built-ins the registry's queries are made of:
 * `Array.prototype.filter` and the stable `Array.prototype.sort`, used with the
 * comparator `(a, b) => time(b) - time(a)` (newest first).
 */
module ListOps {

  /** `s.filter(p)`: the elements satisfying `p`, in their original order. */
  function Filter<T(!new)>(s: seq<T>, p: T -> bool): (r: seq<T>)
    ensures |r| <= |s|
    ensures forall x :: x in r <==> x in s && p(x)
  {
    if s == [] then []
    else
      assert forall x :: x in s <==> x == s[0] || x in s[1..];
      (if p(s[0]) then [s[0]] else []) + Filter(s[1..], p)
  }

  function Not<T>(p: T -> bool): T -> bool
  {
    x => !p(x)
  }

  /** Filtering by a predicate and by its negation splits `s`: together the two keep every element once. */
  lemma {:induction false} FilterSplit<T(!new)>(s: seq<T>, p: T -> bool)
    ensures multiset(Filter(s, p)) + multiset(Filter(s, Not(p))) == multiset(s)
  {
    if s != [] {
      var x, rest := s[0], s[1..];
      FilterSplit(rest, p);
      assert s == [x] + rest;
      if p(x) {
        assert Filter(s, p) == [x] + Filter(rest, p);
        assert Filter(s, Not(p)) == Filter(rest, Not(p));
      } else {
        assert Filter(s, p) == Filter(rest, p);
        assert Filter(s, Not(p)) == [x] + Filter(rest, Not(p));
      }
    }
  }

  /** Filtering distributes over concatenation: relative order is kept. */
  lemma {:induction false} FilterAppend<T(!new)>(a: seq<T>, b: seq<T>, p: T -> bool)
    ensures Filter(a + b, p) == Filter(a, p) + Filter(b, p)
  {
    if a == [] {
      assert a + b == b;
    } else {
      assert (a + b)[0] == a[0];
      assert (a + b)[1..] == a[1..] + b;
      FilterAppend(a[1..], b, p);
    }
  }

  /** A filter every element passes returns its input unchanged. */
  lemma {:induction false} FilterKeepsAll<T(!new)>(s: seq<T>, p: T -> bool)
    requires forall x :: x in s ==> p(x)
    ensures Filter(s, p) == s
  {
    if s != [] {
      assert forall x :: x in s[1..] ==> x in s;
      FilterKeepsAll(s[1..], p);
    }
  }

  /** Filters with predicates that agree on every element return the same list. */
  lemma {:induction false} FilterSamePredicate<T(!new)>(s: seq<T>, p: T -> bool, q: T -> bool)
    requires forall x :: x in s ==> p(x) == q(x)
    ensures Filter(s, p) == Filter(s, q)
  {
    if s != [] {
      assert forall x :: x in s[1..] ==> x in s;
      FilterSamePredicate(s[1..], p, q);
    }
  }

  /** The last element of a non-empty filter result is the last element of `s` that passes. */
  lemma {:induction false} FilterLast<T(!new)>(s: seq<T>, p: T -> bool) returns (j: nat)
    requires Filter(s, p) != []
    ensures j < |s| && p(s[j])
    ensures s[j] == Filter(s, p)[|Filter(s, p)| - 1]
    ensures forall i :: j < i < |s| ==> !p(s[i])
  {
    var rest := Filter(s[1..], p);
    if rest != [] {
      var k := FilterLast(s[1..], p);
      j := k + 1;
    } else {
      assert forall i :: 1 <= i < |s| ==> !p(s[i]) by {
        forall i | 1 <= i < |s| ensures !p(s[i]) {
          assert s[i] in s[1..];
        }
      }
      j := 0;
    }
  }

  /** Non-increasing `time` along `s`: the order `sort` produces with a newest-first comparator. */
  ghost predicate NewestFirst<T>(s: seq<T>, time: T -> nat)
  {
    forall i, j :: 0 <= i < j < |s| ==> time(s[i]) >= time(s[j])
  }

  /** The elements of `s` whose `time` is `t`, in order. */
  function WithTime<T>(s: seq<T>, time: T -> nat, t: nat): seq<T>
  {
    if s == [] then [] else (if time(s[0]) == t then [s[0]] else []) + WithTime(s[1..], time, t)
  }

  /** Puts `x` in front of the first element that is not strictly newer than `x`. */
  function InsertNewest<T>(x: T, s: seq<T>, time: T -> nat): (r: seq<T>)
    ensures multiset(r) == multiset(s) + multiset{x}
  {
    if s == [] || time(s[0]) <= time(x) then
      [x] + s
    else
      assert s == [s[0]] + s[1..];
      [s[0]] + InsertNewest(x, s[1..], time)
  }

  /** Inserting into a newest-first list keeps it newest first. */
  lemma {:induction false} InsertNewestSorted<T>(x: T, s: seq<T>, time: T -> nat)
    requires NewestFirst(s, time)
    ensures NewestFirst(InsertNewest(x, s, time), time)
  {
    if s == [] || time(s[0]) <= time(x) {
      if s != [] {
        assert forall j :: 0 <= j < |s| ==> time(s[0]) >= time(s[j]);
      }
    } else {
      var rest := InsertNewest(x, s[1..], time);
      InsertNewestSorted(x, s[1..], time);
      forall j | 0 <= j < |rest| ensures time(s[0]) >= time(rest[j]) {
        assert rest[j] in multiset(rest);
        if rest[j] != x {
          assert rest[j] in multiset(s[1..]);
          var k :| 0 <= k < |s[1..]| && s[1..][k] == rest[j];
          assert s[k + 1] == rest[j];
        }
      }
    }
  }

  /**
   * A stable sort, newest first: insertion sort that inserts each element in front of
   * every element with an equal time, so equal times keep their input order.
   */
  function SortNewestFirst<T>(s: seq<T>, time: T -> nat): (r: seq<T>)
    ensures multiset(r) == multiset(s)
    ensures NewestFirst(r, time)
  {
    if s == [] then []
    else
      assert s == [s[0]] + s[1..];
      InsertNewestSorted(s[0], SortNewestFirst(s[1..], time), time);
      InsertNewest(s[0], SortNewestFirst(s[1..], time), time)
  }

  lemma {:induction false} InsertNewestWithTime<T>(x: T, s: seq<T>, time: T -> nat, t: nat)
    ensures WithTime(InsertNewest(x, s, time), time, t)
         == (if time(x) == t then [x] else []) + WithTime(s, time, t)
  {
    var xs: seq<T> := if time(x) == t then [x] else [];
    if s == [] || time(s[0]) <= time(x) {
      var r := [x] + s;
      assert r[0] == x && r[1..] == s;
      assert WithTime(r, time, t) == xs + WithTime(s, time, t);
    } else {
      var rest := InsertNewest(x, s[1..], time);
      var r := [s[0]] + rest;
      var hs: seq<T> := if time(s[0]) == t then [s[0]] else [];
      assert r[0] == s[0] && r[1..] == rest;
      assert WithTime(r, time, t) == hs + WithTime(rest, time, t);
      InsertNewestWithTime(x, s[1..], time, t);
      assert WithTime(s, time, t) == hs + WithTime(s[1..], time, t);
      assert hs == [] || xs == [];
    }
  }

  /** Stability: for each time value, the elements carrying it appear in their input order. */
  lemma {:induction false} SortNewestFirstStable<T>(s: seq<T>, time: T -> nat, t: nat)
    ensures WithTime(SortNewestFirst(s, time), time, t) == WithTime(s, time, t)
  {
    if s != [] {
      SortNewestFirstStable(s[1..], time, t);
      InsertNewestWithTime(s[0], SortNewestFirst(s[1..], time), time, t);
    }
  }

  /** No two elements of `s` share a key. */
  ghost predicate DistinctBy<T, K>(s: seq<T>, key: T -> K)
  {
    forall i, j :: 0 <= i < j < |s| ==> key(s[i]) != key(s[j])
  }

  lemma {:induction false} InsertNewestDistinctBy<T, K>(x: T, s: seq<T>, time: T -> nat, key: T -> K)
    requires DistinctBy(s, key)
    requires forall y :: y in s ==> key(y) != key(x)
    ensures DistinctBy(InsertNewest(x, s, time), key)
  {
    if s == [] || time(s[0]) <= time(x) {
      var r := [x] + s;
      forall i, j | 0 <= i < j < |r| ensures key(r[i]) != key(r[j]) {
        if i == 0 {
          assert r[j] == s[j - 1] && s[j - 1] in s;
        } else {
          assert r[i] == s[i - 1] && r[j] == s[j - 1];
        }
      }
    } else {
      var rest := InsertNewest(x, s[1..], time);
      assert DistinctBy(s[1..], key) by {
        forall i, j | 0 <= i < j < |s[1..]| ensures key(s[1..][i]) != key(s[1..][j]) {
          assert s[1..][i] == s[i + 1] && s[1..][j] == s[j + 1];
        }
      }
      assert forall y :: y in s[1..] ==> y in s;
      InsertNewestDistinctBy(x, s[1..], time, key);
      var r := [s[0]] + rest;
      forall i, j | 0 <= i < j < |r| ensures key(r[i]) != key(r[j]) {
        if i == 0 {
          assert r[j] in multiset(rest);
          if r[j] != x {
            assert r[j] in multiset(s[1..]);
            var k :| 0 <= k < |s[1..]| && s[1..][k] == r[j];
            assert s[k + 1] == r[j];
          } else {
            assert s[0] in s;
          }
        } else {
          assert r[i] == rest[i - 1] && r[j] == rest[j - 1];
        }
      }
    }
  }

  /** Sorting never makes two elements share a key. */
  lemma {:induction false} SortNewestFirstDistinctBy<T, K>(s: seq<T>, time: T -> nat, key: T -> K)
    requires DistinctBy(s, key)
    ensures DistinctBy(SortNewestFirst(s, time), key)
  {
    if s != [] {
      assert DistinctBy(s[1..], key) by {
        forall i, j | 0 <= i < j < |s[1..]| ensures key(s[1..][i]) != key(s[1..][j]) {
          assert s[1..][i] == s[i + 1] && s[1..][j] == s[j + 1];
        }
      }
      SortNewestFirstDistinctBy(s[1..], time, key);
      var sorted := SortNewestFirst(s[1..], time);
      forall y | y in sorted ensures key(y) != key(s[0]) {
        assert y in multiset(sorted);
        assert y in multiset(s[1..]);
        var k :| 0 <= k < |s[1..]| && s[1..][k] == y;
        assert s[k + 1] == y;
      }
      InsertNewestDistinctBy(s[0], sorted, time, key);
    }
  }
}

/**
 * The ordering of the leaderboard: students by total score, highest first, with
 * students of equal score kept in their original order, as the page's
 * `sort((a, b) => b.score - a.score)` does with a stable sort (section
 * 22.1.3.27 of ECMA-262, 10th edition, requires `Array.prototype.sort` to be stable).
 */
module ScoreSort {
  import opened Entities

  /** Scores never increase from left to right. */
  predicate SortedDesc(s: seq<Student>) {
    forall i, j :: 0 <= i < j < |s| ==> s[i].score >= s[j].score
  }

  /** The students of `s` whose score is `k`, in their order in `s`. */
  function WithScore(s: seq<Student>, k: int): seq<Student> {
    if s == [] then []
    else WithScore(s[..|s| - 1], k) + (if s[|s| - 1].score == k then [s[|s| - 1]] else [])
  }

  /**
   * `t` with `x` placed after every element of `t`, scanning from the right, until
   * one whose score is at least `x`'s: one step of an insertion sort.
   */
  function Insert(x: Student, t: seq<Student>): seq<Student> {
    if t == [] then [x]
    else if t[|t| - 1].score >= x.score then t + [x]
    else Insert(x, t[..|t| - 1]) + [t[|t| - 1]]
  }

  /** The students of `s` by score, highest first, equal scores in their order in `s`. */
  function SortByScore(s: seq<Student>): seq<Student> {
    if s == [] then [] else Insert(s[|s| - 1], SortByScore(s[..|s| - 1]))
  }

  lemma {:induction false} InsertIsPermutation(x: Student, t: seq<Student>)
    ensures |Insert(x, t)| == |t| + 1
    ensures multiset(Insert(x, t)) == multiset(t) + multiset{x}
  {
    if t != [] && t[|t| - 1].score < x.score {
      var t' := t[..|t| - 1];
      InsertIsPermutation(x, t');
      assert t == t' + [t[|t| - 1]];
    }
  }

  lemma {:induction false} InsertKeepsSorted(x: Student, t: seq<Student>)
    requires SortedDesc(t)
    ensures SortedDesc(Insert(x, t))
  {
    if t != [] && t[|t| - 1].score < x.score {
      var t', last := t[..|t| - 1], t[|t| - 1];
      InsertKeepsSorted(x, t');
      InsertIsPermutation(x, t');
      var u := Insert(x, t');
      forall y | y in u
        ensures y.score >= last.score
      {
        assert y in multiset(t') + multiset{x};
        if y != x {
          assert y in t';
        }
      }
      forall i, j | 0 <= i < j < |u + [last]|
        ensures (u + [last])[i].score >= (u + [last])[j].score
      {
        if j == |u| {
          assert (u + [last])[i] == u[i] && u[i] in u;
        }
      }
    }
  }

  lemma {:induction false} WithScoreAppend(a: seq<Student>, b: seq<Student>, k: int)
    ensures WithScore(a + b, k) == WithScore(a, k) + WithScore(b, k)
  {
    if b == [] {
      assert a + b == a;
    } else {
      var b' := b[..|b| - 1];
      WithScoreAppend(a, b', k);
      assert (a + b)[..|a + b| - 1] == a + b';
    }
  }

  /** Inserting `x` adds it after every student of its own score and moves no one else of any score. */
  lemma {:induction false} InsertIsStable(x: Student, t: seq<Student>, k: int)
    ensures WithScore(Insert(x, t), k) == WithScore(t, k) + (if x.score == k then [x] else [])
  {
    if t == [] {
    } else if t[|t| - 1].score >= x.score {
      assert (t + [x])[..|t|] == t;
    } else {
      var t', last := t[..|t| - 1], t[|t| - 1];
      var u := Insert(x, t');
      InsertIsStable(x, t', k);
      assert (u + [last])[..|u|] == u;
      var xs := if x.score == k then [x] else [];
      var ls := if last.score == k then [last] else [];
      assert WithScore(u + [last], k) == WithScore(t', k) + xs + ls;
      assert WithScore(t, k) == WithScore(t', k) + ls;
      assert xs == [] || ls == [];
    }
  }

  /** The sorted list is a permutation of the input and its scores never increase. */
  lemma {:induction false} SortByScoreOrders(s: seq<Student>)
    ensures |SortByScore(s)| == |s|
    ensures multiset(SortByScore(s)) == multiset(s)
    ensures SortedDesc(SortByScore(s))
  {
    if s != [] {
      var s', last := s[..|s| - 1], s[|s| - 1];
      SortByScoreOrders(s');
      InsertIsPermutation(last, SortByScore(s'));
      InsertKeepsSorted(last, SortByScore(s'));
      assert s == s' + [last];
    }
  }

  /** The students of each score keep their original relative order. */
  lemma {:induction false} SortByScoreIsStable(s: seq<Student>, k: int)
    ensures WithScore(SortByScore(s), k) == WithScore(s, k)
  {
    if s != [] {
      var s', last := s[..|s| - 1], s[|s| - 1];
      SortByScoreIsStable(s', k);
      InsertIsStable(last, SortByScore(s'), k);
    }
  }

  /**
   * The sorted list is a permutation of the input, its scores never increase,
   * and the students of each score keep their original relative order.
   */
  lemma SortByScoreSpec(s: seq<Student>)
    ensures |SortByScore(s)| == |s|
    ensures multiset(SortByScore(s)) == multiset(s)
    ensures SortedDesc(SortByScore(s))
    ensures forall k :: WithScore(SortByScore(s), k) == WithScore(s, k)
  {
    SortByScoreOrders(s);
    forall k
      ensures WithScore(SortByScore(s), k) == WithScore(s, k)
    {
      SortByScoreIsStable(s, k);
    }
  }

  lemma {:induction false} WithScoreMembers(s: seq<Student>, k: int)
    ensures forall x :: x in WithScore(s, k) <==> x in s && x.score == k
  {
    if s != [] {
      WithScoreMembers(s[..|s| - 1], k);
      assert s == s[..|s| - 1] + [s[|s| - 1]];
    }
  }

  /** In a list sorted by score, the last student has the lowest score. */
  lemma LastIsLowest(s: seq<Student>, x: Student)
    requires SortedDesc(s) && x in s
    ensures x.score >= s[|s| - 1].score
  {
    var i :| 0 <= i < |s| && s[i] == x;
  }

  /** Two lists sorted by score with the same students of each score end with the same student. */
  lemma {:induction false} SameLast(u: seq<Student>, v: seq<Student>)
    requires u != [] && v != []
    requires SortedDesc(u) && SortedDesc(v)
    requires forall k :: WithScore(u, k) == WithScore(v, k)
    ensures u[|u| - 1].score == v[|v| - 1].score
  {
    var a, b := u[|u| - 1], v[|v| - 1];
    WithScoreMembers(u, a.score);
    WithScoreMembers(v, a.score);
    WithScoreMembers(u, b.score);
    WithScoreMembers(v, b.score);
    assert a in WithScore(u, a.score);
    assert b in WithScore(v, b.score);
    LastIsLowest(v, a);
    LastIsLowest(u, b);
  }

  /** Dropping the last student of each, once they agree, keeps the students of each score in agreement. */
  lemma {:induction false} DropLast(u: seq<Student>, v: seq<Student>, u': seq<Student>, v': seq<Student>)
    requires u != [] && v != [] && u[|u| - 1].score == v[|v| - 1].score
    requires u' == u[..|u| - 1] && v' == v[..|v| - 1]
    requires forall k :: WithScore(u, k) == WithScore(v, k)
    ensures u[|u| - 1] == v[|v| - 1]
    ensures forall k :: WithScore(u', k) == WithScore(v', k)
  {
    var a, b := u[|u| - 1], v[|v| - 1];
    var m := a.score;
    var uu, vv := WithScore(u', m), WithScore(v', m);
    assert WithScore(u, m) == uu + [a];
    assert WithScore(v, m) == vv + [b];
    assert a == b by {
      assert a == (uu + [a])[|uu|] && b == (vv + [b])[|vv|];
    }
    assert uu == vv by {
      assert uu == (uu + [a])[..|uu|] && vv == (vv + [b])[..|vv|];
    }
    forall k | k != m
      ensures WithScore(u', k) == WithScore(v', k)
    {
      assert WithScore(u, k) == WithScore(u', k);
      assert WithScore(v, k) == WithScore(v', k);
    }
  }

  /**
   * A stable descending sort has one possible result: two lists sorted by score
   * whose students of each score appear in the same order are equal. So any
   * stable sort, the engine's included, produces `SortByScore`.
   */
  lemma {:induction false} StableSortUnique(u: seq<Student>, v: seq<Student>)
    requires SortedDesc(u) && SortedDesc(v)
    requires forall k :: WithScore(u, k) == WithScore(v, k)
    ensures u == v
  {
    if u == [] || v == [] {
      if u != [] {
        WithScoreMembers(u, u[|u| - 1].score);
      } else if v != [] {
        WithScoreMembers(v, v[|v| - 1].score);
      }
    } else {
      var u', v' := u[..|u| - 1], v[..|v| - 1];
      SameLast(u, v);
      DropLast(u, v, u', v');
      StableSortUnique(u', v');
      assert u == u' + [u[|u| - 1]] && v == v' + [v[|v| - 1]];
    }
  }

  /** Any list that is sorted by score and keeps equal scores in input order is `SortByScore` of the input. */
  lemma StableSortIsSortByScore(s: seq<Student>, r: seq<Student>)
    requires SortedDesc(r)
    requires forall k :: WithScore(r, k) == WithScore(s, k)
    ensures r == SortByScore(s)
  {
    SortByScoreSpec(s);
    StableSortUnique(r, SortByScore(s));
  }

  /** The page's in-place sort of its student array, as an insertion sort. */
  method SortByScoreInPlace(a: array<Student>)
    modifies a
    ensures a[..] == SortByScore(old(a[..]))
  {
    ghost var s := a[..];
    var i := 0;
    while i < a.Length
      invariant 0 <= i <= a.Length
      invariant a[..i] == SortByScore(s[..i])
      invariant forall k :: i <= k < a.Length ==> a[k] == s[k]
    {
      assert s[..i + 1][..i] == s[..i];
      InsertAt(a, i);
      i := i + 1;
    }
    assert s[..a.Length] == s;
  }

  /**
   * Insertion puts `x` right after the last student, from the left, whose score
   * is at least `x`'s when every student after that one scores lower.
   */
  lemma {:induction false} InsertPosition(x: Student, p: seq<Student>, j: nat)
    requires j <= |p|
    requires j == 0 || p[j - 1].score >= x.score
    requires forall k :: j <= k < |p| ==> p[k].score < x.score
    ensures Insert(x, p) == p[..j] + [x] + p[j..]
    decreases |p|
  {
    if j == |p| {
      assert p[..j] == p && p[j..] == [];
      if j > 0 {
        assert p[|p| - 1].score >= x.score;
      }
    } else {
      var p', last := p[..|p| - 1], p[|p| - 1];
      InsertPosition(x, p', j);
      assert p'[..j] == p[..j];
      assert p'[j..] + [last] == p[j..];
    }
  }

  /** `x` standing at `j` with `p` split around it is `p[..j] + [x] + p[j..]`. */
  lemma Shifted(arr: seq<Student>, p: seq<Student>, x: Student, j: nat)
    requires |arr| == |p| + 1 && j <= |p|
    requires forall k :: 0 <= k < j ==> arr[k] == p[k]
    requires arr[j] == x
    requires forall k :: j < k < |arr| ==> arr[k] == p[k - 1]
    ensures arr == p[..j] + [x] + p[j..]
  {
    forall k | 0 <= k < |arr|
      ensures arr[k] == (p[..j] + [x] + p[j..])[k]
    {
      if k < j {
        assert (p[..j] + [x] + p[j..])[k] == p[k];
      } else if k > j {
        assert (p[..j] + [x] + p[j..])[k] == p[k - 1];
      }
    }
  }

  /** Moves `a[i]` left past every student of lower score: `a[..i + 1]` becomes `Insert(a[i], a[..i])`. */
  method InsertAt(a: array<Student>, i: nat)
    requires i < a.Length
    modifies a
    ensures a[..i + 1] == Insert(old(a[i]), old(a[..i]))
    ensures forall k :: i < k < a.Length ==> a[k] == old(a[k])
  {
    ghost var p := a[..i];
    var x := a[i];
    var j := i;
    while j > 0 && a[j - 1].score < x.score
      invariant 0 <= j <= i
      invariant forall k :: 0 <= k < j ==> a[k] == p[k]
      invariant a[j] == x
      invariant forall k :: j < k <= i ==> a[k] == p[k - 1]
      invariant forall k :: i < k < a.Length ==> a[k] == old(a[k])
      invariant forall k :: j <= k < i ==> p[k].score < x.score
    {
      a[j] := a[j - 1];
      a[j - 1] := x;
      j := j - 1;
    }
    InsertPosition(x, p, j);
    Shifted(a[..i + 1], p, x, j);
  }
}

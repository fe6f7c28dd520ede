/** Stable sorting by a numeric rank, where a smaller rank sorts first: the
    ordering guarantee of `Array.prototype.sort` since ECMAScript 2019 when
    its comparator compares ranks. */
module StableSorting {
  /** Ranks never decrease along `s`. */
  predicate SortedByRank<T>(s: seq<T>, rank: T -> nat)
  {
    forall i, j :: 0 <= i < j < |s| ==> rank(s[i]) <= rank(s[j])
  }

  /** Places `x` after the trailing run of elements that rank strictly worse
      than it, which is what one insertion step of a stable sort does. */
  function Insert<T>(t: seq<T>, x: T, rank: T -> nat): (r: seq<T>)
    ensures |r| == |t| + 1
  {
    if t == [] || rank(t[|t| - 1]) <= rank(x) then t + [x]
    else Insert(t[..|t| - 1], x, rank) + [t[|t| - 1]]
  }

  /** A stable sort by rank (the ECMAScript 2019 `Array.prototype.sort`
      guarantee), defined by successive insertion. */
  function StableSort<T>(s: seq<T>, rank: T -> nat): (r: seq<T>)
    ensures |r| == |s|
  {
    if s == [] then [] else Insert(StableSort(s[..|s| - 1], rank), s[|s| - 1], rank)
  }

  /** The elements of one rank class, in their order. */
  function WithRank<T>(s: seq<T>, rank: T -> nat, k: nat): seq<T>
  {
    if s == [] then []
    else WithRank(s[..|s| - 1], rank, k) + (if rank(s[|s| - 1]) == k then [s[|s| - 1]] else [])
  }

  lemma {:induction false} WithRankConcat<T>(a: seq<T>, b: seq<T>, rank: T -> nat, k: nat)
    ensures WithRank(a + b, rank, k) == WithRank(a, rank, k) + WithRank(b, rank, k)
  {
    if b == [] {
      assert a + b == a;
    } else {
      WithRankConcat(a, b[..|b| - 1], rank, k);
      assert (a + b)[..|a + b| - 1] == a + b[..|b| - 1];
      assert (a + b)[|a + b| - 1] == b[|b| - 1];
    }
  }

  lemma {:induction false} InsertPermutes<T>(t: seq<T>, x: T, rank: T -> nat)
    ensures multiset(Insert(t, x, rank)) == multiset(t) + multiset{x}
  {
    if !(t == [] || rank(t[|t| - 1]) <= rank(x)) {
      var front := t[..|t| - 1];
      InsertPermutes(front, x, rank);
      assert t == front + [t[|t| - 1]];
    }
  }

  lemma {:induction false} InsertSorted<T>(t: seq<T>, x: T, rank: T -> nat)
    requires SortedByRank(t, rank)
    ensures SortedByRank(Insert(t, x, rank), rank)
  {
    if t == [] || rank(t[|t| - 1]) <= rank(x) {
    } else {
      var front := t[..|t| - 1];
      var last := t[|t| - 1];
      InsertSorted(front, x, rank);
      InsertPermutes(front, x, rank);
      var u := Insert(front, x, rank);
      forall i | 0 <= i < |u|
        ensures rank(u[i]) <= rank(last)
      {
        assert u[i] in multiset(u);
        if u[i] != x {
          assert u[i] in multiset(front);
          var j :| 0 <= j < |front| && front[j] == u[i];
          assert t[j] == u[i];
        }
      }
      assert Insert(t, x, rank) == u + [last];
    }
  }

  lemma {:induction false} InsertWithRank<T>(t: seq<T>, x: T, rank: T -> nat, k: nat)
    ensures WithRank(Insert(t, x, rank), rank, k) == WithRank(t, rank, k) + (if rank(x) == k then [x] else [])
  {
    if t == [] || rank(t[|t| - 1]) <= rank(x) {
      WithRankConcat(t, [x], rank, k);
      assert WithRank([x], rank, k) == WithRank([], rank, k) + (if rank(x) == k then [x] else []);
    } else {
      var front := t[..|t| - 1];
      var last := t[|t| - 1];
      InsertWithRank(front, x, rank, k);
      var u := Insert(front, x, rank);
      assert Insert(t, x, rank) == u + [last];
      assert (u + [last])[..|u + [last]| - 1] == u;
    }
  }

  /** The sort orders by rank. */
  lemma {:induction false} StableSortSorted<T>(s: seq<T>, rank: T -> nat)
    ensures SortedByRank(StableSort(s, rank), rank)
  {
    if s != [] {
      StableSortSorted(s[..|s| - 1], rank);
      InsertSorted(StableSort(s[..|s| - 1], rank), s[|s| - 1], rank);
    }
  }

  /** The sort neither loses nor duplicates an element. */
  lemma {:induction false} StableSortPermutes<T>(s: seq<T>, rank: T -> nat)
    ensures multiset(StableSort(s, rank)) == multiset(s)
  {
    if s != [] {
      var front, x := s[..|s| - 1], s[|s| - 1];
      StableSortPermutes(front, rank);
      InsertPermutes(StableSort(front, rank), x, rank);
      assert StableSort(s, rank) == Insert(StableSort(front, rank), x, rank);
      assert multiset(s) == multiset(front) + multiset{x} by {
        assert s == front + [x];
      }
    }
  }

  /** Ties keep their input order: each rank class appears in the output
      exactly as in the input. */
  lemma {:induction false} StableSortIsStable<T>(s: seq<T>, rank: T -> nat, k: nat)
    ensures WithRank(StableSort(s, rank), rank, k) == WithRank(s, rank, k)
  {
    if s != [] {
      var front := s[..|s| - 1];
      StableSortIsStable(front, rank, k);
      InsertWithRank(StableSort(front, rank), s[|s| - 1], rank, k);
    }
  }


  /** One adjacent swap of an in-place insertion: moving `x` left past a
      worse-ranked neighbour keeps the pending insertion the same. */
  lemma InsertStep<T>(t: seq<T>, u: seq<T>, x: T, j: int, rank: T -> nat)
    requires 0 < j < |u| && u[j] == x && rank(u[j - 1]) > rank(x)
    requires Insert(t, x, rank) == Insert(u[..j], x, rank) + u[j + 1..]
    ensures Insert(t, x, rank) == Insert(u[j - 1 := x][j := u[j - 1]][..j - 1], x, rank) + u[j - 1 := x][j := u[j - 1]][j..]
  {
    var v := u[j - 1 := x][j := u[j - 1]];
    assert u[..j][..j - 1] == v[..j - 1];
    assert v[j..] == [u[j - 1]] + u[j + 1..];
  }

  /** The insertion stops once the left neighbour ranks no worse than `x`. */
  lemma InsertDone<T>(t: seq<T>, u: seq<T>, x: T, j: int, rank: T -> nat)
    requires 0 <= j < |u| && u[j] == x && (j == 0 || rank(u[j - 1]) <= rank(x))
    requires Insert(t, x, rank) == Insert(u[..j], x, rank) + u[j + 1..]
    ensures Insert(t, x, rank) == u
  {
    assert u == u[..j] + [x] + u[j + 1..];
  }
}

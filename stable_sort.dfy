/** A stable sort driven by an integer rank: the model of JavaScript's stable
    `Array.prototype.sort` called with a comparator of the form
    `(a, b) => rank(a) - rank(b)`. */
module StableSort {
  import opened Seqs

  /** Puts `x` in front of the first element whose rank is not below its own. */
  function Insert<T>(rank: T -> int, x: T, t: seq<T>): seq<T>
  {
    if t == [] then [x]
    else if rank(x) <= rank(t[0]) then [x] + t
    else [t[0]] + Insert(rank, x, t[1..])
  }

  /** Insertion sort: each element goes in front of every later element of equal rank. */
  function Sort<T>(rank: T -> int, s: seq<T>): seq<T>
  {
    if s == [] then [] else Insert(rank, s[0], Sort(rank, s[1..]))
  }

  /** Ranks never decrease along `s`. */
  ghost predicate Sorted<T>(rank: T -> int, s: seq<T>)
  {
    forall i, j :: 0 <= i < j < |s| ==> rank(s[i]) <= rank(s[j])
  }

  /** The filter that keeps the elements of rank `v`. */
  function RankIs<T>(rank: T -> int, v: int): T -> bool
  {
    y => rank(y) == v
  }

  lemma {:induction false} InsertPermutes<T>(rank: T -> int, x: T, t: seq<T>)
    ensures multiset(Insert(rank, x, t)) == multiset(t) + multiset{x}
  {
    if t != [] && rank(x) > rank(t[0]) {
      InsertPermutes(rank, x, t[1..]);
      assert t == [t[0]] + t[1..];
    }
  }

  /** Inserting into a sequence whose ranks are all at least `lo` an element of rank at
      least `lo` keeps every rank at least `lo`. */
  lemma {:induction false} InsertAbove<T>(rank: T -> int, x: T, t: seq<T>, lo: int)
    requires rank(x) >= lo && forall i :: 0 <= i < |t| ==> rank(t[i]) >= lo
    ensures forall k :: 0 <= k < |Insert(rank, x, t)| ==> rank(Insert(rank, x, t)[k]) >= lo
  {
    if t != [] && rank(x) > rank(t[0]) {
      var tail := t[1..];
      forall i | 0 <= i < |tail| ensures rank(tail[i]) >= lo {
        assert tail[i] == t[i + 1];
      }
      InsertAbove(rank, x, tail, lo);
      var r := Insert(rank, x, tail);
      forall k | 0 <= k < |[t[0]] + r| ensures rank(([t[0]] + r)[k]) >= lo {
        if k > 0 {
          assert ([t[0]] + r)[k] == r[k - 1];
        }
      }
    }
  }

  lemma {:induction false} InsertKeepsSorted<T>(rank: T -> int, x: T, t: seq<T>)
    requires Sorted(rank, t)
    ensures Sorted(rank, Insert(rank, x, t))
  {
    if t != [] && rank(x) > rank(t[0]) {
      var tail := t[1..];
      assert Sorted(rank, tail) by {
        forall i, j | 0 <= i < j < |tail| ensures rank(tail[i]) <= rank(tail[j]) {
          assert tail[i] == t[i + 1] && tail[j] == t[j + 1];
        }
      }
      InsertKeepsSorted(rank, x, tail);
      forall i | 0 <= i < |tail| ensures rank(tail[i]) >= rank(t[0]) {
        assert tail[i] == t[i + 1];
      }
      InsertAbove(rank, x, tail, rank(t[0]));
      var r := Insert(rank, x, tail);
      var whole := [t[0]] + r;
      forall i, j | 0 <= i < j < |whole| ensures rank(whole[i]) <= rank(whole[j]) {
        if i > 0 {
          assert whole[i] == r[i - 1] && whole[j] == r[j - 1];
        } else {
          assert whole[j] == r[j - 1];
        }
      }
    }
  }

  /** Inserting into a sorted list puts `x` before every element of its own rank. */
  lemma {:induction false} InsertStable<T>(rank: T -> int, x: T, t: seq<T>, v: int)
    requires Sorted(rank, t)
    ensures Filter(Insert(rank, x, t), RankIs(rank, v))
         == (if rank(x) == v then [x] else []) + Filter(t, RankIs(rank, v))
  {
    if t == [] {
    } else if rank(x) <= rank(t[0]) {
      assert Insert(rank, x, t) == [x] + t;
      FilterConcat([x], t, RankIs(rank, v));
    } else {
      var tail := t[1..];
      assert Sorted(rank, tail) by {
        forall i, j | 0 <= i < j < |tail| ensures rank(tail[i]) <= rank(tail[j]) {
          assert tail[i] == t[i + 1] && tail[j] == t[j + 1];
        }
      }
      InsertStable(rank, x, tail, v);
      assert Insert(rank, x, t) == [t[0]] + Insert(rank, x, tail);
    }
  }

  /** The sorted list is ordered by rank. */
  lemma {:induction false} SortSorted<T>(rank: T -> int, s: seq<T>)
    ensures Sorted(rank, Sort(rank, s))
  {
    if s != [] {
      SortSorted(rank, s[1..]);
      InsertKeepsSorted(rank, s[0], Sort(rank, s[1..]));
    }
  }

  /** The sorted list is a permutation of the input. */
  lemma {:induction false} SortPermutes<T>(rank: T -> int, s: seq<T>)
    ensures multiset(Sort(rank, s)) == multiset(s)
  {
    if s != [] {
      SortPermutes(rank, s[1..]);
      InsertPermutes(rank, s[0], Sort(rank, s[1..]));
      assert s == [s[0]] + s[1..];
    }
  }

  /** Stability: the elements of each rank appear in the sorted list in input order. */
  lemma {:induction false} SortStable<T>(rank: T -> int, s: seq<T>, v: int)
    ensures Filter(Sort(rank, s), RankIs(rank, v)) == Filter(s, RankIs(rank, v))
  {
    if s != [] {
      SortStable(rank, s[1..], v);
      SortSorted(rank, s[1..]);
      InsertStable(rank, s[0], Sort(rank, s[1..]), v);
    }
  }

  /** When every element has the same rank, sorting leaves the list as it is. */
  lemma {:induction false} SortConstantRank<T>(rank: T -> int, s: seq<T>)
    requires forall i, j :: 0 <= i < |s| && 0 <= j < |s| ==> rank(s[i]) == rank(s[j])
    ensures Sort(rank, s) == s
  {
    if s != [] {
      var tail := s[1..];
      forall i, j | 0 <= i < |tail| && 0 <= j < |tail| ensures rank(tail[i]) == rank(tail[j]) {
        assert tail[i] == s[i + 1] && tail[j] == s[j + 1];
      }
      SortConstantRank(rank, tail);
      if tail != [] {
        assert tail[0] == s[1];
      }
    }
  }
}

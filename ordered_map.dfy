/** A JavaScript `Map<number, V>` with the counter that hands out its keys.
    A `Map` iterates in insertion order, `set` on a present key keeps the key's
    position, and `delete` removes the key; `Table` makes that order explicit. */
module OrderedMap {
  import opened Seqs

  /** `rows` holds the entries, `order` the keys in insertion order, `next` the next key. */
  datatype Table<V> = Table(rows: map<int, V>, order: seq<int>, next: int)

  predicate Increasing(s: seq<int>)
  {
    forall i, j :: 0 <= i < j < |s| ==> s[i] < s[j]
  }

  /** The order lists every key once, keys were handed out from 1 upwards, so they
      ascend and all lie below the counter. */
  ghost predicate WellFormed<V>(t: Table<V>)
  {
    && t.next >= 1
    && Increasing(t.order)
    && (forall k :: k in t.rows <==> k in t.order)
    && (forall i :: 0 <= i < |t.order| ==> 1 <= t.order[i] < t.next)
  }

  /** A fresh `Map` with its counter at 1. */
  function Empty<V>(): (t: Table<V>)
    ensures WellFormed(t) && t.rows == map[] && t.next == 1
  {
    Table(map[], [], 1)
  }

  /** The entries for `order`, looked up in `m`. */
  function ValuesOf<V>(order: seq<int>, m: map<int, V>): (r: seq<V>)
    requires forall i :: 0 <= i < |order| ==> order[i] in m
    ensures |r| == |order|
    ensures forall i :: 0 <= i < |order| ==> r[i] == m[order[i]]
  {
    if order == [] then [] else [m[order[0]]] + ValuesOf(order[1..], m)
  }

  /** `values()`: the entries in insertion order. */
  function Values<V>(t: Table<V>): seq<V>
    requires WellFormed(t)
  {
    ValuesOf(t.order, t.rows)
  }

  /** `const id = next++; map.set(id, v)`: a new entry under a fresh key, at the end. */
  function Insert<V>(t: Table<V>, v: V): (r: Table<V>)
    requires WellFormed(t)
    ensures WellFormed(r)
    ensures t.next !in t.rows && r.next == t.next + 1
    ensures r.rows.Keys == t.rows.Keys + {t.next} && r.rows[t.next] == v
    ensures forall k :: k in t.rows ==> r.rows[k] == t.rows[k]
    ensures Values(r) == Values(t) + [v]
  {
    var r := Table(t.rows[t.next := v], t.order + [t.next], t.next + 1);
    assert forall i :: 0 <= i < |t.order| ==> t.order[i] < t.next;
    r
  }

  /** `map.set(k, v)` on a present key: the entry changes, its position does not. */
  function Replace<V>(t: Table<V>, k: int, v: V): (r: Table<V>)
    requires WellFormed(t) && k in t.rows
    ensures WellFormed(r)
    ensures r.order == t.order && r.next == t.next
    ensures r.rows.Keys == t.rows.Keys && r.rows[k] == v
    ensures forall j :: j in t.rows && j != k ==> r.rows[j] == t.rows[j]
  {
    Table(t.rows[k := v], t.order, t.next)
  }

  /** The filter on keys that drops those in `ks`. */
  function NotIn(ks: set<int>): int -> bool
  {
    x => x !in ks
  }

  /** Deletes every key in `ks`; the counter is not wound back. */
  function Without<V>(t: Table<V>, ks: set<int>): (r: Table<V>)
    requires WellFormed(t)
    ensures WellFormed(r)
    ensures r.rows.Keys == t.rows.Keys - ks && r.next == t.next
    ensures forall k :: k in r.rows ==> r.rows[k] == t.rows[k]
  {
    var r := Table(t.rows - ks, Filter(t.order, NotIn(ks)), t.next);
    FilterIsSubseq(t.order, NotIn(ks));
    SubseqIncreasing(r.order, t.order);
    forall k ensures k in r.rows <==> k in r.order {
      FilterMembership(t.order, NotIn(ks), k);
    }
    forall i | 0 <= i < |r.order| ensures 1 <= r.order[i] < r.next {
      FilterMembership(t.order, NotIn(ks), r.order[i]);
    }
    r
  }

  /** `map.delete(k)`: the entry and its key go; reports whether the key was there. */
  function Delete<V>(t: Table<V>, k: int): (r: (Table<V>, bool))
    requires WellFormed(t)
    ensures r.1 <==> k in t.rows
    ensures r.0 == Without(t, {k})
  {
    (Without(t, {k}), k in t.rows)
  }

  /** A subsequence of an ascending sequence ascends. */
  lemma {:induction false} SubseqIncreasing(a: seq<int>, b: seq<int>)
    requires IsSubseq(a, b) && Increasing(b)
    ensures Increasing(a)
  {
    if a != [] && b != [] {
      var tail := b[1..];
      assert Increasing(tail) by {
        forall i, j | 0 <= i < j < |tail| ensures tail[i] < tail[j] {
          assert tail[i] == b[i + 1] && tail[j] == b[j + 1];
        }
      }
      if a[0] == b[0] {
        SubseqIncreasing(a[1..], tail);
        SubseqMembers(a[1..], tail);
        forall i, j | 0 <= i < j < |a| ensures a[i] < a[j] {
          assert a[j] == a[1..][j - 1];
          assert a[j] in tail;
          var m :| 0 <= m < |tail| && tail[m] == a[j];
          assert tail[m] == b[m + 1];
          if i > 0 {
            assert a[i] == a[1..][i - 1];
          }
        }
      } else {
        SubseqIncreasing(a, tail);
      }
    }
  }

  /** Every element of a subsequence is an element of the whole. */
  lemma {:induction false} SubseqMembers<T>(a: seq<T>, b: seq<T>)
    requires IsSubseq(a, b)
    ensures forall x :: x in a ==> x in b
  {
    if a != [] && b != [] {
      if a[0] == b[0] {
        SubseqMembers(a[1..], b[1..]);
        assert forall x :: x in a ==> x == a[0] || x in a[1..];
      } else {
        SubseqMembers(a, b[1..]);
      }
    }
  }

  /** Deleting two key sets one after the other deletes their union. */
  lemma WithoutWithout<V>(t: Table<V>, a: set<int>, b: set<int>)
    requires WellFormed(t)
    ensures Without(Without(t, a), b) == Without(t, a + b)
  {
    FilterFilter(t.order, NotIn(a), NotIn(b), NotIn(a + b));
    assert (t.rows - a) - b == t.rows - (a + b);
  }

  /** Looking up a filtered key order: the entries of the kept keys, in order. The key
      filter `p` and the entry filter `q` must agree entry by entry, and `m2` must still
      hold the kept entries. */
  lemma {:induction false} ValuesOfFilter<V>(order: seq<int>, m: map<int, V>, m2: map<int, V>,
                                             p: int -> bool, q: V -> bool)
    requires forall i :: 0 <= i < |order| ==> order[i] in m
    requires forall i :: 0 <= i < |order| ==> p(order[i]) == q(m[order[i]])
    requires forall i :: 0 <= i < |order| && p(order[i]) ==> order[i] in m2 && m2[order[i]] == m[order[i]]
    ensures forall i :: 0 <= i < |Filter(order, p)| ==> Filter(order, p)[i] in m2
    ensures ValuesOf(Filter(order, p), m2) == Filter(ValuesOf(order, m), q)
  {
    forall i | 0 <= i < |Filter(order, p)| ensures Filter(order, p)[i] in m2 {
      FilterMembership(order, p, Filter(order, p)[i]);
    }
    if order != [] {
      ValuesOfFilter(order[1..], m, m2, p, q);
      assert ValuesOf(order, m) == [m[order[0]]] + ValuesOf(order[1..], m);
    }
  }
}

/** Grouping rows by a key, and why listing the groups loses and repeats nothing. */
module Grouping {

  /** The rows with key `k`, in order. */
  function Bucket<T, K(==)>(rows: seq<T>, key: T -> K, k: K): seq<T> {
    if rows == [] then []
    else
      var before := Bucket(rows[..|rows| - 1], key, k);
      var last := rows[|rows| - 1];
      if key(last) == k then before + [last] else before
  }

  /** The buckets of `keys`, one after another. */
  function Listing<T, K(==)>(keys: seq<K>, rows: seq<T>, key: T -> K): seq<T> {
    if keys == [] then [] else Bucket(rows, key, keys[0]) + Listing(keys[1..], rows, key)
  }

  lemma ListingOne<T, K>(k: K, rows: seq<T>, key: T -> K)
    ensures Listing([k], rows, key) == Bucket(rows, key, k)
  {
    assert [k][1..] == [];
  }

  predicate Distinct<K(==)>(keys: seq<K>) {
    forall i, j :: 0 <= i < j < |keys| ==> keys[i] != keys[j]
  }

  lemma BucketSnoc<T, K>(rows: seq<T>, row: T, key: T -> K, k: K)
    ensures Bucket(rows + [row], key, k)
         == if key(row) == k then Bucket(rows, key, k) + [row] else Bucket(rows, key, k)
  {
    assert (rows + [row])[..|rows|] == rows;
  }

  lemma BucketEmpty<T, K>(key: T -> K, k: K)
    ensures Bucket([], key, k) == []
  {
  }

  /** Without the same row, the same rows are left. */
  lemma SameOthers<T>(front: seq<T>, x: T, left: seq<T>, right: seq<T>)
    requires multiset(front + [x]) == multiset(left + [x] + right)
    ensures multiset(front) == multiset(left + right)
  {
    assert multiset(left + [x] + right) == multiset(left + right) + multiset{x};
    assert multiset(front) == multiset(front + [x]) - multiset{x};
  }

  /** Grouping a concatenation groups each half: the order inside a bucket is the order of the rows. */
  lemma {:induction false} BucketConcat<T, K>(a: seq<T>, b: seq<T>, key: T -> K, k: K)
    ensures Bucket(a + b, key, k) == Bucket(a, key, k) + Bucket(b, key, k)
    decreases |b|
  {
    hide Bucket;
    if b == [] {
      assert a + b == a;
      BucketEmpty<T, K>(key, k);
    } else {
      var front, last := b[..|b| - 1], b[|b| - 1];
      BucketConcat(a, front, key, k);
      BucketSnoc(a + front, last, key, k);
      BucketSnoc(front, last, key, k);
      assert a + b == (a + front) + [last] && b == front + [last];
    }
  }

  lemma {:induction false} BucketMembers<T, K>(rows: seq<T>, key: T -> K, k: K, row: T)
    ensures row in Bucket(rows, key, k) <==> row in rows && key(row) == k
    decreases |rows|
  {
    if rows != [] {
      var front, last := rows[..|rows| - 1], rows[|rows| - 1];
      BucketMembers(front, key, k, row);
      assert rows == front + [last];
    }
  }

  lemma {:induction false} BucketNone<T, K>(rows: seq<T>, key: T -> K, k: K)
    requires forall row <- rows :: key(row) != k
    ensures Bucket(rows, key, k) == []
    decreases |rows|
  {
    if rows != [] {
      var front, last := rows[..|rows| - 1], rows[|rows| - 1];
      assert rows == front + [last];
      BucketNone(front, key, k);
    }
  }

  lemma {:induction false} ListingSnocAbsent<T, K>(keys: seq<K>, rows: seq<T>, row: T, key: T -> K)
    requires key(row) !in keys
    ensures Listing(keys, rows + [row], key) == Listing(keys, rows, key)
  {
    if keys != [] {
      BucketSnoc(rows, row, key, keys[0]);
      ListingSnocAbsent(keys[1..], rows, row, key);
    }
  }

  /** The rows that exactly one of the keys selects. */
  predicate ListedOnce<T(==), K(==)>(keys: seq<K>, rows: seq<T>, key: T -> K) {
    forall row <- rows :: multiset(keys)[key(row)] == 1
  }

  /** A new row that one key selects shows up exactly once more. */
  lemma {:induction false} ListingSnoc<T, K>(keys: seq<K>, rows: seq<T>, row: T, key: T -> K)
    requires multiset(keys)[key(row)] == 1
    ensures multiset(Listing(keys, rows + [row], key)) == multiset(Listing(keys, rows, key)) + multiset{row}
  {
    assert keys == [keys[0]] + keys[1..];
    BucketSnoc(rows, row, key, keys[0]);
    if key(row) == keys[0] {
      ListingSnocAbsent(keys[1..], rows, row, key);
    } else {
      ListingSnoc(keys[1..], rows, row, key);
    }
  }

  lemma {:induction false} ListingNothing<T, K>(keys: seq<K>, key: T -> K)
    ensures Listing(keys, [], key) == []
  {
    if keys != [] {
      ListingNothing<T, K>(keys[1..], key);
    }
  }

  lemma {:induction false} ListingConserves<T, K>(keys: seq<K>, rows: seq<T>, key: T -> K)
    requires ListedOnce(keys, rows, key)
    ensures multiset(Listing(keys, rows, key)) == multiset(rows)
    decreases |rows|
  {
    if rows == [] {
      ListingNothing<T, K>(keys, key);
    } else {
      var front, last := rows[..|rows| - 1], rows[|rows| - 1];
      assert rows == front + [last];
      ListingConserves(keys, front, key);
      ListingSnoc(keys, front, last, key);
    }
  }

  lemma {:induction false} DistinctOnce<K>(keys: seq<K>, k: K)
    requires Distinct(keys) && k in keys
    ensures multiset(keys)[k] == 1
  {
    assert keys == [keys[0]] + keys[1..];
    if k != keys[0] {
      DistinctOnce(keys[1..], k);
    }
  }

  // --------------------------------------------- how often a row is listed

  /** The indices of the rows with key `k`. */
  function RowsAt<T, K(==)>(rows: seq<T>, key: T -> K, k: K): set<int> {
    set i | 0 <= i < |rows| && key(rows[i]) == k
  }

  lemma {:induction false} BucketSize<T, K>(rows: seq<T>, key: T -> K, k: K)
    ensures |Bucket(rows, key, k)| == |RowsAt(rows, key, k)|
    decreases |rows|
  {
    if rows != [] {
      var n := |rows| - 1;
      BucketSize(rows[..n], key, k);
      assert RowsAt(rows, key, k)
          == if key(rows[n]) == k then RowsAt(rows[..n], key, k) + {n} else RowsAt(rows[..n], key, k);
    }
  }

  lemma {:induction false} BucketCounts<T, K>(rows: seq<T>, key: T -> K, k: K, row: T)
    ensures multiset(Bucket(rows, key, k))[row] == if key(row) == k then multiset(rows)[row] else 0
    decreases |rows|
  {
    if rows != [] {
      var front, last := rows[..|rows| - 1], rows[|rows| - 1];
      BucketCounts(front, key, k, row);
      assert rows == front + [last];
    }
  }

  lemma OneMore(m: nat, n: nat)
    ensures (m + 1) * n == n + m * n
  {
  }

  lemma ListingCons<T, K>(k: K, keys: seq<K>, rows: seq<T>, key: T -> K)
    ensures Listing([k] + keys, rows, key) == Bucket(rows, key, k) + Listing(keys, rows, key)
  {
    assert ([k] + keys)[1..] == keys;
  }

  lemma ListingNoKeys<T, K>(rows: seq<T>, key: T -> K)
    ensures Listing([], rows, key) == []
  {
  }

  /** Each row is listed as often as it occurs, times the number of keys that select it. */
  lemma {:induction false} ListingCounts<T, K>(keys: seq<K>, rows: seq<T>, key: T -> K, row: T)
    ensures multiset(Listing(keys, rows, key))[row] == multiset(keys)[key(row)] * multiset(rows)[row]
  {
    hide Bucket, Listing;
    if keys == [] {
      ListingNoKeys<T, K>(rows, key);
    } else {
      var k, rest := keys[0], keys[1..];
      BucketCounts(rows, key, k, row);
      ListingCounts(rest, rows, key, row);
      assert keys == [k] + rest;
      ListingCons(k, rest, rows, key);
      OneMore(multiset(rest)[key(row)], multiset(rows)[row]);
    }
  }

  lemma ListedAtMost<T, K>(keys: seq<K>, rows: seq<T>, key: T -> K, row: T)
    requires multiset(keys)[key(row)] <= 1
    ensures multiset(Listing(keys, rows, key))[row] <= multiset(rows)[row]
  {
    ListingCounts(keys, rows, key, row);
    assert multiset(keys)[key(row)] == 0 || multiset(keys)[key(row)] == 1;
  }

  lemma TimesOne(m: nat, n: nat)
    requires 0 < n
    ensures m * n == n <==> m == 1
  {
    if m == 0 {
    } else {
      OneMore(m - 1, n);
      assert 1 < m ==> 0 < (m - 1) * n;
    }
  }

  /** The listing is a permutation of the rows exactly when one key selects each of them. */
  lemma {:induction false} ListingConservesIff<T, K>(keys: seq<K>, rows: seq<T>, key: T -> K)
    ensures multiset(Listing(keys, rows, key)) == multiset(rows) <==> ListedOnce(keys, rows, key)
  {
    if ListedOnce(keys, rows, key) {
      ListingConserves(keys, rows, key);
    }
    if multiset(Listing(keys, rows, key)) == multiset(rows) {
      forall row <- rows ensures multiset(keys)[key(row)] == 1 {
        ListingCounts(keys, rows, key, row);
        TimesOne(multiset(keys)[key(row)], multiset(rows)[row]);
      }
    }
  }

  // ------------------------------------------------------ reading a listing back

  lemma {:induction false} ListingConcat<T, K>(a: seq<K>, b: seq<K>, rows: seq<T>, key: T -> K)
    ensures Listing(a + b, rows, key) == Listing(a, rows, key) + Listing(b, rows, key)
  {
    if a == [] {
      assert a + b == b;
    } else {
      assert (a + b)[1..] == a[1..] + b;
      ListingConcat(a[1..], b, rows, key);
    }
  }

  lemma {:induction false} BucketOfBucket<T, K>(rows: seq<T>, key: T -> K, k: K, l: K)
    ensures Bucket(Bucket(rows, key, k), key, l) == if k == l then Bucket(rows, key, k) else []
    decreases |rows|
  {
    if rows != [] {
      var front, last := rows[..|rows| - 1], rows[|rows| - 1];
      BucketOfBucket(front, key, k, l);
      BucketSnoc(Bucket(front, key, k), last, key, l);
    }
  }

  lemma {:induction false} RegroupAbsent<T, K>(keys: seq<K>, rows: seq<T>, key: T -> K, k: K)
    requires k !in keys
    ensures Bucket(Listing(keys, rows, key), key, k) == []
  {
    if keys != [] {
      BucketConcat(Bucket(rows, key, keys[0]), Listing(keys[1..], rows, key), key, k);
      BucketOfBucket(rows, key, keys[0], k);
      RegroupAbsent(keys[1..], rows, key, k);
    }
  }

  /** Grouping a listing again gives back each bucket that is listed once, order included. */
  lemma {:induction false} Regroups<T, K>(keys: seq<K>, rows: seq<T>, key: T -> K, k: K)
    requires multiset(keys)[k] == 1
    ensures Bucket(Listing(keys, rows, key), key, k) == Bucket(rows, key, k)
  {
    assert keys == [keys[0]] + keys[1..];
    BucketConcat(Bucket(rows, key, keys[0]), Listing(keys[1..], rows, key), key, k);
    BucketOfBucket(rows, key, keys[0], k);
    if keys[0] == k {
      RegroupAbsent(keys[1..], rows, key, k);
    } else {
      Regroups(keys[1..], rows, key, k);
    }
  }

  // ------------------------------------------------------------- the loop

  /** `groups.get(k, [])`. */
  function Get<T, K>(groups: map<K, seq<T>>, k: K): seq<T> {
    if k in groups then groups[k] else []
  }

  /** `groups[k].append(row)` on a dictionary of lists. */
  function Append<T, K(!new)>(groups: map<K, seq<T>>, k: K, row: T): (r: map<K, seq<T>>)
    ensures r.Keys == groups.Keys + {k}
    ensures forall other :: Get(r, other) == if other == k then Get(groups, k) + [row] else Get(groups, other)
  {
    groups[k := Get(groups, k) + [row]]
  }

  method GroupBy<T(!new), K(!new,==)>(rows: seq<T>, key: T -> K) returns (groups: map<K, seq<T>>)
    ensures forall k :: Get(groups, k) == Bucket(rows, key, k)
    ensures forall k :: k in groups <==> exists row <- rows :: key(row) == k
    ensures forall k <- groups :: groups[k] != []
  {
    groups := map[];
    var i := 0;
    while i < |rows|
      invariant 0 <= i <= |rows|
      invariant forall k :: Get(groups, k) == Bucket(rows[..i], key, k)
      invariant forall k <- groups :: groups[k] != []
    {
      var k := key(rows[i]);
      forall other ensures Bucket(rows[..i + 1], key, other)
          == if other == k then Bucket(rows[..i], key, other) + [rows[i]] else Bucket(rows[..i], key, other) {
        BucketSnoc(rows[..i], rows[i], key, other);
        assert rows[..i + 1] == rows[..i] + [rows[i]];
      }
      assert Get(groups, k) == Bucket(rows[..i], key, k);
      groups := Append(groups, k, rows[i]);
      i := i + 1;
    }
    assert rows[..i] == rows;
    forall k ensures k in groups <==> exists row <- rows :: key(row) == k {
      forall row ensures row in Get(groups, k) <==> row in rows && key(row) == k {
        BucketMembers(rows, key, k, row);
      }
      if k in groups {
        assert Get(groups, k)[0] in Get(groups, k);
      }
    }
  }
}

/**
 * Counting equal keys into a table sorted by key: what pandas'
 * `value_counts().sort_index()` produces, and the column set of a
 * `groupby(...).size().unstack()`.
 */
module Tally {
  import opened Ordering

  /** One row of a counts table: a key and how many times it was seen. */
  datatype Group<K> = Group(key: K, count: nat)

  /** Keys strictly ascending, hence pairwise distinct. */
  ghost predicate Ascending<K>(lt: (K, K) -> bool, t: seq<Group<K>>) {
    forall i, j :: 0 <= i < j < |t| ==> lt(t[i].key, t[j].key)
  }

  predicate AllPositive<K>(t: seq<Group<K>>) {
    forall i :: 0 <= i < |t| ==> t[i].count > 0
  }

  /** The count recorded for `x`, or 0 when `x` is not a key. */
  function Lookup<K(==)>(t: seq<Group<K>>, x: K): (count: nat) {
    if t == [] then 0
    else if t[0].key == x then t[0].count
    else Lookup(t[1..], x)
  }

  function Keys<K>(t: seq<Group<K>>): (ks: seq<K>)
    ensures |ks| == |t| && forall i :: 0 <= i < |t| ==> ks[i] == t[i].key
  {
    if t == [] then [] else [t[0].key] + Keys(t[1..])
  }

  function TotalCount<K>(t: seq<Group<K>>): (total: nat) {
    if t == [] then 0 else t[0].count + TotalCount(t[1..])
  }

  /** Records one more sighting of `k`, keeping the keys in ascending order. */
  function AddKey<K(==)>(lt: (K, K) -> bool, t: seq<Group<K>>, k: K): (r: seq<Group<K>>) {
    if t == [] then [Group(k, 1)]
    else if t[0].key == k then [Group(k, t[0].count + 1)] + t[1..]
    else if lt(k, t[0].key) then [Group(k, 1)] + t
    else [t[0]] + AddKey(lt, t[1..], k)
  }

  /** The counts table of `keys`. */
  function Count<K(==)>(lt: (K, K) -> bool, keys: seq<K>): (table: seq<Group<K>>) {
    if keys == [] then []
    else AddKey(lt, Count(lt, keys[..|keys| - 1]), keys[|keys| - 1])
  }

  lemma {:induction false} LookupAbsent<K>(t: seq<Group<K>>, x: K)
    requires forall i :: 0 <= i < |t| ==> t[i].key != x
    ensures Lookup(t, x) == 0
  {
    if t != [] {
      LookupAbsent(t[1..], x);
    }
  }

  lemma {:induction false} LookupAt<K(!new)>(lt: (K, K) -> bool, t: seq<Group<K>>, i: nat)
    requires StrictTotalOrder(lt) && Ascending(lt, t) && i < |t|
    ensures Lookup(t, t[i].key) == t[i].count
  {
    if i > 0 {
      assert lt(t[0].key, t[i].key);
      LookupAt(lt, t[1..], i - 1);
    }
  }

  /** Every key of `AddKey(lt, t, k)` is `k` or a key of `t`. */
  lemma {:induction false} AddKeyKeys<K>(lt: (K, K) -> bool, t: seq<Group<K>>, k: K, i: nat)
    requires i < |AddKey(lt, t, k)|
    ensures AddKey(lt, t, k)[i].key == k || AddKey(lt, t, k)[i].key in Keys(t)
  {
    if t != [] && t[0].key != k && !lt(k, t[0].key) && i > 0 {
      AddKeyKeys(lt, t[1..], k, i - 1);
    }
  }

  lemma {:induction false} AddKeyAscending<K(!new)>(lt: (K, K) -> bool, t: seq<Group<K>>, k: K)
    requires StrictTotalOrder(lt) && Ascending(lt, t)
    ensures Ascending(lt, AddKey(lt, t, k))
  {
    if t != [] && t[0].key != k && lt(k, t[0].key) {
      var r := AddKey(lt, t, k);
      forall j | 1 <= j < |r| ensures lt(k, r[j].key) {
        assert r[j] == t[j - 1];
      }
    } else if t != [] && t[0].key != k {
      var r := AddKey(lt, t, k);
      AddKeyAscending(lt, t[1..], k);
      forall j | 1 <= j < |r| ensures lt(t[0].key, r[j].key) {
        AddKeyKeys(lt, t[1..], k, j - 1);
        if r[j].key != k {
          var m :| 0 <= m < |t[1..]| && Keys(t[1..])[m] == r[j].key;
          assert t[m + 1].key == r[j].key;
        }
      }
    }
  }

  lemma {:induction false} AddKeyLookup<K(!new)>(lt: (K, K) -> bool, t: seq<Group<K>>, k: K, x: K)
    requires StrictTotalOrder(lt) && Ascending(lt, t)
    ensures Lookup(AddKey(lt, t, k), x) == Lookup(t, x) + (if x == k then 1 else 0)
  {
    if t != [] && t[0].key != k {
      if lt(k, t[0].key) {
        if x == k {
          forall i | 0 <= i < |t| ensures t[i].key != k {
            if i > 0 { assert lt(t[0].key, t[i].key); }
          }
          LookupAbsent(t, k);
        }
      } else {
        AddKeyLookup(lt, t[1..], k, x);
      }
    }
  }

  lemma {:induction false} AddKeyPositive<K>(lt: (K, K) -> bool, t: seq<Group<K>>, k: K)
    requires AllPositive(t)
    ensures AllPositive(AddKey(lt, t, k))
    ensures TotalCount(AddKey(lt, t, k)) == TotalCount(t) + 1
  {
    if t != [] && t[0].key != k && !lt(k, t[0].key) {
      AddKeyPositive(lt, t[1..], k);
    }
  }

  /**
   * The counts table lists each distinct key once, in ascending order, with
   * the number of times it occurs; the counts are positive and add up to the
   * number of keys counted.
   */
  lemma {:induction false} CountCorrect<K(!new)>(lt: (K, K) -> bool, keys: seq<K>)
    requires StrictTotalOrder(lt)
    ensures Ascending(lt, Count(lt, keys))
    ensures AllPositive(Count(lt, keys))
    ensures forall x :: Lookup(Count(lt, keys), x) == multiset(keys)[x]
    ensures TotalCount(Count(lt, keys)) == |keys|
  {
    if keys != [] {
      var init, last := keys[..|keys| - 1], keys[|keys| - 1];
      CountCorrect(lt, init);
      AddKeyAscending(lt, Count(lt, init), last);
      AddKeyPositive(lt, Count(lt, init), last);
      assert keys == init + [last];
      forall x ensures Lookup(Count(lt, keys), x) == multiset(keys)[x] {
        AddKeyLookup(lt, Count(lt, init), last, x);
      }
    }
  }

  /** Each row of the counts table holds exactly the number of occurrences of its key. */
  lemma CountRows<K(!new)>(lt: (K, K) -> bool, keys: seq<K>)
    requires StrictTotalOrder(lt)
    ensures forall i :: 0 <= i < |Count(lt, keys)| ==>
      Count(lt, keys)[i].count == multiset(keys)[Count(lt, keys)[i].key] > 0
    ensures forall x :: x in keys <==> x in Keys(Count(lt, keys))
  {
    var t := Count(lt, keys);
    CountCorrect(lt, keys);
    forall i | 0 <= i < |t| ensures t[i].count == multiset(keys)[t[i].key] {
      LookupAt(lt, t, i);
    }
    forall x ensures x in keys <==> x in Keys(t) {
      if x !in Keys(t) {
        LookupAbsent(t, x);
      }
    }
  }
}

/**
 * Python's natural ordering of face labels, as a comparator `le`, and what
 * `sorted(...)` and tuple comparison do with it.
 */
module Ordering {

  /** `le` is a total order: how Python compares numbers with numbers or strings with strings. */
  ghost predicate TotalOrder<T(!new)>(le: (T, T) -> bool) {
    && (forall x, y :: le(x, y) || le(y, x))
    && (forall x, y :: le(x, y) && le(y, x) ==> x == y)
    && (forall x, y, z :: le(x, y) && le(y, z) ==> le(x, z))
  }

  /** `lt` is a strict total order. */
  ghost predicate StrictTotalOrder<T(!new)>(lt: (T, T) -> bool) {
    && (forall x :: !lt(x, x))
    && (forall x, y, z :: lt(x, y) && lt(y, z) ==> lt(x, z))
    && (forall x, y :: x != y ==> lt(x, y) || lt(y, x))
  }

  /** Python's `<` on labels, derived from `le`. */
  function Strict<T(==)>(le: (T, T) -> bool): (lt: (T, T) -> bool) {
    (x: T, y: T) => le(x, y) && x != y
  }

  lemma StrictIsStrictTotal<T(!new)>(le: (T, T) -> bool)
    requires TotalOrder(le)
    ensures StrictTotalOrder(Strict(le))
  {
  }

  /** Python's comparison of two tuples: the first position where they differ decides; a proper prefix is smaller. */
  predicate LexLess<T(==)>(le: (T, T) -> bool, a: seq<T>, b: seq<T>) {
    if |a| == 0 then |b| > 0
    else if |b| == 0 then false
    else if a[0] == b[0] then LexLess(le, a[1..], b[1..])
    else le(a[0], b[0])
  }

  function LexOrder<T(==)>(le: (T, T) -> bool): (lt: (seq<T>, seq<T>) -> bool) {
    (a: seq<T>, b: seq<T>) => LexLess(le, a, b)
  }

  lemma {:induction false} LexIrreflexive<T(!new)>(le: (T, T) -> bool, a: seq<T>)
    ensures !LexLess(le, a, a)
  {
    if |a| > 0 {
      LexIrreflexive(le, a[1..]);
    }
  }

  lemma {:induction false} LexTransitive<T(!new)>(le: (T, T) -> bool, a: seq<T>, b: seq<T>, c: seq<T>)
    requires TotalOrder(le)
    requires LexLess(le, a, b) && LexLess(le, b, c)
    ensures LexLess(le, a, c)
  {
    if |a| > 0 && |b| > 0 && |c| > 0 {
      if a[0] == b[0] && b[0] == c[0] {
        LexTransitive(le, a[1..], b[1..], c[1..]);
      }
    }
  }

  lemma {:induction false} LexTotal<T(!new)>(le: (T, T) -> bool, a: seq<T>, b: seq<T>)
    requires TotalOrder(le)
    requires a != b
    ensures LexLess(le, a, b) || LexLess(le, b, a)
  {
    if |a| > 0 && |b| > 0 && a[0] == b[0] {
      assert a == [a[0]] + a[1..] && b == [b[0]] + b[1..];
      LexTotal(le, a[1..], b[1..]);
    }
  }

  /** Tuple comparison is a strict total order on tuples of labels. */
  lemma LexIsStrictTotal<T(!new)>(le: (T, T) -> bool)
    requires TotalOrder(le)
    ensures StrictTotalOrder(LexOrder(le))
  {
    var lt := LexOrder(le);
    forall a: seq<T> ensures !lt(a, a) {
      LexIrreflexive(le, a);
    }
    forall a: seq<T>, b: seq<T>, c: seq<T> | lt(a, b) && lt(b, c) ensures lt(a, c) {
      LexTransitive(le, a, b, c);
    }
    forall a: seq<T>, b: seq<T> | a != b ensures lt(a, b) || lt(b, a) {
      LexTotal(le, a, b);
    }
  }

  ghost predicate Sorted<T>(le: (T, T) -> bool, s: seq<T>) {
    forall i, j :: 0 <= i < j < |s| ==> le(s[i], s[j])
  }

  /** Places `x` before the first element it is `le`. */
  function Insert<T>(le: (T, T) -> bool, x: T, s: seq<T>): (r: seq<T>) {
    if s == [] then [x]
    else if le(x, s[0]) then [x] + s
    else [s[0]] + Insert(le, x, s[1..])
  }

  /** Python's `sorted(row)`: for a total order its result is the only sorted permutation. */
  function Sort<T>(le: (T, T) -> bool, s: seq<T>): (sorted: seq<T>) {
    if s == [] then [] else Insert(le, s[0], Sort(le, s[1..]))
  }

  lemma {:induction false} InsertPermutes<T>(le: (T, T) -> bool, x: T, s: seq<T>)
    ensures multiset(Insert(le, x, s)) == multiset(s) + multiset{x}
  {
    if s != [] && !le(x, s[0]) {
      InsertPermutes(le, x, s[1..]);
      assert s == [s[0]] + s[1..];
    }
  }

  /** Every element of `Insert(le, x, s)` is `x` or an element of `s`, at or after position `k - 1`. */
  lemma {:induction false} InsertFrom<T>(le: (T, T) -> bool, x: T, s: seq<T>, k: nat)
    requires k < |Insert(le, x, s)|
    ensures Insert(le, x, s)[k] == x || exists m :: 0 <= m < |s| && k - 1 <= m && s[m] == Insert(le, x, s)[k]
  {
    if s != [] && !le(x, s[0]) && k > 0 {
      InsertFrom(le, x, s[1..], k - 1);
      var r := Insert(le, x, s[1..])[k - 1];
      if r != x {
        var m :| 0 <= m < |s[1..]| && k - 2 <= m && s[1..][m] == r;
        assert s[m + 1] == r;
      }
    }
  }

  lemma {:induction false} InsertSorted<T(!new)>(le: (T, T) -> bool, x: T, s: seq<T>)
    requires TotalOrder(le) && Sorted(le, s)
    ensures Sorted(le, Insert(le, x, s))
  {
    if s != [] && !le(x, s[0]) {
      var r := Insert(le, x, s);
      InsertSorted(le, x, s[1..]);
      forall k | 1 <= k < |r| ensures le(s[0], r[k]) {
        InsertFrom(le, x, s, k);
      }
    }
  }

  lemma {:induction false} SortCorrect<T(!new)>(le: (T, T) -> bool, s: seq<T>)
    requires TotalOrder(le)
    ensures Sorted(le, Sort(le, s))
    ensures multiset(Sort(le, s)) == multiset(s)
  {
    if s != [] {
      SortCorrect(le, s[1..]);
      InsertSorted(le, s[0], Sort(le, s[1..]));
      InsertPermutes(le, s[0], Sort(le, s[1..]));
      assert s == [s[0]] + s[1..];
    }
  }

  lemma SortedHeadsEqual<T(!new)>(le: (T, T) -> bool, a: seq<T>, b: seq<T>)
    requires TotalOrder(le)
    requires Sorted(le, a) && Sorted(le, b) && multiset(a) == multiset(b) && a != []
    ensures b != [] && a[0] == b[0]
  {
    assert a[0] in multiset(b);
    var i :| 0 <= i < |b| && b[i] == a[0];
    assert b[0] in multiset(a);
    var j :| 0 <= j < |a| && a[j] == b[0];
    assert le(b[0], a[0]) by { if i > 0 { assert le(b[0], b[i]); } }
    assert le(a[0], b[0]) by { if j > 0 { assert le(a[0], a[j]); } }
  }

  /** Two sorted sequences holding the same elements are the same sequence. */
  lemma {:induction false} SortedUnique<T(!new)>(le: (T, T) -> bool, a: seq<T>, b: seq<T>)
    requires TotalOrder(le)
    requires Sorted(le, a) && Sorted(le, b) && multiset(a) == multiset(b)
    ensures a == b
  {
    if a != [] {
      SortedHeadsEqual(le, a, b);
      assert a == [a[0]] + a[1..] && b == [b[0]] + b[1..];
      assert multiset(a[1..]) == multiset(b[1..]) by {
        forall x ensures multiset(a[1..])[x] == multiset(b[1..])[x] {
          assert multiset(a)[x] == multiset(b)[x];
        }
      }
      SortedUnique(le, a[1..], b[1..]);
    }
  }

  /** Sorting forgets the order of a row and nothing else. */
  lemma SortSameIffPermutation<T(!new)>(le: (T, T) -> bool, a: seq<T>, b: seq<T>)
    requires TotalOrder(le)
    ensures Sort(le, a) == Sort(le, b) <==> multiset(a) == multiset(b)
  {
    SortCorrect(le, a);
    SortCorrect(le, b);
    if multiset(a) == multiset(b) {
      SortedUnique(le, Sort(le, a), Sort(le, b));
    }
  }
}

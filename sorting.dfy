/**
 * Ordering of sequences by a caller-supplied "comes no later than" relation.
 * The database's ORDER BY and JavaScript's Array.prototype.sort are both
 * modelled by InsertionSort; SortedUnique shows that the result does not
 * depend on the algorithm whenever the relation is antisymmetric on the
 * elements being sorted.
 */
module Sorting {

  ghost predicate Total<T(!new)>(le: (T, T) -> bool) {
    forall a, b :: le(a, b) || le(b, a)
  }

  ghost predicate Transitive<T(!new)>(le: (T, T) -> bool) {
    forall a, b, c :: le(a, b) && le(b, c) ==> le(a, c)
  }

  /** le is a total preorder: what a comparison sort needs. */
  ghost predicate TotalPreorder<T(!new)>(le: (T, T) -> bool) {
    Total(le) && Transitive(le)
  }

  /** Two elements of m that are each no later than the other are the same element. */
  ghost predicate AntisymmetricOn<T>(m: multiset<T>, le: (T, T) -> bool) {
    forall x, y :: x in m && y in m && le(x, y) && le(y, x) ==> x == y
  }

  predicate Sorted<T>(s: seq<T>, le: (T, T) -> bool) {
    forall i, j :: 0 <= i < j < |s| ==> le(s[i], s[j])
  }

  /** Inserts x in front of the first element it comes no later than. */
  function Insert<T(!new)>(x: T, s: seq<T>, le: (T, T) -> bool): (r: seq<T>)
    requires TotalPreorder(le)
    requires Sorted(s, le)
    ensures multiset(r) == multiset(s) + multiset{x}
    ensures |r| == |s| + 1
    ensures Sorted(r, le)
    decreases |s|
  {
    if s == [] then [x]
    else if le(x, s[0]) then [x] + s
    else
      var rest := Insert(x, s[1..], le);
      assert multiset(rest) == multiset(s[1..]) + multiset{x};
      assert s == [s[0]] + s[1..];
      assert forall k :: 0 <= k < |rest| ==> le(s[0], rest[k]) by {
        forall k | 0 <= k < |rest|
          ensures le(s[0], rest[k])
        {
          assert rest[k] in multiset(rest);
          if rest[k] == x {
          } else {
            assert rest[k] in multiset(s[1..]);
            var j :| 0 < j < |s| && s[j] == rest[k];
          }
        }
      }
      [s[0]] + rest
  }

  function InsertionSort<T(!new)>(s: seq<T>, le: (T, T) -> bool): (r: seq<T>)
    requires TotalPreorder(le)
    ensures multiset(r) == multiset(s)
    ensures |r| == |s|
    ensures Sorted(r, le)
    decreases |s|
  {
    if s == [] then []
    else
      assert s == s[..|s| - 1] + [s[|s| - 1]];
      Insert(s[|s| - 1], InsertionSort(s[..|s| - 1], le), le)
  }

  /**
   * A sorted arrangement of a multiset is unique when no two distinct
   * elements are each no later than the other.
   */
  lemma {:induction false} SortedUnique<T>(a: seq<T>, b: seq<T>, le: (T, T) -> bool)
    requires Sorted(a, le) && Sorted(b, le)
    requires multiset(a) == multiset(b)
    requires AntisymmetricOn(multiset(a), le)
    ensures a == b
    decreases |a|
  {
    assert |a| == |multiset(a)| == |b|;
    if a != [] {
      assert a[0] in multiset(b);
      var j :| 0 <= j < |b| && b[j] == a[0];
      assert b[0] in multiset(a);
      var i :| 0 <= i < |a| && a[i] == b[0];
      assert a[0] == b[0] by {
        if i > 0 && j > 0 {
          assert le(a[0], a[i]) && le(b[0], b[j]);
          assert a[0] in multiset(a);
        }
      }
      assert a == [a[0]] + a[1..];
      assert b == [b[0]] + b[1..];
      assert multiset(a[1..]) == multiset(b[1..]);
      assert multiset(a[1..]) <= multiset(a);
      SortedUnique(a[1..], b[1..], le);
    }
  }

  /**
   * Cutting a sorted sequence after k elements skips nothing that comes
   * earlier than what is kept.
   */
  lemma PrefixBeforeSkipped<T>(s: seq<T>, k: nat, le: (T, T) -> bool)
    requires Sorted(s, le)
    requires k <= |s|
    ensures multiset(s[..k]) <= multiset(s)
    ensures forall x, y :: x in multiset(s) - multiset(s[..k]) && y in s[..k] ==> le(y, x)
  {
    assert s == s[..k] + s[k..];
    assert multiset(s) == multiset(s[..k]) + multiset(s[k..]);
    forall x, y | x in multiset(s) - multiset(s[..k]) && y in s[..k]
      ensures le(y, x)
    {
      assert x in s[k..];
      var i :| 0 <= i < k && s[..k][i] == y;
      var j :| 0 <= j < |s| - k && s[k..][j] == x;
      assert s[i] == y && s[k + j] == x;
    }
  }
}

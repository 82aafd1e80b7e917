/** Ordering a sequence of records by an integer key, as a data frame's
    `sort_values` does. Only the order of the keys and the multiset of
    records are specified; the order among equal keys is left open. */
module Sorting {

  /** The keys of `s` never decrease. */
  predicate SortedBy<T>(s: seq<T>, key: T -> int) {
    forall i, j :: 0 <= i < j < |s| ==> key(s[i]) <= key(s[j])
  }

  function InsertBy<T>(x: T, s: seq<T>, key: T -> int): (r: seq<T>)
    requires SortedBy(s, key)
    ensures SortedBy(r, key)
    ensures multiset(r) == multiset(s) + multiset{x}
    decreases |s|
  {
    if s == [] || key(x) <= key(s[0]) then [x] + s
    else
      var rest := InsertBy(x, s[1..], key);
      LowerBound(s[0], x, s[1..], rest, key);
      assert s == [s[0]] + s[1..];
      [s[0]] + rest
  }

  /** Every element of `rest`, a permutation of `tail` plus `x`, has a key
      no smaller than `head`'s. */
  lemma LowerBound<T>(head: T, x: T, tail: seq<T>, rest: seq<T>, key: T -> int)
    requires key(head) < key(x)
    requires forall j :: 0 <= j < |tail| ==> key(head) <= key(tail[j])
    requires multiset(rest) == multiset(tail) + multiset{x}
    ensures forall j :: 0 <= j < |rest| ==> key(head) <= key(rest[j])
  {
    forall j | 0 <= j < |rest| ensures key(head) <= key(rest[j]) {
      var y := rest[j];
      assert y in multiset(rest);
      if y != x {
        assert y in multiset(tail);
        var k :| 0 <= k < |tail| && tail[k] == y;
      }
    }
  }

  /** A permutation of `s` whose keys never decrease. */
  function SortBy<T>(s: seq<T>, key: T -> int): (r: seq<T>)
    ensures SortedBy(r, key)
    ensures multiset(r) == multiset(s)
    ensures |r| == |s|
    decreases |s|
  {
    if s == [] then []
    else
      assert s == [s[0]] + s[1..];
      InsertBy(s[0], SortBy(s[1..], key), key)
  }

  /** Every element of a permutation of `b` sits somewhere in `b`. */
  lemma PermutationMember<T>(a: seq<T>, b: seq<T>, i: nat)
    requires multiset(a) == multiset(b) && i < |a|
    ensures exists j :: 0 <= j < |b| && a[i] == b[j]
  {
    assert a[i] in multiset(a);
    assert a[i] in multiset(b);
  }
}

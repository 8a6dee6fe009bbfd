/** Keeping event slices sorted (internal/evmreader/util.go).

    `BinarySearch` and `InsertSorted` are the source's loops. `Insert` and `SortArrivals` are the
    plain definitions they are measured against, and the lemmas say that what a reader ends up with
    is a sorted permutation that does not depend on the order in which a node delivered the events. */
module Sorting {

  ghost predicate SortedBy<T(!new)>(key: T -> int, s: seq<T>) {
    forall i, j | 0 <= i < j < |s| :: key(s[i]) <= key(s[j])
  }

  /** No two different items of `s` share a key. */
  ghost predicate KeysIdentify<T(!new)>(key: T -> int, s: seq<T>) {
    forall x, y | x in s && y in s && key(x) == key(y) :: x == y
  }

  /** Put `item` in front of the first element whose key is not below its own. */
  function Insert<T>(key: T -> int, s: seq<T>, item: T): seq<T> {
    if s == [] || key(item) <= key(s[0]) then [item] + s
    else [s[0]] + Insert(key, s[1..], item)
  }

  /** The slice after the items have arrived one after the other. */
  function SortArrivals<T>(key: T -> int, arrivals: seq<T>): seq<T> {
    if arrivals == [] then []
    else Insert(key, SortArrivals(key, arrivals[..|arrivals| - 1]), arrivals[|arrivals| - 1])
  }

  method BinarySearch<T(!new)>(key: T -> int, s: seq<T>, target: int) returns (pos: nat)
    requires SortedBy(key, s)
    ensures pos <= |s|
    ensures forall i | 0 <= i < pos :: key(s[i]) < target
    ensures forall i | pos <= i < |s| :: target <= key(s[i])
  {
    var lo, hi := 0, |s|;
    while lo < hi
      invariant 0 <= lo <= hi <= |s|
      invariant forall i | 0 <= i < lo :: key(s[i]) < target
      invariant forall i | hi <= i < |s| :: target <= key(s[i])
    {
      var mid := (lo + hi) / 2;
      if key(s[mid]) < target {
        lo := mid + 1;
      } else {
        hi := mid;
      }
    }
    pos := lo;
  }

  method InsertSorted<T(!new)>(key: T -> int, s: seq<T>, item: T) returns (r: seq<T>)
    requires SortedBy(key, s)
    ensures r == Insert(key, s, item)
    ensures SortedBy(key, r)
  {
    var pos := BinarySearch(key, s, key(item));
    r := s[..pos] + [item] + s[pos..];
    InsertAt(key, s, item, pos);
    InsertKeepsSorted(key, s, item);
  }

  lemma {:induction false} InsertAt<T(!new)>(key: T -> int, s: seq<T>, item: T, pos: nat)
    requires pos <= |s|
    requires forall i | 0 <= i < pos :: key(s[i]) < key(item)
    requires forall i | pos <= i < |s| :: key(item) <= key(s[i])
    ensures Insert(key, s, item) == s[..pos] + [item] + s[pos..]
  {
    if pos > 0 {
      InsertAt(key, s[1..], item, pos - 1);
      assert s[..pos] == [s[0]] + s[1..][..pos - 1];
    } else {
      assert s[..pos] + [item] + s[pos..] == [item] + s;
    }
  }

  lemma {:induction false} InsertAddsOne<T(!new)>(key: T -> int, s: seq<T>, item: T)
    ensures multiset(Insert(key, s, item)) == multiset(s) + multiset{item}
  {
    if s != [] && key(item) > key(s[0]) {
      InsertAddsOne(key, s[1..], item);
      assert s == [s[0]] + s[1..];
    }
  }

  lemma InsertedMembers<T(!new)>(key: T -> int, s: seq<T>, item: T)
    ensures forall x :: x in Insert(key, s, item) <==> x in s || x == item
  {
    InsertAddsOne(key, s, item);
    forall x ensures x in Insert(key, s, item) <==> x in s || x == item {
      assert x in Insert(key, s, item) <==> x in multiset(Insert(key, s, item));
      assert x in s <==> x in multiset(s);
    }
  }

  lemma SortedCons<T(!new)>(key: T -> int, x: T, r: seq<T>)
    requires SortedBy(key, r) && forall y | y in r :: key(x) <= key(y)
    ensures SortedBy(key, [x] + r)
  {
  }

  lemma {:induction false} InsertKeepsSorted<T(!new)>(key: T -> int, s: seq<T>, item: T)
    requires SortedBy(key, s)
    ensures SortedBy(key, Insert(key, s, item))
  {
    if s == [] || key(item) <= key(s[0]) {
      SortedCons(key, item, s);
    } else {
      InsertKeepsSorted(key, s[1..], item);
      InsertedMembers(key, s[1..], item);
      SortedCons(key, s[0], Insert(key, s[1..], item));
    }
  }

  /** Whatever the arrival order, the slice is a sorted permutation of what arrived. */
  lemma {:induction false} SortedPermutation<T(!new)>(key: T -> int, arrivals: seq<T>)
    ensures SortedBy(key, SortArrivals(key, arrivals))
    ensures multiset(SortArrivals(key, arrivals)) == multiset(arrivals)
  {
    if arrivals != [] {
      var front, last := arrivals[..|arrivals| - 1], arrivals[|arrivals| - 1];
      assert arrivals == front + [last];
      var before := SortArrivals(key, front);
      SortedPermutation(key, front);
      InsertKeepsSorted(key, before, last);
      InsertAddsOne(key, before, last);
      hide Insert, SortedBy;
    }
  }

  lemma SmallestFirst<T(!new)>(key: T -> int, s: seq<T>, t: seq<T>)
    requires SortedBy(key, s) && SortedBy(key, t) && s != [] && t != []
    requires multiset(s) == multiset(t)
    requires KeysIdentify(key, s)
    ensures s[0] == t[0]
  {
    assert s[0] in multiset(t) && t[0] in multiset(s);
    var i :| 0 <= i < |t| && t[i] == s[0];
    var j :| 0 <= j < |s| && s[j] == t[0];
  }

  lemma SortedTail<T(!new)>(key: T -> int, x: T, r: seq<T>)
    ensures SortedBy(key, [x] + r) ==> SortedBy(key, r)
    ensures KeysIdentify(key, [x] + r) ==> KeysIdentify(key, r)
  {
    assert forall i | 0 <= i < |r| :: ([x] + r)[i + 1] == r[i];
  }

  lemma DropFirst<T>(s: seq<T>, t: seq<T>)
    requires s != [] && t != [] && s[0] == t[0]
    requires multiset(s) == multiset(t)
    ensures multiset(s[1..]) == multiset(t[1..])
  {
    assert s == [s[0]] + s[1..] && t == [t[0]] + t[1..];
    assert multiset(s[1..]) == multiset(s) - multiset{s[0]};
    assert multiset(t[1..]) == multiset(t) - multiset{t[0]};
  }

  lemma RemoveOne<T>(front: seq<T>, x: T, p: seq<T>, q: seq<T>)
    requires multiset(front + [x]) == multiset(p + [x] + q)
    ensures multiset(front) == multiset(p + q)
  {
    assert multiset(front + [x]) == multiset(front) + multiset{x};
    assert multiset(p + [x] + q) == multiset(p + q) + multiset{x};
    assert multiset(front) == multiset(front + [x]) - multiset{x};
  }

  lemma {:induction false} SortedPermutationsAgree<T(!new)>(key: T -> int, s: seq<T>, t: seq<T>)
    requires SortedBy(key, s) && SortedBy(key, t)
    requires multiset(s) == multiset(t)
    requires KeysIdentify(key, s)
    ensures s == t
  {
    assert |multiset(s)| == |multiset(t)|;
    if s != [] {
      SmallestFirst(key, s, t);
      DropFirst(s, t);
      var x, s', t' := s[0], s[1..], t[1..];
      assert s == [x] + s' && t == [x] + t';
      SortedTail(key, x, s');
      SortedTail(key, x, t');
      SortedPermutationsAgree(key, s', t');
    }
  }

  /** With unique keys the sorted slice is the one sorted list of the events, however they arrived. */
  lemma ArrivalOrderIrrelevant<T(!new)>(key: T -> int, sorted: seq<T>, arrivals: seq<T>)
    requires SortedBy(key, sorted) && KeysIdentify(key, sorted)
    requires multiset(arrivals) == multiset(sorted)
    ensures SortArrivals(key, arrivals) == sorted
  {
    SortedPermutation(key, arrivals);
    SortedPermutationsAgree(key, sorted, SortArrivals(key, arrivals));
  }
}

/** `sortKeys`: the serialised keys sorted in place with the natural
    comparator, reversed afterwards for the descending policy. */
module Sorting {
  import opened NaturalOrder

  const KeyAToZ := "key_a_to_z"
  const ValueAToZ := "value_a_to_z"
  const ValueZToA := "value_z_to_a"

  /** Every earlier key may come before every later one. */
  ghost predicate Sorted(s: seq<string>)
  {
    forall i, j :: 0 <= i < j < |s| ==> Le(s[i], s[j])
  }

  /** Every later key may come before every earlier one. */
  ghost predicate SortedDescending(s: seq<string>)
  {
    forall i, j :: 0 <= i < j < |s| ==> Le(s[j], s[i])
  }

  ghost predicate AdjacentSorted(s: seq<string>)
  {
    forall k :: 0 < k < |s| ==> Le(s[k - 1], s[k])
  }

  function Reverse(s: seq<string>): (r: seq<string>)
  {
    seq(|s|, k requires 0 <= k < |s| => s[|s| - 1 - k])
  }

  lemma {:induction false} AdjacentPair(s: seq<string>, i: int, j: int)
    requires AdjacentSorted(s) && 0 <= i < j < |s|
    ensures Le(s[i], s[j])
    decreases j - i
  {
    if i + 1 < j {
      AdjacentPair(s, i, j - 1);
      LeTransitive(s[i], s[j - 1], s[j]);
    }
  }

  /** Ordering neighbours is enough, because Le is transitive. */
  lemma AdjacentSortedIsSorted(s: seq<string>)
    requires AdjacentSorted(s)
    ensures Sorted(s)
  {
    forall i, j | 0 <= i < j < |s| ensures Le(s[i], s[j]) {
      AdjacentPair(s, i, j);
    }
  }

  /** Reversing keeps the keys and turns ascending into descending order. */
  lemma {:induction false} ReverseOfSorted(s: seq<string>)
    requires Sorted(s)
    ensures SortedDescending(Reverse(s))
    ensures multiset(Reverse(s)) == multiset(s)
  {
    ReversePermutes(s);
  }

  lemma {:induction false} ReversePermutes(s: seq<string>)
    ensures multiset(Reverse(s)) == multiset(s)
  {
    if s != [] {
      var n := |s| - 1;
      ReversePermutes(s[..n]);
      assert Reverse(s) == [s[n]] + Reverse(s[..n]);
      assert s == s[..n] + [s[n]];
    }
  }

  /** Exchanges two neighbouring keys. */
  method SwapDown(a: array<string>, j: int)
    requires 0 < j < a.Length
    modifies a
    ensures a[j - 1] == old(a[j]) && a[j] == old(a[j - 1])
    ensures forall k :: 0 <= k < a.Length && k != j - 1 && k != j ==> a[k] == old(a[k])
    ensures multiset(a[..]) == multiset(old(a[..]))
  {
    a[j - 1], a[j] := a[j], a[j - 1];
  }

  /** One step of the insertion sort: moves a[i] down into the sorted prefix. */
  method InsertDown(a: array<string>, i: int)
    requires 0 <= i < a.Length
    requires forall k :: 0 < k < i ==> Le(a[k - 1], a[k])
    modifies a
    ensures forall k :: 0 < k <= i ==> Le(a[k - 1], a[k])
    ensures forall k :: i < k < a.Length ==> a[k] == old(a[k])
    ensures multiset(a[..]) == multiset(old(a[..]))
  {
    var j := i;
    while j > 0 && !Le(a[j - 1], a[j])
      invariant 0 <= j <= i
      invariant forall k :: 0 < k <= i && k != j && k != j + 1 ==> Le(a[k - 1], a[k])
      invariant 0 < j < i ==> Le(a[j - 1], a[j + 1])
      invariant j < i ==> Le(a[j], a[j + 1])
      invariant forall k :: i < k < a.Length ==> a[k] == old(a[k])
      invariant multiset(a[..]) == multiset(old(a[..]))
    {
      LeTotal(a[j - 1], a[j]);
      SwapDown(a, j);
      j := j - 1;
    }
  }

  /** The in-place sort of `keys.sort(this.naturalSort())`, as an insertion sort. */
  method SortInPlace(a: array<string>)
    modifies a
    ensures Sorted(a[..])
    ensures multiset(a[..]) == multiset(old(a[..]))
  {
    var i := 0;
    while i < a.Length
      invariant 0 <= i <= a.Length
      invariant forall k :: 0 < k < i ==> Le(a[k - 1], a[k])
      invariant multiset(a[..]) == multiset(old(a[..]))
    {
      InsertDown(a, i);
      i := i + 1;
    }
    AdjacentSortedIsSorted(a[..]);
  }

  /** `.reverse()`: the array reversed in place. */
  method ReverseInPlace(a: array<string>)
    modifies a
    ensures a[..] == Reverse(old(a[..]))
  {
    var n := a.Length;
    var i := 0;
    while i < n / 2
      invariant 0 <= i <= n / 2
      invariant forall k :: 0 <= k < i ==> a[k] == old(a[n - 1 - k]) && a[n - 1 - k] == old(a[k])
      invariant forall k :: i <= k < n - i ==> a[k] == old(a[k])
    {
      a[i], a[n - 1 - i] := a[n - 1 - i], a[i];
      i := i + 1;
    }
  }

  /** `sortKeys(keys, order)`: every policy sorts ascending; "value_z_to_a"
      then reverses. `ascending` is the array as it stood after the sort. */
  method SortKeys(keys: array<string>, order: string) returns (ghost ascending: seq<string>)
    modifies keys
    ensures Sorted(ascending) && multiset(ascending) == multiset(old(keys[..]))
    ensures keys[..] == if order == ValueZToA then Reverse(ascending) else ascending
  {
    if order == KeyAToZ {
      SortInPlace(keys);
      ascending := keys[..];
    } else if order == ValueAToZ {
      SortInPlace(keys);
      ascending := keys[..];
    } else if order == ValueZToA {
      SortInPlace(keys);
      ascending := keys[..];
      ReverseInPlace(keys);
    } else {
      SortInPlace(keys);
      ascending := keys[..];
    }
  }
}

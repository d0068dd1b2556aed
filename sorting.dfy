/** `list.sort(key=..., reverse=True)` as the two listing handlers use it
    (app.py:481, app.py:719): the list is put in place into descending order of an
    integer key. */
module Sorting {

  /** The keys of `s` do not increase from left to right. */
  ghost predicate SortedDescending<T>(s: seq<T>, key: T -> int) {
    forall i, j :: 0 <= i < j < |s| ==> key(s[i]) >= key(s[j])
  }

  /** The first `n` elements of `a` are in descending key order. */
  ghost predicate SortedPrefix<T>(a: array<T>, n: int, key: T -> int)
    requires 0 <= n <= a.Length
    reads a
  {
    forall p, q :: 0 <= p < q < n ==> key(a[p]) >= key(a[q])
  }

  /** Exchanges two elements. */
  method Swap<T>(a: array<T>, i: int, j: int)
    requires 0 <= i < j < a.Length
    modifies a
    ensures a[i] == old(a[j]) && a[j] == old(a[i])
    ensures forall m :: 0 <= m < a.Length && m != i && m != j ==> a[m] == old(a[m])
    ensures multiset(a[..]) == multiset(old(a[..]))
  {
    a[i], a[j] := a[j], a[i];
  }

  /** Moves `a[i]` left past every element with a smaller key, so that a sorted prefix
      of length `i` becomes a sorted prefix of length `i + 1`. */
  method InsertLeft<T>(a: array<T>, i: int, key: T -> int)
    requires 0 <= i < a.Length && SortedPrefix(a, i, key)
    modifies a
    ensures SortedPrefix(a, i + 1, key)
    ensures multiset(a[..]) == multiset(old(a[..]))
  {
    var j := i;
    while j > 0 && key(a[j - 1]) < key(a[j])
      invariant 0 <= j <= i
      invariant multiset(a[..]) == multiset(old(a[..]))
      invariant forall p, q :: 0 <= p < q <= i && p != j && q != j ==> key(a[p]) >= key(a[q])
      invariant forall q :: j < q <= i ==> key(a[j]) > key(a[q])
      invariant 0 < j < i ==> key(a[j - 1]) >= key(a[j + 1])
    {
      Swap(a, j - 1, j);
      j := j - 1;
    }
  }

  /** Sorts `a` in place into descending key order; the result is a permutation of the
      original contents. */
  method SortByKeyDescending<T>(a: array<T>, key: T -> int)
    modifies a
    ensures SortedDescending(a[..], key)
    ensures multiset(a[..]) == multiset(old(a[..]))
  {
    var i := 0;
    while i < a.Length
      invariant 0 <= i <= a.Length
      invariant SortedPrefix(a, i, key)
      invariant multiset(a[..]) == multiset(old(a[..]))
    {
      InsertLeft(a, i, key);
      i := i + 1;
    }
  }

  /** The list copied into an array, sorted there and read back: the result is in
      descending key order and holds the same elements, each as often. */
  method SortedCopy<T>(s: seq<T>, key: T -> int) returns (r: seq<T>)
    ensures SortedDescending(r, key)
    ensures multiset(r) == multiset(s)
  {
    var a := new T[|s|](i requires 0 <= i < |s| => s[i]);
    assert a[..] == s;
    SortByKeyDescending(a, key);
    r := a[..];
  }
}

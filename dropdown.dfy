/** Cleaning of one dropdown option list, as `update_config` does it for each of its
    three keys (app.py:614-626): keep the string entries, strip and sanitize each, drop
    the empty ones and those longer than 100, remove duplicates keeping the first
    occurrence (`dict.fromkeys`), and keep the first 50. */
module Dropdown {
  import opened Common
  import opened Text
  import opened Sanitizer

  const MaxOptionLength := 100
  const MaxOptions := 50

  /** What an accepted option looks like. */
  predicate IsOption(x: string) {
    0 < |x| <= MaxOptionLength && HasNoOuterSpace(x)
  }

  predicate NoDuplicates(s: seq<string>) {
    forall i, j :: 0 <= i < j < |s| ==> s[i] != s[j]
  }

  /** A stored option list: non-empty, at most 50 options, none repeated, each non-empty,
      at most 100 characters and without outer whitespace. */
  predicate ValidOptions(s: seq<string>) {
    0 < |s| <= MaxOptions && NoDuplicates(s) && forall x :: x in s ==> IsOption(x)
  }

  /** One entry after cleaning, or None when it is dropped: only strings are kept, and
      a string is kept when its stripped and sanitized form is non-empty and at most 100
      characters, which is then what is kept. */
  function CleanEntry(v: JsonValue): (r: Option<string>)
    ensures r.Some? <==> v.JString? && 0 < |SanitizeInput(Strip(v.s))| <= MaxOptionLength
    ensures r.Some? ==> r.value == SanitizeInput(Strip(v.s)) && IsOption(r.value)
  {
    if v.JString? then
      var c := SanitizeInput(Strip(v.s));
      if c != [] && |c| <= MaxOptionLength then Some(c) else None
    else None
  }

  /** The values `f` gives, in order, for the elements it does not drop. An element
      appears in the result exactly when `f` maps some element of `s` to it. */
  function FilterMap<A, B(==,!new)>(s: seq<A>, f: A -> Option<B>): (r: seq<B>)
    ensures |r| <= |s|
    ensures forall y {:trigger y in r} :: y in r <==> exists k {:trigger f(s[k])} :: 0 <= k < |s| && f(s[k]) == Some(y)
    decreases |s|
  {
    if s == [] then []
    else
      var init := s[..|s| - 1];
      var p := FilterMap(init, f);
      assert forall k :: 0 <= k < |init| ==> init[k] == s[k];
      match f(s[|s| - 1])
      case None => p
      case Some(y) => p + [y]
  }

  /** The list `cleaned_items` that the loop builds: the cleaned form of every entry that
      survives cleaning, in input order. */
  function Kept(items: seq<JsonValue>): (r: seq<string>)
    ensures |r| <= |items|
    ensures forall x :: x in r ==> IsOption(x)
    ensures forall x :: x in r <==> exists k :: 0 <= k < |items| && CleanEntry(items[k]) == Some(x)
  {
    FilterMap(items, CleanEntry)
  }

  /** The position of the first occurrence of `x` in `s`. */
  function FirstIndex(s: seq<string>, x: string): (i: nat)
    requires x in s
    ensures i < |s| && s[i] == x
    ensures forall k :: 0 <= k < i ==> s[k] != x
  {
    if s[0] == x then 0 else 1 + FirstIndex(s[1..], x)
  }

  /** Appending to a sequence does not move the first occurrence of what it held. */
  lemma FirstIndexAppend(s: seq<string>, y: string, x: string)
    requires x in s
    ensures FirstIndex(s + [y], x) == FirstIndex(s, x)
  {
    var i := FirstIndex(s, x);
    assert (s + [y])[i] == x;
  }

  /** `list(dict.fromkeys(s))`: each element once, in the order of first occurrence.
      The result holds the same elements as `s`, none twice, ordered by where each first
      occurs in `s`. */
  function Dedup(s: seq<string>): (d: seq<string>)
    ensures |d| <= |s|
    ensures forall x :: x in d <==> x in s
    ensures NoDuplicates(d)
    ensures forall i, j :: 0 <= i < j < |d| ==> FirstIndex(s, d[i]) < FirstIndex(s, d[j])
    decreases |s|
  {
    if s == [] then []
    else
      var init := s[..|s| - 1];
      var y := s[|s| - 1];
      assert s == init + [y];
      var p := Dedup(init);
      forall x | x in init ensures FirstIndex(s, x) == FirstIndex(init, x) {
        FirstIndexAppend(init, y, x);
      }
      if y in init then p
      else
        assert FirstIndex(s, y) == |init|;
        p + [y]
  }

  /** Appending an element not yet present appends it to the deduplication. */
  lemma DedupSnocNew(init: seq<string>, y: string)
    requires y !in init
    ensures Dedup(init + [y]) == Dedup(init) + [y]
  {
    assert (init + [y])[..|init + [y]| - 1] == init;
  }

  /** Dropping the last element of a list without repetitions leaves one, which does not
      hold the dropped element. */
  lemma NoDuplicatesInit(s: seq<string>)
    requires s != [] && NoDuplicates(s)
    ensures NoDuplicates(s[..|s| - 1]) && s[|s| - 1] !in s[..|s| - 1]
  {
    var init := s[..|s| - 1];
    assert forall i :: 0 <= i < |init| ==> init[i] == s[i];
  }

  /** A list in which no element is repeated is its own deduplication. */
  lemma {:induction false} DedupOfDistinct(s: seq<string>)
    requires NoDuplicates(s)
    ensures Dedup(s) == s
    decreases |s|
  {
    if s != [] {
      var init, y := s[..|s| - 1], s[|s| - 1];
      NoDuplicatesInit(s);
      DedupOfDistinct(init);
      assert s == init + [y];
      DedupSnocNew(init, y);
    }
  }

  /** `[:50]`: at most the first 50 elements. */
  function Cap(s: seq<string>): (r: seq<string>)
    ensures |r| == Min(|s|, MaxOptions) && r == s[..|r|]
  {
    if |s| > MaxOptions then s[..MaxOptions] else s
  }

  /** The cleaned list for one key. */
  function Cleaned(items: seq<JsonValue>): seq<string> {
    Cap(Dedup(Kept(items)))
  }

  /** Deduplicating and then capping any list gives at most 50 elements, none repeated,
      each from the list, in the order of their first occurrence in it; the result is
      empty exactly when the list is; and when the list holds at most 50 distinct
      elements, all of them are kept. */
  lemma CapDedupProperties(t: seq<string>)
    ensures |Cap(Dedup(t))| <= MaxOptions
    ensures NoDuplicates(Cap(Dedup(t)))
    ensures forall x :: x in Cap(Dedup(t)) ==> x in t
    ensures forall i, j :: 0 <= i < j < |Cap(Dedup(t))| ==>
              FirstIndex(t, Cap(Dedup(t))[i]) < FirstIndex(t, Cap(Dedup(t))[j])
    ensures Cap(Dedup(t)) == [] <==> t == []
    ensures |Dedup(t)| <= MaxOptions ==> forall x :: x in t ==> x in Cap(Dedup(t))
  {
    var d := Dedup(t);
    var c := Cap(d);
    assert forall x :: x in c ==> x in d;
    if t != [] {
      assert t[0] in d;
    }
  }

  /** The source's loop over one key's entries, followed by deduplication and the cap. */
  method CleanList(items: seq<JsonValue>) returns (cleaned: seq<string>)
    ensures cleaned == Cleaned(items)
    ensures |cleaned| <= MaxOptions && NoDuplicates(cleaned)
    ensures forall x :: x in cleaned ==> IsOption(x) && exists k :: 0 <= k < |items| && CleanEntry(items[k]) == Some(x)
    ensures cleaned == [] <==> forall k :: 0 <= k < |items| ==> CleanEntry(items[k]).None?
  {
    var acc: seq<string> := [];
    var i := 0;
    while i < |items|
      invariant 0 <= i <= |items|
      invariant acc == FilterMap(items[..i], CleanEntry)
    {
      assert items[..i + 1][..i] == items[..i];
      match CleanEntry(items[i]) {
        case Some(c) => acc := acc + [c];
        case None =>
      }
      i := i + 1;
    }
    assert items[..i] == items;
    assert acc == Kept(items);
    cleaned := Cap(Dedup(acc));
    CapDedupProperties(acc);
    if acc != [] {
      assert acc[0] in acc;
    }
  }

  /** A cleaned list that is not empty is a valid option list. */
  lemma CleanedIsValid(items: seq<JsonValue>)
    requires Cleaned(items) != []
    ensures ValidOptions(Cleaned(items))
  {
    CapDedupProperties(Kept(items));
  }

  /** A list of strings as a JSON array. */
  function AsJson(s: seq<string>): (r: seq<JsonValue>)
    ensures |r| == |s| && forall k :: 0 <= k < |s| ==> r[k] == JString(s[k])
  {
    if s == [] then [] else AsJson(s[..|s| - 1]) + [JString(s[|s| - 1])]
  }

  /** An option that none of the sanitizer's patterns can touch. */
  predicate StableOption(x: string) {
    IsOption(x) && Inert(x)
  }

  /** Appending one element appends its image, if any. */
  lemma FilterMapSnoc<A, B(!new)>(s: seq<A>, x: A, f: A -> Option<B>)
    ensures FilterMap(s + [x], f) == FilterMap(s, f) + (if f(x).Some? then [f(x).value] else [])
  {
    assert (s + [x])[..|s + [x]| - 1] == s;
  }

  lemma CleanEntryOfStable(x: string)
    requires StableOption(x)
    ensures CleanEntry(JString(x)) == Some(x)
  {
    assert Strip(x) == x;
  }

  lemma {:induction false} KeptOfStable(s: seq<string>)
    requires forall k :: 0 <= k < |s| ==> StableOption(s[k])
    ensures Kept(AsJson(s)) == s
    decreases |s|
  {
    if s != [] {
      var init, x := s[..|s| - 1], s[|s| - 1];
      KeptOfStable(init);
      assert AsJson(s) == AsJson(init) + [JString(x)];
      FilterMapSnoc(AsJson(init), JString(x), CleanEntry);
      CleanEntryOfStable(x);
      assert s == init + [x];
    }
  }

  /** Cleaning a list of distinct stable options (at most 50) gives the list back: saving
      the option lists that are already stored changes nothing. */
  lemma CleanedOfStable(s: seq<string>)
    requires |s| <= MaxOptions && NoDuplicates(s)
    requires forall k :: 0 <= k < |s| ==> StableOption(s[k])
    ensures Cleaned(AsJson(s)) == s
  {
    KeptOfStable(s);
    DedupOfDistinct(s);
  }
  /** A valid option list of stable options is its own cleaned form. */
  lemma StableListIsClean(s: seq<string>)
    ensures ValidOptions(s) && (forall k :: 0 <= k < |s| ==> StableOption(s[k])) ==> Cleaned(AsJson(s)) == s
  {
    if ValidOptions(s) && (forall k :: 0 <= k < |s| ==> StableOption(s[k])) {
      CleanedOfStable(s);
    }
  }
}

/** Character classes and whitespace stripping, with Python's meaning.

    `IsSpace` is the full set of characters for which Python's `str.isspace` holds; it is
    what `str.strip()` removes and what the regular expression class `\s` matches.
    Letter case and the word class `\w` are modelled on ASCII only. */
module Text {

  predicate IsSpace(c: char) {
    || c == ' '
    || '\t' <= c <= '\r'               // \t \n \v \f \r
    || '\U{1c}' <= c <= '\U{1f}'       // file, group, record and unit separators
    || c == '\U{85}' || c == '\U{a0}' || c == '\U{1680}'
    || '\U{2000}' <= c <= '\U{200a}'
    || c == '\U{2028}' || c == '\U{2029}' || c == '\U{202f}' || c == '\U{205f}' || c == '\U{3000}'
  }

  /** `\w` on ASCII: letters, digits and underscore. */
  predicate IsWordChar(c: char) {
    'a' <= c <= 'z' || 'A' <= c <= 'Z' || '0' <= c <= '9' || c == '_'
  }

  /** ASCII lower-casing of one character. */
  function LowerChar(c: char): (d: char)
    ensures !('A' <= d <= 'Z')
    ensures 'A' <= c <= 'Z' ==> d as int == c as int + 32
    ensures !('A' <= c <= 'Z') ==> d == c
  {
    if 'A' <= c <= 'Z' then (c as int + 32) as char else c
  }

  /** ASCII lower-casing of a string (the source's `str.lower()`). */
  function Lower(s: string): (r: string)
    ensures |r| == |s|
    ensures forall k :: 0 <= k < |s| ==> r[k] == LowerChar(s[k])
  {
    if s == [] then [] else [LowerChar(s[0])] + Lower(s[1..])
  }

  /** Neither the first nor the last character is whitespace. */
  predicate HasNoOuterSpace(s: string) {
    s == [] || (!IsSpace(s[0]) && !IsSpace(s[|s| - 1]))
  }

  /** Removes leading and trailing whitespace (`str.strip()`), one character at a time
      from either end. The result has no outer whitespace, a string that already has none
      is returned unchanged, and the result is empty exactly when the input is all
      whitespace. */
  function Strip(s: string): (r: string)
    ensures |r| <= |s|
    ensures HasNoOuterSpace(r)
    ensures HasNoOuterSpace(s) ==> r == s
    ensures r == [] <==> forall k :: 0 <= k < |s| ==> IsSpace(s[k])
    decreases |s|
  {
    if |s| > 0 && IsSpace(s[0]) then
      var t := s[1..];
      assert forall k :: 0 <= k < |t| ==> t[k] == s[k + 1];
      Strip(t)
    else if |s| > 0 && IsSpace(s[|s| - 1]) then
      var t := s[..|s| - 1];
      assert forall k :: 0 <= k < |t| ==> t[k] == s[k];
      Strip(t)
    else s
  }

  /** What stripping keeps is one contiguous piece `s[i..j]` of the input, and what it
      drops before and after that piece is whitespace only. */
  lemma {:induction false} StripKeepsInfix(s: string) returns (i: nat, j: nat)
    ensures i <= j <= |s| && Strip(s) == s[i..j]
    ensures forall k :: 0 <= k < i ==> IsSpace(s[k])
    ensures forall k :: j <= k < |s| ==> IsSpace(s[k])
    decreases |s|
  {
    if |s| > 0 && IsSpace(s[0]) {
      var i', j' := StripKeepsInfix(s[1..]);
      i, j := ExtendFront(s, i', j');
    } else if |s| > 0 && IsSpace(s[|s| - 1]) {
      i, j := StripKeepsInfix(s[..|s| - 1]);
      ExtendBack(s, s[..|s| - 1], i, j);
    } else {
      i, j := 0, |s|;
    }
  }

  /** A whitespace-bounded infix of `s[1..]` is one of `s` when `s[0]` is whitespace. */
  lemma ExtendFront(s: string, i': nat, j': nat) returns (i: nat, j: nat)
    requires |s| > 0 && IsSpace(s[0]) && i' <= j' <= |s| - 1
    requires forall k :: 0 <= k < i' ==> IsSpace(s[1..][k])
    requires forall k :: j' <= k < |s| - 1 ==> IsSpace(s[1..][k])
    ensures i <= j <= |s| && s[1..][i'..j'] == s[i..j]
    ensures forall k :: 0 <= k < i ==> IsSpace(s[k])
    ensures forall k :: j <= k < |s| ==> IsSpace(s[k])
  {
    var t := s[1..];
    i, j := i' + 1, j' + 1;
    forall k | 0 < k < i ensures IsSpace(s[k]) {
      assert s[k] == t[k - 1];
    }
    forall k | j <= k < |s| ensures IsSpace(s[k]) {
      assert s[k] == t[k - 1];
    }
  }

  /** A whitespace-bounded infix of `s[..|s| - 1]` is one of `s` when the last character
      of `s` is whitespace and the first is not. */
  lemma ExtendBack(s: string, t: string, i: nat, j: nat)
    requires |s| > 0 && !IsSpace(s[0]) && IsSpace(s[|s| - 1]) && t == s[..|s| - 1] && i <= j <= |t|
    requires forall k :: 0 <= k < i ==> IsSpace(t[k])
    requires forall k :: j <= k < |t| ==> IsSpace(t[k])
    ensures t[i..j] == s[i..j]
    ensures forall k :: 0 <= k < i ==> IsSpace(s[k])
    ensures forall k :: j <= k < |s| ==> IsSpace(s[k])
  {
    forall k | 0 <= k < i ensures IsSpace(s[k]) {
      assert s[k] == t[k];
    }
    forall k | j <= k < |s| - 1 ensures IsSpace(s[k]) {
      assert s[k] == t[k];
    }
  }

  /** Stripping is idempotent. */
  lemma StripIdempotent(s: string)
    ensures Strip(Strip(s)) == Strip(s)
  {
  }
}

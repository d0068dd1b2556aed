/** `sanitize_input` (app.py:156-170): three regular-expression removal passes, a
    truncation to 200 characters, then `strip()`.

    Each pass is `re.sub(pattern, '', text, flags=IGNORECASE)`, which scans left to right
    and removes the leftmost match, then continues after it. The three patterns are
    deterministic (no two ways to match at one position), so each pass is modelled as a
    scan that at every position either removes the one match starting there or keeps
    one character. Case-insensitivity is ASCII. */
module Sanitizer {
  import opened Common
  import opened Text

  const MaxInputLength := 200

  /** `s` starts with `lit` ignoring ASCII case; `lit` is written in lower case. */
  predicate StartsWithCi(s: string, lit: string) {
    |lit| <= |s| && Lower(s[..|lit|]) == lit
  }

  /** The first index at or after `from` holding `c`. */
  function FindChar(s: string, c: char, from: nat): (r: Option<nat>)
    ensures r.Some? ==> from <= r.value < |s| && s[r.value] == c
    ensures r.Some? ==> forall k :: from <= k < r.value ==> s[k] != c
    ensures r.None? ==> forall k :: from <= k < |s| ==> s[k] != c
    decreases |s| - from
  {
    if from >= |s| then None
    else if s[from] == c then Some(from)
    else FindChar(s, c, from + 1)
  }

  /** The first index at or after `from` where `lit` occurs, ignoring ASCII case. */
  function FindCi(s: string, lit: string, from: nat): (r: Option<nat>)
    ensures r.Some? ==> from <= r.value && r.value + |lit| <= |s| && StartsWithCi(s[r.value..], lit)
    ensures r.Some? ==> forall k :: from <= k < r.value ==> !StartsWithCi(s[k..], lit)
    ensures r.None? ==> forall k :: from <= k <= |s| ==> !StartsWithCi(s[k..], lit)
    decreases |s| - from
  {
    if from + |lit| > |s| then None
    else if StartsWithCi(s[from..], lit) then Some(from)
    else FindCi(s, lit, from + 1)
  }

  /** The end of the run of word characters starting at `from`. */
  function WordRunEnd(s: string, from: nat): (e: nat)
    requires from <= |s|
    ensures from <= e <= |s|
    ensures forall k :: from <= k < e ==> IsWordChar(s[k])
    ensures e < |s| ==> !IsWordChar(s[e])
    decreases |s| - from
  {
    if from < |s| && IsWordChar(s[from]) then WordRunEnd(s, from + 1) else from
  }

  /** The end of the run of whitespace starting at `from`. */
  function SpaceRunEnd(s: string, from: nat): (e: nat)
    requires from <= |s|
    ensures from <= e <= |s|
    ensures forall k :: from <= k < e ==> IsSpace(s[k])
    ensures e < |s| ==> !IsSpace(s[e])
    decreases |s| - from
  {
    if from < |s| && IsSpace(s[from]) then SpaceRunEnd(s, from + 1) else from
  }

  lemma LowerIsOnly(s: string, lit: string, k: nat)
    requires StartsWithCi(s, lit) && k < |lit|
    requires !('A' <= lit[k] <= 'Z') && !('a' <= lit[k] <= 'z')
    ensures s[k] == lit[k]
  {
    assert LowerChar(s[..|lit|][k]) == lit[k];
  }

  /** Length of the match of `<script[^>]*>.*?</script>` (with DOTALL) at the start of `s`:
      the opening `<script`, everything up to the first `>`, then everything up to the
      first `</script>` after it. */
  function ScriptMatchLength(s: string): (r: Option<nat>)
    ensures r.Some? ==> 0 < r.value <= |s| && s[0] == '<'
  {
    if !StartsWithCi(s, "<script") then None
    else
      LowerIsOnly(s, "<script", 0);
      match FindChar(s, '>', 7)
      case None => None
      case Some(j) =>
        match FindCi(s, "</script>", j + 1)
        case None => None
        case Some(k) => Some(k + 9)
  }

  /** First pass: removes script elements. */
  function RemoveScripts(s: string): (r: string)
    ensures |r| <= |s|
    ensures (forall k :: 0 <= k < |s| ==> s[k] != '<') ==> r == s
    decreases |s|
  {
    if s == [] then []
    else match ScriptMatchLength(s)
      case Some(n) => RemoveScripts(s[n..])
      case None => [s[0]] + RemoveScripts(s[1..])
  }

  /** Length of the match of `javascript:` at the start of `s`. */
  function UrlSchemeMatchLength(s: string): (r: Option<nat>)
    ensures r.Some? ==> 0 < r.value <= |s| && s[r.value - 1] == ':'
  {
    if StartsWithCi(s, "javascript:") then LowerIsOnly(s, "javascript:", 10); Some(11) else None
  }

  /** Second pass: removes `javascript:` URL schemes. */
  function RemoveUrlSchemes(s: string): (r: string)
    ensures |r| <= |s|
    ensures (forall k :: 0 <= k < |s| ==> s[k] != ':') ==> r == s
    decreases |s|
  {
    if s == [] then []
    else match UrlSchemeMatchLength(s)
      case Some(n) => RemoveUrlSchemes(s[n..])
      case None => [s[0]] + RemoveUrlSchemes(s[1..])
  }

  /** Length of the match of `on\w+\s*=` at the start of `s`: `on`, a non-empty run of
      word characters, a possibly empty run of whitespace, then `=`. */
  function HandlerMatchLength(s: string): (r: Option<nat>)
    ensures r.Some? ==> 0 < r.value <= |s| && s[r.value - 1] == '='
  {
    if !StartsWithCi(s, "on") then None
    else
      var w := WordRunEnd(s, 2);
      var m := SpaceRunEnd(s, w);
      if w > 2 && m < |s| && s[m] == '=' then Some(m + 1) else None
  }

  /** Third pass: removes inline event-handler attributes such as `onclick=`. */
  function RemoveHandlers(s: string): (r: string)
    ensures |r| <= |s|
    ensures (forall k :: 0 <= k < |s| ==> s[k] != '=') ==> r == s
    decreases |s|
  {
    if s == [] then []
    else match HandlerMatchLength(s)
      case Some(n) => RemoveHandlers(s[n..])
      case None => [s[0]] + RemoveHandlers(s[1..])
  }

  /** `text[:200]` when the text is longer than 200 characters. */
  function Truncate(s: string): (r: string)
    ensures |r| == Min(|s|, MaxInputLength)
    ensures r == s[..|r|]
  {
    if |s| > MaxInputLength then s[..MaxInputLength] else s
  }

  /** No character any of the three patterns needs: a match of the first contains `<`,
      of the second `:`, of the third `=`. */
  predicate Inert(s: string) {
    forall k :: 0 <= k < |s| ==> s[k] != '<' && s[k] != ':' && s[k] != '='
  }

  /** `sanitize_input`: empty input is returned as it is; anything else has the three
      passes applied, is cut to 200 characters and then stripped, so the result is at
      most 200 long and has no outer whitespace, even when the cut falls just after a
      space. Text with no `<`, `:` or `=`, at most 200 long and already stripped is
      returned unchanged. */
  function SanitizeInput(text: string): (r: string)
    ensures text == [] ==> r == text
    ensures |r| <= MaxInputLength && |r| <= |text|
    ensures HasNoOuterSpace(r)
    ensures Inert(text) && |text| <= MaxInputLength && HasNoOuterSpace(text) ==> r == text
  {
    if text == [] then text
    else Strip(Truncate(RemoveHandlers(RemoveUrlSchemes(RemoveScripts(text)))))
  }
}

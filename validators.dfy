/** The input checks of the request handlers: `validate_specimen_number`
    (app.py:172-184), `validate_file_security` (app.py:186-226), the renaming of an
    uploaded certificate (app.py:359-366) and the rules on a new admin password
    (app.py:661-674). */
module Validators {
  import opened Common
  import opened Text
  import opened Sanitizer

  const MaxSpecimenLength := 50

  /** A character of the class `[a-zA-Z0-9_-]`. */
  predicate IsSpecimenChar(c: char) {
    'a' <= c <= 'z' || 'A' <= c <= 'Z' || '0' <= c <= '9' || c == '_' || c == '-'
  }

  predicate AllSpecimenChars(s: string) {
    forall k :: 0 <= k < |s| ==> IsSpecimenChar(s[k])
  }

  /** `re.match(r'^[a-zA-Z0-9_-]+$', s)`: one or more allowed characters up to the end;
      Python's `$` also matches just before a final newline. */
  predicate MatchesSpecimenPattern(s: string) {
    || (|s| > 0 && AllSpecimenChars(s))
    || (|s| > 1 && s[|s| - 1] == '\n' && AllSpecimenChars(s[..|s| - 1]))
  }

  /** Without a final newline the pattern matches exactly the non-empty strings over the
      class; with one, exactly when what precedes the newline is such a string. */
  lemma SpecimenPatternCases(s: string)
    ensures s == [] || s[|s| - 1] != '\n' ==> (MatchesSpecimenPattern(s) <==> |s| > 0 && AllSpecimenChars(s))
    ensures |s| > 0 && s[|s| - 1] == '\n' ==>
              (MatchesSpecimenPattern(s) <==> |s| > 1 && AllSpecimenChars(s[..|s| - 1]))
  {
  }

  /** `validate_specimen_number`. The empty string gets the emptiness error; otherwise
      a character outside the class gets the character-set error, whatever the length;
      otherwise more than 50 characters gets the length error. For every input that does
      not end in a newline (the callers strip first) it accepts exactly the non-empty
      strings over `[A-Za-z0-9_-]` of at most 50 characters. */
  function ValidateSpecimenNumber(s: string): (r: Outcome)
    ensures r == Fail(SpecimenEmpty) <==> s == []
    ensures r.Fail? ==> r.error == SpecimenEmpty || r.error == SpecimenCharset || r.error == SpecimenTooLong
    ensures s == [] || s[|s| - 1] != '\n' ==>
              && (r == Pass <==> 0 < |s| <= MaxSpecimenLength && AllSpecimenChars(s))
              && (r == Fail(SpecimenCharset) <==> s != [] && !AllSpecimenChars(s))
              && (r == Fail(SpecimenTooLong) <==> |s| > MaxSpecimenLength && AllSpecimenChars(s))
  {
    if s == [] then Fail(SpecimenEmpty)
    else if !MatchesSpecimenPattern(s) then Fail(SpecimenCharset)
    else if |s| > MaxSpecimenLength then Fail(SpecimenTooLong)
    else Pass
  }

  /** As written, the pattern's `$` lets one trailing newline through: a valid number
      followed by a newline is accepted (its length counting the newline). */
  lemma {:induction false} TrailingNewlineAccepted(t: string)
    requires 0 < |t| < MaxSpecimenLength && AllSpecimenChars(t)
    ensures ValidateSpecimenNumber(t + "\n") == Pass
  {
    assert (t + "\n")[..|t|] == t;
  }

  /** A stripped string the validator accepts passes through `sanitize_input` unchanged:
      it has no `<`, `:` or `=`, is at most 50 long and has no outer whitespace. */
  lemma SanitizeKeepsSpecimenNumber(s: string)
    requires ValidateSpecimenNumber(s) == Pass && HasNoOuterSpace(s)
    ensures SanitizeInput(s) == s
  {
    assert IsSpace('\n');
    assert s[|s| - 1] != '\n';
    assert AllSpecimenChars(s) && |s| <= MaxSpecimenLength;
    assert Inert(s) by {
      forall k | 0 <= k < |s| ensures s[k] != '<' && s[k] != ':' && s[k] != '=' {
        assert IsSpecimenChar(s[k]);
      }
    }
  }

  /** The upload limit: 100 MiB. */
  const MaxUploadBytes := 100 * 1024 * 1024

  /** An attached certificate: the client's file name, what werkzeug's
      `secure_filename` makes of it (foreign code, so an input here), and its size in
      bytes (what `seek`/`tell` measure). */
  datatype Upload = Upload(filename: string, securedName: string, size: nat)

  /** The checks of `validate_file_security` that the source still performs: the secured
      name must be non-empty, then the size must not exceed 100 MiB. */
  function ValidateFileSecurity(u: Upload): (r: Outcome)
    ensures r == Pass <==> u.securedName != [] && u.size <= 104857600
    ensures r == Fail(InvalidFileName) <==> u.securedName == []
    ensures r == Fail(FileTooLarge) <==> u.securedName != [] && u.size > 104857600
  {
    if u.securedName == [] then Fail(InvalidFileName)
    else if u.size > MaxUploadBytes then Fail(FileTooLarge)
    else Pass
  }

  /** The index of the last `.` in `s`, if any. */
  function LastDot(s: string): (r: Option<nat>)
    ensures r.Some? ==> r.value < |s| && s[r.value] == '.'
    ensures r.Some? ==> forall k :: r.value < k < |s| ==> s[k] != '.'
    ensures r.None? ==> forall k :: 0 <= k < |s| ==> s[k] != '.'
  {
    if s == [] then None
    else if s[|s| - 1] == '.' then Some(|s| - 1)
    else LastDot(s[..|s| - 1])
  }

  /** `name.rsplit('.', 1)[1]` when the name contains a dot: the part after the last dot. */
  function Extension(name: string): (r: Option<string>)
    ensures r.Some? ==> forall k :: 0 <= k < |r.value| ==> r.value[k] != '.'
    ensures r.Some? ==> |r.value| < |name| && name[|name| - |r.value| - 1] == '.'
                        && name[|name| - |r.value|..] == r.value
    ensures r.None? <==> forall k :: 0 <= k < |name| ==> name[k] != '.'
  {
    match LastDot(name)
    case None => None
    case Some(i) => Some(name[i + 1..])
  }

  /** The stored name of an uploaded certificate: the fresh identifier, then a dot and
      the lower-cased extension when the secured name has one. */
  function CertificateName(uuid: string, securedName: string): (r: string)
    ensures |uuid| <= |r| && r[..|uuid|] == uuid
    ensures Extension(securedName).None? ==> r == uuid
    ensures |r| == |uuid| + (if Extension(securedName).Some? then 1 + |Extension(securedName).value| else 0)
  {
    match Extension(securedName)
    case None => uuid
    case Some(e) => uuid + "." + Lower(e)
  }

  /** The stored name depends on the secured name through its lower-cased extension only:
      two names with the same extension, or both without one, are stored alike. */
  lemma CertificateNameOnlyByExtension(uuid: string, a: string, b: string)
    ensures (match Extension(a) case None => None case Some(e) => Some(Lower(e)))
            == (match Extension(b) case None => None case Some(e) => Some(Lower(e))) ==>
              CertificateName(uuid, a) == CertificateName(uuid, b)
  {
  }

  /** Renaming keeps nothing of the original name but its extension, lower-cased: for an
      identifier without dots, the stored name's extension is the original one in lower
      case, or absent exactly when the original had none. */
  lemma {:induction false} CertificateNameKeepsExtension(uuid: string, securedName: string)
    requires forall k :: 0 <= k < |uuid| ==> uuid[k] != '.'
    ensures Extension(CertificateName(uuid, securedName)) ==
              match Extension(securedName)
              case None => None
              case Some(e) => Some(Lower(e))
  {
    var r := CertificateName(uuid, securedName);
    match Extension(securedName)
    case None =>
      assert r == uuid;
    case Some(e) =>
      var l := Lower(e);
      assert r == uuid + "." + l;
      assert forall k :: 0 <= k < |l| ==> l[k] != '.' by {
        forall k | 0 <= k < |l| ensures l[k] != '.' {
          assert l[k] == LowerChar(e[k]);
        }
      }
      assert r[|uuid|] == '.';
      assert r[|uuid| + 1..] == l;
      var x := Extension(r);
      assert x.Some?;
      var v := x.value;
      assert v == l;
  }

  const MinPasswordLength := 6
  const MaxPasswordLength := 50

  /** The characters a new password must not contain: `< > " ' & \ /`. */
  predicate IsDangerousChar(c: char) {
    c == '<' || c == '>' || c == '"' || c == '\'' || c == '&' || c == '\\' || c == '/'
  }

  /** The rules on a new password, checked in the source's order: at least 6
      characters, then at most 50, then none of the forbidden characters. */
  function CheckNewPassword(p: string): (r: Outcome)
    ensures r == Pass <==>
              MinPasswordLength <= |p| <= MaxPasswordLength && forall k :: 0 <= k < |p| ==> !IsDangerousChar(p[k])
    ensures r == Fail(PasswordTooShort) <==> |p| < MinPasswordLength
    ensures r == Fail(PasswordTooLong) <==> |p| > MaxPasswordLength
    ensures r == Fail(PasswordDangerousChar) <==>
              MinPasswordLength <= |p| <= MaxPasswordLength && exists k :: 0 <= k < |p| && IsDangerousChar(p[k])
  {
    if |p| < MinPasswordLength then Fail(PasswordTooShort)
    else if |p| > MaxPasswordLength then Fail(PasswordTooLong)
    else if exists k :: 0 <= k < |p| && IsDangerousChar(p[k]) then Fail(PasswordDangerousChar)
    else Pass
  }
}

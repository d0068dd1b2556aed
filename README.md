# Specimen QR-code registry: a verified model

The registry is a small Flask application (`app.py`). A user submits a form: a test-block
specimen number, a material, a reflector type, a storage area and an optional
certificate file. The application stores one JSON record per submission and writes a
QR image that encodes the address of the record's public page. An administrator
logs in with a password. The administrator can then list, edit and delete records,
edit the three dropdown option lists, change the password and read an audit log of
these operations.

This project models the state those handlers work on and every handler's change of
that state. The state is:

- the record documents of the data folder;
- the uploaded certificates;
- the QR images;
- the three option lists;
- the stored password hash;
- the audit log;
- the administrator's session.

The project also models the input checks and the cleaning the handlers apply.

Modules, one per concern of the source:

- `Common`: results, error outcomes (one constructor per message the handlers
  return), and the JSON values a configuration body carries.
- `Text`: Python's whitespace class, `str.strip` and ASCII lower-casing.
- `Sanitizer`: `sanitize_input`. It makes three regular-expression removal passes,
  written out as left-to-right scanners, then truncates to 200 characters, then
  strips.
- `Validators`: the specimen-number check, the upload check, the certificate rename and
  the new-password rules.
- `Dropdown`: the per-key cleaning loop of `update_config`. It is a method with a loop,
  proved against the specification functions `Kept`, `Dedup` and `Cap`.
- `Sorting`: the descending sort both listing handlers do. It is an in-place insertion
  sort on an array.
- `DataFolder`: the data folder as a set of file names. It also holds the listing loop
  of `get_all_records`.
- `Handlers`: the whole state as a value (`AppView`), with each handler as a function
  from a state and a request to an answer and a new state (`Step`).
- `HandlerProperties`: the invariant every handler keeps, and properties relating
  several handlers.
- `App`: the class `AppState`. Its fields are the state, and it has one method per
  handler. The method does the handler's steps in the source's order. For every
  handler that has a step function of the same name in `Handlers`, the method's
  postcondition is that it leaves exactly the answer and the state that function
  gives. `GetAllRecords` and `GetAdminLogs` have no step function: their
  postconditions are the session check's step and the properties of the listing.

Foreign code and the environment are parameters:

- The md5 digest is a function the `AppState` constructor receives.
- `uuid4` values are the parameters `certId` and `recordId`.
- `datetime.now()` is the parameter `now`, an integer count of microseconds.
- werkzeug's `secure_filename` result and the file size are fields of `Upload`.
- `BASE_URL` is the constant `http://localhost:8000`.

## Model

| member | source | states |
|---|---|---|
| Text.LowerChar | app.py:362 | ASCII capitals move down to their lower-case letter; every other character is kept; the result is never a capital |
| Text.Lower | app.py:362 | same length, and each character is lower-cased on its own |
| Text.Strip | app.py:170 | `str.strip`: never longer; no whitespace at either end; a string without outer whitespace is returned unchanged; empty exactly when the input is all whitespace |
| Text.StripKeepsInfix | app.py:170 | the result is one contiguous piece `s[i..j]` of the input, and everything before and after it is whitespace |
| Text.StripIdempotent | app.py:170 | stripping a stripped string changes nothing |
| Sanitizer.FindChar | app.py:162 | the first position at or after the start that holds the character, or none when there is none |
| Sanitizer.FindCi | app.py:162 | the first position at or after the start where the literal occurs ignoring ASCII case, or none when there is none |
| Sanitizer.WordRunEnd | app.py:164 | the end of the longest run of `\w` characters from the start |
| Sanitizer.SpaceRunEnd | app.py:164 | the end of the longest run of whitespace from the start |
| Sanitizer.LowerIsOnly | app.py:162-164 | a case-insensitive match fixes the characters of the literal that are not letters |
| Sanitizer.ScriptMatchLength | app.py:162 | a script-element match is non-empty, fits in the text and begins with `<` |
| Sanitizer.RemoveScripts | app.py:162 | removing script elements never lengthens the text and is the identity on text without `<` |
| Sanitizer.UrlSchemeMatchLength | app.py:163 | a `javascript:` match is non-empty and ends with `:` |
| Sanitizer.RemoveUrlSchemes | app.py:163 | never lengthens, and is the identity on text without `:` |
| Sanitizer.HandlerMatchLength | app.py:164 | an `on\w+\s*=` match is non-empty and ends with `=` |
| Sanitizer.RemoveHandlers | app.py:164 | never lengthens, and is the identity on text without `=` |
| Sanitizer.Truncate | app.py:167-168 | the first `min(n, 200)` characters |
| Sanitizer.SanitizeInput | app.py:156-170 | empty input comes back unchanged; otherwise at most 200 characters, no longer than the input, and no outer whitespace (the truncation comes before the strip); the identity on short stripped text that none of the patterns can touch |
| Validators.SpecimenPatternCases | app.py:178 | without a final newline the pattern matches exactly the non-empty strings over `[A-Za-z0-9_-]`; with one, exactly when what precedes the newline is such a string |
| Validators.ValidateSpecimenNumber | app.py:172-184 | empty gives the emptiness error; without a trailing newline, it passes exactly for 1 to 50 characters of `[A-Za-z0-9_-]`; a bad character gives the charset error even when the number is also too long; only an all-allowed number over 50 gets the length error |
| Validators.TrailingNewlineAccepted | app.py:178 | as written, `$` lets a valid number followed by one `\n` pass |
| Validators.SanitizeKeepsSpecimenNumber | app.py:339-347 | a stripped number the validator accepts passes through `sanitize_input` unchanged, so it is stored verbatim |
| Validators.ValidateFileSecurity | app.py:186-206 | passes exactly when the secured name is non-empty and the size is at most 100 MiB; an empty name gives the name error; otherwise an oversize file gives the size error |
| Validators.LastDot | app.py:361-362 | the position of the last `.`, or none when the name has no dot |
| Validators.Extension | app.py:361-362 | `rsplit('.', 1)[1]`: the part after the last dot, which holds no dot; none exactly when the name has no dot |
| Validators.CertificateName | app.py:361-366 | the stored name begins with the fresh identifier; it is exactly the identifier when the secured name has no dot, and otherwise one dot and the extension longer |
| Validators.CertificateNameOnlyByExtension | app.py:361-366 | the stored name depends on the secured name only through its lower-cased extension, so nothing else of the original name is kept |
| Validators.CertificateNameKeepsExtension | app.py:361-366 | for an identifier without dots, the stored name's extension is the lower-cased extension of the original name, and the name has none when the original had none |
| Validators.CheckNewPassword | app.py:665-674 | the rules in order (at least 6, at most 50, none of `< > " ' & \ /`), each error exactly when the earlier rules pass and that one fails; passes exactly when all hold |
| Dropdown.CleanEntry | app.py:617-622 | an entry is kept exactly when it is a string whose stripped and sanitized form has 1 to 100 characters; that form is what is kept, and it is a valid option |
| Dropdown.FilterMap | app.py:616-622 | a value is in the result exactly when some element maps to it; the result is no longer than the input |
| Dropdown.Kept | app.py:616-622 | the list the loop builds holds exactly the cleaned forms of the kept entries, each a valid option |
| Dropdown.FirstIndex | app.py:625 | the first position of an element |
| Dropdown.FirstIndexAppend | app.py:625 | appending does not move a first occurrence |
| Dropdown.Dedup | app.py:625 | `dict.fromkeys`: the same elements, none repeated, ordered by first occurrence |
| Dropdown.DedupSnocNew | app.py:625 | appending an element not yet present appends it to the deduplicated list |
| Dropdown.DedupOfDistinct | app.py:625 | a list without repetitions is its own deduplication |
| Dropdown.Cap | app.py:625 | `[:50]`: a prefix of length `min(n, 50)` |
| Dropdown.CapDedupProperties | app.py:625 | after dedup and cap: at most 50 elements, none repeated, all from the list, in first-occurrence order; empty exactly when the list is; nothing is lost when there are at most 50 distinct elements |
| Dropdown.CleanList | app.py:615-626 | the loop computes `Cap(Dedup(Kept(items)))`: at most 50 distinct valid options, each the cleaned form of some entry; empty exactly when no entry survives |
| Dropdown.CleanedIsValid | app.py:625-631 | a cleaned list that passes the emptiness check is a valid stored option list |
| Dropdown.CleanEntryOfStable | app.py:620-621 | a stable option is kept as it is |
| Dropdown.KeptOfStable | app.py:616-622 | the loop keeps a list of stable options unchanged |
| Dropdown.CleanedOfStable | app.py:614-626 | cleaning at most 50 distinct stable options gives them back |
| Dropdown.StableListIsClean | app.py:614-626 | a valid list of stable options is its own cleaned form |
| Sorting.Swap | app.py:481 | exchanges two elements and keeps the rest |
| Sorting.InsertLeft | app.py:481 | extends the sorted prefix by one element, keeping the contents as a multiset |
| Sorting.SortByKeyDescending | app.py:481 | the array ends in descending key order and is a permutation of what it held |
| Sorting.SortedCopy | app.py:481 | the list in descending key order, a permutation of the input (also used for the log, app.py:719); stability is not stated, see Left out |
| DataFolder.RecordFileInjective | app.py:385 | distinct ids have distinct record documents |
| DataFolder.ReservedIdsPassExistence | app.py:490-492 | as written, in a folder holding the configuration documents, the existence test accepts each of the ids `admin`, `dropdown_config` and `app_config` |
| DataFolder.DeleteAsWritten | app.py:556-574 | as written, the deletion always leaves the folder without the id's document, whichever document that is |
| DataFolder.DeleteAsWrittenRemovesCredentials | app.py:556-574 | as written, the existence test accepts the id `admin`, and the deletion removes `admin.json` |
| DataFolder.Delete | app.py:556-574 | corrected deletion: never removes a configuration document; removes the id's document exactly when the corrected test accepts the id, and otherwise leaves the folder unchanged |
| DataFolder.IsRecordIdMatchesStore | app.py:490-492 | for a store without reserved ids, the corrected test accepts exactly the stored ids |
| DataFolder.RecordFileNotReserved | app.py:130-138 | no id outside the reserved names has a configuration document as its record document |
| DataFolder.FilesRemove | app.py:574 | removing a stored record removes exactly its document from the folder |
| DataFolder.CountOne | app.py:470 | reading one more document adds one to the count exactly when it is not a configuration document |
| DataFolder.ListDocuments | app.py:470-478 | one entry per document outside the three configuration documents; every such document's record is listed and every listed record is one of them |
| Handlers.QrImageNameInjective | app.py:401 | distinct ids have distinct QR image names |
| Handlers.FourOptionsValid | app.py:140-144 | four short options with no outer whitespace and four different first characters form a valid list |
| Handlers.InitialInv | app.py:130-146 | the startup state satisfies the invariant |
| Handlers.InitialState | app.py:130-146 | at startup no session check passes, the password `123456` logs in, and the store, both folders and the log are empty |
| Handlers.LogAppendsOne | app.py:228-246 | logging keeps every earlier entry in place, puts the new entry last and changes nothing else |
| Handlers.CheckAdminSession | app.py:447-460 | true exactly when both session keys are present and at most one hour has passed; true changes nothing; the state changes exactly when both keys are present and the hour is over, and then the session is cleared; after false, no check passes before the next login |
| Handlers.SessionLastsOneHour | app.py:456 | in any state whose session holds the flag and a login time, the session is accepted up to and including one hour after that time, and refused after |
| Handlers.AdminLogin | app.py:267-285 | empty password: the password-required error; hash equal to the stored one: success, and the session passes until one hour after `now`; otherwise the wrong-password error; only success changes anything, and only the session |
| Handlers.AdminLogout | app.py:287-291 | the flag is removed and nothing else changes; no later check passes |
| Handlers.AdminLogoutApi | app.py:293-297 | both the flag and the login time are removed, and nothing else changes |
| Handlers.StoredCertificate | app.py:349-369 | no certificate when there is no upload or its name is empty; the upload check's error exactly when it fails; otherwise the renamed file, `CertificateName` of the fresh identifier and the secured name |
| Handlers.SaveCertificate | app.py:367-368 | the upload folder gains the stored name, if any |
| Handlers.Admission | app.py:329-369 | the missing-fields error exactly when a stripped field is empty, checked before the specimen format; then the format error; once the fields are filled and the number is valid, the answer is the upload check's: its error or the certificate to store; success exactly when all three pass |
| Handlers.GenerateQrcode | app.py:324-412 | succeeds exactly when the request is admitted; a refused request changes nothing and carries the check's error |
| Handlers.GenerateAddsOneRecord | app.py:372-387 | success stores the record under the given id and keeps every other record; when the id is fresh, the store grows by exactly one |
| Handlers.GenerateWritesFiles | app.py:367-403 | success stores the certificate, if any, writes the QR image of the page address, and changes nothing else but the records |
| Handlers.GenerateStoresFields | app.py:375-383 | the new record holds the id, the stripped specimen number verbatim, the other three fields stripped and sanitized, the certificate, the creation time and no update time |
| Handlers.UpdateRecord | app.py:485-548 | without a live session, refused, with the session check's state; an unknown id and a missing key are reported and change nothing; an invalid stripped number gets the validator's error and changes nothing; success exactly when the stripped number is valid. A record id is one in the store (the corrected test); the source also accepts the three reserved ids, see Left out and Findings |
| Handlers.WithFieldsKeepsRest | app.py:525-531 | `dict.update`: every key of the record but the four fields and the update time is kept, and those come from the arguments |
| Handlers.MetaOfIgnoresFields | app.py:540 | the snapshot of the updated record is that of the record before the update with the new update time: none of the edited fields appears in it |
| Handlers.UpdateReplacesFields | app.py:503-541 | success replaces the four fields with their sanitized values and sets the update time, keeps the id, certificate, creation time and every other record, and appends one entry whose snapshot already carries the new update time |
| Handlers.CertificateOfNamesOne | app.py:568-569 | a record names at most one upload, and one exactly when its certificate name is present and not empty |
| Handlers.RemoveCertificate | app.py:568-571 | the upload folder loses the record's named certificate, if any |
| Handlers.RemoveQrImage | app.py:577-578 | the record's QR image is gone |
| Handlers.DeleteRecord | app.py:551-591 | success exactly for a live session and a stored id: the record, its certificate and its QR image go, one entry is logged, nothing else changes; an unknown id changes nothing. A record id is one in the store (the corrected test); the source also accepts the three reserved ids, see Left out and Findings |
| Handlers.FormatError | app.py:608-611 | no error exactly when all three keys are present and hold lists; each key is reported exactly when it is bad and the keys before it, in the order materials, reflector types, storage areas, are good |
| Handlers.UpdateConfig | app.py:594-648 | a bad key or an empty cleaned list changes nothing; the first bad key is reported, and otherwise the first key, in the order materials, reflector types, storage areas, whose cleaned list is empty; success exactly when the keys are lists and all three cleaned lists are non-empty; then the cleaned lists are stored and one entry with the old and new lists is appended |
| Handlers.ChangePassword | app.py:651-702 | the checks in order (both non-empty, new-password rules, current hash), each failing one giving its own error, the last one the wrong-current-password error; any failure changes nothing; success stores the new hash and appends one entry without either password |
| HandlerProperties.AddRecordConsistent | app.py:372-403 | adding a record under its own fresh id, with its QR image, keeps the store consistent |
| HandlerProperties.ReplaceRecordConsistent | app.py:525-535 | replacing a record by one with the same id keeps the store consistent |
| HandlerProperties.RemoveRecordConsistent | app.py:574-578 | removing a record with its QR image keeps the store consistent |
| HandlerProperties.SessionHandlersKeepInv | app.py:267-297 | the session check, a login and both logouts keep the invariant |
| HandlerProperties.GenerateKeepsInv | app.py:324-412 | `generate_qrcode` keeps the invariant for an id outside the reserved names |
| HandlerProperties.UpdateKeepsInv | app.py:485-548 | `update_record` keeps the invariant |
| HandlerProperties.DeleteKeepsInv | app.py:551-591 | `delete_record` keeps the invariant |
| HandlerProperties.ConfigKeepsInv | app.py:594-648 | `update_config` keeps the invariant: what it stores are valid option lists |
| HandlerProperties.PasswordKeepsInv | app.py:651-702 | `change_password` keeps the invariant |
| HandlerProperties.DeleteUndoesGenerate | app.py:551-591 | deleting a record right after creating it under fresh names restores the state before creation, except for the one log entry |
| HandlerProperties.DeleteMatchesCorrectedFolder | app.py:556-574 | under the invariant, `delete_record` accepts exactly the ids the corrected folder test accepts, and leaves the folder the corrected deletion leaves |
| HandlerProperties.RecordHandlersAppendToLog | app.py:228-246 | update and delete only append to the log, at most one entry per request |
| HandlerProperties.SettingsHandlersAppendToLog | app.py:228-246 | configuration and password changes only append to the log, at most one entry per request |
| HandlerProperties.LoginAfterPasswordChange | app.py:651-702 | after a change, the new password (as stripped) logs in, and the old one logs in only if the two hashes collide |
| HandlerProperties.StoredListsBodyShape | app.py:608-611 | a body that resubmits the stored lists passes the format check and carries those lists |
| HandlerProperties.ConfigResaveKeepsLists | app.py:594-648 | resubmitting stable stored lists succeeds, keeps them, and only logs |
| App.AppState.constructor | app.py:130-146 | startup state: no records, the default lists, the hash of `123456`, no session; it satisfies the invariant |
| App.AppState.LogAdminOperation | app.py:228-246 | appends one entry |
| App.AppState.CheckAdminSession | app.py:447-460 | does what `Handlers.CheckAdminSession` describes |
| App.AppState.AdminLogin | app.py:267-285 | does what `Handlers.AdminLogin` describes |
| App.AppState.AdminLogout | app.py:287-291 | does what `Handlers.AdminLogout` describes |
| App.AppState.AdminLogoutApi | app.py:293-297 | does what `Handlers.AdminLogoutApi` describes |
| App.AppState.GenerateQrcode | app.py:324-412 | answer and new state equal `Handlers.GenerateQrcode` |
| App.AppState.SaveRecord | app.py:367-403 | writes the certificate, the record and the QR image of a new record |
| App.AppState.UpdateRecord | app.py:485-548 | answer and new state equal `Handlers.UpdateRecord` |
| App.AppState.PutRecord | app.py:534-535 | writes one record document |
| App.AppState.DeleteRecord | app.py:551-591 | answer and new state equal `Handlers.DeleteRecord` |
| App.AppState.RemoveRecordFiles | app.py:567-578 | removes the certificate if it exists, then the record, then the QR image if it exists |
| App.AppState.UpdateConfig | app.py:594-648 | answer and new state equal `Handlers.UpdateConfig` |
| App.AppState.PutLists | app.py:634-635 | writes the option list document |
| App.AppState.ChangePassword | app.py:651-702 | answer and new state equal `Handlers.ChangePassword` |
| App.AppState.PutPasswordHash | app.py:685-689 | writes the credential document |
| App.AppState.GetAllRecords | app.py:463-482 | the session check's answer and state; on success, newest first, one entry per non-configuration document, every such document's record listed and every entry one of them |
| App.AppState.GetAdminLogs | app.py:705-724 | the session check's answer and state; on success, the whole log as a permutation, newest first; stability is not stated, see Left out |

The invariant (`Handlers.Inv`) says:

- every record is stored under its own id;
- no record's id is a reserved name;
- every record has the QR image of its page;
- the three option lists are valid (1 to 50 distinct options of 1 to 100 characters
  without outer whitespace).

The class methods are proved equal to the step functions, so the invariant lemmas in
`HandlerProperties` hold for the class as well.

Points where the model follows the code rather than the intention a reader might assume:

- `validate_specimen_number` accepts one trailing `\n` (Python's `$`). No caller
  reaches this, because both callers strip first.
- The sanitizer makes each removal pass once, left to right. Removing one match can
  create a new one, and the passes do not remove that.
- `update_record` takes its log entry's "before" snapshot after the record has been
  changed, so it carries the new update time.
- `update_record` requires the four keys to be present. It rejects an empty specimen
  number, as the validator does, but accepts an empty material, reflector type or
  storage area, while `generate_qrcode` rejects all four when empty.

## Left out

- Flask routing, templates, redirects, response bodies and the `/admin` page check: HTTP glue. Handlers answer with result and outcome values.
- `get_dropdown_config`, `get_config`, `get_qrcode`, `view_record`, `download_file` and `pdf_viewer`: they read files and change no state.
- File-system I/O and JSON encoding: files are fields of map and set type. Documents that will not parse, which `get_all_records` skips, have no counterpart in typed storage. A missing log file is the empty log.
- `update_html_templates_config`, `get_base_url` and `get_server_config`: startup rewriting of files. `BASE_URL` is a constant.
- QR image rendering: an image is modelled as its file name and the address it encodes.
- `allowed_file`: its only call is commented out.
- The generic `except Exception` answers: no modelled step fails.
- Concurrent requests and the cookie lifetime of the session: the model is sequential.
- Unicode case folding: `IGNORECASE`, `\w` and `lower()` are modelled on ASCII only. Whitespace is Python's full `isspace` set.
- ISO-8601 timestamp strings: times are integers. Sorting by `created_at` and `timestamp` compares those integers, where the source compares the strings; the two orders agree for timestamps from one clock and time zone. Records without `created_at` are not modelled.
- Sorting.SortByKeyDescending: stability is not stated. Python's sort keeps equal keys in input order; the model promises only a descending permutation.
- Sorting.SortedCopy: stability is not stated, for the same reason; equal keys may come out in any order.
- App.AppState.GetAdminLogs: log entries with equal timestamps are not promised to keep their append order, which `list.sort` keeps (app.py:719); only a descending permutation of the log is stated.
- DataFolder.ListDocuments: the order of `os.listdir` is left open, so only membership and count are stated.
- Handlers.UpdateRecord: non-string body values are modelled as the strings Python's `str` makes of them. The body is a map from key to that string, and a body that is not a JSON object is not modelled.
- Handlers.UpdateConfig: the body is a map from key to JSON value, so a body that is not a JSON object (app.py:605-611, where `key not in new_config` would raise or test membership on a list or string) is not modelled.
- Handlers.ChangePassword: missing keys are passed as empty strings, as `data.get(..., '')` gives.
- Handlers.GenerateQrcode: missing form keys are passed as empty strings.
- Handlers.UpdateRecord: one time `now` stands for the clock readings of the session check (app.py:456), of the update time (app.py:530) and of the log entry (app.py:231); `delete_record`, `update_config` and `change_password` likewise use one `now` for the session check and the log entry.
- Handlers.UpdateRecord: a record id is an id in the store, the corrected test of `DataFolder.IsRecordId`. For the ids `admin`, `dropdown_config` and `app_config` the source's existence test passes (app.py:490-492) and it goes on to rewrite that configuration document; the model answers the record-not-found error instead. See Findings.
- Handlers.DeleteRecord: a record id is an id in the store, as for `update_record`. For the three reserved ids the source's existence test passes (app.py:559-560) and it deletes the configuration document; the model answers the record-not-found error instead. See Findings.
- App.AppState: the invariant is proved on the step functions, not carried as a class invariant.

## Findings

| source | as written | input that shows it | evidently intended | confidence | as-written member | corrected member |
|---|---|---|---|---|---|---|
| app.py:556-574 | `delete_record` treats any id whose `{id}.json` exists in the data folder as a record. That folder also holds `admin.json`, `dropdown_config.json` and `app_config.json` | `DELETE /api/admin/record/admin` with a live session removes the admin credential document. (`update_record` with the same id keeps the password key, since `dict.update` adds the four fields and the update time to the credential document, but it copies the password hash into the audit log, app.py:525-542) | only record documents are deleted; the three configuration documents are never record ids | not executed | DataFolder.DeleteAsWrittenRemovesCredentials | DataFolder.Delete |

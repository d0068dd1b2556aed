/** The request handlers of the specimen registry (app.py) as transitions of the whole
    application state: the record documents of the data folder, the uploaded
    certificates, the QR images, the three dropdown option lists, the admin password
    hash, the admin operation log and the admin session of the client.

    A file becomes a value: a record document an entry of `records`, an upload an element
    of `uploads`, a QR image an entry of `qrImages` (file name to the address it encodes).
    The clock, the fresh identifiers of `uuid4`, the client address and the md5 digest are
    parameters. Each handler is a function from the state before the request to its
    answer and the state after it; module `App` runs them as methods on one object. */
module Handlers {
  import opened Common
  import opened Text
  import opened Sanitizer
  import opened Validators
  import opened Dropdown
  import opened DataFolder

  /** The default `baseUrl` of the application configuration document. */
  const BaseUrl := "http://localhost:8000"

  /** Times are microseconds on one clock; a session lasts one hour. */
  const OneHour := 3600 * 1000000

  const InitialPassword := "123456"
  const DefaultMaterials := ["钢材", "混凝土", "铝合金", "其他"]
  const DefaultReflectorTypes := ["平底孔", "横通孔", "斜孔", "其他"]
  const DefaultStorageAreas := ["A区", "B区", "C区", "D区"]

  const MaterialsKey := "materials"
  const ReflectorTypesKey := "reflector_types"
  const StorageAreasKey := "storage_areas"

  /** One record document. */
  datatype Record = Record(
    id: string,
    specimenNumber: string,
    material: string,
    reflectorType: string,
    storageArea: string,
    certificateFile: Option<string>,
    createdAt: int,
    updatedAt: Option<int>)

  /** The four editable fields of a record, as a form or a request body carries them. */
  datatype Fields = Fields(specimenNumber: string, material: string, reflectorType: string, storageArea: string)

  /** The `before_state` and `after_state` documents of a log entry. */
  datatype LogState =
    | RecordMeta(recordId: string, id: string, certificateFile: Option<string>, createdAt: int, updatedAt: Option<int>)
    | RecordData(recordId: string, record: Record)
    | Deleted(recordId: string)
    | ConfigLists(materials: seq<string>, reflectorTypes: seq<string>, storageAreas: seq<string>)
    | PasswordAction(action: string)

  datatype LogEntry = LogEntry(timestamp: int, operationType: string, ipAddress: string, beforeState: LogState, afterState: LogState)

  /** The answer of a successful `generate_qrcode`. */
  datatype Created = Created(recordId: string, qrImageUrl: string)

  /** All the state of the application. */
  datatype AppView = AppView(
    records: map<string, Record>,
    uploads: set<string>,
    qrImages: map<string, string>,
    materials: seq<string>,
    reflectorTypes: seq<string>,
    storageAreas: seq<string>,
    passwordHash: string,
    logs: seq<LogEntry>,
    loggedIn: bool,
    loginTime: Option<int>)

  /** A handler's answer together with the state it leaves. */
  datatype Step<+T> = Step(result: T, next: AppView)

  function QrImageName(id: string): string { id + ".png" }
  /** What the QR image of a record encodes: the address of its public page. */
  function ViewUrl(id: string): string { BaseUrl + "/view/" + id }
  function QrImageUrl(id: string): string { BaseUrl + "/api/qrcode/" + id }

  lemma QrImageNameInjective(a: string, b: string)
    requires QrImageName(a) == QrImageName(b)
    ensures a == b
  {
    assert a == QrImageName(a)[..|a|];
  }

  /** Storing a record under `id` adds that key and keeps every other entry. */
  lemma StoreAdds(records: map<string, Record>, id: string, rec: Record)
    ensures records[id := rec].Keys == records.Keys + {id}
    ensures forall k :: k in records && k != id ==> records[id := rec][k] == records[k]
  {
  }

  /** The state at startup: no records, files or log entries, the default option lists,
      the hash of `123456` and no session. */
  function Initial(hash: string -> string): AppView {
    AppView(map[], {}, map[], DefaultMaterials, DefaultReflectorTypes, DefaultStorageAreas,
            hash(InitialPassword), [], false, None)
  }

  /** At startup no session check passes, the password `123456` is accepted, and the
      store, the folders and the log are empty. */
  lemma InitialState(hash: string -> string, now: int)
    ensures LockedOut(Initial(hash))
    ensures AdminLogin(Initial(hash), hash, InitialPassword, now).result == Pass
    ensures var s := Initial(hash); s.records == map[] && s.uploads == {} && s.qrImages == map[] && s.logs == []
  {
  }

  /** Every record is stored under its own id, which is not a reserved name, next to the
      QR image of its public page. */
  predicate RecordsConsistent(records: map<string, Record>, qrImages: map<string, string>) {
    forall id :: id in records ==>
      records[id].id == id && id !in ReservedIds
      && QrImageName(id) in qrImages && qrImages[QrImageName(id)] == ViewUrl(id)
  }

  /** What every handler keeps: consistent records and well-formed option lists. */
  predicate Inv(s: AppView) {
    RecordsConsistent(s.records, s.qrImages)
    && ValidOptions(s.materials) && ValidOptions(s.reflectorTypes) && ValidOptions(s.storageAreas)
  }

  /** A four-option list whose options are short, have no outer whitespace and start
      with four different characters is a valid option list. */
  lemma FourOptionsValid(a: string, b: string, c: string, d: string)
    requires IsOption(a) && IsOption(b) && IsOption(c) && IsOption(d)
    requires a[0] != b[0] && a[0] != c[0] && a[0] != d[0] && b[0] != c[0] && b[0] != d[0] && c[0] != d[0]
    ensures ValidOptions([a, b, c, d])
  {
    var s := [a, b, c, d];
    forall i, j | 0 <= i < j < |s| ensures s[i] != s[j] {
      assert s[i][0] != s[j][0];
    }
  }

  /** The startup state satisfies the invariant. */
  lemma InitialInv(hash: string -> string)
    ensures Inv(Initial(hash))
  {
    FourOptionsValid("钢材", "混凝土", "铝合金", "其他");
    FourOptionsValid("平底孔", "横通孔", "斜孔", "其他");
    FourOptionsValid("A区", "B区", "C区", "D区");
  }

  // ---------------------------------------------------------------------------------
  // The log and the session

  /** `log_admin_operation`: one entry at the end of the log, nothing else changed. */
  function LogAdminOperation(s: AppView, operationType: string, ipAddress: string,
                             beforeState: LogState, afterState: LogState, now: int): AppView
  {
    s.(logs := s.logs + [LogEntry(now, operationType, ipAddress, beforeState, afterState)])
  }

  /** Logging keeps every earlier entry in place and puts the new one last. */
  lemma LogAppendsOne(s: AppView, operationType: string, ipAddress: string,
                      beforeState: LogState, afterState: LogState, now: int)
    ensures var r := LogAdminOperation(s, operationType, ipAddress, beforeState, afterState, now);
            && |r.logs| == |s.logs| + 1 && r.logs[..|s.logs|] == s.logs
            && r.logs[|s.logs|] == LogEntry(now, operationType, ipAddress, beforeState, afterState)
            && r.(logs := s.logs) == s
  {
    var r := LogAdminOperation(s, operationType, ipAddress, beforeState, afterState, now);
    assert r.logs[..|s.logs|] == s.logs;
  }

  /** `check_admin_session` passes: both session keys are present and at most an hour has
      gone by since the login. */
  predicate SessionValid(loggedIn: bool, loginTime: Option<int>, now: int) {
    loggedIn && loginTime.Some? && now - loginTime.value <= OneHour
  }

  predicate Live(s: AppView, now: int) {
    SessionValid(s.loggedIn, s.loginTime, now)
  }

  /** Whether no check passes again before the next login. */
  ghost predicate LockedOut(s: AppView) {
    forall t :: !SessionValid(s.loggedIn, s.loginTime, t)
  }

  /** `check_admin_session`: passes exactly for a live session; a session that has
      expired is cleared, and a failed check stays failed until the next login. Only the
      session is ever touched. */
  function CheckAdminSession(s: AppView, now: int): (r: Step<bool>)
    ensures r.result <==> s.loggedIn && s.loginTime.Some? && now - s.loginTime.value <= OneHour
    ensures r.result ==> r.next == s
    ensures !r.result ==> LockedOut(r.next)
    ensures r.next == s || r.next == s.(loggedIn := false, loginTime := None)
    ensures r.next != s <==> s.loggedIn && s.loginTime.Some? && now - s.loginTime.value > OneHour
  {
    if !s.loggedIn then Step(false, s)
    else if s.loginTime.None? then Step(false, s)
    else if now - s.loginTime.value > OneHour then Step(false, s.(loggedIn := false, loginTime := None))
    else Step(true, s)
  }

  /** A session opened at `t` is accepted up to and including `t` plus one hour, and
      refused after that, whatever else the state holds. */
  lemma SessionLastsOneHour(s: AppView, t: int, now: int)
    ensures s.loggedIn && s.loginTime == Some(t) ==> (Live(s, now) <==> now <= t + OneHour)
  {
  }

  /** `admin_login_post`: a missing or empty password is refused; a password whose hash is
      the stored one opens a session lasting one hour from `now`; any other is refused.
      Only a successful login changes anything, and only the session. */
  function AdminLogin(s: AppView, hash: string -> string, password: string, now: int): (r: Step<Outcome>)
    ensures r.result == Fail(PasswordRequired) <==> password == []
    ensures r.result == Pass <==> password != [] && hash(password) == s.passwordHash
    ensures r.result == Fail(WrongPassword) <==> password != [] && hash(password) != s.passwordHash
    ensures r.result != Pass ==> r.next == s
    ensures r.result == Pass ==> r.next.(loggedIn := s.loggedIn, loginTime := s.loginTime) == s
    ensures r.result == Pass ==> forall t :: Live(r.next, t) <==> t <= now + OneHour
  {
    if password == [] then Step(Fail(PasswordRequired), s)
    else if hash(password) == s.passwordHash then Step(Pass, s.(loggedIn := true, loginTime := Some(now)))
    else Step(Fail(WrongPassword), s)
  }

  /** `admin_logout` (GET): removes the login flag and nothing else; no later check passes. */
  function AdminLogout(s: AppView): (r: AppView)
    ensures !r.loggedIn && LockedOut(r)
    ensures r.loginTime == s.loginTime && r.(loggedIn := s.loggedIn) == s
  {
    s.(loggedIn := false)
  }

  /** `admin_logout_api` (POST): clears the whole session and nothing else. */
  function AdminLogoutApi(s: AppView): (r: AppView)
    ensures !r.loggedIn && LockedOut(r) && r.loginTime.None?
    ensures r.(loggedIn := s.loggedIn, loginTime := s.loginTime) == s
  {
    s.(loggedIn := false, loginTime := None)
  }

  // ---------------------------------------------------------------------------------
  // Records

  function Stripped(f: Fields): Fields {
    Fields(Strip(f.specimenNumber), Strip(f.material), Strip(f.reflectorType), Strip(f.storageArea))
  }

  function Sanitized(f: Fields): Fields {
    Fields(SanitizeInput(f.specimenNumber), SanitizeInput(f.material),
           SanitizeInput(f.reflectorType), SanitizeInput(f.storageArea))
  }

  predicate AllFilled(f: Fields) {
    f.specimenNumber != [] && f.material != [] && f.reflectorType != [] && f.storageArea != []
  }

  /** The certificate `generate_qrcode` stores for an optional upload: none when there is
      no upload or its file name is empty, the upload check's error when that fails, and
      otherwise the renamed file. */
  function StoredCertificate(upload: Option<Upload>, certId: string): (r: Result<Option<string>>)
    ensures r == Ok(None) <==> upload.None? || upload.value.filename == []
    ensures r.Err? <==> upload.Some? && upload.value.filename != [] && ValidateFileSecurity(upload.value).Fail?
    ensures r.Err? ==> r.error == ValidateFileSecurity(upload.value).error
    ensures r.Ok? && r.value.Some? ==> |certId| <= |r.value.value| && r.value.value[..|certId|] == certId
    ensures r.Ok? && r.value.Some? ==>
              upload.Some? && r.value.value == CertificateName(certId, upload.value.securedName)
    ensures r.Ok? && r.value.Some? && certId != [] ==> r.value.value != []
  {
    match upload
    case None => Ok(None)
    case Some(u) =>
      if u.filename == [] then Ok(None)
      else match ValidateFileSecurity(u)
        case Fail(e) => Err(e)
        case Pass => Ok(Some(CertificateName(certId, u.securedName)))
  }

  function OptionSet(o: Option<string>): set<string> {
    if o.Some? then {o.value} else {}
  }

  function NewRecord(id: string, f: Fields, cert: Option<string>, now: int): Record {
    Record(id, f.specimenNumber, f.material, f.reflectorType, f.storageArea, cert, now, None)
  }

  /** The state once a record is created: the record stored under its id, its
      certificate kept and the QR image of its page written. */
  function WithNewRecord(s: AppView, rec: Record): AppView {
    s.(records := s.records[rec.id := rec], uploads := SaveCertificate(s.uploads, rec.certificateFile),
       qrImages := s.qrImages[QrImageName(rec.id) := ViewUrl(rec.id)])
  }

  /** The upload folder once an optional certificate is saved. */
  function SaveCertificate(uploads: set<string>, cert: Option<string>): (u: set<string>)
    ensures u == uploads + OptionSet(cert)
  {
    if cert.Some? then uploads + {cert.value} else uploads
  }

  /** The checks `generate_qrcode` makes before it writes anything, in order: the four
      stripped form values non-empty, the specimen number valid, the upload acceptable.
      A request that passes them yields the certificate to store, if any. */
  function Admission(form: Fields, upload: Option<Upload>, certId: string): (r: Result<Option<string>>)
    ensures !AllFilled(Stripped(form)) ==> r == Err(MissingFields)
    ensures AllFilled(Stripped(form)) && ValidateSpecimenNumber(Strip(form.specimenNumber)).Fail? ==>
              r == Err(ValidateSpecimenNumber(Strip(form.specimenNumber)).error)
    ensures r.Ok? <==>
              AllFilled(Stripped(form)) && ValidateSpecimenNumber(Strip(form.specimenNumber)) == Pass
              && StoredCertificate(upload, certId).Ok?
    ensures r.Ok? ==> r == StoredCertificate(upload, certId)
    ensures AllFilled(Stripped(form)) && ValidateSpecimenNumber(Strip(form.specimenNumber)) == Pass ==>
              r == StoredCertificate(upload, certId)
  {
    var f := Stripped(form);
    if !AllFilled(f) then Err(MissingFields)
    else match ValidateSpecimenNumber(f.specimenNumber)
      case Fail(e) => Err(e)
      case Pass => StoredCertificate(upload, certId)
  }

  /** `generate_qrcode`. A request that fails one of the checks is answered with that
      error and changes nothing. Otherwise exactly one record is added, under `recordId`,
      holding the sanitized fields with the specimen number exactly as stripped; the
      renamed certificate, if any, is stored; the QR image of the record's page is
      written; and the answer carries the id and the image's address. Missing form keys
      are passed as empty strings. */
  function GenerateQrcode(s: AppView, form: Fields, upload: Option<Upload>, certId: string,
                          recordId: string, now: int): (r: Step<Result<Created>>)
    ensures r.result.Ok? <==> Admission(form, upload, certId).Ok?
    ensures r.result.Err? ==> r == Step(Err(Admission(form, upload, certId).error), s)
  {
    match Admission(form, upload, certId)
    case Err(e) => Step(Err(e), s)
    case Ok(cert) =>
      Step(Ok(Created(recordId, QrImageUrl(recordId))),
           WithNewRecord(s, NewRecord(recordId, Sanitized(Stripped(form)), cert, now)))
  }

  /** A successful `generate_qrcode` answers with the new id and the address of its QR
      image, and adds exactly one record, under `recordId`, keeping every other. */
  lemma GenerateAddsOneRecord(s: AppView, form: Fields, upload: Option<Upload>, certId: string,
                              recordId: string, now: int)
    requires GenerateQrcode(s, form, upload, certId, recordId, now).result.Ok?
    ensures var r := GenerateQrcode(s, form, upload, certId, recordId, now);
            && r.result.value == Created(recordId, QrImageUrl(recordId))
            && r.next.records.Keys == s.records.Keys + {recordId}
            && (forall id :: id in s.records && id != recordId ==> r.next.records[id] == s.records[id])
    ensures recordId !in s.records ==>
              |GenerateQrcode(s, form, upload, certId, recordId, now).next.records| == |s.records| + 1
  {
    var rec := NewRecord(recordId, Sanitized(Stripped(form)), Admission(form, upload, certId).value, now);
    StoreAdds(s.records, recordId, rec);
  }

  /** A successful `generate_qrcode` stores the renamed certificate if there is one,
      writes the QR image of the record's page, and changes nothing else but the records. */
  lemma GenerateWritesFiles(s: AppView, form: Fields, upload: Option<Upload>, certId: string,
                            recordId: string, now: int)
    requires GenerateQrcode(s, form, upload, certId, recordId, now).result.Ok?
    ensures var r := GenerateQrcode(s, form, upload, certId, recordId, now);
            && r.next.uploads == s.uploads + OptionSet(Admission(form, upload, certId).value)
            && r.next.qrImages == s.qrImages[QrImageName(recordId) := ViewUrl(recordId)]
            && r.next.(records := s.records, uploads := s.uploads, qrImages := s.qrImages) == s
  {
  }

  /** The record a successful `generate_qrcode` adds holds the specimen number exactly as
      stripped, the other three fields stripped and sanitized, the renamed certificate,
      the creation time and no update time. */
  lemma GenerateStoresFields(s: AppView, form: Fields, upload: Option<Upload>, certId: string,
                             recordId: string, now: int)
    requires GenerateQrcode(s, form, upload, certId, recordId, now).result.Ok?
    ensures var rec := GenerateQrcode(s, form, upload, certId, recordId, now).next.records[recordId];
            && rec.id == recordId
            && rec.specimenNumber == Strip(form.specimenNumber)
            && rec.material == SanitizeInput(Strip(form.material))
            && rec.reflectorType == SanitizeInput(Strip(form.reflectorType))
            && rec.storageArea == SanitizeInput(Strip(form.storageArea))
            && rec.certificateFile == Admission(form, upload, certId).value
            && rec.createdAt == now && rec.updatedAt.None?
  {
    var cert := Admission(form, upload, certId).value;
    var rec := NewRecord(recordId, Sanitized(Stripped(form)), cert, now);
    assert GenerateQrcode(s, form, upload, certId, recordId, now).next.records[recordId] == rec;
    SanitizeKeepsSpecimenNumber(Strip(form.specimenNumber));
  }

  /** The keys `update_record` requires in its body. */
  predicate HasRecordKeys(body: map<string, string>) {
    "specimen_number" in body && "material" in body && "reflector_type" in body && "storage_area" in body
  }

  function BodyFields(body: map<string, string>): Fields
    requires HasRecordKeys(body)
  {
    Fields(body["specimen_number"], body["material"], body["reflector_type"], body["storage_area"])
  }

  /** `dict.update` of a record with its four fields and its update time. */
  function WithFields(r: Record, f: Fields, now: int): Record {
    r.(specimenNumber := f.specimenNumber, material := f.material, reflectorType := f.reflectorType,
       storageArea := f.storageArea, updatedAt := Some(now))
  }

  /** The `old_data` part of an update's log: every key of the record except the four
      edited fields. */
  function MetaOf(recordId: string, r: Record): LogState {
    RecordMeta(recordId, r.id, r.certificateFile, r.createdAt, r.updatedAt)
  }

  /** The update keeps every key of the record but the four fields and the update time,
      and takes those from its arguments. */
  lemma WithFieldsKeepsRest(r: Record, f: Fields, now: int)
    ensures var u := WithFields(r, f, now);
            && u.(specimenNumber := r.specimenNumber, material := r.material, reflectorType := r.reflectorType,
                  storageArea := r.storageArea, updatedAt := r.updatedAt) == r
            && Fields(u.specimenNumber, u.material, u.reflectorType, u.storageArea) == f
            && u.updatedAt == Some(now)
  {
  }

  /** The snapshot of an updated record differs from that of the record before the
      update in its update time only: it records none of the edited fields. */
  lemma MetaOfIgnoresFields(recordId: string, r: Record, f: Fields, now: int)
    ensures MetaOf(recordId, WithFields(r, f, now)) == MetaOf(recordId, r.(updatedAt := Some(now)))
    ensures MetaOf(recordId, WithFields(r, f, now)) != MetaOf(recordId, r) <==> r.updatedAt != Some(now)
  {
  }

  /** `update_record`. Without a live session: refused, and an expired session cleared.
      With one, an unknown id, a body missing one of the four keys, or a stripped specimen
      number the validator refuses is reported and changes nothing. Otherwise the record's
      four fields become the sanitized values (the specimen number exactly as stripped,
      the others possibly empty) and its update time is set; its id, certificate and
      creation time and every other record are kept; one log entry is appended. The log's
      `before_state` is taken from the record after the change, so it carries the new
      update time. Body values are passed as the strings Python's `str` makes of them. */
  function UpdateRecord(s: AppView, recordId: string, body: map<string, string>, ip: string, now: int)
    : (r: Step<Outcome>)
    ensures !Live(s, now) ==> r == Step(Fail(Unauthorized), CheckAdminSession(s, now).next)
    ensures Live(s, now) && recordId !in s.records ==> r == Step(Fail(RecordNotFound), s)
    ensures Live(s, now) && recordId in s.records && !HasRecordKeys(body) ==>
              r == Step(Fail(MissingRequiredFields), s)
    ensures r.result == Pass <==>
              Live(s, now) && recordId in s.records && HasRecordKeys(body)
              && ValidateSpecimenNumber(Strip(body["specimen_number"])) == Pass
    ensures Live(s, now) && recordId in s.records && HasRecordKeys(body)
            && ValidateSpecimenNumber(Strip(body["specimen_number"])).Fail? ==>
              r == Step(Fail(ValidateSpecimenNumber(Strip(body["specimen_number"])).error), s)
    ensures Live(s, now) && r.result != Pass ==> r.next == s
  {
    var g := CheckAdminSession(s, now);
    if !g.result then Step(Fail(Unauthorized), g.next)
    else if recordId !in s.records then Step(Fail(RecordNotFound), s)
    else if !HasRecordKeys(body) then Step(Fail(MissingRequiredFields), s)
    else
      var f := Stripped(BodyFields(body));
      match ValidateSpecimenNumber(f.specimenNumber)
      case Fail(e) => Step(Fail(e), s)
      case Pass =>
        var rec := WithFields(s.records[recordId], Sanitized(f), now);
        Step(Pass, LogAdminOperation(s.(records := s.records[recordId := rec]), "update_record", ip,
                                     MetaOf(recordId, rec), RecordData(recordId, rec), now))
  }

  /** A successful `update_record` replaces the record's four fields and sets its update
      time, keeping its id, certificate and creation time and every other record, and
      appends one log entry whose `before_state` already carries the new update time. */
  lemma UpdateReplacesFields(s: AppView, recordId: string, body: map<string, string>, ip: string, now: int)
    requires UpdateRecord(s, recordId, body, ip, now).result == Pass
    ensures var r := UpdateRecord(s, recordId, body, ip, now);
            && recordId in s.records && r.next.records.Keys == s.records.Keys
            && (forall id :: id in s.records && id != recordId ==> r.next.records[id] == s.records[id])
            && r.next.(records := s.records, logs := s.logs) == s
    ensures var r := UpdateRecord(s, recordId, body, ip, now);
            var before, after := s.records[recordId], r.next.records[recordId];
            && after.id == before.id
            && after.certificateFile == before.certificateFile
            && after.createdAt == before.createdAt
            && after.updatedAt == Some(now)
            && after.specimenNumber == Strip(body["specimen_number"])
            && after.material == SanitizeInput(Strip(body["material"]))
            && after.reflectorType == SanitizeInput(Strip(body["reflector_type"]))
            && after.storageArea == SanitizeInput(Strip(body["storage_area"]))
            && r.next.logs == s.logs + [LogEntry(now, "update_record", ip, MetaOf(recordId, after), RecordData(recordId, after))]
            && r.next.logs[|s.logs|].beforeState.updatedAt == Some(now)
  {
    var f := Stripped(BodyFields(body));
    var rec := WithFields(s.records[recordId], Sanitized(f), now);
    assert UpdateRecord(s, recordId, body, ip, now).next ==
      LogAdminOperation(s.(records := s.records[recordId := rec]), "update_record", ip,
                        MetaOf(recordId, rec), RecordData(recordId, rec), now);
    SanitizeKeepsSpecimenNumber(Strip(body["specimen_number"]));
  }

  /** The upload `delete_record` removes with a record: its certificate, when it names a
      non-empty one. */
  function CertificateOf(r: Record): set<string> {
    if r.certificateFile.Some? && r.certificateFile.value != [] then {r.certificateFile.value} else {}
  }

  /** A record names at most one upload, and one exactly when its certificate name is
      present and not empty. */
  lemma CertificateOfNamesOne(r: Record)
    ensures |CertificateOf(r)| <= 1
    ensures CertificateOf(r) != {} <==> r.certificateFile.Some? && r.certificateFile.value != []
    ensures forall f :: f in CertificateOf(r) ==> r.certificateFile == Some(f)
  {
  }

  /** The upload folder once the certificate a record names, if it exists, is removed. */
  function RemoveCertificate(uploads: set<string>, r: Record): (u: set<string>)
    ensures u == uploads - CertificateOf(r)
  {
    if r.certificateFile.Some? && r.certificateFile.value != [] && r.certificateFile.value in uploads
    then uploads - {r.certificateFile.value}
    else uploads
  }

  /** The QR images once a record's image, if it exists, is removed. */
  function RemoveQrImage(qrImages: map<string, string>, id: string): (m: map<string, string>)
    ensures m == qrImages - {QrImageName(id)}
  {
    if QrImageName(id) in qrImages then qrImages - {QrImageName(id)} else qrImages
  }

  /** `delete_record`. Without a live session: refused, and an expired session cleared.
      With one, an unknown id is reported and changes nothing. Otherwise the record, its
      QR image and its certificate (when it names one) are removed, the removed record is
      logged, and nothing else changes. */
  function DeleteRecord(s: AppView, recordId: string, ip: string, now: int): (r: Step<Outcome>)
    ensures !Live(s, now) ==> r == Step(Fail(Unauthorized), CheckAdminSession(s, now).next)
    ensures Live(s, now) && recordId !in s.records ==> r == Step(Fail(RecordNotFound), s)
    ensures r.result == Pass <==> Live(s, now) && recordId in s.records
    ensures r.result == Pass ==>
              && r.next.records == s.records - {recordId}
              && r.next.uploads == s.uploads - CertificateOf(s.records[recordId])
              && r.next.qrImages == s.qrImages - {QrImageName(recordId)}
              && r.next.logs == s.logs + [LogEntry(now, "delete_record", ip, RecordData(recordId, s.records[recordId]), Deleted(recordId))]
              && r.next.(records := s.records, uploads := s.uploads, qrImages := s.qrImages, logs := s.logs) == s
  {
    var g := CheckAdminSession(s, now);
    if !g.result then Step(Fail(Unauthorized), g.next)
    else if recordId !in s.records then Step(Fail(RecordNotFound), s)
    else
      var rec := s.records[recordId];
      var t := s.(records := s.records - {recordId},
                  uploads := RemoveCertificate(s.uploads, rec),
                  qrImages := RemoveQrImage(s.qrImages, recordId));
      Step(Pass, LogAdminOperation(t, "delete_record", ip, RecordData(recordId, rec), Deleted(recordId), now))
  }

  // ---------------------------------------------------------------------------------
  // Configuration and password

  predicate IsListAt(body: map<string, JsonValue>, key: string) {
    key in body && body[key].JList?
  }

  /** The first key, in the order materials, reflector types, storage areas, that is
      missing from an `update_config` body or is not a list. */
  function FormatError(body: map<string, JsonValue>): (r: Option<string>)
    ensures r.None? <==> IsListAt(body, MaterialsKey) && IsListAt(body, ReflectorTypesKey) && IsListAt(body, StorageAreasKey)
    ensures r == Some(MaterialsKey) <==> !IsListAt(body, MaterialsKey)
    ensures r == Some(ReflectorTypesKey) <==> IsListAt(body, MaterialsKey) && !IsListAt(body, ReflectorTypesKey)
    ensures r == Some(StorageAreasKey) <==>
              IsListAt(body, MaterialsKey) && IsListAt(body, ReflectorTypesKey) && !IsListAt(body, StorageAreasKey)
  {
    if !IsListAt(body, MaterialsKey) then Some(MaterialsKey)
    else if !IsListAt(body, ReflectorTypesKey) then Some(ReflectorTypesKey)
    else if !IsListAt(body, StorageAreasKey) then Some(StorageAreasKey)
    else None
  }

  /** `update_config`. Without a live session: refused, and an expired session cleared.
      With one: the first of the three keys that is missing or not a list is reported;
      otherwise each list is cleaned and the first key whose cleaned list is empty is
      reported; every failure leaves the lists and the log unchanged. Otherwise the three
      cleaned lists replace the stored ones and exactly one entry, old lists and new, is
      appended to the log. */
  function UpdateConfig(s: AppView, body: map<string, JsonValue>, ip: string, now: int): (r: Step<Outcome>)
    ensures !Live(s, now) ==> r == Step(Fail(Unauthorized), CheckAdminSession(s, now).next)
    ensures Live(s, now) && r.result != Pass ==> r.next == s
    ensures Live(s, now) && FormatError(body).Some? ==> r.result == Fail(ConfigFormat(FormatError(body).value))
    ensures r.result == Pass <==>
              Live(s, now) && FormatError(body).None?
              && Cleaned(body[MaterialsKey].items) != [] && Cleaned(body[ReflectorTypesKey].items) != []
              && Cleaned(body[StorageAreasKey].items) != []
    ensures Live(s, now) && FormatError(body).None? && Cleaned(body[MaterialsKey].items) == [] ==>
              r.result == Fail(ConfigEmpty(MaterialsKey))
    ensures Live(s, now) && FormatError(body).None? && Cleaned(body[MaterialsKey].items) != []
            && Cleaned(body[ReflectorTypesKey].items) == [] ==>
              r.result == Fail(ConfigEmpty(ReflectorTypesKey))
    ensures Live(s, now) && FormatError(body).None? && Cleaned(body[MaterialsKey].items) != []
            && Cleaned(body[ReflectorTypesKey].items) != [] && Cleaned(body[StorageAreasKey].items) == [] ==>
              r.result == Fail(ConfigEmpty(StorageAreasKey))
    ensures r.result == Pass ==>
              && r.next.materials == Cleaned(body[MaterialsKey].items)
              && r.next.reflectorTypes == Cleaned(body[ReflectorTypesKey].items)
              && r.next.storageAreas == Cleaned(body[StorageAreasKey].items)
              && r.next.logs == s.logs + [LogEntry(now, "update_config", ip,
                   ConfigLists(s.materials, s.reflectorTypes, s.storageAreas),
                   ConfigLists(r.next.materials, r.next.reflectorTypes, r.next.storageAreas))]
              && r.next.(materials := s.materials, reflectorTypes := s.reflectorTypes,
                         storageAreas := s.storageAreas, logs := s.logs) == s
  {
    var g := CheckAdminSession(s, now);
    if !g.result then Step(Fail(Unauthorized), g.next)
    else match FormatError(body)
      case Some(key) => Step(Fail(ConfigFormat(key)), s)
      case None =>
        var m := Cleaned(body[MaterialsKey].items);
        var t := Cleaned(body[ReflectorTypesKey].items);
        var a := Cleaned(body[StorageAreasKey].items);
        if m == [] then Step(Fail(ConfigEmpty(MaterialsKey)), s)
        else if t == [] then Step(Fail(ConfigEmpty(ReflectorTypesKey)), s)
        else if a == [] then Step(Fail(ConfigEmpty(StorageAreasKey)), s)
        else
          Step(Pass, LogAdminOperation(s.(materials := m, reflectorTypes := t, storageAreas := a),
                                       "update_config", ip,
                                       ConfigLists(s.materials, s.reflectorTypes, s.storageAreas),
                                       ConfigLists(m, t, a), now))
  }

  /** The one log entry a password change appends; it holds neither password. */
  function PasswordChangeEntry(ip: string, now: int): LogEntry {
    LogEntry(now, "change_password", ip, PasswordAction("password_change_request"), PasswordAction("password_changed"))
  }

  /** `change_password`. Without a live session: refused, and an expired session cleared.
      With one, both values are stripped, and the checks run in order: both non-empty,
      the new password's rules, the current password's hash equal to the stored one. Any
      failure leaves the stored hash unchanged and logs nothing. Success stores the new
      password's hash and appends one entry that holds neither password. Missing body
      keys are passed as empty strings. */
  function ChangePassword(s: AppView, hash: string -> string, currentPassword: string,
                          newPassword: string, ip: string, now: int): (r: Step<Outcome>)
    ensures !Live(s, now) ==> r == Step(Fail(Unauthorized), CheckAdminSession(s, now).next)
    ensures Live(s, now) && r.result != Pass ==> r.next == s
    ensures Live(s, now) && (Strip(currentPassword) == [] || Strip(newPassword) == []) ==>
              r.result == Fail(IncompleteInput)
    ensures Live(s, now) && Strip(currentPassword) != [] && Strip(newPassword) != []
            && CheckNewPassword(Strip(newPassword)).Fail? ==>
              r.result == CheckNewPassword(Strip(newPassword))
    ensures Live(s, now) && Strip(currentPassword) != [] && CheckNewPassword(Strip(newPassword)) == Pass
            && hash(Strip(currentPassword)) != s.passwordHash ==>
              r.result == Fail(WrongCurrentPassword)
    ensures r.result == Pass <==>
              Live(s, now) && Strip(currentPassword) != [] && CheckNewPassword(Strip(newPassword)) == Pass
              && hash(Strip(currentPassword)) == s.passwordHash
    ensures r.result == Pass ==>
              r.next == s.(passwordHash := hash(Strip(newPassword)), logs := s.logs + [PasswordChangeEntry(ip, now)])
  {
    var g := CheckAdminSession(s, now);
    if !g.result then Step(Fail(Unauthorized), g.next)
    else
      var cur := Strip(currentPassword);
      var nw := Strip(newPassword);
      if cur == [] || nw == [] then Step(Fail(IncompleteInput), s)
      else match CheckNewPassword(nw)
        case Fail(e) => Step(Fail(e), s)
        case Pass =>
          if hash(cur) != s.passwordHash then Step(Fail(WrongCurrentPassword), s)
          else Step(Pass, LogAdminOperation(s.(passwordHash := hash(nw)), "change_password", ip,
                                            PasswordAction("password_change_request"),
                                            PasswordAction("password_changed"), now))
  }
}

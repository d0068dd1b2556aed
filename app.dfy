/** The registry as one object whose fields the request handlers update in place, as the
    source's handlers update the data folder, the upload and QR folders, the log and the
    session. Each method does the handler's work step by step and is proved to leave
    exactly the answer and the state that the function of the same name in module
    `Handlers` describes; what those functions promise, and the invariant they keep, is
    proved there and in module `HandlerProperties`. */
module App {
  import opened Common
  import opened Text
  import opened Validators
  import opened Dropdown
  import opened Sorting
  import opened DataFolder
  import opened Handlers

  function CreatedAt(r: Record): int { r.createdAt }
  function Timestamp(e: LogEntry): int { e.timestamp }

  class AppState {
    /** The md5 hex digest the source applies to passwords. */
    const hash: string -> string

    /** The record documents of the data folder, by id. */
    var records: map<string, Record>
    /** The file names in the upload folder. */
    var uploads: set<string>
    /** The QR image files: file name to the address the image encodes. */
    var qrImages: map<string, string>
    var materials: seq<string>
    var reflectorTypes: seq<string>
    var storageAreas: seq<string>
    /** The `password` of the admin credential document. */
    var passwordHash: string
    /** The admin operation log, oldest first. */
    var logs: seq<LogEntry>
    /** The session keys `admin_logged_in` (present or not) and `login_time`. */
    var loggedIn: bool
    var loginTime: Option<int>

    ghost function View(): AppView
      reads this
    {
      AppView(records, uploads, qrImages, materials, reflectorTypes, storageAreas,
              passwordHash, logs, loggedIn, loginTime)
    }

    /** Startup: empty folders, the default option lists and the hash of `123456`. */
    constructor(hash: string -> string)
      ensures this.hash == hash
      ensures View() == Initial(hash) && Inv(View())
    {
      this.hash := hash;
      records := map[];
      uploads := {};
      qrImages := map[];
      materials := DefaultMaterials;
      reflectorTypes := DefaultReflectorTypes;
      storageAreas := DefaultStorageAreas;
      passwordHash := hash(InitialPassword);
      logs := [];
      loggedIn := false;
      loginTime := None;
      InitialInv(hash);
    }

    /** `log_admin_operation`: appends one entry. */
    method LogAdminOperation(operationType: string, ipAddress: string, beforeState: LogState,
                             afterState: LogState, now: int)
      modifies this
      ensures View() == Handlers.LogAdminOperation(old(View()), operationType, ipAddress, beforeState, afterState, now)
    {
      logs := logs + [LogEntry(now, operationType, ipAddress, beforeState, afterState)];
    }

    /** `check_admin_session`. */
    method CheckAdminSession(now: int) returns (valid: bool)
      modifies this
      ensures Step(valid, View()) == Handlers.CheckAdminSession(old(View()), now)
    {
      if !loggedIn {
        return false;
      }
      if loginTime.None? {
        return false;
      }
      if now - loginTime.value > OneHour {
        loggedIn := false;
        loginTime := None;
        return false;
      }
      return true;
    }

    /** `admin_login_post`. */
    method AdminLogin(password: string, now: int) returns (r: Outcome)
      modifies this
      ensures Step(r, View()) == Handlers.AdminLogin(old(View()), hash, password, now)
    {
      if password == [] {
        return Fail(PasswordRequired);
      }
      if hash(password) == passwordHash {
        loggedIn := true;
        loginTime := Some(now);
        return Pass;
      }
      return Fail(WrongPassword);
    }

    /** `admin_logout` (GET). */
    method AdminLogout()
      modifies this
      ensures View() == Handlers.AdminLogout(old(View()))
    {
      loggedIn := false;
    }

    /** `admin_logout_api` (POST). */
    method AdminLogoutApi()
      modifies this
      ensures View() == Handlers.AdminLogoutApi(old(View()))
    {
      loggedIn := false;
      loginTime := None;
    }

    /** `generate_qrcode`: the checks, which change nothing, then the writes. */
    method GenerateQrcode(form: Fields, upload: Option<Upload>, certId: string, recordId: string, now: int)
      returns (r: Result<Created>)
      modifies this
      ensures Step(r, View()) == Handlers.GenerateQrcode(old(View()), form, upload, certId, recordId, now)
    {
      match Admission(form, upload, certId) {
        case Err(e) =>
          return Err(e);
        case Ok(cert) =>
          SaveRecord(NewRecord(recordId, Sanitized(Stripped(form)), cert, now));
          return Ok(Created(recordId, QrImageUrl(recordId)));
      }
    }

    /** The writes of a successful `generate_qrcode`, in the source's order: the
        certificate, if any, then the record document, then the QR image. */
    method SaveRecord(rec: Record)
      modifies this
      ensures View() == WithNewRecord(old(View()), rec)
    {
      var saved := uploads;
      if rec.certificateFile.Some? {
        saved := saved + {rec.certificateFile.value};
      }
      uploads := saved;
      records := records[rec.id := rec];
      qrImages := qrImages[QrImageName(rec.id) := ViewUrl(rec.id)];
    }

    /** `update_record`: the guard and the checks, which change nothing, then the record
        document written back and the log entry. */
    method UpdateRecord(recordId: string, body: map<string, string>, ip: string, now: int)
      returns (r: Outcome)
      modifies this
      ensures Step(r, View()) == Handlers.UpdateRecord(old(View()), recordId, body, ip, now)
    {
      var valid := CheckAdminSession(now);
      if !valid {
        return Fail(Unauthorized);
      }
      if recordId !in records {
        return Fail(RecordNotFound);
      }
      if !HasRecordKeys(body) {
        return Fail(MissingRequiredFields);
      }
      var f := Stripped(BodyFields(body));
      match ValidateSpecimenNumber(f.specimenNumber) {
        case Fail(e) =>
          return Fail(e);
        case Pass =>
          var rec := WithFields(records[recordId], Sanitized(f), now);
          PutRecord(recordId, rec);
          LogAdminOperation("update_record", ip, MetaOf(recordId, rec), RecordData(recordId, rec), now);
          return Pass;
      }
    }

    /** Writes one record document. */
    method PutRecord(recordId: string, rec: Record)
      modifies this
      ensures View() == old(View()).(records := old(records)[recordId := rec])
    {
      records := records[recordId := rec];
    }

    /** `delete_record`: the guard and the lookup, then the certificate, the record
        document and the QR image removed, then the log entry. */
    method DeleteRecord(recordId: string, ip: string, now: int) returns (r: Outcome)
      modifies this
      ensures Step(r, View()) == Handlers.DeleteRecord(old(View()), recordId, ip, now)
    {
      var valid := CheckAdminSession(now);
      if !valid {
        return Fail(Unauthorized);
      }
      if recordId !in records {
        return Fail(RecordNotFound);
      }
      var rec := records[recordId];
      RemoveRecordFiles(recordId, rec);
      LogAdminOperation("delete_record", ip, RecordData(recordId, rec), Deleted(recordId), now);
      return Pass;
    }

    /** The removals of a successful `delete_record`, in the source's order: the
        certificate the record names, when it exists, the record document, then the QR
        image, when it exists. */
    method RemoveRecordFiles(recordId: string, rec: Record)
      modifies this
      ensures View() == old(View()).(records := old(records) - {recordId},
                                     uploads := RemoveCertificate(old(uploads), rec),
                                     qrImages := RemoveQrImage(old(qrImages), recordId))
    {
      var kept := uploads;
      if rec.certificateFile.Some? && rec.certificateFile.value != [] {
        if rec.certificateFile.value in kept {
          kept := kept - {rec.certificateFile.value};
        }
      }
      uploads := kept;
      records := records - {recordId};
      var images := qrImages;
      if QrImageName(recordId) in images {
        images := images - {QrImageName(recordId)};
      }
      qrImages := images;
    }

    /** `update_config`: the guard, the format check, the three lists cleaned one after
        the other and checked for emptiness, then the new lists stored and logged. */
    method UpdateConfig(body: map<string, JsonValue>, ip: string, now: int) returns (r: Outcome)
      modifies this
      ensures Step(r, View()) == Handlers.UpdateConfig(old(View()), body, ip, now)
    {
      var valid := CheckAdminSession(now);
      if !valid {
        return Fail(Unauthorized);
      }
      match FormatError(body) {
        case Some(key) =>
          return Fail(ConfigFormat(key));
        case None =>
      }
      var m := CleanList(body[MaterialsKey].items);
      var t := CleanList(body[ReflectorTypesKey].items);
      var a := CleanList(body[StorageAreasKey].items);
      if m == [] {
        return Fail(ConfigEmpty(MaterialsKey));
      }
      if t == [] {
        return Fail(ConfigEmpty(ReflectorTypesKey));
      }
      if a == [] {
        return Fail(ConfigEmpty(StorageAreasKey));
      }
      var before := ConfigLists(materials, reflectorTypes, storageAreas);
      PutLists(m, t, a);
      LogAdminOperation("update_config", ip, before, ConfigLists(m, t, a), now);
      return Pass;
    }

    /** Writes the option list document. */
    method PutLists(m: seq<string>, t: seq<string>, a: seq<string>)
      modifies this
      ensures View() == old(View()).(materials := m, reflectorTypes := t, storageAreas := a)
    {
      materials, reflectorTypes, storageAreas := m, t, a;
    }

    /** `change_password`: the guard, the checks in the source's order, then the new hash
        stored and the change logged. */
    method ChangePassword(currentPassword: string, newPassword: string, ip: string, now: int)
      returns (r: Outcome)
      modifies this
      ensures Step(r, View()) == Handlers.ChangePassword(old(View()), hash, currentPassword, newPassword, ip, now)
    {
      var valid := CheckAdminSession(now);
      if !valid {
        return Fail(Unauthorized);
      }
      var cur := Strip(currentPassword);
      var nw := Strip(newPassword);
      if cur == [] || nw == [] {
        return Fail(IncompleteInput);
      }
      match CheckNewPassword(nw) {
        case Fail(e) =>
          return Fail(e);
        case Pass =>
      }
      if hash(cur) != passwordHash {
        return Fail(WrongCurrentPassword);
      }
      PutPasswordHash(hash(nw));
      LogAdminOperation("change_password", ip, PasswordAction("password_change_request"),
                        PasswordAction("password_changed"), now);
      return Pass;
    }

    /** Writes the admin credential document. */
    method PutPasswordHash(h: string)
      modifies this
      ensures View() == old(View()).(passwordHash := h)
    {
      passwordHash := h;
    }

    /** `get_all_records`: the guard, then every record document except the
        configuration documents, newest first; a listing changes nothing. */
    method GetAllRecords(now: int) returns (r: Result<seq<Record>>)
      modifies this
      ensures Step(r.Ok?, View()) == Handlers.CheckAdminSession(old(View()), now)
      ensures r.Err? ==> r.error == Unauthorized
      ensures r.Ok? ==>
                && SortedDescending(r.value, CreatedAt)
                && |r.value| == |records.Keys - ReservedIds|
                && forall rec :: rec in r.value <==> exists id :: id in records && id !in ReservedIds && records[id] == rec
    {
      var valid := CheckAdminSession(now);
      if !valid {
        return Err(Unauthorized);
      }
      var listed := ListDocuments(records);
      var sorted := SortedCopy(listed, CreatedAt);
      assert forall rec :: rec in sorted <==> rec in multiset(sorted);
      assert forall rec :: rec in listed <==> rec in multiset(listed);
      assert |sorted| == |multiset(sorted)| == |multiset(listed)| == |listed|;
      return Ok(sorted);
    }

    /** `get_admin_logs`: the guard, then the whole log, newest first; a listing changes
        nothing. */
    method GetAdminLogs(now: int) returns (r: Result<seq<LogEntry>>)
      modifies this
      ensures Step(r.Ok?, View()) == Handlers.CheckAdminSession(old(View()), now)
      ensures r.Err? ==> r.error == Unauthorized
      ensures r.Ok? ==> SortedDescending(r.value, Timestamp) && multiset(r.value) == multiset(logs)
    {
      var valid := CheckAdminSession(now);
      if !valid {
        return Err(Unauthorized);
      }
      var sorted := SortedCopy(logs, Timestamp);
      return Ok(sorted);
    }
  }
}

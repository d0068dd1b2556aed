/** Properties that relate several handlers of the registry, or one handler and the
    invariant of the state. */
module HandlerProperties {
  import opened Common
  import opened Text
  import opened Sanitizer
  import opened Validators
  import opened Dropdown
  import opened DataFolder
  import opened Handlers

  // ---------------------------------------------------------------------------------
  // The record store and its QR images

  /** Adding a record under its own id, outside the reserved names, together with the QR
      image of its page keeps the store consistent. */
  lemma AddRecordConsistent(records: map<string, Record>, qrImages: map<string, string>, id: string, rec: Record)
    requires RecordsConsistent(records, qrImages)
    requires rec.id == id && id !in ReservedIds
    ensures RecordsConsistent(records[id := rec], qrImages[QrImageName(id) := ViewUrl(id)])
  {
    forall k | k in records && k != id
      ensures qrImages[QrImageName(id) := ViewUrl(id)][QrImageName(k)] == ViewUrl(k)
    {
      if QrImageName(k) == QrImageName(id) { QrImageNameInjective(k, id); }
    }
  }

  /** Replacing a stored record by one with the same id keeps the store consistent. */
  lemma ReplaceRecordConsistent(records: map<string, Record>, qrImages: map<string, string>, id: string, rec: Record)
    requires RecordsConsistent(records, qrImages)
    requires id in records && rec.id == id
    ensures RecordsConsistent(records[id := rec], qrImages)
  {
  }

  /** Removing a record together with its QR image keeps the store consistent. */
  lemma RemoveRecordConsistent(records: map<string, Record>, qrImages: map<string, string>, id: string)
    requires RecordsConsistent(records, qrImages)
    ensures RecordsConsistent(records - {id}, qrImages - {QrImageName(id)})
  {
    forall k | k in records && k != id ensures QrImageName(k) != QrImageName(id) {
      if QrImageName(k) == QrImageName(id) { QrImageNameInjective(k, id); }
    }
  }
  // ---------------------------------------------------------------------------------
  // Every handler keeps the invariant

  /** A session check, a login and both logouts touch only the session. */
  lemma SessionHandlersKeepInv(s: AppView, hash: string -> string, password: string, now: int)
    requires Inv(s)
    ensures Inv(CheckAdminSession(s, now).next)
    ensures Inv(AdminLogin(s, hash, password, now).next)
    ensures Inv(AdminLogout(s)) && Inv(AdminLogoutApi(s))
  {
  }

  /** `generate_qrcode` keeps the invariant, given a fresh id that is not a reserved name
      (every `uuid4` string is such an id). */
  lemma GenerateKeepsInv(s: AppView, form: Fields, upload: Option<Upload>, certId: string,
                         recordId: string, now: int)
    requires Inv(s) && recordId !in ReservedIds
    ensures Inv(GenerateQrcode(s, form, upload, certId, recordId, now).next)
  {
    var r := GenerateQrcode(s, form, upload, certId, recordId, now);
    if r.result.Ok? {
      var rec := NewRecord(recordId, Sanitized(Stripped(form)), Admission(form, upload, certId).value, now);
      AddRecordConsistent(s.records, s.qrImages, recordId, rec);
    }
  }

  /** `update_record` keeps the invariant. */
  lemma UpdateKeepsInv(s: AppView, recordId: string, body: map<string, string>, ip: string, now: int)
    requires Inv(s)
    ensures Inv(UpdateRecord(s, recordId, body, ip, now).next)
  {
    var r := UpdateRecord(s, recordId, body, ip, now);
    if r.result == Pass {
      var rec := WithFields(s.records[recordId], Sanitized(Stripped(BodyFields(body))), now);
      assert r.next == LogAdminOperation(s.(records := s.records[recordId := rec]), "update_record", ip,
                                         MetaOf(recordId, rec), RecordData(recordId, rec), now);
      ReplaceRecordConsistent(s.records, s.qrImages, recordId, rec);
    }
  }

  /** `delete_record` keeps the invariant. */
  lemma DeleteKeepsInv(s: AppView, recordId: string, ip: string, now: int)
    requires Inv(s)
    ensures Inv(DeleteRecord(s, recordId, ip, now).next)
  {
    RemoveRecordConsistent(s.records, s.qrImages, recordId);
  }

  /** `update_config` keeps the invariant: the lists it stores are valid option lists. */
  lemma ConfigKeepsInv(s: AppView, body: map<string, JsonValue>, ip: string, now: int)
    requires Inv(s)
    ensures Inv(UpdateConfig(s, body, ip, now).next)
  {
    if UpdateConfig(s, body, ip, now).result == Pass {
      CleanedIsValid(body[MaterialsKey].items);
      CleanedIsValid(body[ReflectorTypesKey].items);
      CleanedIsValid(body[StorageAreasKey].items);
    }
  }

  /** `change_password` keeps the invariant. */
  lemma PasswordKeepsInv(s: AppView, hash: string -> string, currentPassword: string,
                         newPassword: string, ip: string, now: int)
    requires Inv(s)
    ensures Inv(ChangePassword(s, hash, currentPassword, newPassword, ip, now).next)
  {
  }

  // ---------------------------------------------------------------------------------
  // Handlers that undo or repeat each other

  /** Removing a key just added gives the map back. */
  lemma RemoveAdded<V>(m: map<string, V>, k: string, v: V)
    ensures k !in m ==> m[k := v] - {k} == m
  {
    if k !in m {
      assert m[k := v] - {k} == m;
    }
  }

  /** Removing elements just added gives the set back. */
  lemma RemoveAddedSet(u: set<string>, o: set<string>)
    ensures o !! u ==> u + o - o == u
  {
    if o !! u {
      assert u + o - o == u;
    }
  }

  /** Deleting a record right after `generate_qrcode` created it under a fresh id, with a
      fresh QR image name and a fresh certificate name gives back the state before the
      two requests with one delete entry added to the log: the records, the uploads and
      the QR images are restored (the renamed certificate is never the empty name, so it
      is removed again) and nothing else differs. */
  lemma DeleteUndoesGenerate(s: AppView, form: Fields, upload: Option<Upload>, certId: string,
                             recordId: string, t: int, ip: string, now: int)
    requires GenerateQrcode(s, form, upload, certId, recordId, t).result.Ok?
    requires recordId !in s.records && QrImageName(recordId) !in s.qrImages
    requires certId != [] && OptionSet(Admission(form, upload, certId).value) !! s.uploads
    requires Live(s, now)
    ensures var g := GenerateQrcode(s, form, upload, certId, recordId, t).next;
            DeleteRecord(g, recordId, ip, now) ==
              Step(Pass, s.(logs := s.logs + [LogEntry(now, "delete_record", ip, RecordData(recordId, g.records[recordId]), Deleted(recordId))]))
  {
    var cert := Admission(form, upload, certId).value;
    RemoveAdded(s.records, recordId, NewRecord(recordId, Sanitized(Stripped(form)), cert, t));
    RemoveAdded(s.qrImages, QrImageName(recordId), ViewUrl(recordId));
    RemoveAddedSet(s.uploads, OptionSet(cert));
  }
  // ---------------------------------------------------------------------------------
  // The data folder

  /** Under the invariant, `delete_record` with a live session accepts exactly the ids
      the corrected record test accepts on the data folder, and leaves the folder that
      the corrected deletion leaves; in particular it never removes a configuration
      document. */
  lemma DeleteMatchesCorrectedFolder(s: AppView, id: string, ip: string, now: int)
    requires Inv(s) && Live(s, now)
    ensures DeleteRecord(s, id, ip, now).result == Pass <==> IsRecordId(Files(s.records.Keys), id)
    ensures Files(DeleteRecord(s, id, ip, now).next.records.Keys) == DataFolder.Delete(Files(s.records.Keys), id)
  {
    assert s.records.Keys !! ReservedIds;
    IsRecordIdMatchesStore(s.records.Keys, id);
    if id in s.records {
      assert (s.records - {id}).Keys == s.records.Keys - {id};
      FilesRemove(s.records.Keys, id);
    }
  }

  // ---------------------------------------------------------------------------------
  // The log

  /** `after` is `before` with at most one entry appended. */
  predicate AppendsAtMostOne(before: seq<LogEntry>, after: seq<LogEntry>) {
    before <= after && |after| <= |before| + 1
  }

  /** The record handlers only ever append to the admin log, at most one entry per
      request. */
  lemma RecordHandlersAppendToLog(s: AppView, recordId: string, body: map<string, string>, ip: string, now: int)
    ensures AppendsAtMostOne(s.logs, UpdateRecord(s, recordId, body, ip, now).next.logs)
    ensures AppendsAtMostOne(s.logs, DeleteRecord(s, recordId, ip, now).next.logs)
  {
  }

  /** So do the configuration and password handlers. */
  lemma SettingsHandlersAppendToLog(s: AppView, config: map<string, JsonValue>, hash: string -> string,
                                    currentPassword: string, newPassword: string, ip: string, now: int)
    ensures AppendsAtMostOne(s.logs, UpdateConfig(s, config, ip, now).next.logs)
    ensures AppendsAtMostOne(s.logs, ChangePassword(s, hash, currentPassword, newPassword, ip, now).next.logs)
  {
  }

  // ---------------------------------------------------------------------------------
  // Password and configuration round trips

  /** After a successful password change, a login with the new password (as stripped)
      succeeds, and one with the old password succeeds only if the two hashes collide. */
  lemma LoginAfterPasswordChange(s: AppView, hash: string -> string, currentPassword: string,
                                 newPassword: string, ip: string, now: int, later: int)
    requires ChangePassword(s, hash, currentPassword, newPassword, ip, now).result == Pass
    ensures var t := ChangePassword(s, hash, currentPassword, newPassword, ip, now).next;
            && AdminLogin(t, hash, Strip(newPassword), later).result == Pass
            && (AdminLogin(t, hash, Strip(currentPassword), later).result == Pass <==>
                hash(Strip(currentPassword)) == hash(Strip(newPassword)))
  {
  }

  /** The request body that resubmits the stored option lists. */
  function StoredListsBody(s: AppView): map<string, JsonValue> {
    map[MaterialsKey := JList(AsJson(s.materials)),
        ReflectorTypesKey := JList(AsJson(s.reflectorTypes)),
        StorageAreasKey := JList(AsJson(s.storageAreas))]
  }

  /** That body has the three keys, each holding the stored list. */
  lemma StoredListsBodyShape(s: AppView)
    ensures FormatError(StoredListsBody(s)).None?
    ensures StoredListsBody(s)[MaterialsKey].items == AsJson(s.materials)
    ensures StoredListsBody(s)[ReflectorTypesKey].items == AsJson(s.reflectorTypes)
    ensures StoredListsBody(s)[StorageAreasKey].items == AsJson(s.storageAreas)
  {
    assert MaterialsKey != ReflectorTypesKey && MaterialsKey != StorageAreasKey by {
      assert MaterialsKey[0] != ReflectorTypesKey[0] && MaterialsKey[0] != StorageAreasKey[0];
    }
    assert ReflectorTypesKey != StorageAreasKey by {
      assert ReflectorTypesKey[0] != StorageAreasKey[0];
    }
  }

  /** Option lists whose options the sanitizer leaves alone. */
  predicate StableLists(s: AppView) {
    && (forall k :: 0 <= k < |s.materials| ==> StableOption(s.materials[k]))
    && (forall k :: 0 <= k < |s.reflectorTypes| ==> StableOption(s.reflectorTypes[k]))
    && (forall k :: 0 <= k < |s.storageAreas| ==> StableOption(s.storageAreas[k]))
  }

  /** Saving the stored option lists again, as the configuration page does when nothing
      was edited, succeeds and leaves the lists as they were, provided the sanitizer
      leaves every option alone; the only change is one log entry whose old and new
      lists are equal. */
  lemma ConfigResaveKeepsLists(s: AppView, ip: string, now: int)
    requires Inv(s) && StableLists(s) && Live(s, now)
    ensures UpdateConfig(s, StoredListsBody(s), ip, now) ==
            Step(Pass, s.(logs := s.logs + [LogEntry(now, "update_config", ip,
                   ConfigLists(s.materials, s.reflectorTypes, s.storageAreas),
                   ConfigLists(s.materials, s.reflectorTypes, s.storageAreas))]))
  {
    StoredListsBodyShape(s);
    StableListIsClean(s.materials);
    StableListIsClean(s.reflectorTypes);
    StableListIsClean(s.storageAreas);
  }
}

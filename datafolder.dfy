/** The data folder (app.py:26, app.py:130-146, app.py:385): one `{id}.json` document per
    record, side by side with the three configuration documents `admin.json`,
    `dropdown_config.json` and `app_config.json`, which startup creates when missing.

    `get_all_records` skips the three by name (app.py:470), but `update_record` and
    `delete_record` (app.py:490-492, app.py:556-560) decide that an id names a record
    by testing whether `{id}.json` exists, so the ids `admin`, `dropdown_config` and
    `app_config` pass that test. This module models the test as written and the test
    the record store needs, on the set of file names in the folder. */
module DataFolder {

  const AdminFile := "admin.json"
  const DropdownFile := "dropdown_config.json"
  const AppConfigFile := "app_config.json"
  const ReservedFiles: set<string> := {AdminFile, DropdownFile, AppConfigFile}

  /** The ids whose record document would be one of the configuration documents. */
  const ReservedIds: set<string> := {"admin", "dropdown_config", "app_config"}

  /** The document that holds record `id`. */
  function RecordFile(id: string): string {
    id + ".json"
  }

  lemma RecordFileInjective(a: string, b: string)
    requires RecordFile(a) == RecordFile(b)
    ensures a == b
  {
    assert |a| == |b|;
    assert a == RecordFile(a)[..|a|];
  }

  /** The folder's file names for a store holding the records `ids`. */
  function Files(ids: set<string>): set<string> {
    (set id | id in ids :: RecordFile(id)) + ReservedFiles
  }

  /** As written: an id counts as a record when its document exists. */
  predicate RecordFileExists(files: set<string>, id: string) {
    RecordFile(id) in files
  }

  /** In a folder holding the configuration documents, the as-written test accepts
      each of the three reserved ids. */
  lemma ReservedIdsPassExistence(files: set<string>, id: string)
    ensures id in ReservedIds && ReservedFiles <= files ==> RecordFileExists(files, id)
  {
    assert RecordFile("admin") == AdminFile;
    assert RecordFile("dropdown_config") == DropdownFile;
    assert RecordFile("app_config") == AppConfigFile;
  }

  /** As written: `delete_record` removes the document of any id that passes that test. */
  function DeleteAsWritten(files: set<string>, id: string): (r: set<string>)
    ensures r == files - {RecordFile(id)}
  {
    if RecordFileExists(files, id) then files - {RecordFile(id)} else files
  }

  /** With no record called `admin`, the as-written test still accepts the id `admin`,
      and deleting it removes the admin credential document. */
  lemma DeleteAsWrittenRemovesCredentials(ids: set<string>)
    requires "admin" !in ids
    ensures RecordFileExists(Files(ids), "admin")
    ensures AdminFile in Files(ids) && AdminFile !in DeleteAsWritten(Files(ids), "admin")
  {
    assert RecordFile("admin") == AdminFile;
  }

  /** Corrected: an id names a record when its document exists and is not one of the
      configuration documents. */
  predicate IsRecordId(files: set<string>, id: string) {
    RecordFile(id) in files && id !in ReservedIds
  }

  /** Corrected deletion: only a record's own document is ever removed. */
  function Delete(files: set<string>, id: string): (r: set<string>)
    ensures forall f :: f in files && f in ReservedFiles ==> f in r
    ensures r == files || r == files - {RecordFile(id)}
    ensures IsRecordId(files, id) ==> r == files - {RecordFile(id)}
    ensures !IsRecordId(files, id) ==> r == files
  {
    if IsRecordId(files, id) then
      RecordFileNotReserved(id);
      files - {RecordFile(id)}
    else files
  }

  /** For a store whose ids avoid the reserved names, the corrected test accepts exactly
      the ids of stored records; the record store of the model is keyed this way. */
  lemma {:induction false} IsRecordIdMatchesStore(ids: set<string>, id: string)
    requires ids !! ReservedIds
    ensures IsRecordId(Files(ids), id) <==> id in ids
  {
    if IsRecordId(Files(ids), id) {
      RecordFileNotReserved(id);
      var other :| other in ids && RecordFile(other) == RecordFile(id);
      RecordFileInjective(other, id);
    }
    if id in ids {
      assert RecordFile(id) in Files(ids);
    }
  }
  /** No record document of an id outside the reserved names is a configuration
      document. */
  lemma RecordFileNotReserved(id: string)
    requires id !in ReservedIds
    ensures RecordFile(id) !in ReservedFiles
  {
    if RecordFile(id) == AdminFile { RecordFileInjective(id, "admin"); }
    else if RecordFile(id) == DropdownFile { RecordFileInjective(id, "dropdown_config"); }
    else if RecordFile(id) == AppConfigFile { RecordFileInjective(id, "app_config"); }
  }

  /** Removing a stored record from the store removes exactly its document from the
      folder. */
  lemma {:induction false} FilesRemove(ids: set<string>, id: string)
    requires id in ids && ids !! ReservedIds
    ensures Files(ids - {id}) == Files(ids) - {RecordFile(id)}
  {
    RecordFileNotReserved(id);
    forall f | f in Files(ids - {id}) ensures f != RecordFile(id) {
      if f !in ReservedFiles {
        var k :| k in ids - {id} && f == RecordFile(k);
        if f == RecordFile(id) { RecordFileInjective(k, id); }
      }
    }
    forall f | f in Files(ids) && f != RecordFile(id) ensures f in Files(ids - {id}) {
      if f !in ReservedFiles {
        var k :| k in ids && f == RecordFile(k);
        assert k != id;
      }
    }
  }

  /** Moving one element from one of two disjoint sets to the other keeps them disjoint
      and keeps their union. */
  lemma MoveOne(remaining: set<string>, seen: set<string>, id: string)
    ensures id in remaining && remaining !! seen ==>
              (remaining - {id}) + (seen + {id}) == remaining + seen && (remaining - {id}) !! (seen + {id})
  {
  }

  /** Adding an unseen id to the seen ones adds one to the count of those outside the
      reserved names exactly when it is outside them. */
  lemma CountOne(seen: set<string>, id: string)
    ensures id !in seen ==> |(seen + {id}) - ReservedIds| == |seen - ReservedIds| + (if id in ReservedIds then 0 else 1)
  {
    if id !in seen {
      if id in ReservedIds {
        assert (seen + {id}) - ReservedIds == seen - ReservedIds;
      } else {
        assert (seen + {id}) - ReservedIds == (seen - ReservedIds) + {id};
      }
    }
  }

  /** The documents `get_all_records` reads: one for every document of the data folder
      except the three configuration documents, in an order the folder listing leaves
      open. */
  method ListDocuments<V(==)>(docs: map<string, V>) returns (listed: seq<V>)
    ensures |listed| == |docs.Keys - ReservedIds|
    ensures forall id :: id in docs && id !in ReservedIds ==> docs[id] in listed
    ensures forall v :: v in listed ==> exists id :: id in docs && id !in ReservedIds && docs[id] == v
  {
    var remaining := docs.Keys;
    listed := [];
    ghost var seen: set<string> := {};
    while remaining != {}
      invariant remaining + seen == docs.Keys && remaining !! seen
      invariant |listed| == |seen - ReservedIds|
      invariant forall id :: id in seen && id !in ReservedIds ==> docs[id] in listed
      invariant forall v :: v in listed ==> exists id :: id in seen && id !in ReservedIds && docs[id] == v
      decreases |remaining|
    {
      var id :| id in remaining;
      MoveOne(remaining, seen, id);
      CountOne(seen, id);
      if id !in ReservedIds {
        listed := listed + [docs[id]];
      }
      remaining := remaining - {id};
      seen := seen + {id};
    }
  }
}

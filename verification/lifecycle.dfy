/**
 Sequences of handler invocations: the life of a record and of its photo
 across the creator, updater and deleter. Most follow the browser
 client's flow (ask for an upload address, upload the photo directly to
 the bucket, then create or update the record with the public address);
 some are direct API calls the client never makes.
 */
module Lifecycle {
  import opened Records
  import opened BlobKeys
  import opened Text
  import CreateEmployee
  import UpdateEmployee
  import DeleteEmployee
  import ListEmployees

  /** The client's direct upload to the presigned address puts the object. */
  function Upload(s: State, key: string): (t: State)
    ensures t.records == s.records && t.blobs == s.blobs + {key}
  {
    s.(blobs := s.blobs + {key})
  }

  /** A create-mode body carrying the given fields. */
  function CreateBody(name: string, role: string, email: string, photoUrl: Option<string>): (b: Body)
    ensures !CreateEmployee.IsUploadRequest(b)
  {
    Body(None, None, None, Some(name), Some(role), Some(email), photoUrl)
  }

  /** An upload key built from a `/`-free id and file name has no `/`. */
  lemma UploadKeyHasNoSlash(uuid: string, fileName: Option<string>)
    requires '/' !in uuid && '/' !in FileNameOrDefault(fileName)
    ensures '/' !in UploadKey(uuid, fileName)
  {
  }

  /** Upload, register, delete: the photo handed out by the creator is removed
      from the bucket again when its record is deleted, provided the id and
      the file name contain no `/` and every call succeeds. The bucket ends as
      it started, minus that one key. */
  lemma {:induction false} PhotoLifecycle(
    bucket: string, uploadBody: Body, uploadId: string, recordId: string,
    sign: CreateEmployee.PresignRequest -> Option<string>,
    name: string, role: string, email: string, s: State)
    requires CreateEmployee.IsUploadRequest(uploadBody)
    requires sign(CreateEmployee.UploadRequest(bucket, uploadId, uploadBody)).Some?
    requires '/' !in uploadId && '/' !in FileNameOrDefault(uploadBody.fileName)
    ensures
      var grant := CreateEmployee.Handle(bucket, Some(uploadBody), uploadId, sign, false, s);
      var key := grant.response.payload.key;
      var created := CreateEmployee.Handle(
        bucket, Some(CreateBody(name, role, email, Some(grant.response.payload.publicUrl))),
        recordId, sign, false, Upload(grant.next, key));
      var deleted := DeleteEmployee.Handle(bucket, Some(recordId), false, false, false, created.next);
      && grant.response.status == 200
      && created.response.status == 201
      && deleted.response.status == 200
      && recordId !in deleted.next.records
      && deleted.next.records == s.records - {recordId}
      && deleted.next.blobs == s.blobs - {key}
  {
    var key := UploadKey(uploadId, uploadBody.fileName);
    UploadKeyHasNoSlash(uploadId, uploadBody.fileName);
    var grant := CreateEmployee.Handle(bucket, Some(uploadBody), uploadId, sign, false, s);
    assert grant.response.payload.key == key;
    var created := CreateEmployee.Handle(
      bucket, Some(CreateBody(name, role, email, Some(PublicUrl(bucket, key)))),
      recordId, sign, false, Upload(grant.next, key));
    DeleteEmployee.DeleteRemovesUploadedPhoto(bucket, recordId, key, created.next);
    assert created.next.records - {recordId} == s.records - {recordId};
  }

  /** The same flow with a `/` in the file name: the deleter recovers only the
      text after the last `/`, so the uploaded object is never removed. */
  lemma {:induction false} SlashInFileNameOrphansPhoto(
    bucket: string, uuid: string, fileName: string, recordId: string,
    blobFails: bool, s: State)
    requires '/' in fileName
    requires recordId in s.records
    requires s.records[recordId].photoUrl == Some(PublicUrl(bucket, UploadKey(uuid, Some(fileName))))
    ensures var key := UploadKey(uuid, Some(fileName));
      var deleted := DeleteEmployee.Handle(bucket, Some(recordId), false, blobFails, false, s);
      && deleted.response.status == 200
      && (key in s.blobs ==> key in deleted.next.blobs)
  {
    var key := UploadKey(uuid, Some(fileName));
    var i :| 0 <= i < |fileName| && fileName[i] == '/';
    assert key[|uuid| + 1 + i] == '/';
    ExtractKeyOfPublicUrl(bucket, key);
  }

  /** The address the browser client sends when no photo was chosen. */
  const PlaceholderPhoto := "https://via.placeholder.com/300"

  /** A record created without any photo address is refused: the put would
      carry an undefined attribute. Nothing is stored. */
  lemma CreateWithoutPhotoRefused(
    bucket: string, id: string, name: string, role: string, email: string,
    sign: CreateEmployee.PresignRequest -> Option<string>, putFails: bool, s: State)
    ensures CreateEmployee.Handle(bucket, Some(CreateBody(name, role, email, None)), id, sign, putFails, s)
      == Reply(ServerError, s)
  {
  }

  /** Create a record with a photo address, update its fields, delete it: the
      update is visible, the stored address is replaced only by a truthy new
      one and survives otherwise, and the record is gone at the end while the
      other records are untouched. The bucket loses at most the key the final
      address points at. */
  lemma {:induction false} RecordLifecycle(
    bucket: string, id: string, name: string, role: string, email: string, photo: string,
    newName: string, newPhoto: Option<string>, sign: CreateEmployee.PresignRequest -> Option<string>, s: State)
    ensures
      var created := CreateEmployee.Handle(bucket, Some(CreateBody(name, role, email, Some(photo))), id, sign, false, s);
      var updated := UpdateEmployee.Handle(Some(id), Some(CreateBody(newName, role, email, newPhoto)), false, created.next);
      var deleted := DeleteEmployee.Handle(bucket, Some(id), false, false, false, updated.next);
      var kept := if Truthy(newPhoto) then newPhoto.value else photo;
      var target := BlobTarget(bucket, Some(kept));
      && created.response == Response(201, Record(Employee(id, Some(name), Some(role), Some(email), Some(photo))))
      && updated.response == Response(200, Record(Employee(id, Some(newName), Some(role), Some(email), Some(kept))))
      && deleted.response.status == 200
      && deleted.next.records == s.records - {id}
      && deleted.next.blobs == (if target.Some? then s.blobs - {target.value} else s.blobs)
  {
    var created := CreateEmployee.Handle(bucket, Some(CreateBody(name, role, email, Some(photo))), id, sign, false, s);
    var updated := UpdateEmployee.Handle(Some(id), Some(CreateBody(newName, role, email, newPhoto)), false, created.next);
    assert updated.next.records - {id} == s.records - {id};
  }

  /** A listing of a well-formed table never shows an id that has no record. */
  lemma AbsentIdNotListed(s: State, id: string, items: seq<Employee>)
    requires WellFormed(s) && id !in s.records
    requires forall i :: 0 <= i < |items| ==> items[i] in s.records.Values
    ensures forall i :: 0 <= i < |items| ==> items[i].id != id
  {
    forall i | 0 <= i < |items|
      ensures items[i].id != id
    {
      assert items[i] in s.records.Values;
      var k :| k in s.records && s.records[k] == items[i];
    }
  }

  /** An example run. A direct API call creating Ann without any photo
      address is refused. The browser client's calls follow: Ann is created
      with its placeholder address, renamed "Ann B" with the stored address
      sent back, and deleted; the listing that follows no longer shows her id. */
  method AnnScenario(bucket: string, id: string, sign: CreateEmployee.PresignRequest -> Option<string>, s: State)
    returns (refused: Reply, created: Reply, updated: Reply, deleted: Reply, listing: Reply)
    requires WellFormed(s)
    ensures refused == Reply(ServerError, s)
    ensures created.response == Response(201, Record(Employee(id, Some("Ann"), Some("Eng"), Some("a@x.com"), Some(PlaceholderPhoto))))
    ensures updated.response == Response(200, Record(Employee(id, Some("Ann B"), Some("Eng"), Some("a@x.com"), Some(PlaceholderPhoto))))
    ensures deleted.response.status == 200
    ensures listing.response.status == 200 && listing.response.payload.Items?
    ensures forall i :: 0 <= i < |listing.response.payload.items| ==> listing.response.payload.items[i].id != id
  {
    var ann := CreateBody("Ann", "Eng", "a@x.com", Some(PlaceholderPhoto));
    var renamed := CreateBody("Ann B", "Eng", "a@x.com", Some(PlaceholderPhoto));
    CreateWithoutPhotoRefused(bucket, id, "Ann", "Eng", "a@x.com", sign, false, s);
    refused := CreateEmployee.Handle(bucket, Some(CreateBody("Ann", "Eng", "a@x.com", None)), id, sign, false, s);
    RecordLifecycle(bucket, id, "Ann", "Eng", "a@x.com", PlaceholderPhoto, "Ann B", Some(PlaceholderPhoto), sign, s);
    created := CreateEmployee.Handle(bucket, Some(ann), id, sign, false, s);
    updated := UpdateEmployee.Handle(Some(id), Some(renamed), false, created.next);
    deleted := DeleteEmployee.Handle(bucket, Some(id), false, false, false, updated.next);
    assert deleted.next.records == s.records - {id};
    listing := ListEmployees.Handle(false, deleted.next);
    AbsentIdNotListed(deleted.next, id, listing.response.payload.items);
  }
}

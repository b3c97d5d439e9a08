/**
 The deleter handler (`lambdas/deleteEmployee.js`): look the record up,
 make a best-effort attempt to remove its photo object, then remove the
 record.

 `id` is `None` when the event has no path parameters. The three calls to
 the outside are flags: `getFails` (the table lookup throws), `blobFails`
 (the object delete throws; the handler swallows it) and `deleteFails` (the
 record delete throws). A failed call changes nothing in its store.
 */
module DeleteEmployee {
  import opened Records
  import opened BlobKeys

  /** The photo bucket after the best-effort cleanup for record `e`. */
  function CleanupBlobs(bucket: string, e: Employee, blobFails: bool, blobs: set<string>): (after: set<string>)
    ensures after <= blobs
    ensures BlobTarget(bucket, e.photoUrl).None? || blobFails ==> after == blobs
    ensures BlobTarget(bucket, e.photoUrl).Some? && !blobFails ==>
      after == blobs - {BlobTarget(bucket, e.photoUrl).value}
  {
    match BlobTarget(bucket, e.photoUrl)
    case None => blobs
    case Some(key) => if blobFails then blobs else blobs - {key}
  }

  function Handle(
    bucket: string, id: Option<string>,
    getFails: bool, blobFails: bool, deleteFails: bool, s: State): (r: Reply)
    ensures r.response.status in {200, 404, 500}
    // Nothing but the record's own photo object ever leaves the bucket.
    ensures r.next.blobs <= s.blobs
    ensures r.response.status == 404 <==> id.Some? && !getFails && id.value !in s.records
    ensures r.response.status == 404 ==>
      r.response == Response(404, Message(NotFoundMessage)) && r.next == s
    ensures r.response.status == 200 <==>
      id.Some? && !getFails && id.value in s.records && !deleteFails
    ensures r.response.status == 200 ==>
      && r.response == Response(200, Message(DeletedMessage))
      && id.value !in r.next.records
      && r.next.records == s.records - {id.value}
      && r.next.blobs == CleanupBlobs(bucket, s.records[id.value], blobFails, s.blobs)
    ensures r.response.status == 500 ==>
      && r.response == ServerError
      && r.next.records == s.records
    // A failed record delete after a successful cleanup leaves the record
    // without its photo object: the two stores are not changed together.
    ensures r.response.status == 500 && id.Some? && !getFails ==>
      id.value in s.records && r.next.blobs == CleanupBlobs(bucket, s.records[id.value], blobFails, s.blobs)
    ensures r.response.status == 500 && (id.None? || getFails) ==> r.next == s
  {
    if id.None? || getFails then Reply(ServerError, s)
    else if id.value !in s.records then Reply(Response(404, Message(NotFoundMessage)), s)
    else
      var blobs := CleanupBlobs(bucket, s.records[id.value], blobFails, s.blobs);
      if deleteFails then Reply(ServerError, s.(blobs := blobs))
      else Reply(Response(200, Message(DeletedMessage)), State(s.records - {id.value}, blobs))
  }

  /** A failing photo delete never blocks the record delete: the response and
      the record table come out the same whether the cleanup works or not. */
  lemma BlobFailureIsolated(
    bucket: string, id: Option<string>, getFails: bool, deleteFails: bool, s: State)
    ensures var ok := Handle(bucket, id, getFails, false, deleteFails, s);
      var failed := Handle(bucket, id, getFails, true, deleteFails, s);
      && failed.response == ok.response
      && failed.next.records == ok.next.records
      && ok.next.blobs <= failed.next.blobs
  {
  }

  /** Deleting the same id twice: the second delete finds nothing and reports 404. */
  lemma SecondDeleteNotFound(bucket: string, id: string, blobFails: bool, s: State)
    requires Handle(bucket, Some(id), false, blobFails, false, s).response.status == 200
    ensures var r := Handle(bucket, Some(id), false, blobFails, false, s);
      Handle(bucket, Some(id), false, blobFails, false, r.next) == Reply(Response(404, Message(NotFoundMessage)), r.next)
  {
  }

  /** A record whose photo lies at the public address of a `/`-free key loses
      that object when it is deleted and the cleanup succeeds. */
  lemma DeleteRemovesUploadedPhoto(bucket: string, id: string, key: string, s: State)
    requires id in s.records && |key| > 0 && '/' !in key
    requires s.records[id].photoUrl == Some(PublicUrl(bucket, key))
    ensures var r := Handle(bucket, Some(id), false, false, false, s);
      r.response.status == 200 && r.next.blobs == s.blobs - {key}
  {
    BlobTargetOfPublicUrl(bucket, key);
  }

  /** Deletes keep every record filed under its own id. */
  lemma DeletePreservesWellFormed(
    bucket: string, id: Option<string>, getFails: bool, blobFails: bool, deleteFails: bool, s: State)
    requires WellFormed(s)
    ensures WellFormed(Handle(bucket, id, getFails, blobFails, deleteFails, s).next)
  {
  }
}

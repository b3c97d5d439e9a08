/**
 The creator handler (`lambdas/createEmployee.js`). One endpoint, two modes
 chosen by the body's `action` field: hand out a presigned upload address
 for a new photo object, or put a new employee record.

 The generated uuid, the presigner and the outcome of the table put come
 from outside and are parameters: `uuid` is the one value `uuidv4()`
 returns in this invocation, `sign` answers a presign request with the
 signed address or `None` when presigning throws, `putFails` says whether
 the table put throws. A put also throws when the record has an undefined
 field (`ItemDefined`). `body` is `None` when reading the body throws
 (`JSON.parse` fails, or the parsed value is `null`).
 */
module CreateEmployee {
  import opened Records
  import opened BlobKeys

  const UploadAction := "getUploadUrl"
  const UploadExpirySeconds := 300

  /** What the handler asks the presigner for: a write to one key of the
      bucket, with the body's content type, valid for a fixed window. */
  datatype PresignRequest = PresignRequest(
    bucket: string, key: string, contentType: Option<string>, expiresIn: int)

  /** `body.action === 'getUploadUrl'`: strict equality with the literal, so
      a missing action, or any other string, selects create mode. */
  predicate IsUploadRequest(body: Body)
    ensures IsUploadRequest(body) ==> body.action.Some? && body.action.value == "getUploadUrl"
    ensures body.action.None? ==> !IsUploadRequest(body)
    ensures body.action.Some? && body.action.value != "getUploadUrl" ==> !IsUploadRequest(body)
  {
    body.action == Some(UploadAction)
  }

  /** The presign request issued in upload mode. */
  function UploadRequest(bucket: string, uuid: string, body: Body): (req: PresignRequest)
    ensures req.bucket == bucket && req.contentType == body.contentType
    ensures req.expiresIn == 300
    ensures req.key == uuid + "-" + (if Truthy(body.fileName) then body.fileName.value else "photo.jpg")
  {
    PresignRequest(bucket, UploadKey(uuid, body.fileName), body.contentType, UploadExpirySeconds)
  }

  /** The record create mode puts: the generated id and the body's fields. */
  function NewEmployee(uuid: string, body: Body): (e: Employee)
    ensures e.id == uuid
    ensures e.name == body.name && e.role == body.role && e.email == body.email
    ensures e.photoUrl == body.photoUrl
  {
    Employee(uuid, body.name, body.role, body.email, body.photoUrl)
  }

  function Handle(
    bucket: string, body: Option<Body>, uuid: string,
    sign: PresignRequest -> Option<string>, putFails: bool, s: State): (r: Reply)
    // The photo bucket is never touched: uploads go straight from the client.
    ensures r.next.blobs == s.blobs
    ensures r.response.status in {200, 201, 500}
    // Upload mode: exactly when the action matches and presigning succeeds.
    ensures r.response.status == 200 <==>
      body.Some? && IsUploadRequest(body.value) && sign(UploadRequest(bucket, uuid, body.value)).Some?
    ensures r.response.status == 200 ==>
      var key := UploadKey(uuid, body.value.fileName);
      && r.next == s
      && r.response.payload == UploadGrant(
           sign(UploadRequest(bucket, uuid, body.value)).value, key, PublicUrl(bucket, key))
    // Create mode: any other action, or none, every field defined, and the put succeeds.
    ensures r.response.status == 201 <==>
      && body.Some? && !IsUploadRequest(body.value) && !putFails
      && body.value.name.Some? && body.value.role.Some? && body.value.email.Some?
      && body.value.photoUrl.Some?
    ensures r.response.status == 201 ==>
      && r.next.records.Keys == s.records.Keys + {uuid}
      && r.next.records[uuid] == NewEmployee(uuid, body.value)
      && (forall k :: k in s.records && k != uuid ==> r.next.records[k] == s.records[k])
      && r.response.payload == Record(r.next.records[uuid])
    // Every failure leaves the state as it was.
    ensures r.response.status == 500 ==> r.response == ServerError && r.next == s
  {
    match body
    case None => Reply(ServerError, s)
    case Some(b) =>
      if IsUploadRequest(b) then
        var req := UploadRequest(bucket, uuid, b);
        match sign(req)
        case None => Reply(ServerError, s)
        case Some(uploadUrl) =>
          Reply(Response(200, UploadGrant(uploadUrl, req.key, PublicUrl(bucket, req.key))), s)
      else
        var e := NewEmployee(uuid, b);
        if putFails || !ItemDefined(e) then Reply(ServerError, s)
        else Reply(Response(201, Record(e)), s.(records := s.records[uuid := e]))
  }

  /** Any action other than the exact literal, including a missing one or a
      differently cased one, falls through to record creation: 201 when the
      record can be put, 500 otherwise; never an upload address. */
  lemma NonUploadActionCreates(
    bucket: string, body: Body, uuid: string,
    sign: PresignRequest -> Option<string>, putFails: bool, s: State)
    requires body.action != Some(UploadAction)
    ensures var r := Handle(bucket, Some(body), uuid, sign, putFails, s);
      && r.response.status == (if putFails || !ItemDefined(NewEmployee(uuid, body)) then 500 else 201)
      && (r.response.status == 201 ==> r.next.records == s.records[uuid := NewEmployee(uuid, body)])
  {
  }

  /** Creating under an id not yet in use adds exactly one record. */
  lemma CreateFreshGrowsByOne(
    bucket: string, body: Option<Body>, uuid: string,
    sign: PresignRequest -> Option<string>, putFails: bool, s: State)
    requires uuid !in s.records
    ensures var r := Handle(bucket, body, uuid, sign, putFails, s);
      r.response.status == 201 ==> |r.next.records| == |s.records| + 1
  {
  }

  /** Creation keeps every record filed under its own id. */
  lemma CreatePreservesWellFormed(
    bucket: string, body: Option<Body>, uuid: string,
    sign: PresignRequest -> Option<string>, putFails: bool, s: State)
    requires WellFormed(s)
    ensures WellFormed(Handle(bucket, body, uuid, sign, putFails, s).next)
  {
  }
}

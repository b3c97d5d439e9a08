/**
 The updater handler (`lambdas/updateEmployee.js`). It builds one
 conditional update for the record at the path id and returns the record
 as it stands afterwards.

 `id` is `None` when the event has no path parameters (reading `.id`
 throws); `body` is `None` when `JSON.parse` throws or yields `null`;
 `updateFails` says whether the table rejects the update. A command with an
 undefined attribute value also throws (`ValuesDefined`).
 */
module UpdateEmployee {
  import opened Records

  /** The update the handler sends: the key, the update expression and its
      attribute-name and attribute-value maps. */
  datatype UpdateCommand = UpdateCommand(
    key: string,
    expression: string,
    names: map<string, string>,
    values: map<string, Option<string>>)

  const BaseExpression := "set #n = :n, #r = :r, #e = :e"
  const PhotoClause := ", photoUrl = :p"

  /** The command for `id` and `body`: name, role and email are always set;
      the photo clause and its `:p` value are added only for a truthy
      `photoUrl`. */
  function BuildUpdate(id: string, body: Body): (c: UpdateCommand)
    ensures c.key == id
    ensures c.names == map["#n" := "name", "#r" := "role", "#e" := "email"]
    ensures c.values.Keys == {":n", ":r", ":e"} + (if Truthy(body.photoUrl) then {":p"} else {})
    ensures c.values[":n"] == body.name && c.values[":r"] == body.role && c.values[":e"] == body.email
    ensures ":p" in c.values <==> Truthy(body.photoUrl)
    ensures ":p" in c.values ==> c.values[":p"] == body.photoUrl
    ensures c.expression == BaseExpression || c.expression == BaseExpression + PhotoClause
    ensures c.expression == BaseExpression + PhotoClause <==> Truthy(body.photoUrl)
  {
    var names := map["#n" := "name", "#r" := "role", "#e" := "email"];
    var values := map[":n" := body.name, ":r" := body.role, ":e" := body.email];
    if Truthy(body.photoUrl) then
      assert |BaseExpression + PhotoClause| != |BaseExpression|;
      UpdateCommand(id, BaseExpression + PhotoClause, names, values[":p" := body.photoUrl])
    else
      UpdateCommand(id, BaseExpression, names, values)
  }

  /** Whether the document client can marshal the command's attribute values.
      Built with its default options, it refuses an undefined value, so the
      update throws before anything reaches the table. */
  predicate ValuesDefined(values: map<string, Option<string>>)
  {
    forall v :: v in values ==> values[v].Some?
  }

  /** The table's reading of a command of this shape (its semantics, not the
      handler's): start from the record under the key, or from a bare record
      holding only the key when there is none, and assign each attribute its
      value; `photoUrl` only when the command carries `:p`. */
  function ApplyUpdate(records: map<string, Employee>, c: UpdateCommand): (e: Employee)
    requires ":n" in c.values && ":r" in c.values && ":e" in c.values
    ensures e.id == c.key
    ensures e.name == c.values[":n"] && e.role == c.values[":r"] && e.email == c.values[":e"]
    ensures ":p" in c.values ==> e.photoUrl == c.values[":p"]
    ensures ":p" !in c.values && c.key in records ==> e.photoUrl == records[c.key].photoUrl
    ensures ":p" !in c.values && c.key !in records ==> e.photoUrl == None
  {
    var before := if c.key in records then records[c.key] else Employee(c.key, None, None, None, None);
    Employee(
      c.key, c.values[":n"], c.values[":r"], c.values[":e"],
      if ":p" in c.values then c.values[":p"] else before.photoUrl)
  }

  function Handle(id: Option<string>, body: Option<Body>, updateFails: bool, s: State): (r: Reply)
    ensures r.next.blobs == s.blobs
    // There is no existence check: a missing id is never reported as 404.
    ensures r.response.status in {200, 500}
    ensures r.response.status == 200 <==>
      && id.Some? && body.Some? && !updateFails
      && body.value.name.Some? && body.value.role.Some? && body.value.email.Some?
    ensures r.response.status == 200 ==>
      && r.next.records.Keys == s.records.Keys + {id.value}
      && (forall j :: j in s.records && j != id.value ==> r.next.records[j] == s.records[j])
    ensures r.response.status == 200 ==>
      var k := id.value; var b := body.value; var e := r.next.records[k];
      && e.id == k
      && e.name == b.name && e.role == b.role && e.email == b.email
      && (Truthy(b.photoUrl) ==> e.photoUrl == b.photoUrl)
      && (!Truthy(b.photoUrl) && k in s.records ==> e.photoUrl == s.records[k].photoUrl)
      && (!Truthy(b.photoUrl) && k !in s.records ==> e.photoUrl == None)
      && r.response.payload == Record(e)
    ensures r.response.status == 500 ==> r.response == ServerError && r.next == s
  {
    if id.None? || body.None? || updateFails then Reply(ServerError, s)
    else
      var c := BuildUpdate(id.value, body.value);
      if !ValuesDefined(c.values) then Reply(ServerError, s)
      else
        var e := ApplyUpdate(s.records, c);
        Reply(Response(200, Record(e)), s.(records := s.records[id.value := e]))
  }

  /** An update without a usable `photoUrl` keeps the stored one. */
  lemma OmittedPhotoPreserved(id: string, body: Body, s: State)
    requires id in s.records && !Truthy(body.photoUrl)
    ensures var r := Handle(Some(id), Some(body), false, s);
      r.next.records[id].photoUrl == s.records[id].photoUrl
  {
  }

  /** An update never clears a photo: a record that had one still has one. */
  lemma PhotoNeverCleared(id: Option<string>, body: Option<Body>, updateFails: bool, s: State)
    requires id.Some? && id.value in s.records && s.records[id.value].photoUrl.Some?
    ensures Handle(id, body, updateFails, s).next.records[id.value].photoUrl.Some?
  {
  }

  /** Updating twice with the same body is the same as updating once. */
  lemma UpdateIdempotent(id: string, body: Body, s: State)
    ensures var r1 := Handle(Some(id), Some(body), false, s);
      Handle(Some(id), Some(body), false, r1.next) == r1
  {
  }

  /** With no record under the id, the update is not refused: the table
      creates one from the body's fields, without a photo unless the body
      supplies one. */
  lemma MissingIdIsUpserted(id: string, body: Body, s: State)
    requires id !in s.records
    requires body.name.Some? && body.role.Some? && body.email.Some?
    ensures var r := Handle(Some(id), Some(body), false, s);
      && r.response.status == 200
      && id in r.next.records
      && r.next.records[id] == Employee(id, body.name, body.role, body.email,
           if Truthy(body.photoUrl) then body.photoUrl else None)
  {
  }

  /** A body without a name, role or email is refused with 500 and nothing
      changes, however the rest of the body looks: the command would carry an
      undefined value. In particular a stored name is never cleared. */
  lemma UndefinedFieldRefused(id: Option<string>, body: Body, updateFails: bool, s: State)
    requires body.name.None? || body.role.None? || body.email.None?
    ensures Handle(id, Some(body), updateFails, s) == Reply(ServerError, s)
  {
  }

  /** Updates keep every record filed under its own id. */
  lemma UpdatePreservesWellFormed(id: Option<string>, body: Option<Body>, updateFails: bool, s: State)
    requires WellFormed(s)
    ensures WellFormed(Handle(id, body, updateFails, s).next)
  {
  }
}

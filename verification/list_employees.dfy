/**
 The lister handler (`lambdas/listEmployees.js`): one full scan of the
 table, returned as `{Items: ...}`.

 The table hands records back in an order of its own choosing; the scan
 below picks each next key arbitrarily, so its contract holds for every
 order. `scanFails` says whether the scan throws.
 */
module ListEmployees {
  import opened Records

  /** Every record of `records`, each once, in some order. */
  method Scan(records: map<string, Employee>) returns (items: seq<Employee>)
    ensures |items| == |records|
    ensures forall k :: k in records ==> records[k] in items
    ensures forall i :: 0 <= i < |items| ==> items[i] in records.Values
    // In a table where every record is filed under its own id, no id is listed twice.
    ensures WellFormed(State(records, {})) ==>
      forall i, j :: 0 <= i < j < |items| ==> items[i].id != items[j].id
  {
    items := [];
    var rest := records.Keys;
    ghost var keys: seq<string> := [];
    while rest != {}
      invariant rest <= records.Keys
      invariant |keys| == |items| && |keys| + |rest| == |records|
      invariant forall i :: 0 <= i < |keys| ==>
        keys[i] in records && keys[i] !in rest && items[i] == records[keys[i]]
      invariant forall k :: k in records && k !in rest ==> k in keys
      invariant forall i, j :: 0 <= i < j < |keys| ==> keys[i] != keys[j]
      decreases rest
    {
      var k :| k in rest;
      items := items + [records[k]];
      keys := keys + [k];
      rest := rest - {k};
    }
    forall k | k in records
      ensures records[k] in items
    {
      var i :| 0 <= i < |keys| && keys[i] == k;
      assert items[i] == records[k];
    }
    forall i | 0 <= i < |items|
      ensures items[i] in records.Values
    {
      assert records[keys[i]] == items[i];
    }
    if WellFormed(State(records, {})) {
      forall i, j | 0 <= i < j < |items|
        ensures items[i].id != items[j].id
      {
        assert items[i].id == keys[i] && items[j].id == keys[j];
      }
    }
  }

  method Handle(scanFails: bool, s: State) returns (r: Reply)
    // Listing never changes anything.
    ensures r.next == s
    ensures scanFails <==> r.response == ServerError
    ensures !scanFails ==>
      && r.response.status == 200
      && r.response.payload.Items?
      && |r.response.payload.items| == |s.records|
      && (forall k :: k in s.records ==> s.records[k] in r.response.payload.items)
      && (forall i :: 0 <= i < |r.response.payload.items| ==>
            r.response.payload.items[i] in s.records.Values)
      && (WellFormed(s) ==> forall i, j :: 0 <= i < j < |r.response.payload.items| ==>
            r.response.payload.items[i].id != r.response.payload.items[j].id)
  {
    if scanFails {
      return Reply(ServerError, s);
    }
    var items := Scan(s.records);
    return Reply(Response(200, Items(items)), s);
  }
}

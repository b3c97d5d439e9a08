# Employee manager: the record lifecycle in Dafny

A model of the four request handlers of a serverless employee directory.
The handlers share one record table, keyed by `id`, and one photo bucket.
The creator either hands out a presigned upload address for a new photo object or puts a new record.
The updater overwrites a record's name, role and email, and its photo address only when a new one is supplied.
The deleter looks a record up, tries to remove its photo object, then removes the record.
The lister returns every record.

Each handler is a pure function from its inputs and the current `State` to a `Reply`: the HTTP status and payload, plus the state it leaves behind.
The state is `records: map<string, Employee>` and `blobs: set<string>`, the object keys in the bucket.
The lister is a method: the table scans in an order of its own, and the method's nondeterministic choice of the next key covers every order.

Everything outside the handlers is a parameter:

- the bucket name;
- the uuid `uuidv4()` returns;
- the presigner, a function from the presign request to the signed address, or `None` when it throws;
- whether each table or bucket call throws;
- whether the body parses.

JavaScript `undefined` is `None`.
A string field is truthy when it is present and non-empty.

Files:

- `records.dfy` (`Records`): shared datatypes, response constants, and the `WellFormed` invariant (every record is filed under its own `id`).
- `text.dfy` (`Text`): `split('/')`, its last element, and `includes`, each with an independent characterization.
- `blob_keys.dfy` (`BlobKeys`): the upload key, the public address, the key recovered from an address, and the round trip between the last two.
- `create_employee.dfy`, `update_employee.dfy`, `delete_employee.dfy`, `list_employees.dfy`: one module per handler.
- `lifecycle.dfy` (`Lifecycle`): sequences of calls, mostly following the browser client's flow, plus a few direct API calls the client never makes.

Points where the model records what the code actually does:

- The document client is built with default options (createEmployee.js:8, updateEmployee.js:5). Under those options it refuses an undefined attribute value, and the model takes that as given. So a create whose body lacks `name`, `role`, `email` or `photoUrl` fails with 500 and stores nothing. The browser client always sends a photo address, a placeholder when no photo was chosen (frontend/app.js:55-57). An update whose body lacks `name`, `role` or `email` also fails with 500 and changes nothing. An update without `photoUrl` is fine, because `:p` is only sent when the address is truthy.
- Records may still lack fields. Nothing constrains what the table already holds, and the updater can create a record without a photo address.
- The updater has no existence check (updateEmployee.js:39-48). `UpdateEmployee.ApplyUpdate` assumes the table creates a missing record.
- Nothing checks that `photoUrl` points into the bucket: the deleter's test is a substring test (deleteEmployee.js:49).

## Model

| member | source | states |
|---|---|---|
| Text.Split | lambdas/deleteEmployee.js:45 | `split('/')` yields at least one part, no part contains the separator, and joining the parts with the separator gives back the input |
| Text.LastSegment | lambdas/deleteEmployee.js:45-46 | `urlParts[urlParts.length - 1]`: a separator-free suffix of the address that is either the whole address or starts right after a `/` |
| Text.LastSegmentUnique | lambdas/deleteEmployee.js:45-46 | those properties determine the last element uniquely, so it is exactly "the text after the last `/`, or all of it" |
| Text.Includes | lambdas/deleteEmployee.js:49 | `includes`: the empty string occurs in every string, and nothing longer than the string occurs in it |
| Text.IncludesIffOccursAt | lambdas/deleteEmployee.js:49 | `includes` holds exactly when some position of the string starts an occurrence of the searched text |
| Text.IncludesMiddle | lambdas/deleteEmployee.js:49 | a string includes any text it has between a prefix and a suffix |
| BlobKeys.FileNameOrDefault | lambdas/createEmployee.js:26 | the file name is used when truthy; when absent or empty it becomes `photo.jpg`; never empty |
| BlobKeys.UploadKey | lambdas/createEmployee.js:26 | the upload key is the uuid, then `-`, then the file name or its default, at exact positions |
| BlobKeys.UploadKeysDistinct | lambdas/createEmployee.js:26 | different uuids give different keys for the same file name |
| BlobKeys.PublicUrl | lambdas/createEmployee.js:34 | the public address starts with `https://`, ends with `/` and then the key, and always contains the bucket name |
| BlobKeys.ExtractKey | lambdas/deleteEmployee.js:45-46 | the recovered key is the `/`-free suffix of the address after its last `/`, or the whole address when it has none |
| BlobKeys.ExtractKeyOfPublicUrl | lambdas/deleteEmployee.js:45-46 | recovering the key from the public address of `key` gives back `key` if and only if `key` contains no `/`, for any bucket name |
| BlobKeys.BlobTarget | lambdas/deleteEmployee.js:39-55 | an object delete is issued iff the address is truthy, its last segment is non-empty and it contains the bucket name. The target is that last segment, which has no `/` |
| BlobKeys.BlobTargetOfPublicUrl | lambdas/deleteEmployee.js:45-49 | a photo stored at the public address of a non-empty `/`-free key is targeted under exactly that key |
| BlobKeys.ForeignUrlMentioningBucketIsTargeted | lambdas/deleteEmployee.js:49 | for every host, bucket name and non-empty `/`-free segment, the address host + bucket + `/` + segment passes the check, and the segment is targeted. So an address outside the bucket that merely mentions its name is deleted from the bucket |
| CreateEmployee.IsUploadRequest | lambdas/createEmployee.js:25 | upload mode needs the action to be exactly `getUploadUrl`. A missing action, or any other string, selects create mode |
| CreateEmployee.UploadRequest | lambdas/createEmployee.js:27-33 | the presign request is for the configured bucket and the body's content type, expires after 300 seconds, and is scoped to the key built from uuid and file name |
| CreateEmployee.NewEmployee | lambdas/createEmployee.js:44-53 | the new record carries the generated id and exactly the body's name, role, email and photo address |
| CreateEmployee.Handle | lambdas/createEmployee.js:20-76 | 200 iff the action is exactly `getUploadUrl` and presigning succeeds. Then the state is unchanged and the payload is the signed address, the key and its public address. 201 iff the action is anything else, the body defines name, role, email and photo address, and the put succeeds. Then only the new id is added, with the stored record as payload. Any failure gives 500 "Internal Server Error" and changes nothing. The bucket is never touched |
| CreateEmployee.NonUploadActionCreates | lambdas/createEmployee.js:25-66 | for every action other than the exact literal, including none, the handler puts the new record: 201 with exactly that record added when it can be put, 500 otherwise |
| CreateEmployee.CreateFreshGrowsByOne | lambdas/createEmployee.js:45-60 | a successful create under an unused id adds exactly one record |
| CreateEmployee.CreatePreservesWellFormed | lambdas/createEmployee.js:47-58 | creation keeps every record filed under its own id |
| UpdateEmployee.BuildUpdate | lambdas/updateEmployee.js:21-46 | the command is keyed by the path id. It always sets name, role and email from the body. The `photoUrl = :p` clause and the `:p` value are present iff the body's photo address is truthy, and `:p` is that address |
| UpdateEmployee.ApplyUpdate | lambdas/updateEmployee.js:39-48 | the table's assumed reading of the command: the record under the key, or a new one holding only the key, gets name, role and email from the values. It gets the photo address only when `:p` is present |
| UpdateEmployee.Handle | lambdas/updateEmployee.js:15-64 | 200 iff the id and body are readable, the body defines name, role and email, and the update succeeds; never 404. On 200 only the path id's record changes. Name, role and email come from the body. A truthy photo address replaces the old one; otherwise the old one stays. The payload is the whole post-update record. On 500 nothing changes. The bucket is never touched |
| UpdateEmployee.OmittedPhotoPreserved | lambdas/updateEmployee.js:34-37 | an update whose photo address is absent or empty leaves the stored photo address as it was |
| UpdateEmployee.PhotoNeverCleared | lambdas/updateEmployee.js:34-37 | no update, successful or not, removes a record's photo address |
| UpdateEmployee.UpdateIdempotent | lambdas/updateEmployee.js:22-48 | repeating a successful update with the same body changes nothing further and gives the same response |
| UpdateEmployee.MissingIdIsUpserted | lambdas/updateEmployee.js:39-48 | an update on an id with no record, with name, role and email defined, succeeds and creates the record from the body's fields. The photo is included only when truthy |
| UpdateEmployee.UndefinedFieldRefused | lambdas/updateEmployee.js:28-32 | a body missing name, role or email always gives 500 and changes nothing, so a stored name is never cleared |
| UpdateEmployee.UpdatePreservesWellFormed | lambdas/updateEmployee.js:41 | updates keep every record filed under its own id |
| DeleteEmployee.CleanupBlobs | lambdas/deleteEmployee.js:38-60 | the bucket loses exactly the targeted key when there is a target and its delete succeeds. Otherwise it is unchanged |
| DeleteEmployee.Handle | lambdas/deleteEmployee.js:18-84 | 404 iff the lookup succeeds and finds no record; then nothing changes. 200 iff a record is found and its delete succeeds; then exactly that id is removed and the bucket is cleaned up. On 500 the table is unchanged; if the record delete itself failed, the photo cleanup has already happened. The bucket only ever shrinks |
| DeleteEmployee.BlobFailureIsolated | lambdas/deleteEmployee.js:40-68 | a failing photo delete changes neither the response nor the record table; it only leaves the object in place |
| DeleteEmployee.SecondDeleteNotFound | lambdas/deleteEmployee.js:30-36 | deleting an id a second time reports 404 and changes nothing |
| DeleteEmployee.DeleteRemovesUploadedPhoto | lambdas/deleteEmployee.js:45-54 | a record whose photo is at the public address of a `/`-free key is deleted with 200 and takes that object out of the bucket |
| DeleteEmployee.DeletePreservesWellFormed | lambdas/deleteEmployee.js:62-68 | deletes keep every record filed under its own id |
| ListEmployees.Scan | lambdas/listEmployees.js:17-21 | the scan returns every record, one item per key, and nothing that is not a record. In a well-formed table no id appears twice |
| ListEmployees.Handle | lambdas/listEmployees.js:15-37 | a failing scan gives 500 "Internal Server Error". Otherwise 200 with `Items` holding exactly the records, unfiltered and untransformed: as many items as records, each record among them, each item a record. In a well-formed table no id repeats, so the items are a permutation of the records. The state never changes |
| Lifecycle.Upload | frontend/app.js:77-81 | the client's direct upload adds the key to the bucket and leaves the table alone |
| Lifecycle.CreateBody | frontend/app.js:87 | the client's record body carries no action, so it always selects create mode |
| Lifecycle.UploadKeyHasNoSlash | lambdas/createEmployee.js:26 | a key built from a `/`-free uuid and file name contains no `/` |
| Lifecycle.PhotoLifecycle | lambdas/deleteEmployee.js:38-74 | upload address, upload, create with the public address, delete: all succeed and the bucket ends as it began minus the uploaded key. The table ends without the record |
| Lifecycle.SlashInFileNameOrphansPhoto | lambdas/deleteEmployee.js:45-55 | when the file name contains a `/`, deleting the record never removes the uploaded object |
| Lifecycle.CreateWithoutPhotoRefused | lambdas/createEmployee.js:44-60 | a create body with no photo address is refused with 500 and nothing is stored |
| Lifecycle.RecordLifecycle | lambdas/updateEmployee.js:34-37 | create with a photo address, update with or without a new one, delete. The update is visible. The stored address is replaced only by a truthy new one and survives otherwise. The table ends without the record, and the bucket loses at most the key the final address points at |
| Lifecycle.AbsentIdNotListed | lambdas/listEmployees.js:21-26 | in a table where every record is filed under its own id, a listing of its records never shows an id that has no record |
| Lifecycle.AnnScenario | lambdas/createEmployee.js:44-66 | an example run. A direct API call creating "Ann" with no photo address is refused. Then the browser client's calls: she is created with the placeholder address, renamed "Ann B" with the stored address sent back, and deleted. The listing that follows shows no record with her id |

## Left out

- The SDK clients, `getSignedUrl`'s signature computation and the object-delete transport are foreign calls. The signed address is whatever the `sign` parameter returns; each store call is a success/failure flag.
- `uuidv4()` is a parameter. Freshness is a precondition only where a property needs it (`CreateFreshGrowsByOne`).
- `JSON.parse` and `JSON.stringify` are not modelled. A body is either the `Body` datatype or `None`, which leads to 500. Non-string JSON values in fields (numbers, objects) are not modelled, and neither is a parsed body that is not an object.
- The `error.message` detail in the 500 payload is not modelled; only the status and the "Internal Server Error" message are.
- Logging is not modelled: the `console.warn` on a swallowed photo-delete failure and the `console.error` in every `catch`.
- Scan pagination is not modelled, and neither is a scan that returns part of the table. The scan is taken to return the whole table in one response.
- `process.env`: the table is the one `State.records`. The bucket name is a parameter and is always a string.
- The CORS headers on each response are constant literals with no bearing on the state; they are not modelled.
- The browser front end's rendering, toasts and modal state are not modelled. Only its call sequence appears, in `Lifecycle`.
- Concurrent invocations, and last-write-wins between them, are outside this sequential model.
- An object-delete failure is assumed to leave the bucket unchanged. The bucket's behaviour for a missing key (deleting one succeeds) is taken as set difference.

# Resumable uploads of the files app, modelled in Dafny

The files app serves resumable uploads as draft-ietf-httpbis-resumable-upload-05
describes them, at interop version `6`. A client creates an upload session
(`createResource`, section 4 of the draft) and sends the first bytes with it.
It appends further bytes at the offset the server holds (`uploadResource`,
section 6), asks for that offset (`checkResource`, section 5) and cancels the
upload (`deleteResource`, section 7). The controller keeps two kinds of
state: session records in the mapper's table, keyed by user id and token,
each with a path, an optional declared size and a `complete` flag; and one
append-only byte file per session path.

The project has six modules:

- `Wrappers` (`wrappers.dfy`): `Option`, for PHP's nullable values.
- `Protocol` (`protocol.dfy`): requests, records, files, responses and the
  header getters. It has one pure function per action (`Create`, `Upload` with
  `Append` and `Finish`, `Check`, `Delete`). Each function gives the response and
  the records and files the action leaves. It also has the 16 KiB copy loop as
  `BoundedCopy`.
- `Controller` (`controller.dfy`): the controller class with its `isCreation`
  field, plus the mapper and the file system as classes with mutable maps. Each
  action is an imperative method, proved to do exactly what its `Protocol`
  function says. The copy runs as a `while` loop over 16 KiB increments.
- `Properties` (`properties.dfy`): what holds for every state and request. It
  covers the guard order of all four actions, creation's validation and the declared size, the
  completed-session short-circuit, the offset check, the copy, completion,
  append-only files, one-way completion, what later probes and appends see, and
  the invariant that ties every record to its own file.
- `Scenarios` (`scenarios.dfy`): the client scenarios of `resumable-upload.py`,
  plus an upload whose length is learnt only when it completes.
- `Findings` (`findings.dfy`): the overrun check described under Findings.

Modelling choices:

- Every response carries `Upload-Draft-Interop-Version: 6`; `Headers` leaves
  that header out.
- A `Location` header is shown as the token it links to.
- The completed-upload and mismatching-offset responses are response
  variants. The mismatching-offset variant carries the expected and the
  provided offset.
- The string headers are kept raw, with `""` meaning missing, as
  `getHeader` returns them. The integer headers are kept after PHP's `(int)`
  cast, with `None` meaning missing, so they may be negative.
- The token that `uniqid` produces is an input.
- `fopen(..., 'ab')` creates a missing file. The model does the same, so a
  completed-upload or mismatching-offset answer can leave an empty file behind.
- `fopen(..., 'rb')` fails for a missing file. `checkResource` then answers 500,
  and so does the model.
- `stream_copy_to_stream` with a 16 KiB limit moves `min(16384, remaining)`
  bytes.

## Model

| member | source | states |
|---|---|---|
| `Protocol.GetUploadComplete` | apps/files/lib/Controller/ResumableUploadController.php:65-71 | `Upload-Complete` reads as true exactly for `'1'` and as false exactly for `'0'`; anything else is absent |
| `Protocol.Increment` | apps/files/lib/Controller/ResumableUploadController.php:221 | one copy call moves at most 16 KiB and at most what is left; it moves nothing only at the end of the body; a short increment takes all that is left |
| `Protocol.BoundedCopy` | apps/files/lib/Controller/ResumableUploadController.php:218-236 | the increment loop stops with 400 exactly when the body is not empty and the declared size is below the pre-call length plus the first increment; it then has written that increment, and otherwise the whole body |
| `Protocol.CopyBody` | apps/files/lib/Controller/ResumableUploadController.php:218-242 | the copy never writes more than the body; without a declared size it writes the whole body in one call and never answers 400 |
| `Controller.ResumableUploadController.constructor` | apps/files/lib/Controller/ResumableUploadController.php:49-59 | a controller starts for its user and request with `isCreation` false |
| `Controller.ResumableUploadController.CreateResource` | apps/files/lib/Controller/ResumableUploadController.php:114-152 | answers and leaves records and files exactly as `Protocol.Create` says; `isCreation` becomes true exactly when creation's own checks pass |
| `Controller.ResumableUploadController.UploadResource` | apps/files/lib/Controller/ResumableUploadController.php:157-280 | answers and leaves records and files exactly as `Protocol.Upload` says, for the current `isCreation` |
| `Controller.ResumableUploadController.CopyRequestBody` | apps/files/lib/Controller/ResumableUploadController.php:218-242 | the `while` loop appends the body in increments and reports an overrun exactly as `Protocol.CopyBody` says; the file then holds its old bytes followed by the bytes written |
| `Controller.ResumableUploadController.CheckResource` | apps/files/lib/Controller/ResumableUploadController.php:286-328 | answers exactly as `Protocol.Check` says, and changes nothing |
| `Controller.ResumableUploadController.DeleteResource` | apps/files/lib/Controller/ResumableUploadController.php:333-362 | answers and leaves records and files exactly as `Protocol.Delete` says: the file is unlinked only if it exists, then the record is deleted |
| `Controller.ResumableUploadMapper.FindByToken` | apps/files/lib/Controller/ResumableUploadController.php:180 | a lookup finds a record exactly when one exists under the user id and token, and gives that record |
| `Controller.ResumableUploadMapper.Insert` | apps/files/lib/Controller/ResumableUploadController.php:148 | an insert adds the record under its key and changes no other record |
| `Controller.ResumableUploadMapper.Update` | apps/files/lib/Controller/ResumableUploadController.php:263 | an update replaces the record under its key and changes no other record |
| `Controller.ResumableUploadMapper.Delete` | apps/files/lib/Controller/ResumableUploadController.php:358 | a deletion removes the record under its key and no other |
| `Controller.FileStore.OpenForRead` | apps/files/lib/Controller/ResumableUploadController.php:306-311 | opening for reading fails exactly when the file does not exist, and otherwise reports its length; it changes nothing |
| `Controller.FileStore.Length` | apps/files/lib/Controller/ResumableUploadController.php:246 | `fstat` on the append handle reports the file's current length |
| `Controller.FileStore.Exists` | apps/files/lib/Controller/ResumableUploadController.php:354 | the existence test holds exactly when the file is there |
| `Controller.FileStore.Unlink` | apps/files/lib/Controller/ResumableUploadController.php:355 | unlinking removes that file and no other |
| `Controller.FileStore.OpenForAppend` | apps/files/lib/Controller/ResumableUploadController.php:185-197 | opening for append creates a missing file empty and reports the file's length |
| `Controller.FileStore.CopyToStream` | apps/files/lib/Controller/ResumableUploadController.php:221 | a copy appends the next `min(maxLength, remaining)` body bytes from the offset to the end of the file and leaves other files alone |
| `Properties.UploadGuardOrder` | apps/files/lib/Controller/ResumableUploadController.php:158-183 | an append answers 401 without a user, then 501 for another interop version, then 400 when the creation flag or the partial-upload content type is wrong, then 404 for an unknown (user, token); none of these changes anything |
| `Properties.UploadGuardStatuses` | apps/files/lib/Controller/ResumableUploadController.php:158-183 | an append answers 401, 501 or 404 exactly when the guard for it fails: past the guards no path gives these answers |
| `Properties.CheckGuardOrder` | apps/files/lib/Controller/ResumableUploadController.php:287-304 | the probe answers 401, then 501, then 400 if `Upload-Offset`, `Upload-Complete` or `Upload-Length` is sent, then 404 |
| `Properties.DeleteGuardOrder` | apps/files/lib/Controller/ResumableUploadController.php:334-351 | deletion answers 401, then 501, then 400 if `Upload-Offset` or `Upload-Complete` is sent, then 404, changing nothing; `Upload-Length` makes no difference to it |
| `Properties.CreateGuardOrder` | apps/files/lib/Controller/ResumableUploadController.php:114-121 | creation answers 401 without a user, then 501 for another interop version, changing nothing; it gives those answers only in those cases |
| `Properties.CreationValidation` | apps/files/lib/Controller/ResumableUploadController.php:124-152 | creation answers 400 and inserts nothing without `Upload-Complete`, or for a complete upload whose two lengths differ. Otherwise the new record has the token's path and the size `Upload-Length`, else `Content-Length` of a complete upload (the final length when that is missing too), else none. The first append never gets an offset or completed answer |
| `Properties.CompletedShortCircuit` | apps/files/lib/Controller/ResumableUploadController.php:195-202 | an append to a completed session answers the completed-upload response with the current length, before any offset check; no record changes and no file's bytes change |
| `Properties.OffsetConflict` | apps/files/lib/Controller/ResumableUploadController.php:204-211 | a later append to an open session whose `Upload-Offset` is missing or differs from the file length gets the mismatching-offset response (expected = length, provided = the claim). Nothing is written. That response comes only in this case |
| `Properties.CopyOutcome` | apps/files/lib/Controller/ResumableUploadController.php:218-244 | on an open session whose offset check passes, with a non-empty body and a declared size below the pre-call length plus the first increment, the append answers 400 with the pre-call offset; the first increment stays written and the record is not marked complete. Otherwise the whole body is appended and the answer reports the new length |
| `Properties.CompletionOutcome` | apps/files/lib/Controller/ResumableUploadController.php:253-279 | a complete request marks the record complete and fixes an unknown size to the final length, before the 400 it answers when the final length differs from a declared size. Otherwise the answer is 201 with the final length, `Upload-Complete` as requested, and `Location` only on creation |
| `Properties.Appended` | apps/files/lib/Controller/ResumableUploadController.php:195-242 | an append writes at most the body, and nothing to a completed session |
| `Properties.AppendFiles` | apps/files/lib/Controller/ResumableUploadController.php:185-242 | after an append on a found record, its file holds its old bytes followed by `Appended` body bytes; no other file changes |
| `Properties.AppendRecords` | apps/files/lib/Controller/ResumableUploadController.php:253-263 | an append changes no record but its own, and that one keeps its path; completion is never undone and a known size never changes |
| `Properties.AppendEvolves` | apps/files/lib/Controller/ResumableUploadController.php:185-269 | an append only adds body bytes, in order, at the end of its own session's file; a completed session's file and record stay as they were |
| `Properties.UploadEvolves` | apps/files/lib/Controller/ResumableUploadController.php:157-280 | over any append no record appears or disappears, every record evolves one-way, and no file gets shorter |
| `Properties.CompletedSessionFrozen` | apps/files/lib/Controller/ResumableUploadController.php:195-202 | in a consistent state, once a session is complete no append by any token changes its record or its bytes again |
| `Properties.CreatedReportsDurableLength` | apps/files/lib/Controller/ResumableUploadController.php:246-279 | a 201 reports the file length after the call and the record's completion; a complete record then has that length as its size |
| `Properties.CheckAfterUpload` | apps/files/lib/Controller/ResumableUploadController.php:318-327 | a probe after a 201 answers 204 with `no-store`, the same offset and completion as the 201, and the record's size |
| `Properties.CheckAfterCreate` | apps/files/lib/Controller/ResumableUploadController.php:136-151 | a creation answering 201 links to its token, and a probe after it reports what the 201 reported |
| `Properties.DeleteForgetsSession` | apps/files/lib/Controller/ResumableUploadController.php:347-361 | a deletion answering 204 removes exactly that record and its file; later probes and appends for the token get 404 |
| `Properties.PathForInjective` | apps/files/lib/Controller/ResumableUploadController.php:145 | two tokens name the same file exactly when they are equal |
| `Properties.DistinctSessionsDistinctFiles` | apps/files/lib/Controller/ResumableUploadController.php:136-145 | in a consistent state two different sessions never share a file |
| `Properties.CreatePreservesConsistent` | apps/files/lib/Controller/ResumableUploadController.php:136-151 | creation with a token never handed out keeps every record on its own token's file, with no token shared |
| `Properties.UploadPreservesConsistent` | apps/files/lib/Controller/ResumableUploadController.php:157-280 | appends keep every record on its own token's file, with no token shared |
| `Properties.DeletePreservesConsistent` | apps/files/lib/Controller/ResumableUploadController.php:353-358 | deletion keeps every record on its own token's file, with no token shared |
| `Scenarios.CreateComplete` | resumable-upload.py:17-29 | a complete three-byte creation answers 201, complete, offset 3, with a location; the probe reports complete, 3 and 3 |
| `Scenarios.CreateEmpty` | resumable-upload.py:31-43 | empty creations answer 201 at offset 0, complete or not as requested |
| `Scenarios.AppendToCompleted` | resumable-upload.py:45-61 | appending to a completed upload gives the completed-upload response at offset 3 |
| `Scenarios.AppendToUnknown` | resumable-upload.py:63-68 | appending to an unknown token answers 404 and changes nothing |
| `Scenarios.CreateWrongLength` | resumable-upload.py:70-75 | a complete creation of three bytes declaring four answers 400 and creates nothing |
| `Scenarios.AppendInThreeParts` | resumable-upload.py:77-115 | three appends of three bytes to a nine-byte upload answer offsets 3, 6, 9, and the probes follow them |
| `Scenarios.CompleteShort` | resumable-upload.py:117-134 | completing at nine bytes an upload declared as ten answers 400 at offset 9 and leaves it complete with size 10 |
| `Scenarios.AppendWrongOffset` | resumable-upload.py:136-154 | claiming offset 1 when 3 bytes are stored gives the mismatching-offset response (3, 1) and changes nothing |
| `Scenarios.OpenEndedThenDelete` | apps/files/lib/Controller/ResumableUploadController.php:255-263 | an upload without a declared length gets its final length as size on completion; deleting it leaves nothing and the probe then answers 404 |
| `Findings.OverrunAccepted` | apps/files/lib/Controller/ResumableUploadController.php:233 | an open 32 KiB session that takes a 48 KiB append at offset 0 answers 201 and holds more bytes than its declared size |
| `Findings.CumulativeCopy` | apps/files/lib/Controller/ResumableUploadController.php:218-236 | with the check made against the running total, the copy stops with 400 exactly when the body is not empty and the pre-call length plus the whole body passes the declared size; otherwise it writes the whole body |
| `Findings.CorrectedRejectsOverrun` | apps/files/lib/Controller/ResumableUploadController.php:233 | on the append of `OverrunAccepted` the check as written lets the body through and the running-total check rejects it |

## Left out

- The 500 answers of ResumableUploadController.php for `fopen` of the file (:186-188), `fstat` (:190-193, :246-249, and :311-314 in `checkResource`), `fopen('php://input')` (:213-216) and a failed `stream_copy_to_stream` (:222-224, :238-241). The file system and the body stream here never fail. For the same reason a failed `unlink` at :355, which the source ignores and which would leave the file behind after the record is deleted, is not modelled. Only the failed `fopen` of a missing file in `checkResource` is modelled.
- `fclose` calls: closing handles has no effect on the bytes or the answer.
- PHP's `(int)` cast of `Upload-Offset`, `Upload-Length` and `Content-Length` (:73-98): requests carry the integer after the cast.
- `uniqid` (:136): the token is an input. `uniqid` gives a fresh token, so `CreateResource` requires that the user has no record under it yet. The consistency lemmas require that no record at all uses it.
- `IURLGenerator::linkToRouteAbsolute` (:273): `Location` is shown as the token the URL points to.
- The bodies of the completed-upload and mismatching-offset responses and their status codes: those response classes are not part of this model, so they are response variants.
- Routing attributes, the app name and the base controller's request plumbing.
- Concurrent requests: every action runs alone on the records and files.
- `Properties.CompletedSessionFrozen`: proved only for consistent states, where no two records share a file; a record sharing a path with another session would see its bytes change through that other session.

## Findings

`BoundedCopy` reproduces the increment loop of `uploadResource` as written. After each increment, the check at :233 compares the declared size with the file length from before the call plus that one increment. It does not use the running total `$offset`. Every increment after the first is at most as large as the first. So if the first increment fits, the loop appends the rest of the body without rejecting it, and the file can end up longer than its declared size. The comment at :226 and the draft's rule that an upload must not go past its declared length both point to a check against the running total. `Findings.CumulativeCopy` makes that check and is proved to reject exactly the bodies that would go past the declared size. The controller keeps the check as written, because it models the code.

| source | as written | input that shows it | evidently intended | confidence | as-written member | corrected member |
|---|---|---|---|---|---|---|
| apps/files/lib/Controller/ResumableUploadController.php:233 | `$upload->getSize() < $tmpFileStat['size'] + $copied`: pre-call length plus the latest increment only | open session with declared size 32768 and an empty file; append with offset 0 and a 49152-byte body; answer 201, file 49152 bytes long | `$upload->getSize() < $tmpFileStat['size'] + $offset`: reject once the running total passes the declared size | medium, not executed | `Findings.OverrunAccepted` | `Findings.CumulativeCopy` |

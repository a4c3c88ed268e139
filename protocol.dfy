/**
 * The resumable-upload protocol of draft-ietf-httpbis-resumable-upload-05
 * (interop version 6) as served by the files app: requests, session records,
 * the byte files, responses, and one pure function per action that says what
 * the action answers and what it leaves behind. The imperative controller in
 * module Controller is proved to do exactly what these functions say.
 */
module Protocol {
  import opened Wrappers

  newtype byte = b: int | 0 <= b < 256

  /** Value of the `Upload-Draft-Interop-Version` header the controller speaks. */
  const InteropVersion: string := "6"
  /** Media type every append after creation must carry. */
  const PartialUploadMediaType: string := "application/partial-upload"
  /** Largest increment of the bounded copy loop: 16 KiB. */
  const ChunkSize: nat := 1024 * 16

  const StatusCreated: int := 201
  const StatusNoContent: int := 204
  const StatusBadRequest: int := 400
  const StatusUnauthorized: int := 401
  const StatusNotFound: int := 404
  const StatusInternalServerError: int := 500
  const StatusNotImplemented: int := 501

  // ---------------------------------------------------------------------------
  // Requests and their header getters

  /** The `Upload-Complete` header once read: `'1'`, `'0'`, or anything else. */
  datatype TriState = True | False | Absent {
    /** PHP truthiness of the parsed value: `null` is falsy like `false`. */
    predicate Holds() { this == True }
  }

  /**
   * One request as the controller sees it. String headers are raw (the empty
   * string when the header is missing); integer headers are carried after the
   * `(int)` cast, `None` when the header is missing. `body` is `php://input`.
   */
  datatype Request = Request(
    interopVersion: string,
    uploadComplete: string,
    uploadOffset: Option<int>,
    uploadLength: Option<int>,
    contentLength: Option<int>,
    contentType: string,
    body: seq<byte>)

  predicate IsSupported(req: Request) {
    req.interopVersion == InteropVersion
  }

  function GetUploadComplete(req: Request): (r: TriState)
    ensures r == True <==> req.uploadComplete == "1"
    ensures r == False <==> req.uploadComplete == "0"
  {
    match req.uploadComplete
    case "1" => True
    case "0" => False
    case _ => Absent
  }

  function GetContentType(req: Request): Option<string> {
    if req.contentType != "" then Some(req.contentType) else None
  }

  // ---------------------------------------------------------------------------
  // Persistent state: session records and byte files

  /** Records are looked up by the owner's user id and the session token. */
  datatype Key = Key(userId: string, token: string)

  /** One session record: where its bytes go, its declared size, and whether it is complete. */
  datatype Session = Session(path: string, size: Option<int>, complete: bool)

  /** The mapper's table and the file system, as the four actions see them. */
  datatype World = World(records: map<Key, Session>, files: map<string, seq<byte>>)

  /** Path of the byte file of the session with this token. */
  function PathFor(token: string): string {
    "/tmp/upload-" + token
  }

  /** Bytes of the file at `path`; a missing file reads as empty, as `fopen` in append mode creates it. */
  function Contents(files: map<string, seq<byte>>, path: string): seq<byte> {
    if path in files then files[path] else []
  }

  // ---------------------------------------------------------------------------
  // Responses

  /**
   * The headers a response carries besides `Upload-Draft-Interop-Version`,
   * which every response carries. `location` names the token whose append URL
   * the `Location` header links to; `noStore` is `Cache-Control: no-store`.
   */
  datatype Headers = Headers(
    uploadOffset: Option<nat>,
    uploadComplete: Option<bool>,
    uploadLength: Option<int>,
    location: Option<string>,
    noStore: bool)

  const BaseHeaders: Headers := Headers(None, None, None, None, false)

  datatype Response =
    | Plain(status: int, headers: Headers)
    /** The completed-upload problem response. */
    | CompleteUpload(headers: Headers)
    /** The mismatching-offset problem response, with the expected and the provided offset. */
    | MismatchingOffset(expected: nat, provided: Option<int>, headers: Headers)

  // ---------------------------------------------------------------------------
  // The bounded copy loop

  /** Bytes copied so far, and whether the size check stopped the copy. */
  datatype CopyResult = CopyResult(written: nat, overrun: bool)

  /** Bytes one bounded `stream_copy_to_stream` call moves when `remaining` are left in the body. */
  function Increment(remaining: nat): (n: nat)
    ensures n <= remaining && n <= ChunkSize
    ensures n == 0 <==> remaining == 0
    ensures n < ChunkSize ==> n == remaining
  {
    if remaining < ChunkSize then remaining else ChunkSize
  }

  /**
   * The copy loop as the controller runs it, from position `offset` of a body
   * of `bodyLength` bytes, for a session whose file held `before` bytes when
   * the call began and whose declared size is `size`. After each increment the
   * check compares `size` with `before` plus that increment alone. Because
   * every increment is at most as large as the first, only the first increment
   * can ever trip the check.
   */
  function BoundedCopy(size: int, before: nat, bodyLength: nat, offset: nat): (r: CopyResult)
    requires offset <= bodyLength
    ensures offset <= r.written <= bodyLength
    ensures r.overrun <==> offset < bodyLength && size < before + Increment(bodyLength - offset)
    ensures r.written == if r.overrun then offset + Increment(bodyLength - offset) else bodyLength
    decreases bodyLength - offset
  {
    var copied := Increment(bodyLength - offset);
    if copied == 0 then CopyResult(offset, false)
    else if size < before + copied then CopyResult(offset + copied, true)
    else BoundedCopy(size, before, bodyLength, offset + copied)
  }

  /** The whole copy: bounded when the session declares a size, the entire body in one go otherwise. */
  function CopyBody(size: Option<int>, before: nat, bodyLength: nat): (r: CopyResult)
    ensures r.written <= bodyLength
    ensures size.None? ==> r == CopyResult(bodyLength, false)
  {
    if size.Some? then BoundedCopy(size.value, before, bodyLength, 0) else CopyResult(bodyLength, false)
  }

  // ---------------------------------------------------------------------------
  // The four actions

  /** Creation passes its own checks: a user, the right version, `Upload-Complete`, consistent lengths. */
  predicate CreationAccepted(user: Option<string>, req: Request) {
    && user.Some?
    && IsSupported(req)
    && GetUploadComplete(req) != Absent
    && !(GetUploadComplete(req).Holds() && req.contentLength.Some? && req.uploadLength.Some?
         && req.contentLength != req.uploadLength)
  }

  /** Size a new session declares: `Upload-Length`, else `Content-Length` of a complete upload, else unknown. */
  function DeclaredSize(req: Request): Option<int> {
    if req.uploadLength.Some? then req.uploadLength
    else if GetUploadComplete(req).Holds() then req.contentLength
    else None
  }

  /** Session creation: insert a record for the fresh `token`, then run the first append on it. */
  function Create(w: World, user: Option<string>, req: Request, token: string): (World, Response) {
    if user.None? then (w, Plain(StatusUnauthorized, BaseHeaders))
    else if !IsSupported(req) then (w, Plain(StatusNotImplemented, BaseHeaders))
    else if GetUploadComplete(req) == Absent then (w, Plain(StatusBadRequest, BaseHeaders))
    else if GetUploadComplete(req).Holds() && req.contentLength.Some? && req.uploadLength.Some?
            && req.contentLength != req.uploadLength then (w, Plain(StatusBadRequest, BaseHeaders))
    else
      var session := Session(PathFor(token), DeclaredSize(req), false);
      Upload(w.(records := w.records[Key(user.value, token) := session]), user, req, token, true)
  }

  /** Upload append; `isCreation` says whether it runs as the continuation of a creation. */
  function Upload(w: World, user: Option<string>, req: Request, token: string, isCreation: bool): (World, Response) {
    if user.None? then (w, Plain(StatusUnauthorized, BaseHeaders))
    else if !IsSupported(req) then (w, Plain(StatusNotImplemented, BaseHeaders))
    else if isCreation && GetUploadComplete(req) == Absent then (w, Plain(StatusBadRequest, BaseHeaders))
    else if !isCreation && GetContentType(req) != Some(PartialUploadMediaType) then (w, Plain(StatusBadRequest, BaseHeaders))
    else if Key(user.value, token) !in w.records then (w, Plain(StatusNotFound, BaseHeaders))
    else Append(w, Key(user.value, token), req, isCreation)
  }

  /** The append once the session record is found: completed check, offset check, then the copy. */
  function Append(w: World, key: Key, req: Request, isCreation: bool): (World, Response)
    requires key in w.records
  {
    var s := w.records[key];
    var before := Contents(w.files, s.path);
    var created := w.(files := w.files[s.path := before]);
    var headers := BaseHeaders.(uploadOffset := Some(|before|));
    if s.complete then (created, CompleteUpload(headers))
    else if !isCreation && req.uploadOffset != Some(|before|) then
      (created, MismatchingOffset(|before|, req.uploadOffset, headers))
    else
      var copy := CopyBody(s.size, |before|, |req.body|);
      var written := w.(files := w.files[s.path := before + req.body[..copy.written]]);
      if copy.overrun then (written, Plain(StatusBadRequest, headers))
      else Finish(written, key, req, isCreation)
  }

  /** After the copy: record completion, fix an unknown size, compare the length, answer 201. */
  function Finish(w: World, key: Key, req: Request, isCreation: bool): (World, Response)
    requires key in w.records
  {
    var s := w.records[key];
    var after := |Contents(w.files, s.path)|;
    var headers := BaseHeaders.(uploadOffset := Some(after));
    var complete := GetUploadComplete(req).Holds();
    if complete then
      var s' := s.(complete := true, size := if s.size.None? then Some(after) else s.size);
      var w' := w.(records := w.records[key := s']);
      if Some(after) != s'.size then (w', Plain(StatusBadRequest, headers))
      else (w', Plain(StatusCreated, headers.(location := if isCreation then Some(key.token) else None,
                                               uploadComplete := Some(true))))
    else
      (w, Plain(StatusCreated, headers.(location := if isCreation then Some(key.token) else None,
                                        uploadComplete := Some(false))))
  }

  /** The offset retrieval probe; it changes nothing. */
  function Check(w: World, user: Option<string>, req: Request, token: string): Response {
    if user.None? then Plain(StatusUnauthorized, BaseHeaders)
    else if !IsSupported(req) then Plain(StatusNotImplemented, BaseHeaders)
    else if req.uploadOffset.Some? || GetUploadComplete(req) != Absent || req.uploadLength.Some? then
      Plain(StatusBadRequest, BaseHeaders)
    else if Key(user.value, token) !in w.records then Plain(StatusNotFound, BaseHeaders)
    else
      var s := w.records[Key(user.value, token)];
      if s.path !in w.files then Plain(StatusInternalServerError, BaseHeaders)
      else Plain(StatusNoContent, BaseHeaders.(noStore := true, uploadComplete := Some(s.complete),
                                               uploadOffset := Some(|w.files[s.path]|), uploadLength := s.size))
  }

  /** Upload cancellation: remove the byte file if there is one, then the record. */
  function Delete(w: World, user: Option<string>, req: Request, token: string): (World, Response) {
    if user.None? then (w, Plain(StatusUnauthorized, BaseHeaders))
    else if !IsSupported(req) then (w, Plain(StatusNotImplemented, BaseHeaders))
    else if req.uploadOffset.Some? || GetUploadComplete(req) != Absent then (w, Plain(StatusBadRequest, BaseHeaders))
    else if Key(user.value, token) !in w.records then (w, Plain(StatusNotFound, BaseHeaders))
    else
      var key := Key(user.value, token);
      (World(w.records - {key}, w.files - {w.records[key].path}), Plain(StatusNoContent, BaseHeaders))
  }
}

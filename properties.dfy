/**
 * What the four actions of module Protocol promise, for every state and every
 * request: the order of the guards, creation's validation and declared size,
 * the completed-session short-circuit, the offset check, append-only files,
 * one-way completion, what a later probe or deletion sees, and the invariant
 * that ties each record to its own byte file.
 */
module Properties {
  import opened Wrappers
  import opened Protocol

  /** The append's request-level checks pass: a user, the version, and the creation or content-type check. */
  predicate UploadChecksPass(user: Option<string>, req: Request, isCreation: bool) {
    && user.Some?
    && IsSupported(req)
    && (if isCreation then GetUploadComplete(req) != Absent
        else GetContentType(req) == Some(PartialUploadMediaType))
  }

  /** A probe that carries none of the headers the offset retrieval rejects. */
  predicate CleanProbe(req: Request) {
    IsSupported(req) && req.uploadOffset.None? && GetUploadComplete(req) == Absent && req.uploadLength.None?
  }

  /** `after` is `before` followed by the first bytes of `body`. */
  predicate AppendedFrom(before: seq<byte>, after: seq<byte>, body: seq<byte>) {
    |before| <= |after| <= |before| + |body| && after == before + body[..|after| - |before|]
  }

  /** How a record may change under an append: same path, completion and a known size never undone. */
  predicate Evolves(s: Session, s': Session) {
    && s'.path == s.path
    && (s.complete ==> s' == s)
    && (s.size.Some? ==> s'.size == s.size)
  }

  // ---------------------------------------------------------------------------
  // Guards

  /** 401, then 501, then the creation or content-type 400, then 404; none of them changes anything. */
  lemma UploadGuardOrder(w: World, user: Option<string>, req: Request, token: string, isCreation: bool)
    ensures user.None? ==> Upload(w, user, req, token, isCreation) == (w, Plain(StatusUnauthorized, BaseHeaders))
    ensures user.Some? && !IsSupported(req) ==>
              Upload(w, user, req, token, isCreation) == (w, Plain(StatusNotImplemented, BaseHeaders))
    ensures user.Some? && IsSupported(req) && !UploadChecksPass(user, req, isCreation) ==>
              Upload(w, user, req, token, isCreation) == (w, Plain(StatusBadRequest, BaseHeaders))
    ensures UploadChecksPass(user, req, isCreation) && Key(user.value, token) !in w.records ==>
              Upload(w, user, req, token, isCreation) == (w, Plain(StatusNotFound, BaseHeaders))
  {
  }

  /** 401, 501 and 404 come from the guards alone: the append itself never answers them. */
  lemma UploadGuardStatuses(w: World, user: Option<string>, req: Request, token: string, isCreation: bool)
    ensures Upload(w, user, req, token, isCreation).1 == Plain(StatusUnauthorized, BaseHeaders) <==> user.None?
    ensures Upload(w, user, req, token, isCreation).1 == Plain(StatusNotImplemented, BaseHeaders) <==>
              user.Some? && !IsSupported(req)
    ensures Upload(w, user, req, token, isCreation).1 == Plain(StatusNotFound, BaseHeaders) <==>
              UploadChecksPass(user, req, isCreation) && Key(user.value, token) !in w.records
  {
  }

  /** The offset retrieval probe: 401, 501, then 400 when any of the three upload headers is sent, then 404. */
  lemma CheckGuardOrder(w: World, user: Option<string>, req: Request, token: string)
    ensures user.None? ==> Check(w, user, req, token) == Plain(StatusUnauthorized, BaseHeaders)
    ensures user.Some? && !IsSupported(req) ==> Check(w, user, req, token) == Plain(StatusNotImplemented, BaseHeaders)
    ensures user.Some? && IsSupported(req) && !CleanProbe(req) ==> Check(w, user, req, token) == Plain(StatusBadRequest, BaseHeaders)
    ensures user.Some? && CleanProbe(req) && Key(user.value, token) !in w.records ==>
              Check(w, user, req, token) == Plain(StatusNotFound, BaseHeaders)
  {
  }

  /**
   * Deletion: 401, 501, then 400 when `Upload-Offset` or `Upload-Complete` is
   * sent (`Upload-Length` is not looked at), then 404; none of them changes anything.
   */
  lemma DeleteGuardOrder(w: World, user: Option<string>, req: Request, token: string, length: Option<int>)
    ensures user.None? ==> Delete(w, user, req, token) == (w, Plain(StatusUnauthorized, BaseHeaders))
    ensures user.Some? && !IsSupported(req) ==> Delete(w, user, req, token) == (w, Plain(StatusNotImplemented, BaseHeaders))
    ensures user.Some? && IsSupported(req) && (req.uploadOffset.Some? || GetUploadComplete(req) != Absent) ==>
              Delete(w, user, req, token) == (w, Plain(StatusBadRequest, BaseHeaders))
    ensures user.Some? && IsSupported(req) && req.uploadOffset.None? && GetUploadComplete(req) == Absent
            && Key(user.value, token) !in w.records ==>
              Delete(w, user, req, token) == (w, Plain(StatusNotFound, BaseHeaders))
    ensures Delete(w, user, req.(uploadLength := length), token) == Delete(w, user, req, token)
  {
  }

  // ---------------------------------------------------------------------------
  // Creation

  /** Creation: 401 without a user, then 501 for another interop version; neither changes anything. */
  lemma CreateGuardOrder(w: World, user: Option<string>, req: Request, token: string)
    ensures user.None? ==> Create(w, user, req, token) == (w, Plain(StatusUnauthorized, BaseHeaders))
    ensures user.Some? && !IsSupported(req) ==> Create(w, user, req, token) == (w, Plain(StatusNotImplemented, BaseHeaders))
    ensures Create(w, user, req, token).1 == Plain(StatusUnauthorized, BaseHeaders) <==> user.None?
    ensures Create(w, user, req, token).1 == Plain(StatusNotImplemented, BaseHeaders) <==> user.Some? && !IsSupported(req)
  {
    if CreationAccepted(user, req) {
      var w1 := w.(records := w.records[Key(user.value, token) := Session(PathFor(token), DeclaredSize(req), false)]);
      UploadGuardStatuses(w1, user, req, token, true);
    }
  }

  /**
   * Creation answers 400 and inserts nothing when `Upload-Complete` is missing,
   * or when a complete upload states two different lengths. Otherwise it
   * inserts a record under the new token with the declared size, and the first
   * append skips the offset check.
   */
  lemma CreationValidation(w: World, user: Option<string>, req: Request, token: string)
    requires user.Some? ==> Key(user.value, token) !in w.records
    ensures user.Some? && IsSupported(req) && GetUploadComplete(req) == Absent ==>
              Create(w, user, req, token) == (w, Plain(StatusBadRequest, BaseHeaders))
    ensures user.Some? && IsSupported(req) && GetUploadComplete(req) == True
            && req.contentLength.Some? && req.uploadLength.Some? && req.contentLength != req.uploadLength ==>
              Create(w, user, req, token) == (w, Plain(StatusBadRequest, BaseHeaders))
    ensures !CreationAccepted(user, req) ==> Create(w, user, req, token).0 == w
    ensures CreationAccepted(user, req) ==>
              var (w', r) := Create(w, user, req, token);
              && Key(user.value, token) in w'.records
              && w'.records[Key(user.value, token)].path == PathFor(token)
              && (req.uploadLength.Some? ==> w'.records[Key(user.value, token)].size == req.uploadLength)
              && (req.uploadLength.None? && GetUploadComplete(req) == True ==>
                    w'.records[Key(user.value, token)].size ==
                    (if req.contentLength.Some? then req.contentLength
                     else Some(|Contents(w'.files, PathFor(token))|)))
              && (req.uploadLength.None? && GetUploadComplete(req) == False ==>
                    w'.records[Key(user.value, token)].size == None)
              && !r.MismatchingOffset? && !r.CompleteUpload?
  {
  }

  // ---------------------------------------------------------------------------
  // The append on a found record

  /**
   * A completed session answers the completed-upload response with its current
   * length; the body is not written and no record changes.
   */
  lemma CompletedShortCircuit(w: World, key: Key, req: Request, isCreation: bool)
    requires key in w.records && w.records[key].complete
    ensures var path := w.records[key].path;
            var (w', r) := Append(w, key, req, isCreation);
            && r == CompleteUpload(BaseHeaders.(uploadOffset := Some(|Contents(w.files, path)|)))
            && w'.records == w.records
            && (forall p :: Contents(w'.files, p) == Contents(w.files, p))
  {
  }

  /**
   * On a later append to an open session, a missing `Upload-Offset` or one
   * other than the file's length gets the mismatching-offset response with the
   * length expected and the value provided; nothing is written. Conversely that
   * response is given only in this situation.
   */
  lemma OffsetConflict(w: World, key: Key, req: Request, isCreation: bool)
    requires key in w.records
    ensures var s := w.records[key];
            var length := |Contents(w.files, s.path)|;
            var (w', r) := Append(w, key, req, isCreation);
            && (!s.complete && !isCreation && req.uploadOffset != Some(length) ==>
                  && r == MismatchingOffset(length, req.uploadOffset, BaseHeaders.(uploadOffset := Some(length)))
                  && w'.records == w.records
                  && (forall p :: Contents(w'.files, p) == Contents(w.files, p)))
            && (r.MismatchingOffset? ==>
                  !s.complete && !isCreation && r.expected == length && r.provided == req.uploadOffset
                  && r.provided != Some(r.expected))
  {
  }

  /**
   * The copy, on an open session whose offset check passes: with a declared
   * size the body goes in 16 KiB increments, and the call answers 400 when the
   * body is not empty and the declared size is below the length before the
   * call plus the first increment; that increment stays written and the record
   * is untouched. Otherwise the whole body is appended.
   */
  lemma CopyOutcome(w: World, key: Key, req: Request, isCreation: bool)
    requires key in w.records
    requires !w.records[key].complete
    requires isCreation || req.uploadOffset == Some(|Contents(w.files, w.records[key].path)|)
    ensures var s := w.records[key];
            var before := Contents(w.files, s.path);
            var first := Increment(|req.body|);
            var (w', r) := Append(w, key, req, isCreation);
            if s.size.Some? && 0 < |req.body| && s.size.value < |before| + first then
              && r == Plain(StatusBadRequest, BaseHeaders.(uploadOffset := Some(|before|)))
              && w'.records == w.records
              && Contents(w'.files, s.path) == before + req.body[..first]
            else
              && Contents(w'.files, s.path) == before + req.body
              && r.Plain?
              && r.headers.uploadOffset == Some(|before| + |req.body|)
  {
  }

  /**
   * Completion: an append that says it is complete marks the session complete,
   * fixes an unknown size to the final length, and answers 400 without
   * `Upload-Complete` when the final length differs from the declared size.
   * Otherwise the answer is 201 with the final length, `Upload-Complete` as the
   * request said it, and `Location` only on creation.
   */
  lemma CompletionOutcome(w: World, key: Key, req: Request, isCreation: bool)
    requires key in w.records
    ensures var s := w.records[key];
            var after := |Contents(w.files, s.path)|;
            var (w', r) := Finish(w, key, req, isCreation);
            && key in w'.records
            && (GetUploadComplete(req) == True ==>
                  && w'.records[key].complete
                  && w'.records[key].size == (if s.size.None? then Some(after) else s.size)
                  && (r.status == StatusBadRequest <==> s.size.Some? && s.size != Some(after)))
            && (GetUploadComplete(req) != True ==> w' == w && r.status == StatusCreated)
            && (r.status == StatusCreated ==>
                  r == Plain(StatusCreated, Headers(Some(after), Some(GetUploadComplete(req) == True), None,
                                                    if isCreation then Some(key.token) else None, false)))
            && (r.status == StatusBadRequest ==> r == Plain(StatusBadRequest, BaseHeaders.(uploadOffset := Some(after))))
  {
  }

  /** How many body bytes an append on a found record writes. */
  function Appended(w: World, key: Key, req: Request, isCreation: bool): (n: nat)
    requires key in w.records
    ensures n <= |req.body|
    ensures w.records[key].complete ==> n == 0
  {
    var s := w.records[key];
    var before := Contents(w.files, s.path);
    if s.complete || (!isCreation && req.uploadOffset != Some(|before|)) then 0
    else CopyBody(s.size, |before|, |req.body|).written
  }

  /** The files after an append: its own file holds the old bytes then `Appended` bytes of the body. */
  lemma AppendFiles(w: World, key: Key, req: Request, isCreation: bool)
    requires key in w.records
    ensures var path := w.records[key].path;
            Append(w, key, req, isCreation).0.files ==
            w.files[path := Contents(w.files, path) + req.body[..Appended(w, key, req, isCreation)]]
  {
    var s := w.records[key];
    var before := Contents(w.files, s.path);
    if s.complete || (!isCreation && req.uploadOffset != Some(|before|)) {
      assert req.body[..0] == [];
      assert before + req.body[..0] == before;
    }
  }

  /** The records after an append: only its own record may change, and only as `Evolves` allows. */
  lemma AppendRecords(w: World, key: Key, req: Request, isCreation: bool)
    requires key in w.records
    ensures var records := Append(w, key, req, isCreation).0.records;
            && records.Keys == w.records.Keys
            && Evolves(w.records[key], records[key])
            && (forall k :: k in w.records && k != key ==> records[k] == w.records[k])
  {
  }

  /**
   * An append only ever adds body bytes, in order, to the end of its own
   * session's file; every record keeps its path, a completed record and its
   * bytes stay exactly as they were, and a known size is never changed.
   */
  lemma AppendEvolves(w: World, key: Key, req: Request, isCreation: bool)
    requires key in w.records
    ensures var path := w.records[key].path;
            var w' := Append(w, key, req, isCreation).0;
            && AppendedFrom(Contents(w.files, path), Contents(w'.files, path), req.body)
            && (forall p :: p != path ==> Contents(w'.files, p) == Contents(w.files, p))
            && (w.records[key].complete ==> Contents(w'.files, path) == Contents(w.files, path))
            && w'.records.Keys == w.records.Keys
            && (forall k :: k in w.records ==> Evolves(w.records[k], w'.records[k]))
  {
    AppendFiles(w, key, req, isCreation);
    AppendRecords(w, key, req, isCreation);
  }

  /** Lifted to the whole action: records evolve, and no file ever gets shorter. */
  lemma UploadEvolves(w: World, user: Option<string>, req: Request, token: string, isCreation: bool)
    ensures var w' := Upload(w, user, req, token, isCreation).0;
            && w'.records.Keys == w.records.Keys
            && (forall k :: k in w.records ==> Evolves(w.records[k], w'.records[k]))
            && (forall p :: |Contents(w.files, p)| <= |Contents(w'.files, p)|)
  {
    if UploadChecksPass(user, req, isCreation) && Key(user.value, token) in w.records {
      var key := Key(user.value, token);
      AppendEvolves(w, key, req, isCreation);
    }
  }

  /**
   * Once a session is complete, no append changes its record or its bytes
   * again, whatever the request: re-sent completions are answered, not re-run.
   */
  lemma CompletedSessionFrozen(w: World, user: Option<string>, req: Request, token: string, isCreation: bool, k: Key)
    requires Consistent(w)
    requires k in w.records && w.records[k].complete
    ensures var w' := Upload(w, user, req, token, isCreation).0;
            && k in w'.records && w'.records[k] == w.records[k]
            && Contents(w'.files, w.records[k].path) == Contents(w.files, w.records[k].path)
  {
    UploadEvolves(w, user, req, token, isCreation);
    if UploadChecksPass(user, req, isCreation) && Key(user.value, token) in w.records {
      var key := Key(user.value, token);
      AppendEvolves(w, key, req, isCreation);
      if k != key {
        DistinctSessionsDistinctFiles(w, k, key);
      }
    }
  }

  /**
   * A 201 answer reports the file's length after the call; when it says the
   * upload is complete, the record is complete and its size is that length.
   */
  lemma CreatedReportsDurableLength(w: World, user: Option<string>, req: Request, token: string, isCreation: bool)
    requires Upload(w, user, req, token, isCreation).1.Plain?
    requires Upload(w, user, req, token, isCreation).1.status == StatusCreated
    ensures var (w', r) := Upload(w, user, req, token, isCreation);
            && user.Some? && Key(user.value, token) in w'.records
            && var s' := w'.records[Key(user.value, token)];
            && r.headers.uploadOffset == Some(|Contents(w'.files, s'.path)|)
            && r.headers.uploadComplete == Some(s'.complete)
            && (s'.complete ==> s'.size == Some(|Contents(w'.files, s'.path)|))
  {
  }

  // ---------------------------------------------------------------------------
  // What later requests see

  /** A probe after a 201 reports the same offset and completion as the 201, and the record's size. */
  lemma CheckAfterUpload(w: World, user: Option<string>, req: Request, token: string, isCreation: bool, probe: Request)
    requires Upload(w, user, req, token, isCreation).1.Plain?
    requires Upload(w, user, req, token, isCreation).1.status == StatusCreated
    requires CleanProbe(probe)
    ensures var (w', r) := Upload(w, user, req, token, isCreation);
            && user.Some?
            && Check(w', user, probe, token) ==
               Plain(StatusNoContent, Headers(r.headers.uploadOffset, r.headers.uploadComplete,
                                              w'.records[Key(user.value, token)].size, None, true))
  {
  }

  /** The same for the first append that a creation runs. */
  lemma CheckAfterCreate(w: World, user: Option<string>, req: Request, token: string, probe: Request)
    requires Create(w, user, req, token).1.Plain?
    requires Create(w, user, req, token).1.status == StatusCreated
    requires CleanProbe(probe)
    ensures var (w', r) := Create(w, user, req, token);
            && user.Some?
            && r.headers.location == Some(token)
            && Check(w', user, probe, token) ==
               Plain(StatusNoContent, Headers(r.headers.uploadOffset, r.headers.uploadComplete,
                                              w'.records[Key(user.value, token)].size, None, true))
  {
  }

  /**
   * A deletion that answers 204 removes the record and its byte file and
   * nothing else; afterwards the token is unknown to the probe and to appends.
   */
  lemma DeleteForgetsSession(w: World, user: Option<string>, req: Request, token: string,
                             later: Request, isCreation: bool)
    requires Delete(w, user, req, token).1 == Plain(StatusNoContent, BaseHeaders)
    ensures var w' := Delete(w, user, req, token).0;
            && user.Some?
            && var key := Key(user.value, token);
            && key in w.records
            && w'.records == w.records - {key}
            && w.records[key].path !in w'.files
            && (forall p :: p != w.records[key].path ==> Contents(w'.files, p) == Contents(w.files, p))
            && (user.Some? && CleanProbe(later) ==> Check(w', user, later, token) == Plain(StatusNotFound, BaseHeaders))
            && (UploadChecksPass(user, later, isCreation) ==>
                  Upload(w', user, later, token, isCreation) == (w', Plain(StatusNotFound, BaseHeaders)))
  {
  }

  // ---------------------------------------------------------------------------
  // Records and their files

  /** Every record's file is the one named after its token, and no two records share a token. */
  ghost predicate Consistent(w: World) {
    && (forall k :: k in w.records ==> w.records[k].path == PathFor(k.token))
    && (forall k1, k2 :: k1 in w.records && k2 in w.records && k1.token == k2.token ==> k1 == k2)
  }

  /** The token a creation is given has never been handed out. */
  predicate TokenUnused(w: World, token: string) {
    forall k :: k in w.records ==> k.token != token
  }

  lemma {:induction false} PathForInjective(t1: string, t2: string)
    ensures PathFor(t1) == PathFor(t2) <==> t1 == t2
  {
    if PathFor(t1) == PathFor(t2) {
      var n := |"/tmp/upload-"|;
      assert t1 == PathFor(t1)[n..];
      assert t2 == PathFor(t2)[n..];
    }
  }

  /** In a consistent state two different sessions never share a byte file. */
  lemma DistinctSessionsDistinctFiles(w: World, k1: Key, k2: Key)
    requires Consistent(w)
    requires k1 in w.records && k2 in w.records && k1 != k2
    ensures w.records[k1].path != w.records[k2].path
  {
    PathForInjective(k1.token, k2.token);
  }

  lemma UploadPreservesConsistent(w: World, user: Option<string>, req: Request, token: string, isCreation: bool)
    requires Consistent(w)
    ensures Consistent(Upload(w, user, req, token, isCreation).0)
  {
    UploadEvolves(w, user, req, token, isCreation);
  }

  lemma CreatePreservesConsistent(w: World, user: Option<string>, req: Request, token: string)
    requires Consistent(w) && TokenUnused(w, token)
    ensures Consistent(Create(w, user, req, token).0)
  {
    if CreationAccepted(user, req) {
      var w1 := w.(records := w.records[Key(user.value, token) := Session(PathFor(token), DeclaredSize(req), false)]);
      assert Consistent(w1);
      UploadPreservesConsistent(w1, user, req, token, true);
    }
  }

  lemma DeletePreservesConsistent(w: World, user: Option<string>, req: Request, token: string)
    requires Consistent(w)
    ensures Consistent(Delete(w, user, req, token).0)
  {
  }
}

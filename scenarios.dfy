/**
 * Concrete request sequences against one user's sessions, each run through
 * the functions of module Protocol: the client scenarios of the upload test
 * script, and a session whose length is only learnt when it completes.
 */
module Scenarios {
  import opened Wrappers
  import opened Protocol

  const User: Option<string> := Some("admin")
  const Abc: seq<byte> := [97, 98, 99]
  const Def: seq<byte> := [100, 101, 102]
  const Ghi: seq<byte> := [103, 104, 105]
  const Empty: World := World(map[], map[])

  /** A creation request; the client sends the body's length as `Content-Length`. */
  function Creation(complete: string, uploadLength: Option<int>, body: seq<byte>): Request {
    Request(InteropVersion, complete, None, uploadLength, Some(|body|), "", body)
  }

  /** A later append with the partial-upload media type. */
  function Appending(complete: string, offset: Option<int>, body: seq<byte>): Request {
    Request(InteropVersion, complete, offset, None, Some(|body|), PartialUploadMediaType, body)
  }

  /** A status probe, or a deletion, without any upload header. */
  const Probe: Request := Request(InteropVersion, "", None, None, None, "", [])

  /** The 204 a probe answers. */
  function Status(complete: bool, offset: nat, length: Option<int>): Response {
    Plain(StatusNoContent, Headers(Some(offset), Some(complete), length, None, true))
  }

  /** The 201 an append answers. */
  function Created(offset: nat, complete: bool, location: Option<string>): Response {
    Plain(StatusCreated, Headers(Some(offset), Some(complete), None, location, false))
  }

  /** A complete creation with its whole body, then a probe. */
  lemma CreateComplete(token: string)
    ensures var (w, r) := Create(Empty, User, Creation("1", Some(3), Abc), token);
            && r == Created(3, true, Some(token))
            && Check(w, User, Probe, token) == Status(true, 3, Some(3))
  {
  }

  /** Creations with an empty body, complete or not. */
  lemma CreateEmpty(token: string)
    ensures Create(Empty, User, Creation("1", Some(0), []), token).1 == Created(0, true, Some(token))
    ensures Create(Empty, User, Creation("0", Some(0), []), token).1 == Created(0, false, Some(token))
  {
  }

  /** Appending to a completed upload answers the completed-upload response with its length. */
  lemma AppendToCompleted(token: string)
    ensures var w := Create(Empty, User, Creation("1", Some(3), Abc), token).0;
            Upload(w, User, Appending("1", None, Def), token, false).1 ==
            CompleteUpload(BaseHeaders.(uploadOffset := Some(3)))
  {
  }

  /** An append to a token nobody created is 404. */
  lemma AppendToUnknown()
    ensures Upload(Empty, User, Appending("1", None, Abc), "test", false) == (Empty, Plain(StatusNotFound, BaseHeaders))
  {
  }

  /** A complete creation of three bytes that declares four is refused and creates nothing. */
  lemma CreateWrongLength(token: string)
    ensures Create(Empty, User, Creation("1", Some(4), Abc), token) == (Empty, Plain(StatusBadRequest, BaseHeaders))
  {
  }

  /** Three appends of three bytes to a session of nine, with a probe after each. */
  lemma AppendInThreeParts(token: string)
    ensures var (w1, r1) := Create(Empty, User, Creation("0", Some(9), Abc), token);
            var (w2, r2) := Upload(w1, User, Appending("0", Some(3), Def), token, false);
            var (w3, r3) := Upload(w2, User, Appending("1", Some(6), Ghi), token, false);
            && r1 == Created(3, false, Some(token))
            && Check(w1, User, Probe, token) == Status(false, 3, Some(9))
            && r2 == Created(6, false, None)
            && Check(w2, User, Probe, token) == Status(false, 6, Some(9))
            && r3 == Created(9, true, None)
            && Check(w3, User, Probe, token) == Status(true, 9, Some(9))
  {
  }

  /**
   * A session declaring ten bytes that completes at nine: the last append
   * answers 400 without `Upload-Complete`, reports nine, and the session stays
   * marked complete with its declared ten.
   */
  lemma CompleteShort(token: string)
    ensures var (w1, r1) := Create(Empty, User, Creation("0", Some(10), Abc), token);
            var (w2, r2) := Upload(w1, User, Appending("0", Some(3), Def), token, false);
            var (w3, r3) := Upload(w2, User, Appending("1", Some(6), Ghi), token, false);
            && r1 == Created(3, false, Some(token))
            && r2 == Created(6, false, None)
            && r3 == Plain(StatusBadRequest, BaseHeaders.(uploadOffset := Some(9)))
            && Check(w3, User, Probe, token) == Status(true, 9, Some(10))
  {
  }

  /** An append that claims offset 1 when three bytes are stored gets the mismatching-offset response. */
  lemma AppendWrongOffset(token: string)
    ensures var (w1, r1) := Create(Empty, User, Creation("0", Some(10), Abc), token);
            var (w2, r2) := Upload(w1, User, Appending("0", Some(1), Def), token, false);
            && r1 == Created(3, false, Some(token))
            && r2 == MismatchingOffset(3, Some(1), BaseHeaders.(uploadOffset := Some(3)))
            && w2 == w1
  {
  }

  /**
   * An upload whose length is unknown until it completes: the size is fixed to
   * the final length, the probe reports it, and a deletion makes the token unknown.
   */
  lemma OpenEndedThenDelete(token: string)
    ensures var (w1, r1) := Create(Empty, User, Creation("0", None, []), token);
            var (w2, r2) := Upload(w1, User, Appending("0", Some(0), Abc), token, false);
            var (w3, r3) := Upload(w2, User, Appending("1", Some(3), Def), token, false);
            var (w4, r4) := Delete(w3, User, Probe, token);
            && r1 == Created(0, false, Some(token))
            && r2 == Created(3, false, None)
            && r3 == Created(6, true, None)
            && Check(w3, User, Probe, token) == Status(true, 6, Some(6))
            && r4 == Plain(StatusNoContent, BaseHeaders)
            && w4 == Empty
            && Check(w4, User, Probe, token) == Plain(StatusNotFound, BaseHeaders)
  {
  }
}

/**
 * The controller of the files app that serves resumable uploads, with its two
 * collaborators: the mapper that stores session records and the file system
 * that holds the bytes. Each action is proved to answer and to leave the
 * records and files exactly as the matching function of module Protocol says.
 */
module Controller {
  import opened Wrappers
  import opened Protocol

  /** The table of session records, reached through `findByToken`, `insert`, `update` and `delete`. */
  class ResumableUploadMapper {
    var records: map<Key, Session>

    constructor (records: map<Key, Session>)
      ensures this.records == records
    {
      this.records := records;
    }

    method FindByToken(userId: string, token: string) returns (s: Option<Session>)
      ensures s.Some? <==> Key(userId, token) in records
      ensures s.Some? ==> s.value == records[Key(userId, token)]
    {
      if Key(userId, token) in records {
        s := Some(records[Key(userId, token)]);
      } else {
        s := None;
      }
    }

    /** Only called with a key that has no record yet: creation inserts under a fresh `uniqid` token. */
    method Insert(key: Key, s: Session)
      requires key !in records
      modifies this
      ensures records == old(records)[key := s]
    {
      records := records[key := s];
    }

    method Update(key: Key, s: Session)
      modifies this
      ensures records == old(records)[key := s]
    {
      records := records[key := s];
    }

    method Delete(key: Key)
      modifies this
      ensures records == old(records) - {key}
    {
      records := records - {key};
    }
  }

  /** The byte files, one append-only file per session path. */
  class FileStore {
    var files: map<string, seq<byte>>

    constructor (files: map<string, seq<byte>>)
      ensures this.files == files
    {
      this.files := files;
    }

    /** `fopen($path, 'ab')` then `fstat`: creates an empty file if none is there and gives its length. */
    method OpenForAppend(path: string) returns (length: nat)
      modifies this
      ensures files == old(files)[path := Contents(old(files), path)]
      ensures length == |Contents(old(files), path)|
    {
      var bytes := Contents(files, path);
      files := files[path := bytes];
      length := |bytes|;
    }

    /** `fopen($path, 'rb')` then `fstat`: no length when the file does not exist. */
    method OpenForRead(path: string) returns (length: Option<nat>)
      ensures length.Some? <==> path in files
      ensures length.Some? ==> length.value == |files[path]|
    {
      if path in files {
        length := Some(|files[path]|);
      } else {
        length := None;
      }
    }

    /** `fstat` on the open append handle. */
    method Length(path: string) returns (length: nat)
      ensures length == |Contents(files, path)|
    {
      length := |Contents(files, path)|;
    }

    /**
     * `stream_copy_to_stream($source, $file, $maxLength, $offset)`: appends to
     * the file at `path` up to `maxLength` bytes of `source` from `offset` on,
     * and gives how many it appended.
     */
    method CopyToStream(path: string, source: seq<byte>, maxLength: nat, offset: nat) returns (copied: nat)
      requires offset <= |source|
      modifies this
      ensures copied <= maxLength && offset + copied <= |source|
      ensures copied == maxLength || offset + copied == |source|
      ensures files == old(files)[path := Contents(old(files), path) + source[offset..offset + copied]]
    {
      copied := if |source| - offset < maxLength then |source| - offset else maxLength;
      files := files[path := Contents(files, path) + source[offset..offset + copied]];
    }

    method Exists(path: string) returns (b: bool)
      ensures b <==> path in files
    {
      b := path in files;
    }

    method Unlink(path: string)
      modifies this
      ensures files == old(files) - {path}
    {
      files := files - {path};
    }
  }

  /**
   * One controller serves one request: `userId` is the signed-in user (if any)
   * and `request` the request it answers. `isCreation` is set by creation
   * before it hands over to the append.
   */
  class ResumableUploadController {
    const userId: Option<string>
    const request: Request
    const mapper: ResumableUploadMapper
    const store: FileStore
    var isCreation: bool

    constructor (userId: Option<string>, request: Request, mapper: ResumableUploadMapper, store: FileStore)
      ensures this.userId == userId && this.request == request
      ensures this.mapper == mapper && this.store == store
      ensures !isCreation
    {
      this.userId := userId;
      this.request := request;
      this.mapper := mapper;
      this.store := store;
      isCreation := false;
    }

    /** The records and files as the actions see them. */
    function State(): World
      reads mapper, store
    {
      World(mapper.records, store.files)
    }

    /** Session creation: checks, inserts the record under the fresh `token`, then appends the body. */
    method CreateResource(token: string) returns (resp: Response)
      requires userId.Some? ==> Key(userId.value, token) !in mapper.records
      modifies this, mapper, store
      ensures (State(), resp) == Create(old(State()), userId, request, token)
      ensures isCreation == (old(isCreation) || CreationAccepted(userId, request))
    {
      if userId.None? {
        return Plain(StatusUnauthorized, BaseHeaders);
      }
      if !IsSupported(request) {
        return Plain(StatusNotImplemented, BaseHeaders);
      }
      var isUploadComplete := GetUploadComplete(request);
      if isUploadComplete == Absent {
        return Plain(StatusBadRequest, BaseHeaders);
      }
      var contentLength := request.contentLength;
      var uploadLength := request.uploadLength;
      if isUploadComplete.Holds() && contentLength.Some? && uploadLength.Some? && contentLength != uploadLength {
        return Plain(StatusBadRequest, BaseHeaders);
      }
      mapper.Insert(Key(userId.value, token), Session(PathFor(token), DeclaredSize(request), false));
      isCreation := true;
      resp := UploadResource(token);
    }

    /** Upload append, or the first append of a creation when `isCreation` is set. */
    method UploadResource(token: string) returns (resp: Response)
      modifies mapper, store
      ensures (State(), resp) == Upload(old(State()), userId, request, token, isCreation)
    {
      if userId.None? {
        return Plain(StatusUnauthorized, BaseHeaders);
      }
      if !IsSupported(request) {
        return Plain(StatusNotImplemented, BaseHeaders);
      }
      var isUploadComplete := GetUploadComplete(request);
      if isCreation {
        if isUploadComplete == Absent {
          return Plain(StatusBadRequest, BaseHeaders);
        }
      } else {
        if GetContentType(request) != Some(PartialUploadMediaType) {
          return Plain(StatusBadRequest, BaseHeaders);
        }
      }
      var key := Key(userId.value, token);
      var found := mapper.FindByToken(userId.value, token);
      if found.None? {
        return Plain(StatusNotFound, BaseHeaders);
      }
      var upload := found.value;
      var size := store.OpenForAppend(upload.path);
      var headers := BaseHeaders.(uploadOffset := Some(size));
      if upload.complete {
        return CompleteUpload(headers);
      }
      if !isCreation {
        var uploadOffset := request.uploadOffset;
        if uploadOffset != Some(size) {
          return MismatchingOffset(size, uploadOffset, headers);
        }
      }
      var overrun := CopyRequestBody(upload.path, upload.size, size);
      if overrun {
        assert State() == old(State()).(files := old(store.files)[upload.path := Contents(old(store.files), upload.path)
                                                  + request.body[..CopyBody(upload.size, size, |request.body|).written]]);
        return Plain(StatusBadRequest, headers);
      }
      ghost var copy := CopyBody(upload.size, size, |request.body|);
      assert copy.written == |request.body| && request.body[..copy.written] == request.body;
      ghost var written := old(State()).(files := old(store.files)[upload.path := Contents(old(store.files), upload.path) + request.body]);
      assert State() == written;
      size := store.Length(upload.path);
      headers := BaseHeaders.(uploadOffset := Some(size));
      if isUploadComplete.Holds() {
        upload := upload.(complete := true);
        if upload.size.None? {
          upload := upload.(size := Some(size));
        }
        mapper.Update(key, upload);
        if Some(size) != upload.size {
          return Plain(StatusBadRequest, headers);
        }
      }
      if isCreation {
        headers := headers.(location := Some(token));
      }
      headers := headers.(uploadComplete := Some(isUploadComplete.Holds()));
      return Plain(StatusCreated, headers);
    }

    /**
     * The copy of the request body into the file at `path`, opened in append
     * mode when it held `before` bytes. With a declared size the body goes in
     * increments of at most 16 KiB until one moves nothing, and the copy stops
     * as soon as the declared size is below `before` plus the latest increment;
     * without one the whole body goes in one call.
     */
    method CopyRequestBody(path: string, size: Option<int>, before: nat) returns (overrun: bool)
      requires path in store.files
      modifies store
      ensures overrun == CopyBody(size, before, |request.body|).overrun
      ensures store.files == old(store.files)[path := Contents(old(store.files), path)
                                                        + request.body[..CopyBody(size, before, |request.body|).written]]
    {
      var body := request.body;
      ghost var initial := Contents(store.files, path);
      if size.Some? {
        var offset := 0;
        assert initial + body[..offset] == initial;
        while true
          invariant offset <= |body|
          invariant store.files == old(store.files)[path := initial + body[..offset]]
          invariant BoundedCopy(size.value, before, |body|, offset) == BoundedCopy(size.value, before, |body|, 0)
          decreases |body| - offset
        {
          ghost var start := offset;
          var copied := store.CopyToStream(path, body, ChunkSize, offset);
          assert (initial + body[..offset]) + body[offset..offset + copied] == initial + body[..offset + copied];
          if copied == 0 {
            break;
          }
          offset := offset + copied;
          if size.value < before + copied {
            assert BoundedCopy(size.value, before, |body|, start) == CopyResult(offset, true);
            return true;
          }
        }
      } else {
        var copied := store.CopyToStream(path, body, |body|, 0);
        assert body[0..copied] == body[..|body|];
      }
      return false;
    }

    /** Offset retrieval: reports the session's state without changing anything. */
    method CheckResource(token: string) returns (resp: Response)
      ensures resp == Check(State(), userId, request, token)
    {
      if userId.None? {
        return Plain(StatusUnauthorized, BaseHeaders);
      }
      if !IsSupported(request) {
        return Plain(StatusNotImplemented, BaseHeaders);
      }
      if request.uploadOffset.Some? || GetUploadComplete(request) != Absent || request.uploadLength.Some? {
        return Plain(StatusBadRequest, BaseHeaders);
      }
      var found := mapper.FindByToken(userId.value, token);
      if found.None? {
        return Plain(StatusNotFound, BaseHeaders);
      }
      var upload := found.value;
      var size := store.OpenForRead(upload.path);
      if size.None? {
        return Plain(StatusInternalServerError, BaseHeaders);
      }
      var headers := BaseHeaders.(noStore := true);
      headers := headers.(uploadComplete := Some(upload.complete));
      headers := headers.(uploadOffset := Some(size.value));
      headers := headers.(uploadLength := upload.size);
      return Plain(StatusNoContent, headers);
    }

    /** Upload cancellation: removes the byte file if it exists, then the record. */
    method DeleteResource(token: string) returns (resp: Response)
      modifies mapper, store
      ensures (State(), resp) == Delete(old(State()), userId, request, token)
    {
      if userId.None? {
        return Plain(StatusUnauthorized, BaseHeaders);
      }
      if !IsSupported(request) {
        return Plain(StatusNotImplemented, BaseHeaders);
      }
      if request.uploadOffset.Some? || GetUploadComplete(request) != Absent {
        return Plain(StatusBadRequest, BaseHeaders);
      }
      var key := Key(userId.value, token);
      var found := mapper.FindByToken(userId.value, token);
      if found.None? {
        return Plain(StatusNotFound, BaseHeaders);
      }
      var path := found.value.path;
      var present := store.Exists(path);
      if present {
        store.Unlink(path);
      } else {
        assert store.files == old(store.files) - {path};
      }
      mapper.Delete(key);
      return Plain(StatusNoContent, BaseHeaders);
    }
  }
}

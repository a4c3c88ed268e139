/**
 * The size check of the bounded copy compares the declared size with the
 * file's length before the call plus the latest increment only, not plus
 * everything the call has appended. Every increment after the first is at
 * most as large as the first, so once the first increment fits, the rest of
 * the body is appended whatever its length. This module shows an append that
 * leaves the file longer than its declared size and still answers 201, and
 * proves that the check done against the running total rejects exactly the
 * appends that would pass the declared size.
 */
module Findings {
  import opened Wrappers
  import opened Protocol

  /**
   * An open session that declares 32 KiB and holds nothing takes a 48 KiB
   * append at offset 0: the answer is 201 and the file is 48 KiB long.
   */
  lemma OverrunAccepted(token: string, body: seq<byte>)
    requires |body| == 3 * ChunkSize
    ensures var key := Key("admin", token);
            var w := World(map[key := Session(PathFor(token), Some(2 * ChunkSize), false)], map[]);
            var req := Request(InteropVersion, "0", Some(0), None, Some(|body|), PartialUploadMediaType, body);
            var (w', r) := Upload(w, Some("admin"), req, token, false);
            && r == Plain(StatusCreated, Headers(Some(3 * ChunkSize), Some(false), None, None, false))
            && |Contents(w'.files, PathFor(token))| > w'.records[key].size.value
  {
    assert body[..|body|] == body;
  }

  /**
   * The copy loop with the size check done against everything appended so far
   * (`before + offset + copied`): it stops at the first increment that takes
   * the file past the declared size, and that happens exactly when the whole
   * body would.
   */
  function CumulativeCopy(size: int, before: nat, bodyLength: nat, offset: nat): (r: CopyResult)
    requires offset <= bodyLength
    ensures offset <= r.written <= bodyLength
    ensures r.overrun <==> offset < bodyLength && size < before + bodyLength
    ensures !r.overrun ==> r.written == bodyLength
    ensures r.overrun ==> size < before + r.written
    decreases bodyLength - offset
  {
    var copied := Increment(bodyLength - offset);
    if copied == 0 then CopyResult(offset, false)
    else if size < before + offset + copied then CopyResult(offset + copied, true)
    else CumulativeCopy(size, before, bodyLength, offset + copied)
  }

  /**
   * Where the check as written lets a body through, the running-total check
   * stops it: on the append of `OverrunAccepted` it rejects after the third
   * increment, once 48 KiB would be stored, while the check as written accepts
   * all three.
   */
  lemma CorrectedRejectsOverrun()
    ensures !BoundedCopy(2 * ChunkSize, 0, 3 * ChunkSize, 0).overrun
    ensures CumulativeCopy(2 * ChunkSize, 0, 3 * ChunkSize, 0) == CopyResult(3 * ChunkSize, true)
  {
    assert CumulativeCopy(2 * ChunkSize, 0, 3 * ChunkSize, 0) == CumulativeCopy(2 * ChunkSize, 0, 3 * ChunkSize, ChunkSize);
    assert CumulativeCopy(2 * ChunkSize, 0, 3 * ChunkSize, ChunkSize) == CumulativeCopy(2 * ChunkSize, 0, 3 * ChunkSize, 2 * ChunkSize);
  }
}

/** The sending half of a file transfer: the guest agent's `copy_out`, and the two halves
    together. */
module GuestFile {
  import opened Wrappers
  import opened Bytes
  import opened StagingName
  import opened HostSide = CopyOut

  /** What the guest's `stat` reports. The length is a u64. */
  datatype Meta = Meta(isFile: bool, len: nat, mode: bv32)

  /** One `read` into the 32 KiB buffer. */
  datatype Read =
    | Got(bytes: Bytes)
    | Interrupted
    | Broken(message: Bytes)

  predicate FitsBuffer(gets: seq<Read>) {
    forall i :: 0 <= i < |gets| && gets[i].Got? ==> 0 < |gets[i].bytes| <= CHUNK_LEN
  }

  /** The bytes the first `k` reads returned. The read after the last is the end of file. */
  function FileBytes(gets: seq<Read>, k: nat): Bytes
    requires k <= |gets|
  {
    if k == 0 then []
    else FileBytes(gets, k - 1) + (if gets[k - 1].Got? then gets[k - 1].bytes else [])
  }

  predicate NeverBroken(gets: seq<Read>) {
    forall i :: 0 <= i < |gets| ==> !gets[i].Broken?
  }

  /** `open_for_copy_out`, every failure folded into one refusal. */
  function OpenForCopyOut(meta: Option<Meta>, opens: bool, maxBytes: nat): bool {
    meta.Some? && meta.value.isFile && meta.value.len <= maxBytes && opens
  }

  const REFUSAL: Bytes := []

  /** Chunks that carry exactly `bytes`. */
  ghost predicate Chunks(frames: seq<Body>, bytes: Bytes) {
    && (forall i :: 0 <= i < |frames| ==> GoodChunk(frames[i]))
    && Received(frames, |frames|) == bytes
  }

  lemma {:induction false} ReceivedPrefix(frames: seq<Body>, more: seq<Body>, k: nat)
    requires k <= |frames|
    ensures Received(frames + more, k) == Received(frames, k)
  {
    if k > 0 {
      ReceivedPrefix(frames, more, k - 1);
      assert (frames + more)[k - 1] == frames[k - 1];
    }
  }

  lemma ChunksGrow(frames: seq<Body>, bytes: Bytes, more: Bytes)
    requires Chunks(frames, bytes) && |more| <= CHUNK_LEN
    ensures Chunks(frames + [FileChunk(Some(more))], bytes + more)
  {
    ReceivedPrefix(frames, [FileChunk(Some(more))], |frames|);
  }

  /** `copy_out` in the guest. The connection carries the first `deliverable` frames and then is
      dead. `chunks` are the chunk frames sent, and `k` the reads they carry. */
  method SendFile(meta: Option<Meta>, opens: bool, gets: seq<Read>, maxBytes: nat, deliverable: nat)
    returns (frames: seq<Body>, ghost chunks: seq<Body>, ghost k: nat)
    requires FitsBuffer(gets)
    ensures |frames| <= deliverable && |frames| <= |gets| + 1
    ensures !OpenForCopyOut(meta, opens, maxBytes) && 0 < deliverable ==> frames == [Error(REFUSAL)]
    // What the first reads returned, in chunks; then nothing more over a dead connection, the error
    // of the read that failed, or the one terminal frame at the end of the file.
    ensures OpenForCopyOut(meta, opens, maxBytes) ==>
              && k <= |gets| && NeverBroken(gets[..k]) && Chunks(chunks, FileBytes(gets, k))
              && (if |chunks| == deliverable then frames == chunks
                  else if k < |gets| then gets[k].Broken? && frames == chunks + [Error(gets[k].message)]
                  else frames == chunks + [FileDone(meta.value.len, meta.value.mode)])
    ensures OpenForCopyOut(meta, opens, maxBytes) && NeverBroken(gets) && |frames| < deliverable ==>
              && Chunks(chunks, FileBytes(gets, |gets|))
              && frames == chunks + [FileDone(meta.value.len, meta.value.mode)]
    ensures OpenForCopyOut(meta, opens, maxBytes) && !NeverBroken(gets) ==>
              forall i :: 0 <= i < |frames| ==> !frames[i].FileDone?
  {
    chunks, k := [], 0;
    var refused := meta.None?;
    if meta.Some? {
      refused := !meta.value.isFile || meta.value.len > maxBytes || !opens;
    }
    if refused {
      return if 0 < deliverable then [Error(REFUSAL)] else [], [], 0;
    }
    frames := [];
    for i := 0 to |gets|
      invariant |frames| <= deliverable && |frames| <= i == k && frames == chunks
      invariant Chunks(frames, FileBytes(gets, i))
      invariant forall j :: 0 <= j < i ==> !gets[j].Broken?
    {
      match gets[i] {
        case Got(bytes) =>
          if |frames| == deliverable {
            return;
          }
          ChunksGrow(frames, FileBytes(gets, i), bytes);
          frames := frames + [FileChunk(Some(bytes))];
          chunks := frames;
        case Interrupted =>
        case Broken(message) =>
          if |frames| < deliverable {
            frames := frames + [Error(message)];
          }
          return;
      }
      k := i + 1;
    }
    if |frames| < deliverable {
      frames := frames + [FileDone(meta.value.len, meta.value.mode)];
    }
  }

  lemma CompleteOnlyAtTheEnd(chunks: seq<Body>, last: Body, maxBytes: nat, k: nat)
    requires forall i :: 0 <= i < |chunks| ==> GoodChunk(chunks[i])
    requires CompleteAt(chunks + [last], maxBytes, k)
    ensures k == |chunks|
  {
    assert k < |chunks| ==> GoodChunk((chunks + [last])[k]);
  }

  lemma CompleteAtTheEnd(chunks: seq<Body>, bytes: Bytes, len: nat, mode: bv32, maxBytes: nat)
    requires Chunks(chunks, bytes) && len <= maxBytes
    ensures Received(chunks + [FileDone(len, mode)], |chunks|) == bytes
    ensures CompleteAt(chunks + [FileDone(len, mode)], maxBytes, |chunks|) <==> len == Min(|bytes|, U64_MAX)
  {
    var frames := chunks + [FileDone(len, mode)];
    ReceivedPrefix(chunks, [FileDone(len, mode)], |chunks|);
    assert frames[|chunks|] == FileDone(len, mode);
    forall i | 0 <= i < |chunks|
      ensures GoodChunk(frames[i])
    {
      assert frames[i] == chunks[i];
    }
  }

  /** What a healthy guest sends is a complete transfer exactly when the file still had the
      length `stat` reported (as a u64 counts it), and that is what the host then holds. */
  lemma CompleteIffLengthKept(chunks: seq<Body>, bytes: Bytes, len: nat, mode: bv32, maxBytes: nat)
    requires Chunks(chunks, bytes) && len <= maxBytes
    ensures (exists k :: CompleteAt(chunks + [FileDone(len, mode)], maxBytes, k)) <==> len == Min(|bytes|, U64_MAX)
    ensures forall k :: CompleteAt(chunks + [FileDone(len, mode)], maxBytes, k) ==>
              k == |chunks| && Received(chunks + [FileDone(len, mode)], k) == bytes
  {
    CompleteAtTheEnd(chunks, bytes, len, mode, maxBytes);
    forall k | CompleteAt(chunks + [FileDone(len, mode)], maxBytes, k)
      ensures k == |chunks|
    {
      CompleteOnlyAtTheEnd(chunks, FileDone(len, mode), maxBytes, k);
    }
  }

  /** Both halves: the frames the guest sends are the frames the host takes. With an unchanged
      file within the limit and no failure on either side, the copy succeeds and is the
      identity. */
  method Transfer(meta: Meta, gets: seq<Read>, dir: HostDir, dest: Name, pid: nat, n: nat, maxBytes: nat, fates: Fates)
    returns (r: Result<CopyOutcome, CopyError>)
    requires FitsBuffer(gets) && NeverBroken(gets) && pid <= U64_MAX && n <= U64_MAX
    requires meta.isFile && meta.len <= U64_MAX && Faultless(fates)
    requires dest in dir.files ==> dir.files[dest].Regular?
    requires StagingFor(dest, Suffix(pid, n)) !in dir.files
    modifies dir
    ensures meta.len == |FileBytes(gets, |gets|)| && meta.len <= maxBytes ==>
              && r == Ok(CopyOutcome(meta.len, meta.mode))
              && dir.files == old(dir.files)[dest := Regular(FileBytes(gets, |gets|), HostModeFor(meta.mode))]
    ensures meta.len != Min(|FileBytes(gets, |gets|)|, U64_MAX) || meta.len > maxBytes ==>
              r.Err?
  {
    ghost var sent: nat;
    var frames;
    ghost var chunks;
    frames, chunks, sent := SendFile(Some(meta), true, gets, maxBytes, |gets| + 2);
    if meta.len <= maxBytes {
      CompleteIffLengthKept(chunks, FileBytes(gets, |gets|), meta.len, meta.mode, maxBytes);
    }
    ghost var k, renamed;
    r, k, renamed := CopyOut(dir, dest, pid, n, maxBytes, frames, fates);
  }
}

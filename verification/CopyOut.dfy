/** `copy_out`: a guest file streamed to the host and published in one step. The host's
    destination directory is a map from names to nodes that remembers every state it was in. */
module CopyOut {
  import opened Wrappers
  import opened Bytes
  import opened StagingName

  type Name = Bytes

  datatype Node =
    | Regular(content: Bytes, mode: bv32)
    | Special(sent: Bytes)   // a device, or a FIFO with a reader
    | Symlink
    | Directory

  type Files = map<Name, Node>

  function Entry(files: Files, name: Name): Option<Node> {
    if name in files then Some(files[name]) else None
  }

  /** How one awaited operation ends. A cancelled call never resumes; the operation it was
      waiting for may or may not still take effect. */
  datatype Fate = Proceeds | Fails | CancelledBefore | CancelledAfter

  function FateAt(fates: seq<Fate>, i: nat): Fate {
    if i < |fates| then fates[i] else Proceeds
  }

  predicate TakesEffect(fate: Fate) {
    fate.Proceeds? || fate.CancelledAfter?
  }

  // ---------------------------------------------------------------- published mode

  const STAGING_MODE: bv32 := 0x180   // 0o600

  /** `host_mode_for`. */
  function HostModeFor(guestMode: bv32): bv32 {
    ((guestMode & 0x1FF) & !0x12) | 0x180
  }

  /** No set-id or sticky bit and no group or other write; always owner read and write. */
  predicate SafeMode(mode: bv32) {
    mode & 0xFFFF_FE12 == 0 && mode & 0x180 == 0x180
  }

  /** Whatever mode the guest claims, the published one is safe, and the executable bits (and
      the other read bits) travel unchanged. */
  lemma HostModeIsSafe(guestMode: bv32)
    ensures SafeMode(HostModeFor(guestMode))
    ensures HostModeFor(guestMode) == (guestMode & 0x6D) | 0x180
    ensures HostModeFor(guestMode) & 0xFFFF_FE12 == 0
    ensures HostModeFor(guestMode) & 0x49 == guestMode & 0x49
    ensures HostModeFor(guestMode) & 0x24 == guestMode & 0x24
  {
    assert HostModeFor(guestMode) == (guestMode & 0x6D) | 0x180;
  }

  /** Until then nobody but the owner can open it. */
  lemma StagingModeIsPrivate()
    ensures STAGING_MODE & 0xFFFF_FE7F == 0 && SafeMode(STAGING_MODE)
  {
  }

  // ------------------------------------------------------------------ the stream

  /** A response body. A payload of `None` is base64 that does not decode. */
  datatype Body =
    | FileChunk(payload: Option<Bytes>)
    | FileDone(totalBytes: nat, mode: bv32)
    | Error(message: Bytes)
    | Other

  predicate GoodChunk(b: Body) {
    b.FileChunk? && b.payload.Some? && |b.payload.value| <= CHUNK_LEN
  }

  function Payload(b: Body): Bytes {
    if b.FileChunk? && b.payload.Some? then b.payload.value else []
  }

  /** The bytes of the first `k` frames. */
  function Received(frames: seq<Body>, k: nat): Bytes
    requires k <= |frames|
  {
    if k == 0 then [] else Received(frames, k - 1) + Payload(frames[k - 1])
  }

  /** The first `k` frames are chunks that add up to a transfer the next frame declares
      complete. Lengths are the u64 counters of both ends. */
  ghost predicate CompleteAt(frames: seq<Body>, maxBytes: nat, k: nat) {
    && k < |frames|
    && (forall i :: 0 <= i < k ==> GoodChunk(frames[i]))
    && frames[k].FileDone?
    && frames[k].totalBytes == Min(|Received(frames, k)|, U64_MAX)
    && Min(|Received(frames, k)|, U64_MAX) <= maxBytes
  }

  datatype CopyOutcome = CopyOutcome(totalBytes: nat, mode: bv32)

  datatype CopyError =
    | RequestFailed | OpenFailed | StageFailed | StreamFailed | ConnectionClosed
    | BadChunk | OversizeChunk(len: nat) | OverCeiling | WriteFailed | CountMismatch
    | FlushFailed | Guest(message: Bytes) | Unexpected | PublishFailed | Cancelled

  datatype Fates = Fates(
    request: Fate, openDest: Fate, openStage: Fate,
    receives: seq<Fate>, writes: seq<Fate>,
    flush: Fate, chmod: Fate, rename: Fate, unlink: Fate)

  // --------------------------------------------------------------- the directory

  class HostDir {
    var files: Files
    ghost var trace: seq<Files>

    /** `open` with O_CREAT | O_EXCL: never adopts what is already there. */
    method CreateNew(name: Name, fate: Fate) returns (created: bool)
      modifies this
      ensures created == (TakesEffect(fate) && name !in old(files))
      ensures files == if created then old(files)[name := Regular([], STAGING_MODE)] else old(files)
      ensures trace == old(trace) + [files]
    {
      created := TakesEffect(fate) && name !in files;
      if created {
        files := files[name := Regular([], STAGING_MODE)];
      }
      trace := trace + [files];
    }

    method Append(name: Name, bytes: Bytes, fate: Fate)
      requires name in files && (files[name].Regular? || files[name].Special?)
      modifies this
      ensures files == if TakesEffect(fate) then old(files)[name := Appended(old(files)[name], bytes)] else old(files)
      ensures trace == old(trace) + [files]
    {
      if TakesEffect(fate) {
        files := files[name := Appended(files[name], bytes)];
      }
      trace := trace + [files];
    }

    method SetMode(name: Name, mode: bv32, fate: Fate)
      requires name in files && files[name].Regular?
      modifies this
      ensures files == if TakesEffect(fate) then old(files)[name := old(files)[name].(mode := mode)] else old(files)
      ensures trace == old(trace) + [files]
    {
      if TakesEffect(fate) {
        files := files[name := files[name].(mode := mode)];
      }
      trace := trace + [files];
    }

    method Rename(from: Name, to: Name, fate: Fate)
      requires from in files
      modifies this
      ensures files == if TakesEffect(fate) then Renamed(old(files), from, to) else old(files)
      ensures trace == old(trace) + [files]
    {
      if TakesEffect(fate) {
        files := Renamed(files, from, to);
      }
      trace := trace + [files];
    }

    /** `unlink`, its error ignored. */
    method Remove(name: Name, fate: Fate)
      modifies this
      ensures files == if fate.Fails? then old(files) else old(files) - {name}
      ensures trace == old(trace) + [files]
    {
      if !fate.Fails? {
        files := files - {name};
      }
      trace := trace + [files];
    }
  }

  function Appended(node: Node, bytes: Bytes): Node
    requires node.Regular? || node.Special?
  {
    match node
    case Regular(content, mode) => Regular(content + bytes, mode)
    case Special(sent) => Special(sent + bytes)
  }

  /** `rename(2)`: replaces the target; renaming a name to itself does nothing. */
  function Renamed(files: Files, from: Name, to: Name): Files
    requires from in files
  {
    if from == to then files else (files - {from})[to := files[from]]
  }

  ghost predicate SameExcept(a: Files, b: Files, name: Name) {
    forall x :: x != name ==> Entry(a, x) == Entry(b, x)
  }

  predicate Faultless(fates: Fates) {
    && fates.request.Proceeds? && fates.openDest.Proceeds? && fates.openStage.Proceeds?
    && fates.flush.Proceeds? && fates.chmod.Proceeds? && fates.rename.Proceeds?
    && (forall i :: 0 <= i < |fates.receives| ==> fates.receives[i].Proceeds?)
    && (forall i :: 0 <= i < |fates.writes| ==> fates.writes[i].Proceeds?)
  }

  /** A frame before the end of a complete transfer is within the ceiling. */
  lemma CompleteAfter(frames: seq<Body>, maxBytes: nat, n: nat, i: nat)
    requires CompleteAt(frames, maxBytes, n) && i < n
    ensures GoodChunk(frames[i]) && SatAdd(Min(|Received(frames, i)|, U64_MAX), |Payload(frames[i])|) <= maxBytes
  {
    ReceivedBefore(frames, i, n);
    SatAddWithin(|Received(frames, i)|, |Payload(frames[i])|, |Received(frames, n)|, maxBytes);
  }

  /** A transfer that completes only later still takes the frame at `i`. */
  lemma CompleteBeyond(frames: seq<Body>, maxBytes: nat, i: nat)
    ensures forall n :: CompleteAt(frames, maxBytes, n) && i < n ==>
              GoodChunk(frames[i]) && SatAdd(Min(|Received(frames, i)|, U64_MAX), |Payload(frames[i])|) <= maxBytes
  {
    forall n | CompleteAt(frames, maxBytes, n) && i < n
      ensures GoodChunk(frames[i]) && SatAdd(Min(|Received(frames, i)|, U64_MAX), |Payload(frames[i])|) <= maxBytes
    {
      CompleteAfter(frames, maxBytes, n, i);
    }
  }

  lemma {:induction false} ReceivedBefore(frames: seq<Body>, i: nat, n: nat)
    requires i < n <= |frames|
    ensures |Received(frames, i)| + |Payload(frames[i])| <= |Received(frames, n)|
  {
    if i + 1 < n {
      ReceivedBefore(frames, i, n - 1);
    }
  }

  lemma SatAddWithin(now: nat, more: nat, all: nat, limit: nat)
    requires now + more <= all && Min(all, U64_MAX) <= limit
    ensures SatAdd(Min(now, U64_MAX), more) <= limit
  {
  }

  /** The node holds what it held and then the payloads of the first `j` frames, all of them good
      chunks. */
  predicate PumpedTo(node: Node, base: Node, frames: seq<Body>, j: nat) {
    && (base.Regular? || base.Special?) && j <= |frames|
    && (forall i :: 0 <= i < j ==> GoodChunk(frames[i])) && node == Appended(base, Received(frames, j))
  }

  /** Nothing but `name` differs from `before`, and it has been pumped some way. */
  ghost predicate Pumping(files: Files, before: Files, name: Name, frames: seq<Body>) {
    && name in before && name in files && SameExcept(files, before, name)
    && exists j :: PumpedTo(files[name], before[name], frames, j)
  }

  ghost predicate PumpingAll(trace: seq<Files>, from: nat, before: Files, name: Name, frames: seq<Body>) {
    forall i :: from <= i < |trace| ==> Pumping(trace[i], before, name, frames)
  }

  /** Every one of the first `n` frames arrives, is a chunk within the ceiling, and is written. */
  ghost predicate TakesAll(frames: seq<Body>, maxBytes: nat, fates: Fates, n: nat) {
    n <= |frames| && forall i :: 0 <= i < n ==> TakesOne(frames, maxBytes, fates, i)
  }

  ghost predicate TakesOne(frames: seq<Body>, maxBytes: nat, fates: Fates, i: nat)
    requires i < |frames|
  {
    && FateAt(fates.receives, i).Proceeds? && GoodChunk(frames[i])
    && Min(|Received(frames, i + 1)|, U64_MAX) <= maxBytes && FateAt(fates.writes, i).Proceeds?
  }

  /** What makes a step fail, and what it is reported as. A cancelled call reports nothing else. */
  predicate Stops(fate: Fate, failure: CopyError, error: CopyError) {
    if fate.Fails? then error == failure else !fate.Proceeds? && error == Cancelled
  }

  /** The stream ends with that error at the frame after the first `n`. */
  ghost predicate FailsAt(frames: seq<Body>, maxBytes: nat, fates: Fates, n: nat, error: CopyError) {
    TakesAll(frames, maxBytes, fates, n) && FailsNext(frames, maxBytes, fates, n, error)
  }

  ghost predicate FailsNext(frames: seq<Body>, maxBytes: nat, fates: Fates, n: nat, error: CopyError)
    requires n <= |frames|
  {
    if !FateAt(fates.receives, n).Proceeds? then Stops(FateAt(fates.receives, n), StreamFailed, error)
    else if n == |frames| then error == ConnectionClosed
    else
      match frames[n]
      case FileChunk(None) => error == BadChunk
      case FileChunk(Some(bytes)) =>
        if |bytes| > CHUNK_LEN then error == OversizeChunk(|bytes|)
        else if Min(|Received(frames, n + 1)|, U64_MAX) > maxBytes then error == OverCeiling
        else Stops(FateAt(fates.writes, n), WriteFailed, error)
      case FileDone(totalBytes, _) =>
        if totalBytes != Min(|Received(frames, n)|, U64_MAX) then error == CountMismatch
        else Stops(fates.flush, FlushFailed, error)
      case Error(message) => error == Guest(message)
      case Other => error == Unexpected
  }

  /** The stream ends well after `n` frames: nothing on the way is at fault, the flush included. */
  ghost predicate EndsWellAt(frames: seq<Body>, maxBytes: nat, fates: Fates, n: nat) {
    TakesAll(frames, maxBytes, fates, n) && FateAt(fates.receives, n).Proceeds? && fates.flush.Proceeds?
  }

  /** One turn of the stream loop: at most one write. */
  method TakeFrame(dir: HostDir, target: Name, frames: seq<Body>, k: nat, written: nat, maxBytes: nat, fates: Fates)
    returns (stop: Option<Result<CopyOutcome, CopyError>>, total: nat)
    requires k <= |frames| && target in dir.files && (dir.files[target].Regular? || dir.files[target].Special?)
    modifies dir
    ensures dir.trace == old(dir.trace) + [dir.files] || (dir.trace == old(dir.trace) && dir.files == old(dir.files))
    ensures || dir.files == old(dir.files)
            || (k < |frames| && GoodChunk(frames[k])
                && dir.files == old(dir.files)[target := Appended(old(dir.files)[target], Payload(frames[k]))])
    ensures stop.None? ==>
              && k < |frames| && GoodChunk(frames[k])
              && total == SatAdd(written, |Payload(frames[k])|) && total <= maxBytes
              && dir.files[target] == Appended(old(dir.files)[target], Payload(frames[k]))
    ensures stop.None? ==> FateAt(fates.receives, k).Proceeds? && FateAt(fates.writes, k).Proceeds?
    ensures stop.Some? && stop.value.Err? && written == Min(|Received(frames, k)|, U64_MAX) ==>
              FailsNext(frames, maxBytes, fates, k, stop.value.error)
    ensures stop.Some? && stop.value.Ok? ==> FateAt(fates.receives, k).Proceeds? && fates.flush.Proceeds?
    ensures stop.Some? && stop.value.Ok? ==>
              && k < |frames| && frames[k].FileDone? && frames[k].totalBytes == written
              && stop.value.value == CopyOutcome(written, frames[k].mode)
              && dir.files == old(dir.files)
    ensures Faultless(fates) && k < |frames| && frames[k].FileDone? && frames[k].totalBytes == written ==>
              stop.Some? && stop.value.Ok?
    ensures Faultless(fates) && k < |frames| && GoodChunk(frames[k]) ==>
              (SatAdd(written, |Payload(frames[k])|) <= maxBytes ==> stop.None?)
  {
    total := written;
    match FateAt(fates.receives, k) {
      case Proceeds =>
      case Fails => return Some(Err(StreamFailed)), total;
      case _ => return Some(Err(Cancelled)), total;
    }
    if k == |frames| {
      return Some(Err(ConnectionClosed)), total;
    }
    match frames[k] {
      case FileChunk(None) =>
        stop := Some(Err(BadChunk));
      case FileChunk(Some(bytes)) =>
        if |bytes| > CHUNK_LEN {
          return Some(Err(OversizeChunk(|bytes|))), total;
        }
        if SatAdd(written, |bytes|) > maxBytes {
          return Some(Err(OverCeiling)), total;
        }
        var fate := FateAt(fates.writes, k);
        dir.Append(target, bytes, fate);
        match fate {
          case Proceeds => stop, total := None, SatAdd(written, |bytes|);
          case Fails => stop := Some(Err(WriteFailed));
          case _ => stop := Some(Err(Cancelled));
        }
      case FileDone(totalBytes, mode) =>
        if written != totalBytes {
          return Some(Err(CountMismatch)), total;
        }
        match fates.flush {
          case Proceeds => stop := Some(Ok(CopyOutcome(totalBytes, mode)));
          case Fails => stop := Some(Err(FlushFailed));
          case _ => stop := Some(Err(Cancelled));
        }
      case Error(message) =>
        stop := Some(Err(Guest(message)));
      case Other =>
        stop := Some(Err(Unexpected));
    }
  }

  lemma PumpStart(files: Files, name: Name, frames: seq<Body>)
    requires name in files && (files[name].Regular? || files[name].Special?)
    ensures PumpedTo(files[name], files[name], frames, 0)
  {
    match files[name] {
      case Regular(content, _) => assert content + [] == content;
      case Special(sent) => assert sent + [] == sent;
    }
  }

  lemma PumpOne(node: Node, base: Node, frames: seq<Body>, j: nat)
    requires PumpedTo(node, base, frames, j) && j < |frames| && GoodChunk(frames[j])
    ensures PumpedTo(Appended(node, Payload(frames[j])), base, frames, j + 1)
  {
    var more := Payload(frames[j]);
    match base {
      case Regular(content, _) => assert content + Received(frames, j) + more == content + (Received(frames, j) + more);
      case Special(sent) => assert sent + Received(frames, j) + more == sent + (Received(frames, j) + more);
    }
  }

  /** A turn that wrote at most the next chunk. */
  lemma TurnPumps(before: Files, files: Files, after: Files, name: Name, frames: seq<Body>, j: nat)
    requires name in before && name in files && SameExcept(files, before, name) && PumpedTo(files[name], before[name], frames, j)
    requires after == files || (j < |frames| && GoodChunk(frames[j]) && after == files[name := Appended(files[name], Payload(frames[j]))])
    ensures Pumping(after, before, name, frames)
    ensures name in after && SameExcept(after, before, name)
    ensures j < |frames| && GoodChunk(frames[j]) && after[name] == Appended(files[name], Payload(frames[j])) ==>
              PumpedTo(after[name], before[name], frames, j + 1)
  {
    if j < |frames| && GoodChunk(frames[j]) {
      PumpOne(files[name], before[name], frames, j);
    }
    assert PumpedTo(after[name], before[name], frames, j) || PumpedTo(after[name], before[name], frames, j + 1);
  }

  /** The stream loop of `copy_out`, into the open descriptor behind `target`. */
  method PumpFrames(dir: HostDir, target: Name, frames: seq<Body>, maxBytes: nat, fates: Fates)
    returns (r: Result<CopyOutcome, CopyError>, ghost k: nat)
    requires target in dir.files && (dir.files[target].Regular? || dir.files[target].Special?)
    modifies dir
    ensures old(dir.trace) <= dir.trace && PumpingAll(dir.trace, |old(dir.trace)|, old(dir.files), target, frames)
    ensures Pumping(dir.files, old(dir.files), target, frames)
    ensures r.Ok? ==>
              && CompleteAt(frames, maxBytes, k)
              && r.value == CopyOutcome(frames[k].totalBytes, frames[k].mode)
              && dir.files[target] == Appended(old(dir.files)[target], Received(frames, k))
    ensures if r.Ok? then EndsWellAt(frames, maxBytes, fates, k) else FailsAt(frames, maxBytes, fates, k, r.error)
    ensures forall n :: CompleteAt(frames, maxBytes, n) && Faultless(fates) ==> r.Ok? && k == n
  {
    var i, written := 0, 0;
    k := 0;
    r := Err(Unexpected);
    PumpStart(dir.files, target, frames);
    while true
      invariant k == i <= |frames| && forall j :: 0 <= j < i ==> GoodChunk(frames[j])
      invariant written == Min(|Received(frames, i)|, U64_MAX) && (written == 0 || written <= maxBytes)
      invariant old(dir.trace) <= dir.trace && PumpingAll(dir.trace, |old(dir.trace)|, old(dir.files), target, frames)
      invariant target in dir.files && SameExcept(dir.files, old(dir.files), target)
      invariant PumpedTo(dir.files[target], old(dir.files)[target], frames, i)
      invariant TakesAll(frames, maxBytes, fates, i)
      invariant forall n :: CompleteAt(frames, maxBytes, n) ==> i <= n
      decreases |frames| - i
    {
      CompleteBeyond(frames, maxBytes, i);
      ghost var files := dir.files;
      var stop, total := TakeFrame(dir, target, frames, i, written, maxBytes, fates);
      TurnPumps(old(dir.files), files, dir.files, target, frames, i);
      if stop.Some? {
        return stop.value, k;
      }
      i, written := i + 1, total;
      k := i;
    }
  }

  // ------------------------------------------------------------ publishing a copy

  /** `dest` holds one complete transfer, under a safe mode. */
  ghost predicate Published(files: Files, dest: Name, frames: seq<Body>, maxBytes: nat) {
    && dest in files && files[dest].Regular? && SafeMode(files[dest].mode)
    && exists k :: CompleteAt(frames, maxBytes, k) && files[dest].content == Received(frames, k)
  }

  /** What a reader of the directory may see at any moment of the call: nothing changed but the
      staging file, and a destination that is not a device or FIFO in its old state or holding
      one complete transfer. */
  ghost predicate Moment(files: Files, before: Files, dest: Name, temp: Name, frames: seq<Body>, maxBytes: nat) {
    && (forall x :: x != dest && x != temp ==> Entry(files, x) == Entry(before, x))
    && (IsSpecial(before, dest) || Entry(files, dest) == Entry(before, dest) || Published(files, dest, frames, maxBytes))
  }

  ghost predicate Moments(trace: seq<Files>, from: nat, before: Files, dest: Name, temp: Name, frames: seq<Body>, maxBytes: nat) {
    forall i :: from <= i < |trace| ==> Moment(trace[i], before, dest, temp, frames, maxBytes)
  }

  predicate IsSpecial(files: Files, name: Name) {
    name in files && files[name].Special?
  }

  /** The destination is a symbolic link or a directory. */
  predicate IsRefused(files: Files, name: Name) {
    name in files && (files[name].Symlink? || files[name].Directory?)
  }

  /** The copy could be staged: the destination is a regular file or absent, and nothing stands
      at the staging name. */
  predicate Stageable(files: Files, dest: Name, temp: Name) {
    (dest in files ==> files[dest].Regular?) && temp !in files
  }

  /** The staging file comes into being. */
  predicate StagingMade(files: Files, dest: Name, temp: Name, fates: Fates) {
    fates.request.Proceeds? && fates.openDest.Proceeds? && TakesEffect(fates.openStage) && Stageable(files, dest, temp)
  }

  /** The directory with a fresh staging file. */
  function WithStaging(files: Files, temp: Name): Files {
    files[temp := Regular([], STAGING_MODE)]
  }

  /** Why neither arm is taken. */
  predicate OpenFailsFor(files: Files, dest: Name, temp: Name, fates: Fates, error: CopyError) {
    if !fates.openDest.Proceeds? then Stops(fates.openDest, OpenFailed, error)
    else if IsRefused(files, dest) then error == OpenFailed
    else !IsSpecial(files, dest) && (if fates.openStage.Proceeds? then temp in files && error == StageFailed
                                     else Stops(fates.openStage, StageFailed, error))
  }

  /** `open_copy_out_dest`: true for the staged arm, false for writing straight through. */
  method OpenDest(dir: HostDir, dest: Name, temp: Name, fates: Fates) returns (r: Result<bool, CopyError>)
    requires fates.request.Proceeds?
    modifies dir
    ensures old(dir.trace) <= dir.trace
    ensures StagingMade(old(dir.files), dest, temp, fates) ==>
              && dir.files == WithStaging(old(dir.files), temp) && dir.trace == old(dir.trace) + [dir.files]
              && r == if fates.openStage.Proceeds? then Ok(true) else Err(Cancelled)
    ensures !StagingMade(old(dir.files), dest, temp, fates) ==>
              && dir.files == old(dir.files) && r != Ok(true)
              && forall i :: |old(dir.trace)| <= i < |dir.trace| ==> dir.trace[i] == dir.files
    // A device or FIFO is written straight through; a link or a directory is refused.
    ensures r == Ok(false) <==> fates.openDest.Proceeds? && IsSpecial(old(dir.files), dest)
    ensures fates.openDest.Proceeds? && IsRefused(old(dir.files), dest) ==> r == Err(OpenFailed)
    ensures r.Err? ==> OpenFailsFor(old(dir.files), dest, temp, fates, r.error)
  {
    match fates.openDest {
      case Proceeds =>
      case Fails => return Err(OpenFailed);
      case _ => return Err(Cancelled);
    }
    if dest in dir.files && (dir.files[dest].Symlink? || dir.files[dest].Directory?) {
      return Err(OpenFailed);
    }
    if dest in dir.files && dir.files[dest].Special? {
      return Ok(false);
    }
    var created := dir.CreateNew(temp, fates.openStage);
    if fates.openStage.CancelledBefore? || fates.openStage.CancelledAfter? {
      return Err(Cancelled);
    }
    return if created then Ok(true) else Err(StageFailed);
  }

  /** The staging file still has its content, under its first mode or the final one, or is gone. */
  predicate StagingKept(files: Files, temp: Name, staged: Node, mode: bv32)
    requires staged.Regular?
  {
    temp in files ==> files[temp] == staged || files[temp] == staged.(mode := mode)
  }

  /** The directory once the staged file has replaced the destination. */
  function PublishedFrom(files: Files, dest: Name, temp: Name, mode: bv32, fates: Fates): Files
    requires temp in files && files[temp].Regular?
  {
    (files - {temp})[dest := files[temp].(mode := if TakesEffect(fates.chmod) then mode else files[temp].mode)]
  }

  predicate Commits(fates: Fates) {
    !fates.chmod.CancelledBefore? && !fates.chmod.CancelledAfter? && fates.rename.Proceeds?
  }

  /** Only the rename can fail; a call can be cancelled in either step. */
  predicate CommitFails(fates: Fates, error: CopyError) {
    if fates.chmod.CancelledBefore? || fates.chmod.CancelledAfter? then error == Cancelled
    else Stops(fates.rename, PublishFailed, error)
  }

  /** `CopyOutDest::commit` for a staged copy, and the guard's unlink when it does not publish.
      `renamed` says whether the rename took effect. */
  method Commit(dir: HostDir, dest: Name, temp: Name, mode: bv32, fates: Fates) returns (r: Result<(), CopyError>, ghost renamed: bool)
    requires temp in dir.files && dir.files[temp].Regular?
    modifies dir
    ensures old(dir.trace) <= dir.trace
    ensures forall i :: |old(dir.trace)| <= i < |dir.trace| ==>
              || (SameExcept(dir.trace[i], old(dir.files), temp) && StagingKept(dir.trace[i], temp, old(dir.files)[temp], mode))
              || (dest != temp && dir.trace[i] == PublishedFrom(old(dir.files), dest, temp, mode, fates))
    ensures r.Ok? ==> renamed
    ensures if r.Ok? then Commits(fates) else CommitFails(fates, r.error)
    ensures r.Err? && renamed ==> r.error.Cancelled?
    ensures renamed && dest != temp ==> dir.files == PublishedFrom(old(dir.files), dest, temp, mode, fates)
    ensures !renamed ==> SameExcept(dir.files, old(dir.files), temp) && (temp in dir.files <==> fates.unlink.Fails?)
    // A file renamed to its own name stays, and is what the guard unlinks after a cancelled rename.
    ensures dest == temp ==>
              && SameExcept(dir.files, old(dir.files), dest)
              && (r.Ok? ==> dir.files == PublishedFrom(old(dir.files), dest, dest, mode, fates))
              && (r.Err? ==> (dest in dir.files <==> fates.unlink.Fails?))
    ensures Faultless(fates) ==> r.Ok?
  {
    renamed := false;
    dir.SetMode(temp, mode, fates.chmod);
    ghost var moded := dir.files;
    assert SameExcept(moded, old(dir.files), temp) && StagingKept(moded, temp, old(dir.files)[temp], mode);
    assert SameExcept(moded - {temp}, old(dir.files), temp);
    if fates.chmod.CancelledBefore? || fates.chmod.CancelledAfter? {
      dir.Remove(temp, fates.unlink);
      return Err(Cancelled), renamed;
    }
    dir.Rename(temp, dest, fates.rename);
    renamed := TakesEffect(fates.rename);
    assert renamed ==> dir.files == PublishedFrom(old(dir.files), dest, temp, mode, fates);
    if fates.rename.Proceeds? {
      return Ok(()), renamed;
    }
    dir.Remove(temp, fates.unlink);
    return Err(if fates.rename.Fails? then PublishFailed else Cancelled), renamed;
  }

  // --------------------------------------------------------------------- moments

  ghost predicate EmptyTransfer(frames: seq<Body>, maxBytes: nat) {
    exists k :: CompleteAt(frames, maxBytes, k) && Received(frames, k) == []
  }

  /** Staging cannot be mistaken for the destination: it is another name, or all there is to stage
      is an empty file. */
  ghost predicate Harmless(dest: Name, temp: Name, frames: seq<Body>, maxBytes: nat) {
    dest != temp || EmptyTransfer(frames, maxBytes)
  }

  /** Nothing has changed but the staging file, which is gone or holds some of the transfer under a
      safe mode. */
  ghost predicate Staging(files: Files, before: Files, temp: Name, frames: seq<Body>) {
    && SameExcept(files, before, temp)
    && (temp in files ==>
          && files[temp].Regular? && SafeMode(files[temp].mode)
          && exists j :: StagedPrefix(files[temp].content, frames, j))
  }

  predicate StagedPrefix(content: Bytes, frames: seq<Body>, j: nat) {
    j <= |frames| && (forall i :: 0 <= i < j ==> GoodChunk(frames[i])) && content == Received(frames, j)
  }

  /** Of a transfer that turns out empty no part has a byte. */
  lemma {:induction false} NoBytesBefore(frames: seq<Body>, j: nat, k: nat)
    requires j <= k <= |frames| && Received(frames, k) == []
    ensures Received(frames, j) == []
  {
    if j < k {
      assert |Received(frames, k)| == |Received(frames, k - 1)| + |Payload(frames[k - 1])|;
      NoBytesBefore(frames, j, k - 1);
    }
  }

  lemma ChunksEndAt(frames: seq<Body>, j: nat, k: nat)
    requires j <= |frames| && (forall i :: 0 <= i < j ==> GoodChunk(frames[i])) && k < |frames| && !GoodChunk(frames[k])
    ensures j <= k
  {
  }

  lemma StagingMoment(files: Files, before: Files, dest: Name, temp: Name, frames: seq<Body>, maxBytes: nat)
    requires Staging(files, before, temp, frames) && Harmless(dest, temp, frames, maxBytes) && Stageable(before, dest, temp)
    ensures Moment(files, before, dest, temp, frames, maxBytes)
  {
    if dest == temp && temp in files {
      var k: nat :| CompleteAt(frames, maxBytes, k) && Received(frames, k) == [];
      var j: nat :| StagedPrefix(files[temp].content, frames, j);
      ChunksEndAt(frames, j, k);
      NoBytesBefore(frames, j, k);
      assert files[dest].content == Received(frames, k);
    }
  }

  lemma PublishedMoment(files: Files, before: Files, dest: Name, temp: Name, frames: seq<Body>, maxBytes: nat, k: nat, fates: Fates)
    requires dest != temp && temp in files && SameExcept(files, before, temp) && CompleteAt(frames, maxBytes, k)
    requires files[temp] == Regular(Received(frames, k), STAGING_MODE)
    ensures var after := PublishedFrom(files, dest, temp, HostModeFor(frames[k].mode), fates);
            && Published(after, dest, frames, maxBytes)
            && Moment(after, before, dest, temp, frames, maxBytes)
            && temp !in after
  {
    HostModeIsSafe(frames[k].mode);
  }

  lemma MomentsChain(t0: seq<Files>, t1: seq<Files>, t2: seq<Files>, before: Files, dest: Name, temp: Name, frames: seq<Body>, maxBytes: nat)
    requires t0 <= t1 <= t2
    requires Moments(t1, |t0|, before, dest, temp, frames, maxBytes)
    requires Moments(t2, |t1|, before, dest, temp, frames, maxBytes)
    ensures Moments(t2, |t0|, before, dest, temp, frames, maxBytes)
  {
    forall i | |t0| <= i < |t2|
      ensures Moment(t2[i], before, dest, temp, frames, maxBytes)
    {
      if i < |t1| {
        assert t2[i] == t1[i];
      }
    }
  }

  /** A pumped staging file holds some of the transfer. */
  lemma PumpingStages(files: Files, before: Files, temp: Name, frames: seq<Body>)
    requires Pumping(files, WithStaging(before, temp), temp, frames)
    ensures Staging(files, before, temp, frames)
  {
    var base := Regular([], STAGING_MODE);
    var j: nat :| PumpedTo(files[temp], base, frames, j);
    assert [] + Received(frames, j) == Received(frames, j);
    assert StagedPrefix(files[temp].content, frames, j);
    assert SafeMode(STAGING_MODE);
  }

  lemma PumpedMoments(t0: seq<Files>, t1: seq<Files>, before: Files, dest: Name, temp: Name, frames: seq<Body>, maxBytes: nat)
    requires t0 <= t1 && Harmless(dest, temp, frames, maxBytes) && Stageable(before, dest, temp)
    requires PumpingAll(t1, |t0|, WithStaging(before, temp), temp, frames)
    ensures Moments(t1, |t0|, before, dest, temp, frames, maxBytes)
  {
    forall i | |t0| <= i < |t1|
      ensures Moment(t1[i], before, dest, temp, frames, maxBytes)
    {
      PumpingStages(t1[i], before, temp, frames);
      StagingMoment(t1[i], before, dest, temp, frames, maxBytes);
    }
  }

  /** The moments of a commit of a complete staged transfer. */
  lemma CommitMoments(t0: seq<Files>, t1: seq<Files>, files: Files, before: Files, dest: Name, temp: Name,
                      frames: seq<Body>, maxBytes: nat, k: nat, fates: Fates)
    requires t0 <= t1 && Harmless(dest, temp, frames, maxBytes) && Stageable(before, dest, temp)
    requires temp in files && SameExcept(files, before, temp)
    requires CompleteAt(frames, maxBytes, k) && files[temp] == Regular(Received(frames, k), STAGING_MODE)
    requires forall i :: |t0| <= i < |t1| ==>
               || (SameExcept(t1[i], files, temp) && StagingKept(t1[i], temp, files[temp], HostModeFor(frames[k].mode)))
               || (dest != temp && t1[i] == PublishedFrom(files, dest, temp, HostModeFor(frames[k].mode), fates))
    ensures Moments(t1, |t0|, before, dest, temp, frames, maxBytes)
  {
    if dest != temp {
      PublishedMoment(files, before, dest, temp, frames, maxBytes, k, fates);
    }
    HostModeIsSafe(frames[k].mode);
    assert SafeMode(STAGING_MODE);
    forall i | |t0| <= i < |t1|
      ensures Moment(t1[i], before, dest, temp, frames, maxBytes)
    {
      if SameExcept(t1[i], files, temp) && StagingKept(t1[i], temp, files[temp], HostModeFor(frames[k].mode)) {
        assert temp in t1[i] ==> StagedPrefix(t1[i][temp].content, frames, k);
        assert Staging(t1[i], before, temp, frames);
        StagingMoment(t1[i], before, dest, temp, frames, maxBytes);
      }
    }
  }

  // -------------------------------------------------------------- the staged arm

  /** A failed `fchmod` is not an error: the copy keeps the staging mode. */
  function FinalMode(guestMode: bv32, fates: Fates): bv32 {
    if TakesEffect(fates.chmod) then HostModeFor(guestMode) else STAGING_MODE
  }

  /** What the staged arm leaves, when the staging file is not the destination itself. `renamed`
      says whether the staged file has become the destination. */
  ghost predicate StagedEnd(files: Files, before: Files, dest: Name, temp: Name, frames: seq<Body>, maxBytes: nat, fates: Fates,
                            r: Result<CopyOutcome, CopyError>, k: nat, renamed: bool) {
    && (temp in files <==> !renamed && fates.unlink.Fails?)
    && (r.Ok? ==>
          && renamed && CompleteAt(frames, maxBytes, k)
          && r.value == CopyOutcome(frames[k].totalBytes, frames[k].mode)
          && files == before[dest := Regular(Received(frames, k), FinalMode(frames[k].mode, fates))])
    && (r.Err? && renamed ==> r.error.Cancelled? && Published(files, dest, frames, maxBytes))
    && (!renamed ==> SameExcept(files, before, temp))
  }

  /** What it leaves when the staging file is the destination itself: the whole file, or nothing
      unless the unlink fails. */
  ghost predicate SelfStagedEnd(files: Files, before: Files, dest: Name, frames: seq<Body>, maxBytes: nat, fates: Fates,
                                r: Result<CopyOutcome, CopyError>, k: nat) {
    && SameExcept(files, before, dest)
    && (r.Ok? ==>
          && CompleteAt(frames, maxBytes, k)
          && r.value == CopyOutcome(frames[k].totalBytes, frames[k].mode)
          && files == before[dest := Regular(Received(frames, k), FinalMode(frames[k].mode, fates))])
    && (r.Err? ==> (dest in files <==> fates.unlink.Fails?))
  }

  ghost predicate StagedFails(frames: seq<Body>, maxBytes: nat, fates: Fates, k: nat, error: CopyError) {
    FailsAt(frames, maxBytes, fates, k, error) || (CompleteAt(frames, maxBytes, k) && CommitFails(fates, error))
  }

  /** The staged arm, from a freshly opened staging file to its end. `before` is the directory
      when the call began. */
  method StagedCopy(dir: HostDir, dest: Name, temp: Name, maxBytes: nat, frames: seq<Body>, fates: Fates, ghost before: Files)
    returns (r: Result<CopyOutcome, CopyError>, ghost k: nat, ghost renamed: bool)
    requires Stageable(before, dest, temp) && dir.files == WithStaging(before, temp)
    modifies dir
    ensures old(dir.trace) <= dir.trace
    ensures Harmless(dest, temp, frames, maxBytes) ==> Moments(dir.trace, |old(dir.trace)|, before, dest, temp, frames, maxBytes)
    ensures if dest != temp then StagedEnd(dir.files, before, dest, temp, frames, maxBytes, fates, r, k, renamed)
            else SelfStagedEnd(dir.files, before, dest, frames, maxBytes, fates, r, k)
    ensures if r.Ok? then EndsWellAt(frames, maxBytes, fates, k) && Commits(fates) else StagedFails(frames, maxBytes, fates, k, r.error)
    ensures forall n :: CompleteAt(frames, maxBytes, n) && Faultless(fates) ==> r.Ok? && k == n
  {
    renamed := false;
    r, k := PumpFrames(dir, temp, frames, maxBytes, fates);
    ghost var pumped, trace := dir.files, dir.trace;
    PumpingStages(pumped, before, temp, frames);
    if r.Err? {
      dir.Remove(temp, fates.unlink);
      if Harmless(dest, temp, frames, maxBytes) {
        RemovedMoment(trace, dir.trace, pumped, before, dest, temp, frames, maxBytes);
      }
    } else {
      assert [] + Received(frames, k) == Received(frames, k);
      assert pumped[temp] == Regular(Received(frames, k), STAGING_MODE);
      var committed;
      committed, renamed := Commit(dir, dest, temp, HostModeFor(r.value.mode), fates);
      if Harmless(dest, temp, frames, maxBytes) {
        CommitMoments(trace, dir.trace, pumped, before, dest, temp, frames, maxBytes, k, fates);
      }
      if dest != temp {
        PublishedMoment(pumped, before, dest, temp, frames, maxBytes, k, fates);
        WithoutStaging(pumped, before, temp);
      } else {
        PublishedOnItself(pumped, before, dest, Received(frames, k), HostModeFor(frames[k].mode), fates);
      }
      if committed.Err? {
        r := Err(committed.error);
      }
    }
    if Harmless(dest, temp, frames, maxBytes) {
      PumpedMoments(old(dir.trace), trace, before, dest, temp, frames, maxBytes);
      MomentsChain(old(dir.trace), trace, dir.trace, before, dest, temp, frames, maxBytes);
    }
  }

  lemma RemovedMoment(t0: seq<Files>, t1: seq<Files>, files: Files, before: Files, dest: Name, temp: Name, frames: seq<Body>, maxBytes: nat)
    requires |t1| == |t0| + 1 && t0 <= t1 && (t1[|t0|] == files - {temp} || t1[|t0|] == files)
    requires Staging(files, before, temp, frames) && Harmless(dest, temp, frames, maxBytes) && Stageable(before, dest, temp)
    ensures Moments(t1, |t0|, before, dest, temp, frames, maxBytes)
  {
    assert Staging(files - {temp}, before, temp, frames);
    StagingMoment(t1[|t0|], before, dest, temp, frames, maxBytes);
  }

  lemma WithoutStaging(files: Files, before: Files, temp: Name)
    requires SameExcept(files, before, temp) && temp !in before
    ensures files - {temp} == before
  {
    forall x
      ensures Entry(files - {temp}, x) == Entry(before, x)
    {
      if x != temp {
        assert Entry(files, x) == Entry(before, x);
      }
    }
    SameEntries(files - {temp}, before);
  }

  lemma PublishedOnItself(files: Files, before: Files, dest: Name, content: Bytes, mode: bv32, fates: Fates)
    requires dest in files && files[dest] == Regular(content, STAGING_MODE) && SameExcept(files, before, dest)
    ensures PublishedFrom(files, dest, dest, mode, fates)
         == before[dest := Regular(content, if TakesEffect(fates.chmod) then mode else STAGING_MODE)]
  {
    var after := PublishedFrom(files, dest, dest, mode, fates);
    forall x
      ensures Entry(after, x) == Entry(before[dest := after[dest]], x)
    {
      if x != dest {
        assert Entry(files, x) == Entry(before, x);
      }
    }
    SameEntries(after, before[dest := after[dest]]);
  }

  lemma SameEntries(a: Files, b: Files)
    requires forall x :: Entry(a, x) == Entry(b, x)
    ensures a == b
  {
    forall x
      ensures x in a <==> x in b
      ensures x in a ==> a[x] == b[x]
    {
      assert Entry(a, x) == Entry(b, x);
    }
    assert a.Keys == b.Keys;
  }

  // ------------------------------------------------------------------- the call

  /** The staging file is seen on the destination's own name before it holds a complete transfer. */
  ghost predicate StagedInSight(files: Files, dest: Name, temp: Name, frames: seq<Body>, maxBytes: nat, fates: Fates) {
    dest == temp && StagingMade(files, dest, dest, fates) && !EmptyTransfer(frames, maxBytes)
  }

  /** A call succeeds only when every step did, but for the mode change, whose failure is ignored. */
  ghost predicate NothingFailed(files: Files, dest: Name, temp: Name, frames: seq<Body>, maxBytes: nat, fates: Fates, k: nat) {
    && fates.request.Proceeds? && fates.openDest.Proceeds? && EndsWellAt(frames, maxBytes, fates, k)
    && (IsSpecial(files, dest) || (ReachesStaging(files, dest, temp, fates) && Commits(fates)))
  }

  /** Why a call fails: the first step that does, in the order they are made. */
  ghost predicate WhyFailed(files: Files, dest: Name, temp: Name, frames: seq<Body>, maxBytes: nat, fates: Fates,
                            k: nat, error: CopyError) {
    if !fates.request.Proceeds? then Stops(fates.request, RequestFailed, error)
    else
      || OpenFailsFor(files, dest, temp, fates, error)
      || (fates.openDest.Proceeds?
          && (if IsSpecial(files, dest) then FailsAt(frames, maxBytes, fates, k, error)
              else ReachesStaging(files, dest, temp, fates) && StagedFails(frames, maxBytes, fates, k, error)))
  }

  /** `AgentClient::copy_out`, the `n`-th copy of process `pid`. */
  method CopyOut(dir: HostDir, dest: Name, pid: nat, n: nat, maxBytes: nat, frames: seq<Body>, fates: Fates)
    returns (r: Result<CopyOutcome, CopyError>, ghost k: nat, ghost renamed: bool)
    requires pid <= U64_MAX && n <= U64_MAX
    modifies dir
    ensures old(dir.trace) <= dir.trace
    // At every moment the destination is in its old state or holds one complete transfer, exactly
    // unless the copy is staged on the destination itself and the transfer is not an empty one.
    ensures var temp := StagingFor(dest, Suffix(pid, n));
            Moments(dir.trace, |old(dir.trace)|, old(dir.files), dest, temp, frames, maxBytes)
            <==> !(SelfStaged(dest, Suffix(pid, n)) && StagingMade(old(dir.files), dest, dest, fates) && !EmptyTransfer(frames, maxBytes))
    ensures if SelfStaged(dest, Suffix(pid, n)) then SelfEnd(dir.files, old(dir.files), dest, frames, maxBytes, fates, r, k)
            else CopyEnd(dir.files, old(dir.files), dest, StagingFor(dest, Suffix(pid, n)), frames, maxBytes, fates, r, k, renamed)
    // Without a fault a complete transfer within the ceiling succeeds.
    ensures ReachesStaging(old(dir.files), dest, StagingFor(dest, Suffix(pid, n)), fates) && Faultless(fates) ==>
              forall m :: CompleteAt(frames, maxBytes, m) ==> r.Ok? && k == m
    ensures IsSpecial(old(dir.files), dest) && Faultless(fates) ==>
              forall m :: CompleteAt(frames, maxBytes, m) ==> r.Ok? && k == m
    // A link or a directory is refused and left as it is.
    ensures fates.request.Proceeds? && fates.openDest.Proceeds? && IsRefused(old(dir.files), dest) ==>
              r == Err(OpenFailed) && dir.files == old(dir.files)
    ensures if r.Ok? then NothingFailed(old(dir.files), dest, StagingFor(dest, Suffix(pid, n)), frames, maxBytes, fates, k)
            else WhyFailed(old(dir.files), dest, StagingFor(dest, Suffix(pid, n)), frames, maxBytes, fates, k, r.error)
  {
    SuffixHasShape(pid, n);
    StagedOnItself(dest, Suffix(pid, n));
    if !fates.request.Proceeds? {
      return Err(if fates.request.Fails? then RequestFailed else Cancelled), 0, false;
    }
    var suffix := Suffix(pid, n);
    var kept := ClampStageBase(dest, |suffix|);
    r, k, renamed := CopyVia(dir, dest, [DOT] + kept + suffix, maxBytes, frames, fates);
  }

  /** The call once the guest has accepted the request and the staging name is fixed. */
  method CopyVia(dir: HostDir, dest: Name, temp: Name, maxBytes: nat, frames: seq<Body>, fates: Fates)
    returns (r: Result<CopyOutcome, CopyError>, ghost k: nat, ghost renamed: bool)
    requires fates.request.Proceeds?
    modifies dir
    ensures old(dir.trace) <= dir.trace
    ensures Moments(dir.trace, |old(dir.trace)|, old(dir.files), dest, temp, frames, maxBytes)
            <==> !StagedInSight(old(dir.files), dest, temp, frames, maxBytes, fates)
    ensures if dest == temp then SelfEnd(dir.files, old(dir.files), dest, frames, maxBytes, fates, r, k)
            else CopyEnd(dir.files, old(dir.files), dest, temp, frames, maxBytes, fates, r, k, renamed)
    ensures ReachesStaging(old(dir.files), dest, temp, fates) && Faultless(fates) ==>
              forall m :: CompleteAt(frames, maxBytes, m) ==> r.Ok? && k == m
    ensures IsSpecial(old(dir.files), dest) && Faultless(fates) ==>
              forall m :: CompleteAt(frames, maxBytes, m) ==> r.Ok? && k == m
    ensures fates.openDest.Proceeds? && IsRefused(old(dir.files), dest) ==> r == Err(OpenFailed) && dir.files == old(dir.files)
    ensures if r.Ok? then NothingFailed(old(dir.files), dest, temp, frames, maxBytes, fates, k)
            else WhyFailed(old(dir.files), dest, temp, frames, maxBytes, fates, k, r.error)
  {
    k, renamed := 0, false;
    var staged := OpenDest(dir, dest, temp, fates);
    ghost var trace := dir.trace;
    OpenMoments(old(dir.trace), trace, dir.files, old(dir.files), dest, temp, frames, maxBytes, fates);
    if staged.Err? {
      r := Err(staged.error);
    } else if staged.value {
      r, k, renamed := StagedCopy(dir, dest, temp, maxBytes, frames, fates, old(dir.files));
      if Harmless(dest, temp, frames, maxBytes) {
        MomentsChain(old(dir.trace), trace, dir.trace, old(dir.files), dest, temp, frames, maxBytes);
      } else {
        assert dir.trace[|old(dir.trace)|] == trace[|old(dir.trace)|];
        assert !Moment(dir.trace[|old(dir.trace)|], old(dir.files), dest, temp, frames, maxBytes);
      }
    } else {
      r, k := PumpFrames(dir, dest, frames, maxBytes, fates);
      DirectMoments(trace, dir.trace, old(dir.files), dest, temp, frames, maxBytes);
      MomentsChain(old(dir.trace), trace, dir.trace, old(dir.files), dest, temp, frames, maxBytes);
      DirectEnd(dir.files, old(dir.files), dest);
    }
  }

  /** Opening changes nothing but the staging name; on the destination's own name that shows, while
      the file is empty, unless empty is what the transfer is. */
  lemma OpenMoments(t0: seq<Files>, t1: seq<Files>, files: Files, before: Files, dest: Name, temp: Name,
                    frames: seq<Body>, maxBytes: nat, fates: Fates)
    requires t0 <= t1 && fates.request.Proceeds?
    requires if StagingMade(before, dest, temp, fates) then files == WithStaging(before, temp) && t1 == t0 + [files]
             else files == before && forall i :: |t0| <= i < |t1| ==> t1[i] == files
    ensures Moments(t1, |t0|, before, dest, temp, frames, maxBytes) <==> !StagedInSight(before, dest, temp, frames, maxBytes, fates)
    ensures StagedInSight(before, dest, temp, frames, maxBytes, fates) ==> !Moment(t1[|t0|], before, dest, temp, frames, maxBytes)
  {
    if StagingMade(before, dest, temp, fates) {
      assert t1[|t0|] == files;
      if Harmless(dest, temp, frames, maxBytes) {
        assert StagedPrefix([], frames, 0) && SafeMode(STAGING_MODE);
        StagingMoment(files, before, dest, temp, frames, maxBytes);
      }
    }
  }

  lemma DirectMoments(t0: seq<Files>, t1: seq<Files>, before: Files, dest: Name, temp: Name, frames: seq<Body>, maxBytes: nat)
    requires t0 <= t1 && IsSpecial(before, dest) && PumpingAll(t1, |t0|, before, dest, frames)
    ensures Moments(t1, |t0|, before, dest, temp, frames, maxBytes)
  {
    forall i | |t0| <= i < |t1|
      ensures Moment(t1[i], before, dest, temp, frames, maxBytes)
    {
      assert Pumping(t1[i], before, dest, frames);
    }
  }

  lemma DirectEnd(files: Files, before: Files, dest: Name)
    requires dest in files && SameExcept(files, before, dest)
    ensures files == before[dest := files[dest]]
  {
    forall x
      ensures Entry(files, x) == Entry(before[dest := files[dest]], x)
    {
      if x != dest {
        assert Entry(files, x) == Entry(before, x);
      }
    }
    SameEntries(files, before[dest := files[dest]]);
  }

  predicate ReachesStaging(files: Files, dest: Name, temp: Name, fates: Fates) {
    StagingMade(files, dest, temp, fates) && fates.openStage.Proceeds?
  }

  /** Success delivers the concatenated chunks, under a safe mode, within the ceiling. */
  ghost predicate Delivered(files: Files, before: Files, dest: Name, frames: seq<Body>, maxBytes: nat, fates: Fates,
                            outcome: CopyOutcome, k: nat) {
    && CompleteAt(frames, maxBytes, k)
    && outcome == CopyOutcome(frames[k].totalBytes, frames[k].mode)
    && (dest in before ==> before[dest].Regular? || before[dest].Special?)
    && files == before[dest := if IsSpecial(before, dest) then Appended(before[dest], Received(frames, k))
                               else Regular(Received(frames, k), FinalMode(frames[k].mode, fates))]
  }

  /** How a call whose staging file is the destination itself ends: with the whole file, or as it
      began, unless the call is cancelled while the exclusive open is under way or the unlink of the
      staging file fails. */
  ghost predicate SelfEnd(files: Files, before: Files, dest: Name, frames: seq<Body>, maxBytes: nat, fates: Fates,
                          r: Result<CopyOutcome, CopyError>, k: nat) {
    && (r.Ok? ==> Delivered(files, before, dest, frames, maxBytes, fates, r.value, k))
    && (r.Err? ==>
          && SameExcept(files, before, dest)
          && (!IsSpecial(before, dest) ==>
                (Entry(files, dest) != Entry(before, dest) <==>
                   StagingMade(before, dest, dest, fates) && (fates.openStage.CancelledAfter? || fates.unlink.Fails?))))
  }

  /** How a call whose staging file is not the destination itself ends. */
  ghost predicate CopyEnd(files: Files, before: Files, dest: Name, temp: Name, frames: seq<Body>, maxBytes: nat, fates: Fates,
                          r: Result<CopyOutcome, CopyError>, k: nat, renamed: bool) {
    // A staging file outlives the call exactly when the call is cancelled while the exclusive open
    // is under way, before the guard that would unlink the file exists, or when the guard's unlink
    // of a file that has not become the destination fails.
    && (Entry(files, temp) != Entry(before, temp) <==>
          StagingMade(before, dest, temp, fates) && (fates.openStage.CancelledAfter? || (!renamed && fates.unlink.Fails?)))
    && (r.Ok? ==> Delivered(files, before, dest, frames, maxBytes, fates, r.value, k))
    // A failure leaves everything but that staging file as it was; only a cancelled call may have
    // published.
    && (renamed ==> Published(files, dest, frames, maxBytes) && (r.Ok? || r.error.Cancelled?))
    && (r.Err? && !renamed && !IsSpecial(before, dest) ==> SameExcept(files, before, temp))
  }
}

/** One captured output stream on the host: a log file capped at `diskCap` bytes, and a head of
    at most `cap` bytes kept in memory. */
module StreamSink {
  import opened Bytes

  datatype StreamCapture = StreamCapture(inlined: Bytes, truncated: bool, totalBytes: nat)

  /** `StreamCapture::from_bytes`, the one-shot definition. */
  function FromBytes(data: Bytes, cap: nat): StreamCapture {
    StreamCapture(data[..Min(|data|, cap)], |data| > cap, |data|)
  }

  const MARKER: Bytes :=
    Ascii("\n[isopod: log cap reached; output beyond this point was not persisted]\n")

  /** What a log of `data` holds: all of it, or the first `diskCap` bytes and the marker. */
  function LogOf(data: Bytes, diskCap: nat): Bytes {
    if |data| <= diskCap then data else data[..diskCap] + MARKER
  }

  lemma LogGrows(data: Bytes, more: Bytes, diskCap: nat)
    ensures |data| > diskCap ==> LogOf(data + more, diskCap) == LogOf(data, diskCap)
    ensures |data| <= diskCap && |more| <= diskCap - |data| ==> LogOf(data + more, diskCap) == data + more
    ensures |data| <= diskCap && |more| > diskCap - |data| ==>
              LogOf(data + more, diskCap) == data + more[..diskCap - |data|] + MARKER
  {
    if |data| > diskCap {
      assert (data + more)[..diskCap] == data[..diskCap];
    } else if |more| > diskCap - |data| {
      assert (data + more)[..diskCap] == data + more[..diskCap - |data|];
    }
  }

  lemma HeadGrows(data: Bytes, more: Bytes, cap: nat)
    ensures (data + more)[..Min(|data + more|, cap)] ==
            data[..Min(|data|, cap)] + more[..Min(|more|, SatSub(cap, Min(|data|, cap)))]
  {
  }

  class StreamSink {
    var log: Bytes
    var inlined: Bytes
    const cap: nat
    const diskCap: nat
    var diskWritten: nat
    var diskTruncated: bool
    var total: nat
    var truncated: bool
    ghost var fed: Bytes

    ghost predicate LogValid()
      reads this
    {
      && log == LogOf(fed, diskCap)
      && diskWritten == Min(|fed|, diskCap)
      && diskTruncated == (|fed| > diskCap)
    }

    ghost predicate HeadValid()
      reads this
    {
      && inlined == fed[..Min(|fed|, cap)]
      && truncated == (|fed| > cap)
    }

    /** Every field is a function of the bytes fed so far, however they were chunked. */
    ghost predicate Valid()
      reads this
    {
      LogValid() && HeadValid() && total == Min(|fed|, U64_MAX)
    }

    constructor (cap: nat, diskCap: nat)
      ensures Valid() && fed == [] && this.cap == cap && this.diskCap == diskCap
    {
      this.cap, this.diskCap := cap, diskCap;
      log, inlined, fed := [], [], [];
      diskWritten, diskTruncated, total, truncated := 0, false, 0, false;
    }

    method Write(bytes: Bytes)
      requires Valid() && diskCap <= U64_MAX
      modifies this
      ensures Valid() && fed == old(fed) + bytes
    {
      TeeToLog(bytes);
      total := SatAdd(total, |bytes|);
      KeepHead(bytes);
      fed := fed + bytes;
    }

    method TeeToLog(bytes: Bytes)
      requires LogValid() && diskCap <= U64_MAX
      modifies `log, `diskWritten, `diskTruncated
      ensures log == LogOf(fed + bytes, diskCap)
      ensures diskWritten == Min(|fed + bytes|, diskCap)
      ensures diskTruncated == (|fed + bytes| > diskCap)
    {
      LogGrows(fed, bytes, diskCap);
      if !diskTruncated {
        var room := SatSub(diskCap, diskWritten);
        if |bytes| <= room {
          log := log + bytes;
          diskWritten := SatAdd(diskWritten, |bytes|);
        } else {
          log := log + bytes[..room] + MARKER;
          diskWritten := diskCap;
          diskTruncated := true;
        }
      }
    }

    method KeepHead(bytes: Bytes)
      requires HeadValid()
      modifies `inlined, `truncated
      ensures inlined == (fed + bytes)[..Min(|fed + bytes|, cap)]
      ensures truncated == (|fed + bytes| > cap)
    {
      HeadGrows(fed, bytes, cap);
      if |inlined| < cap {
        var room := cap - |inlined|;
        if |bytes| <= room {
          inlined := inlined + bytes;
        } else {
          inlined := inlined + bytes[..room];
          truncated := true;
        }
      } else if bytes != [] {
        truncated := true;
      }
    }

    /** The incremental sink agrees with the one-shot definition on every stream whose length a
        u64 can count, and saturates beyond. */
    method Finish() returns (capture: StreamCapture)
      requires Valid()
      ensures capture == FromBytes(fed, cap).(totalBytes := Min(|fed|, U64_MAX))
      ensures capture == FromBytes(fed, cap) <==> |fed| <= U64_MAX
    {
      capture := StreamCapture(inlined, truncated, total);
    }
  }
}

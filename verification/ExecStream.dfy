/** The exec stream, both ends: two guest pump threads interleave frames on one connection, and
    the host sorts them back into two sinks. */
module ExecStream {
  import opened Wrappers
  import opened Bytes
  import opened StreamSink
  import Text

  datatype StreamKind = Stdout | Stderr

  datatype Exit = Exit(exitCode: Option<int>, signal: Option<int>, timedOut: bool)

  /** A response body. A payload of `None` is base64 that does not decode. */
  datatype Body =
    | Stream(kind: StreamKind, payload: Option<Bytes>)
    | Done(exit: Exit)
    | Error(message: Bytes)
    | Other

  // ----------------------------------------------------------------- the guest

  /** One pump thread: the output still to come, the chunk it has read but not yet sent, and
      how it stands. `ReadFailed` and `SendFailed` are the two early exits of its loop. */
  datatype PumpState = Running | AtEof | ReadFailed | SendFailed
  datatype Pump = Pump(rest: Bytes, held: Bytes, state: PumpState)

  /** `wire` is the frames delivered; `torn` says that a length follows them and not all of the
      payload it announces. */
  datatype Guest = Guest(out: Pump, err: Pump, wire: seq<Body>, connected: bool, finished: bool, torn: bool)

  function PumpOf(g: Guest, kind: StreamKind): Pump {
    match kind
    case Stdout => g.out
    case Stderr => g.err
  }

  function WithPump(g: Guest, kind: StreamKind, p: Pump): Guest {
    match kind
    case Stdout => g.(out := p)
    case Stderr => g.(err := p)
  }

  /** One atomic action. Sends hold the connection's lock, so a frame is delivered whole or not
      at all; a connection that failed once stays dead. */
  datatype GuestStep =
    | Read(kind: StreamKind, n: nat)
    | Send(kind: StreamKind)
    | SendFails(kind: StreamKind, tears: bool)
    | Eof(kind: StreamKind)
    | ReadFails(kind: StreamKind)
    | Finish(exit: Exit)
    | FinishFails(tears: bool)

  predicate Enabled(g: Guest, step: GuestStep) {
    match step
    case Read(kind, n) =>
      var p := PumpOf(g, kind);
      p.state == Running && p.held == [] && 1 <= n <= CHUNK_LEN && n <= |p.rest|
    case Send(kind) =>
      PumpOf(g, kind).state == Running && PumpOf(g, kind).held != [] && g.connected
    case SendFails(kind, _) =>
      PumpOf(g, kind).state == Running && PumpOf(g, kind).held != []
    case Eof(kind) =>
      PumpOf(g, kind).state == Running && PumpOf(g, kind).held == [] && PumpOf(g, kind).rest == []
    case ReadFails(kind) =>
      PumpOf(g, kind).state == Running && PumpOf(g, kind).held == []
    // Both pumps are joined before the terminal frame.
    case Finish(_) =>
      g.out.state != Running && g.err.state != Running && !g.finished && g.connected
    case FinishFails(_) =>
      g.out.state != Running && g.err.state != Running && !g.finished
  }

  /** A write that failed: it may have left a part of its frame, if the connection was up. */
  function Cut(g: Guest, tears: bool): Guest {
    g.(connected := false, torn := g.torn || (tears && g.connected))
  }

  function Act(g: Guest, step: GuestStep): Guest
    requires Enabled(g, step)
  {
    match step
    case Read(kind, n) =>
      var p := PumpOf(g, kind);
      WithPump(g, kind, p.(rest := p.rest[n..], held := p.rest[..n]))
    case Send(kind) =>
      var p := PumpOf(g, kind);
      WithPump(g, kind, p.(held := [])).(wire := g.wire + [Stream(kind, Some(p.held))])
    case SendFails(kind, tears) =>
      Cut(WithPump(g, kind, PumpOf(g, kind).(state := SendFailed)), tears)
    case Eof(kind) => WithPump(g, kind, PumpOf(g, kind).(state := AtEof))
    case ReadFails(kind) => WithPump(g, kind, PumpOf(g, kind).(state := ReadFailed))
    case Finish(exit) => g.(wire := g.wire + [Done(exit)], finished := true)
    case FinishFails(tears) => Cut(g, tears).(finished := true)
  }

  function Spawned(out: Bytes, err: Bytes): Guest {
    Guest(Pump(out, [], Running), Pump(err, [], Running), [], true, false, false)
  }

  /** `steps` is a schedule the two pumps and the joining thread can follow from `g`. */
  predicate Schedule(g: Guest, steps: seq<GuestStep>)
    decreases |steps|
  {
    steps == [] || (Enabled(g, steps[0]) && Schedule(Act(g, steps[0]), steps[1..]))
  }

  function After(g: Guest, steps: seq<GuestStep>): Guest
    requires Schedule(g, steps)
    decreases |steps|
  {
    if steps == [] then g else After(Act(g, steps[0]), steps[1..])
  }

  /** The chunks of one stream, in the order their frames were sent. */
  function Chunks(wire: seq<Body>, kind: StreamKind): seq<Bytes> {
    if wire == [] then []
    else
      var last := wire[|wire| - 1];
      Chunks(wire[..|wire| - 1], kind)
      + if last.Stream? && last.kind == kind && last.payload.Some? then [last.payload.value] else []
  }

  function Demux(wire: seq<Body>, kind: StreamKind): Bytes {
    Concat(Chunks(wire, kind))
  }

  lemma ChunksSnoc(wire: seq<Body>, b: Body, kind: StreamKind)
    ensures Chunks(wire + [b], kind)
         == Chunks(wire, kind) + if b.Stream? && b.kind == kind && b.payload.Some? then [b.payload.value] else []
    ensures Demux(wire + [b], kind)
         == Demux(wire, kind) + if b.Stream? && b.kind == kind && b.payload.Some? then b.payload.value else []
  {
    assert (wire + [b])[..|wire + [b]| - 1] == wire;
    if b.Stream? && b.kind == kind && b.payload.Some? {
      var chunks := Chunks(wire, kind);
      var c := b.payload.value;
      assert (chunks + [c])[..|chunks + [c]| - 1] == chunks;
    } else {
      assert Chunks(wire, kind) + [] == Chunks(wire, kind);
      assert Demux(wire, kind) + [] == Demux(wire, kind);
    }
  }

  predicate StreamFrame(b: Body) {
    b.Stream? && b.payload.Some? && 1 <= |b.payload.value| <= CHUNK_LEN
  }

  /** Sent, held and unread bytes of one stream make up its output. */
  ghost predicate PumpInv(p: Pump, wire: seq<Body>, kind: StreamKind, output: Bytes) {
    && Demux(wire, kind) + p.held + p.rest == output
    && |p.held| <= CHUNK_LEN
    && (p.state == AtEof ==> p.held == [] && p.rest == [])
  }

  /** The wire carries only well-formed chunks, and a `Done` only at its very end, once both
      pumps stopped. */
  predicate WireInv(g: Guest) {
    && (g.connected ==> g.out.state != SendFailed && g.err.state != SendFailed)
    && (g.finished ==> g.out.state != Running && g.err.state != Running)
    && (g.finished && g.connected ==> |g.wire| > 0 && g.wire[|g.wire| - 1].Done?)
    && (forall i :: 0 <= i < |g.wire| && !(g.finished && i == |g.wire| - 1 && g.wire[i].Done?) ==> StreamFrame(g.wire[i]))
  }

  ghost predicate GuestInv(g: Guest, out: Bytes, err: Bytes) {
    PumpInv(g.out, g.wire, Stdout, out) && PumpInv(g.err, g.wire, Stderr, err) && WireInv(g)
  }

  lemma PumpInvRead(p: Pump, n: nat, wire: seq<Body>, kind: StreamKind, output: Bytes)
    requires PumpInv(p, wire, kind, output) && p.state == Running && p.held == [] && n <= CHUNK_LEN && n <= |p.rest|
    ensures PumpInv(p.(rest := p.rest[n..], held := p.rest[..n]), wire, kind, output)
  {
    assert p.rest[..n] + p.rest[n..] == p.rest;
  }

  lemma PumpInvSend(p: Pump, wire: seq<Body>, kind: StreamKind, output: Bytes)
    requires PumpInv(p, wire, kind, output) && p.state == Running
    ensures PumpInv(p.(held := []), wire + [Stream(kind, Some(p.held))], kind, output)
  {
    ChunksSnoc(wire, Stream(kind, Some(p.held)), kind);
  }

  /** The other pump does not notice a send. */
  lemma PumpInvOther(p: Pump, wire: seq<Body>, kind: StreamKind, output: Bytes, b: Body)
    requires PumpInv(p, wire, kind, output) && b.Stream? && b.kind != kind
    ensures PumpInv(p, wire + [b], kind, output)
  {
    ChunksSnoc(wire, b, kind);
  }

  lemma WireInvSend(g: Guest, kind: StreamKind)
    requires WireInv(g) && Enabled(g, Send(kind)) && |PumpOf(g, kind).held| <= CHUNK_LEN
    ensures WireInv(Act(g, Send(kind)))
  {
    var b := Stream(kind, Some(PumpOf(g, kind).held));
    assert Act(g, Send(kind)).wire == g.wire + [b];
    assert StreamFrame(b) && !g.finished;
  }

  lemma GuestInvSend(g: Guest, kind: StreamKind, out: Bytes, err: Bytes)
    requires GuestInv(g, out, err) && Enabled(g, Send(kind))
    ensures GuestInv(Act(g, Send(kind)), out, err)
  {
    var b := Stream(kind, Some(PumpOf(g, kind).held));
    WireInvSend(g, kind);
    match kind
    case Stdout =>
      PumpInvSend(g.out, g.wire, Stdout, out);
      PumpInvOther(g.err, g.wire, Stderr, err, b);
    case Stderr =>
      PumpInvSend(g.err, g.wire, Stderr, err);
      PumpInvOther(g.out, g.wire, Stdout, out, b);
  }

  lemma GuestInvRead(g: Guest, kind: StreamKind, n: nat, out: Bytes, err: Bytes)
    requires GuestInv(g, out, err) && Enabled(g, Read(kind, n))
    ensures GuestInv(Act(g, Read(kind, n)), out, err)
  {
    PumpInvRead(PumpOf(g, kind), n, g.wire, kind, if kind == Stdout then out else err);
  }

  lemma GuestInvStop(g: Guest, kind: StreamKind, step: GuestStep, out: Bytes, err: Bytes)
    requires GuestInv(g, out, err) && Enabled(g, step)
    requires step == SendFails(kind, true) || step == SendFails(kind, false) || step == Eof(kind) || step == ReadFails(kind)
    ensures GuestInv(Act(g, step), out, err)
  {
  }

  lemma GuestInvFinish(g: Guest, exit: Exit, out: Bytes, err: Bytes)
    requires GuestInv(g, out, err) && Enabled(g, Finish(exit))
    ensures GuestInv(Act(g, Finish(exit)), out, err)
  {
    ChunksSnoc(g.wire, Done(exit), Stdout);
    ChunksSnoc(g.wire, Done(exit), Stderr);
  }

  lemma GuestInvStep(g: Guest, step: GuestStep, out: Bytes, err: Bytes)
    requires GuestInv(g, out, err) && Enabled(g, step)
    ensures GuestInv(Act(g, step), out, err)
  {
    match step
    case Read(kind, n) => GuestInvRead(g, kind, n, out, err);
    case Send(kind) => GuestInvSend(g, kind, out, err);
    case SendFails(kind, _) => GuestInvStop(g, kind, step, out, err);
    case Eof(kind) => GuestInvStop(g, kind, step, out, err);
    case ReadFails(kind) => GuestInvStop(g, kind, step, out, err);
    case Finish(exit) => GuestInvFinish(g, exit, out, err);
    case FinishFails(_) =>
  }

  lemma {:induction false} GuestInvRun(g: Guest, steps: seq<GuestStep>, out: Bytes, err: Bytes)
    requires GuestInv(g, out, err) && Schedule(g, steps)
    ensures GuestInv(After(g, steps), out, err)
    decreases |steps|
  {
    if steps != [] {
      GuestInvStep(g, steps[0], out, err);
      GuestInvRun(Act(g, steps[0]), steps[1..], out, err);
    }
  }

  // ------------------------------------------------------------------ the host

  datatype ExecError =
    | BadChunk(kind: StreamKind)
    | OversizeChunk(kind: StreamKind, len: nat)
    | ExecIncomplete
    | TornFrame
    | GuestError(message: Bytes)
    | Unexpected

  /** A frame the host feeds to a sink. */
  predicate Acceptable(b: Body) {
    b.Stream? && b.payload.Some? && |b.payload.value| <= CHUNK_LEN
  }

  function Refusal(b: Body): ExecError
    requires !b.Done? && !Acceptable(b)
  {
    match b
    case Stream(kind, None) => BadChunk(kind)
    case Stream(kind, Some(data)) => OversizeChunk(kind, |data|)
    case Error(message) => GuestError(message)
    case Other => Unexpected
  }

  /** How reading `wire` to its end (then end of file) ends. */
  function HostOutcome(wire: seq<Body>): Result<Exit, ExecError> {
    if wire == [] then Err(ExecIncomplete)
    else if wire[0].Done? then Ok(wire[0].exit)
    else if Acceptable(wire[0]) then HostOutcome(wire[1..])
    else Err(Refusal(wire[0]))
  }

  /** The same when the end of file may come inside one more frame: the frame reader reports that,
      where a file that ends between frames is an end of the stream. */
  function HostEnds(wire: seq<Body>, torn: bool): Result<Exit, ExecError> {
    if torn && HostOutcome(wire) == Err(ExecIncomplete) then Err(TornFrame) else HostOutcome(wire)
  }

  /** How many leading frames reach the sinks. */
  function Accepted(wire: seq<Body>): (n: nat)
    ensures n <= |wire|
  {
    if wire != [] && Acceptable(wire[0]) then 1 + Accepted(wire[1..]) else 0
  }

  /** Frames accepted one by one carry the reading on. */
  lemma {:induction false} AcceptedAt(wire: seq<Body>, n: nat)
    requires n <= Accepted(wire)
    ensures HostOutcome(wire) == HostOutcome(wire[n..])
    ensures Accepted(wire) == n + Accepted(wire[n..])
  {
    if n > 0 {
      AcceptedAt(wire[1..], n - 1);
      assert wire[1..][n - 1..] == wire[n..];
    } else {
      assert wire[0..] == wire;
    }
  }

  /** The loop's view of the next frame. */
  lemma AcceptedNext(wire: seq<Body>, i: nat)
    requires i <= Accepted(wire)
    ensures i < |wire| && Acceptable(wire[i]) ==> i < Accepted(wire) && wire[..i + 1] == wire[..i] + [wire[i]]
    ensures i == |wire| ==> HostOutcome(wire) == Err(ExecIncomplete)
    ensures i < |wire| && !Acceptable(wire[i]) ==>
              i == Accepted(wire)
              && HostOutcome(wire) == if wire[i].Done? then Ok(wire[i].exit) else Err(Refusal(wire[i]))
  {
    AcceptedAt(wire, i);
    assert i < |wire| ==> wire[i..][0] == wire[i];
  }

  /** The ways a reading ends at a frame after `n` that were accepted, each by what that frame is. */
  lemma {:induction false} EndsAt(wire: seq<Body>, n: nat)
    requires n < |wire| && forall i :: 0 <= i < n ==> Acceptable(wire[i])
    ensures forall exit :: wire[n] == Done(exit) ==> HostOutcome(wire) == Ok(exit)
    ensures forall message :: wire[n] == Error(message) ==> HostOutcome(wire) == Err(GuestError(message))
    ensures forall kind :: wire[n] == Stream(kind, None) ==> HostOutcome(wire) == Err(BadChunk(kind))
    ensures forall kind, data :: wire[n] == Stream(kind, Some(data)) && |data| > CHUNK_LEN ==>
              HostOutcome(wire) == Err(OversizeChunk(kind, |data|))
    ensures wire[n] == Other ==> HostOutcome(wire) == Err(Unexpected)
    ensures !Acceptable(wire[n]) ==> Accepted(wire) == n
  {
    if n > 0 {
      EndsAt(wire[1..], n - 1);
    }
  }

  /** And at the end of the file, between frames or inside one. */
  lemma {:induction false} EndsAfterAll(wire: seq<Body>, torn: bool)
    requires forall i :: 0 <= i < |wire| ==> Acceptable(wire[i])
    ensures HostEnds(wire, torn) == Err(if torn then TornFrame else ExecIncomplete)
    ensures Accepted(wire) == |wire|
  {
    if wire != [] {
      EndsAfterAll(wire[1..], torn);
    }
  }

  /** A frame that ends the reading ends it whatever comes after, a torn frame included. */
  lemma TornMattersAtTheEnd(wire: seq<Body>, n: nat, torn: bool)
    requires n < |wire| && (forall i :: 0 <= i < n ==> Acceptable(wire[i])) && !Acceptable(wire[n])
    ensures HostEnds(wire, torn) == HostOutcome(wire)
  {
    EndsAt(wire, n);
    match wire[n] {
      case Stream(kind, None) => assert HostOutcome(wire) == Err(BadChunk(kind));
      case Stream(kind, Some(data)) => assert HostOutcome(wire) == Err(OversizeChunk(kind, |data|));
      case Done(exit) => assert HostOutcome(wire) == Ok(exit);
      case Error(message) => assert HostOutcome(wire) == Err(GuestError(message));
      case Other =>
    }
  }

  datatype ExecOutcome = ExecOutcome(exit: Exit, stdout: StreamCapture, stderr: StreamCapture)

  /** What a finished sink reports for `data`. */
  function Captured(data: Bytes, cap: nat): StreamCapture {
    FromBytes(data, cap).(totalBytes := Min(|data|, U64_MAX))
  }

  /** `AgentClient::exec`, from the first response frame on. The logs are what the two log files
      hold afterwards, whichever way the loop ended. */
  method Exec(wire: seq<Body>, torn: bool, inlineCap: nat, logCap: nat)
    returns (r: Result<ExecOutcome, ExecError>, stdoutLog: Bytes, stderrLog: Bytes)
    requires logCap <= U64_MAX
    ensures r.Ok? <==> HostEnds(wire, torn).Ok?
    ensures r.Ok? ==> r.value == ExecOutcome(HostEnds(wire, torn).value,
                                             Captured(Demux(wire[..Accepted(wire)], Stdout), inlineCap),
                                             Captured(Demux(wire[..Accepted(wire)], Stderr), inlineCap))
    ensures r.Err? ==> r.error == HostEnds(wire, torn).error
    ensures stdoutLog == LogOf(Demux(wire[..Accepted(wire)], Stdout), logCap)
    ensures stderrLog == LogOf(Demux(wire[..Accepted(wire)], Stderr), logCap)
  {
    var out := new StreamSink(inlineCap, logCap);
    var err := new StreamSink(inlineCap, logCap);
    var i := 0;
    while i < |wire| && Acceptable(wire[i])
      invariant i <= Accepted(wire)
      invariant fresh(out) && fresh(err) && out != err && out.diskCap == err.diskCap == logCap
      invariant out.cap == err.cap == inlineCap
      invariant out.Valid() && err.Valid()
      invariant out.fed == Demux(wire[..i], Stdout) && err.fed == Demux(wire[..i], Stderr)
      decreases |wire| - i
    {
      AcceptedNext(wire, i);
      Feed(out, err, wire[..i], wire[i]);
      i := i + 1;
    }
    AcceptedNext(wire, i);
    stdoutLog, stderrLog := out.log, err.log;
    if i < |wire| && wire[i].Done? {
      var stdout := out.Finish();
      var stderr := err.Finish();
      r := Ok(ExecOutcome(wire[i].exit, stdout, stderr));
    } else if i < |wire| {
      r := Err(Refusal(wire[i]));
    } else {
      r := Err(if torn then TornFrame else ExecIncomplete);
    }
  }

  /** One accepted frame goes to the sink its kind names. */
  method Feed(out: StreamSink, err: StreamSink, ghost before: seq<Body>, b: Body)
    requires b.Stream? && b.payload.Some?
    requires out != err && out.Valid() && err.Valid() && out.diskCap <= U64_MAX && err.diskCap <= U64_MAX
    requires out.fed == Demux(before, Stdout) && err.fed == Demux(before, Stderr)
    modifies out, err
    ensures out.Valid() && err.Valid()
    ensures out.fed == Demux(before + [b], Stdout) && err.fed == Demux(before + [b], Stderr)
  {
    ChunksSnoc(before, b, Stdout);
    ChunksSnoc(before, b, Stderr);
    match b.kind
    case Stdout => out.Write(b.payload.value);
    case Stderr => err.Write(b.payload.value);
  }

  // ---------------------------------------------------------------- end to end

  /** Well-formed chunks are all accepted, and carry the reading to what follows them. */
  lemma {:induction false} WellFormedWire(wire: seq<Body>, n: nat)
    requires n <= |wire| && forall i :: 0 <= i < n ==> StreamFrame(wire[i])
    ensures n <= Accepted(wire)
  {
    if n > 0 {
      WellFormedWire(wire[1..], n - 1);
    }
  }

  /** What the host makes of a guest's wire: a prefix of each output. */
  ghost predicate ReadsPrefixes(g: Guest, out: Bytes, err: Bytes) {
    var fed := g.wire[..Accepted(g.wire)];
    && Demux(fed, Stdout) <= out && Demux(fed, Stderr) <= err
    && Demux(fed, Stdout) == Demux(g.wire, Stdout) && Demux(fed, Stderr) == Demux(g.wire, Stderr)
    && (HostEnds(g.wire, g.torn).Err? ==> HostEnds(g.wire, g.torn).error == if g.torn then TornFrame else ExecIncomplete)
    && (HostEnds(g.wire, g.torn).Ok? <==> g.wire != [] && g.wire[|g.wire| - 1].Done?)
  }

  /** A wire of well-formed chunks, perhaps with a `Done` at its end. */
  lemma WireReading(wire: seq<Body>, n: nat)
    requires n <= |wire| && forall i :: 0 <= i < n ==> StreamFrame(wire[i])
    requires n == |wire| || (n == |wire| - 1 && wire[n].Done?)
    ensures Accepted(wire) == n
    ensures HostOutcome(wire) == if n == |wire| then Err(ExecIncomplete) else Ok(wire[n].exit)
  {
    WellFormedWire(wire, n);
    AcceptedAt(wire, n);
    assert n < |wire| ==> wire[n..][0] == wire[n];
  }

  lemma DoneCarriesNoBytes(wire: seq<Body>, kind: StreamKind)
    requires wire != [] && wire[|wire| - 1].Done?
    ensures Demux(wire[..|wire| - 1], kind) == Demux(wire, kind)
  {
    assert wire == wire[..|wire| - 1] + [wire[|wire| - 1]];
    ChunksSnoc(wire[..|wire| - 1], wire[|wire| - 1], kind);
  }

  lemma PumpSentPrefix(p: Pump, wire: seq<Body>, kind: StreamKind, output: Bytes)
    requires PumpInv(p, wire, kind, output)
    ensures Demux(wire, kind) <= output
  {
  }

  lemma InvReadsPrefixes(g: Guest, out: Bytes, err: Bytes)
    requires GuestInv(g, out, err)
    ensures ReadsPrefixes(g, out, err)
  {
    PumpSentPrefix(g.out, g.wire, Stdout, out);
    PumpSentPrefix(g.err, g.wire, Stderr, err);
    if g.wire != [] && g.wire[|g.wire| - 1].Done? {
      WireReading(g.wire, |g.wire| - 1);
      DoneCarriesNoBytes(g.wire, Stdout);
      DoneCarriesNoBytes(g.wire, Stderr);
    } else {
      WireReading(g.wire, |g.wire|);
      assert g.wire[..|g.wire|] == g.wire;
    }
  }

  /** The guest reached from a command that will write `out` and `err`. */
  predicate Reaches(out: Bytes, err: Bytes, steps: seq<GuestStep>, g: Guest) {
    Schedule(Spawned(out, err), steps) && g == After(Spawned(out, err), steps)
  }

  lemma ReachesInv(out: Bytes, err: Bytes, steps: seq<GuestStep>, g: Guest)
    requires Reaches(out, err, steps, g)
    ensures GuestInv(g, out, err) && DoneMeansSent(g)
  {
    GuestInvRun(Spawned(out, err), steps, out, err);
    DoneMeansSentRun(Spawned(out, err), steps);
  }

  /** Over every interleaving, every split of the output into reads and every failure: the host
      never sees an oversize or undecodable chunk, each stream's sink receives a prefix of what
      the process wrote, and `Ok` is reported exactly when the guest's terminal frame got
      through. */
  lemma HostSeesPrefixes(out: Bytes, err: Bytes, steps: seq<GuestStep>, g: Guest)
    requires Reaches(out, err, steps, g)
    ensures ReadsPrefixes(g, out, err)
  {
    ReachesInv(out, err, steps, g);
    InvReadsPrefixes(g, out, err);
  }

  /** When the terminal frame got through and neither pump hit a read error, the host recovers
      both outputs whole, each in order. */
  lemma HostRecoversBothStreams(out: Bytes, err: Bytes, steps: seq<GuestStep>, g: Guest)
    requires Reaches(out, err, steps, g)
    requires HostOutcome(g.wire).Ok? && g.out.state != ReadFailed && g.err.state != ReadFailed
    ensures Demux(g.wire[..Accepted(g.wire)], Stdout) == out
    ensures Demux(g.wire[..Accepted(g.wire)], Stderr) == err
  {
    ReachesInv(out, err, steps, g);
    InvReadsPrefixes(g, out, err);
    BothDrained(g, out, err);
  }

  lemma BothDrained(g: Guest, out: Bytes, err: Bytes)
    requires GuestInv(g, out, err) && DoneMeansSent(g) && ReadsPrefixes(g, out, err)
    requires HostOutcome(g.wire).Ok? && g.out.state != ReadFailed && g.err.state != ReadFailed
    ensures Demux(g.wire[..Accepted(g.wire)], Stdout) == out
    ensures Demux(g.wire[..Accepted(g.wire)], Stderr) == err
  {
    PumpDrained(g.out, g.wire, Stdout, out);
    PumpDrained(g.err, g.wire, Stderr, err);
  }

  lemma PumpDrained(p: Pump, wire: seq<Body>, kind: StreamKind, output: Bytes)
    requires PumpInv(p, wire, kind, output) && p.state == AtEof
    ensures Demux(wire, kind) == output
  {
  }

  /** A delivered `Done` means neither pump's send ever failed. */
  lemma {:induction false} DoneMeansSentRun(g: Guest, steps: seq<GuestStep>)
    requires Schedule(g, steps)
    requires DoneMeansSent(g)
    ensures DoneMeansSent(After(g, steps))
    decreases |steps|
  {
    if steps != [] {
      DoneMeansSentRun(Act(g, steps[0]), steps[1..]);
    }
  }

  predicate DoneMeansSent(g: Guest) {
    && (g.connected ==> g.out.state != SendFailed && g.err.state != SendFailed)
    && (g.wire != [] && g.wire[|g.wire| - 1].Done? ==>
        g.finished && StoppedWithoutLoss(g.out) && StoppedWithoutLoss(g.err))
  }

  predicate StoppedWithoutLoss(p: Pump) {
    p.state == AtEof || p.state == ReadFailed
  }

  // --------------------------------------------------------------- what can happen

  /** What a frame adds to one stream. */
  function PartFor(b: Body, kind: StreamKind): Bytes {
    if b.Stream? && b.kind == kind && b.payload.Some? then b.payload.value else []
  }

  lemma DemuxSnoc(wire: seq<Body>, b: Body, kind: StreamKind)
    ensures Demux(wire + [b], kind) == Demux(wire, kind) + PartFor(b, kind)
  {
    ChunksSnoc(wire, b, kind);
  }

  lemma DemuxOfSnoc(whole: seq<Body>, wire: seq<Body>, b: Body, kind: StreamKind)
    requires whole == wire + [b]
    ensures Demux(whole, kind) == Demux(wire, kind) + PartFor(b, kind)
  {
    DemuxSnoc(wire, b, kind);
  }

  lemma {:induction false} DemuxCons(b: Body, rest: seq<Body>, kind: StreamKind)
    ensures Demux([b] + rest, kind) == PartFor(b, kind) + Demux(rest, kind)
  {
    hide Demux, PartFor, Chunks, Concat;
    if rest == [] {
      DemuxOfOne(b, rest, kind);
    } else {
      var n := |rest| - 1;
      var front, last := rest[..n], rest[n];
      DemuxCons(b, front, kind);
      Regroup(b, front, last, rest);
      DemuxOfSnoc([b] + rest, [b] + front, last, kind);
      DemuxOfSnoc(rest, front, last, kind);
      Associates(PartFor(b, kind), Demux(front, kind), PartFor(last, kind));
    }
  }

  lemma DemuxOfOne(b: Body, none: seq<Body>, kind: StreamKind)
    requires none == []
    ensures Demux([b] + none, kind) == PartFor(b, kind) + Demux(none, kind)
  {
    assert [b] + none == none + [b];
    DemuxSnoc(none, b, kind);
    assert Demux(none, kind) == [];
  }

  lemma Regroup(b: Body, front: seq<Body>, last: Body, rest: seq<Body>)
    requires rest != [] && front == rest[..|rest| - 1] && last == rest[|rest| - 1]
    ensures [b] + rest == ([b] + front) + [last] && rest == front + [last]
  {
  }

  lemma Associates(a: Bytes, b: Bytes, c: Bytes)
    ensures (a + b) + c == a + (b + c)
  {
  }

  /** Both pumps run and have nothing in hand, and the connection is up. */
  predicate Ready(g: Guest) {
    && g.out.state == g.err.state == Running && g.out.held == g.err.held == []
    && g.connected && !g.finished && !g.torn
  }

  lemma {:induction false} AfterBoth(g: Guest, first: seq<GuestStep>, more: seq<GuestStep>)
    requires Schedule(g, first) && Schedule(After(g, first), more)
    ensures Schedule(g, first + more) && After(g, first + more) == After(After(g, first), more)
    decreases |first|
  {
    if first == [] {
      assert first + more == more;
    } else {
      AfterBoth(Act(g, first[0]), first[1..], more);
      assert (first + more)[0] == first[0] && (first + more)[1..] == first[1..] + more;
    }
  }

  /** A pump that runs can read and send any chunk that comes next in its output. */
  lemma SendsOne(g: Guest, kind: StreamKind, chunk: Bytes) returns (steps: seq<GuestStep>)
    requires Ready(g) && 1 <= |chunk| <= CHUNK_LEN && chunk <= PumpOf(g, kind).rest
    ensures Schedule(g, steps) && Ready(After(g, steps))
    ensures After(g, steps).wire == g.wire + [Stream(kind, Some(chunk))]
    ensures PumpOf(After(g, steps), kind).rest == PumpOf(g, kind).rest[|chunk|..]
    ensures forall other :: other != kind ==> PumpOf(After(g, steps), other) == PumpOf(g, other)
  {
    var read, send := Read(kind, |chunk|), Send(kind);
    steps := [read, send];
    assert steps[0] == read && steps[1..] == [send] && [send][1..] == [];
    assert PumpOf(Act(g, read), kind).held == chunk && Act(g, read).wire == g.wire;
    assert Act(Act(g, read), send).wire == g.wire + [Stream(kind, Some(chunk))];
    assert Schedule(Act(Act(g, read), send), []);
    assert Schedule(Act(g, read), [send]);
    assert After(g, steps) == After(Act(g, read), [send]) == After(Act(Act(g, read), send), []);
  }

  /** The pumps hold the output that the frames divide. */
  predicate Holds(g: Guest, frames: seq<Body>) {
    Ready(g) && g.out.rest == Demux(frames, Stdout) && g.err.rest == Demux(frames, Stderr)
  }

  lemma SendsFirst(g: Guest, frames: seq<Body>) returns (steps: seq<GuestStep>)
    requires frames != [] && StreamFrame(frames[0]) && Holds(g, frames)
    ensures Schedule(g, steps) && Holds(After(g, steps), frames[1..]) && After(g, steps).wire == g.wire + [frames[0]]
  {
    assert frames == [frames[0]] + frames[1..];
    DemuxCons(frames[0], frames[1..], Stdout);
    DemuxCons(frames[0], frames[1..], Stderr);
    hide Demux;
    steps := SendsOne(g, frames[0].kind, frames[0].payload.value);
    hide Schedule, After;
    var h := After(g, steps);
    assert PumpOf(h, Stdout).rest == Demux(frames[1..], Stdout) && PumpOf(h, Stderr).rest == Demux(frames[1..], Stderr);
  }

  /** Any sequence of well-formed chunks of what is left can come next on the wire. */
  lemma {:induction false} SendsAll(g: Guest, frames: seq<Body>) returns (steps: seq<GuestStep>)
    requires Holds(g, frames) && forall i :: 0 <= i < |frames| ==> StreamFrame(frames[i])
    ensures Schedule(g, steps) && Holds(After(g, steps), []) && After(g, steps).wire == g.wire + frames
    decreases |frames|
  {
    if frames == [] {
      steps := [];
      assert g.wire + frames == g.wire;
    } else {
      hide Schedule, After, Holds, StreamFrame;
      steps := SendsFirst(g, frames);
      var more := SendsAll(After(g, steps), frames[1..]);
      AfterBoth(g, steps, more);
      assert g.wire + [frames[0]] + frames[1..] == g.wire + frames;
      steps := steps + more;
    }
  }

  /** When both outputs are sent, both pumps can end and the terminal frame can go out. */
  lemma Finishes(g: Guest, exit: Exit) returns (steps: seq<GuestStep>)
    requires Ready(g) && g.out.rest == g.err.rest == []
    ensures Schedule(g, steps)
    ensures var h := After(g, steps); h.wire == g.wire + [Done(exit)] && h.finished && h.connected && !h.torn
  {
    var a, b, c := Eof(Stdout), Eof(Stderr), Finish(exit);
    steps := [a, b, c];
    assert steps[1..] == [b, c] && [b, c][1..] == [c] && [c][1..] == [];
    var g1 := Act(g, a);
    var g2 := Act(g1, b);
    assert Schedule(Act(g2, c), []);
    assert Schedule(g2, [c]) && Schedule(g1, [b, c]);
    assert After(g, steps) == After(g1, [b, c]) == After(g2, [c]) == After(Act(g2, c), []);
  }

  /** Every interleaving of every division of both outputs into chunks is one that can come, ended by
      the process's exit. */
  lemma EveryInterleavingCanCome(out: Bytes, err: Bytes, frames: seq<Body>, exit: Exit) returns (steps: seq<GuestStep>)
    requires forall i :: 0 <= i < |frames| ==> StreamFrame(frames[i])
    requires Demux(frames, Stdout) == out && Demux(frames, Stderr) == err
    ensures Schedule(Spawned(out, err), steps) && After(Spawned(out, err), steps).wire == frames + [Done(exit)]
  {
    steps := SendsAll(Spawned(out, err), frames);
    var g := After(Spawned(out, err), steps);
    var more := Finishes(g, exit);
    AfterBoth(Spawned(out, err), steps, more);
    assert [] + frames == frames;
    steps := steps + more;
  }

  /** At any chunk the send can fail, with or without a part of the frame left, and before any the
      read can. */
  lemma FailuresCanCome(g: Guest, kind: StreamKind, chunk: Bytes, tears: bool)
    requires Ready(g) && 1 <= |chunk| <= CHUNK_LEN && chunk <= PumpOf(g, kind).rest
    ensures var steps := [Read(kind, |chunk|), SendFails(kind, tears)];
            && Schedule(g, steps) && After(g, steps).wire == g.wire
            && !After(g, steps).connected && After(g, steps).torn == tears && PumpOf(After(g, steps), kind).state == SendFailed
    ensures Schedule(g, [ReadFails(kind)]) && PumpOf(After(g, [ReadFails(kind)]), kind).state == ReadFailed
  {
    var read, fails := Read(kind, |chunk|), SendFails(kind, tears);
    var steps := [read, fails];
    assert steps[1..] == [fails] && [fails][1..] == [];
    assert Schedule(Act(Act(g, read), fails), []);
    assert Schedule(Act(g, read), [fails]);
    assert After(g, steps) == After(Act(g, read), [fails]) == After(Act(Act(g, read), fails), []);
    assert [ReadFails(kind)][1..] == [];
    assert Schedule(Act(g, ReadFails(kind)), []);
    assert After(g, [ReadFails(kind)]) == After(Act(g, ReadFails(kind)), []);
  }

  predicate Stops(step: GuestStep, kind: StreamKind) {
    step == Eof(kind) || step == ReadFails(kind) || (step.SendFails? && step.kind == kind)
  }

  lemma {:induction false} StoppedStays(g: Guest, steps: seq<GuestStep>, kind: StreamKind)
    requires Schedule(g, steps) && PumpOf(g, kind).state != Running
    ensures PumpOf(After(g, steps), kind).state == PumpOf(g, kind).state
    ensures forall i :: 0 <= i < |steps| ==> !Stops(steps[i], kind)
    decreases |steps|
  {
    if steps != [] {
      StoppedStays(Act(g, steps[0]), steps[1..], kind);
      assert forall i :: 0 < i < |steps| ==> steps[i] == steps[1..][i - 1];
    }
  }

  lemma OneStepState(g: Guest, step: GuestStep, kind: StreamKind)
    requires Enabled(g, step) && PumpOf(g, kind).state == Running
    ensures PumpOf(Act(g, step), kind).state ==
              if step == Eof(kind) then AtEof
              else if step == ReadFails(kind) then ReadFailed
              else if step.SendFails? && step.kind == kind then SendFailed
              else Running
  {
  }

  /** The pump stands as one of the steps stopped it. */
  predicate StoppedBy(state: PumpState, steps: seq<GuestStep>, kind: StreamKind) {
    && (state == AtEof <==> Eof(kind) in steps)
    && (state == ReadFailed <==> ReadFails(kind) in steps)
    && (state == SendFailed <==> SendFails(kind, true) in steps || SendFails(kind, false) in steps)
  }

  lemma StoppedByFirst(state: PumpState, steps: seq<GuestStep>, kind: StreamKind)
    requires steps != [] && Stops(steps[0], kind) && forall i :: 0 < i < |steps| ==> !Stops(steps[i], kind)
    requires state == if steps[0] == Eof(kind) then AtEof else if steps[0] == ReadFails(kind) then ReadFailed else SendFailed
    ensures StoppedBy(state, steps, kind)
  {
  }

  lemma StoppedByLater(state: PumpState, steps: seq<GuestStep>, kind: StreamKind)
    requires steps != [] && !Stops(steps[0], kind) && StoppedBy(state, steps[1..], kind)
    ensures StoppedBy(state, steps, kind)
  {
    assert steps == [steps[0]] + steps[1..];
  }

  /** How a pump stands is how it stopped: at the end of its output, at a failed read, at a failed
      send, or not yet. */
  lemma {:induction false} StandsAsItStopped(g: Guest, steps: seq<GuestStep>, kind: StreamKind)
    requires Schedule(g, steps) && PumpOf(g, kind).state == Running
    ensures StoppedBy(PumpOf(After(g, steps), kind).state, steps, kind)
    decreases |steps|
  {
    if steps != [] {
      OneStepState(g, steps[0], kind);
      hide Act, Enabled, PumpOf, StoppedBy;
      if Stops(steps[0], kind) {
        StoppedStays(Act(g, steps[0]), steps[1..], kind);
        assert forall i :: 0 < i < |steps| ==> steps[i] == steps[1..][i - 1];
        StoppedByFirst(PumpOf(After(g, steps), kind).state, steps, kind);
      } else {
        StandsAsItStopped(Act(g, steps[0]), steps[1..], kind);
        StoppedByLater(PumpOf(After(g, steps), kind).state, steps, kind);
      }
    }
  }

  /** Whether the first send that failed left a part of its frame. */
  function FirstFailure(steps: seq<GuestStep>): Option<bool> {
    if steps == [] then None
    else if steps[0].SendFails? || steps[0].FinishFails? then Some(steps[0].tears)
    else FirstFailure(steps[1..])
  }

  /** The connection is down exactly after a failed send, and what the first one left stays. */
  lemma {:induction false} ConnectionAfter(g: Guest, steps: seq<GuestStep>)
    requires Schedule(g, steps)
    ensures After(g, steps).connected <==> g.connected && FirstFailure(steps) == None
    ensures After(g, steps).torn <==> g.torn || (g.connected && FirstFailure(steps) == Some(true))
    decreases |steps|
  {
    if steps != [] {
      ConnectionAfter(Act(g, steps[0]), steps[1..]);
    }
  }

  predicate IsFinish(step: GuestStep) {
    step.Finish? || step.FinishFails?
  }

  /** The guest is done exactly when it has tried to send the terminal frame, and the one frame of
      that kind on the wire is that of the process's exit. */
  lemma {:induction false} FinishedAfter(g: Guest, steps: seq<GuestStep>)
    requires Schedule(g, steps) && !g.finished && forall i :: 0 <= i < |g.wire| ==> !g.wire[i].Done?
    ensures After(g, steps).finished <==> exists i :: 0 <= i < |steps| && IsFinish(steps[i])
    ensures forall exit :: Done(exit) in After(g, steps).wire <==> Finish(exit) in steps
    ensures forall exit :: Finish(exit) in steps ==> After(g, steps).connected
    decreases |steps|
  {
    if steps != [] {
      if IsFinish(steps[0]) {
        NothingAfterFinish(Act(g, steps[0]), steps[1..]);
        assert steps == [steps[0]] + steps[1..];
      } else {
        FinishedAfter(Act(g, steps[0]), steps[1..]);
        assert forall i :: 0 <= i < |steps[1..]| ==> steps[1..][i] == steps[i + 1];
      }
    }
  }

  lemma NothingAfterFinish(g: Guest, steps: seq<GuestStep>)
    requires Schedule(g, steps) && g.finished && g.out.state != Running && g.err.state != Running
    ensures steps == []
  {
  }

  /** The host reports success exactly when the guest got to the end of the command and no send
      failed, and then with the process's exit. */
  lemma SucceedsExactlyWhenNoSendFails(out: Bytes, err: Bytes, steps: seq<GuestStep>, g: Guest)
    requires Reaches(out, err, steps, g)
    ensures HostEnds(g.wire, g.torn).Ok? <==> g.finished && FirstFailure(steps) == None
    ensures forall exit :: HostEnds(g.wire, g.torn) == Ok(exit) <==> Finish(exit) in steps
    ensures HostEnds(g.wire, g.torn) == Err(TornFrame) <==> FirstFailure(steps) == Some(true)
  {
    HostSeesPrefixes(out, err, steps, g);
    ReachesInv(out, err, steps, g);
    ConnectionAfter(Spawned(out, err), steps);
    FinishedAfter(Spawned(out, err), steps);
    if g.wire != [] && g.wire[|g.wire| - 1].Done? {
      WireReading(g.wire, |g.wire| - 1);
      assert g.wire[|g.wire| - 1] in g.wire;
    }
    forall exit | Done(exit) in g.wire
      ensures g.wire[|g.wire| - 1] == Done(exit)
    {
      var i :| 0 <= i < |g.wire| && g.wire[i] == Done(exit);
    }
  }

  // ------------------------------------------------------------- a frame's length

  const MAX_FRAME_LEN: nat := 8 * 1024 * 1024

  /** The JSON of an output frame around its base64 text, which is four characters for each three
      bytes begun. */
  function FrameLen(id: nat, kind: StreamKind, len: nat): nat {
    |"{\"id\":"| + |Text.Dec(id)|
    + |",\"body\":{\"kind\":\"exec_stream\",\"stream\":\""| + (match kind case Stdout => |"stdout"| case Stderr => |"stderr"|)
    + |"\",\"data_b64\":\""| + (len + 2) / 3 * 4 + |"\"}}"|
  }

  /** The JSON text of a stream frame, its payload in base64. */
  function FrameText(id: nat, kind: StreamKind, data64: string): string {
    "{\"id\":" + Text.Dec(id) + ",\"body\":{\"kind\":\"exec_stream\",\"stream\":\"" + (match kind case Stdout => "stdout" case Stderr => "stderr")
    + "\",\"data_b64\":\"" + data64 + "\"}}"
  }

  /** The length is that of the text, where three bytes or the rest of them make four characters. */
  lemma FrameLenIs(id: nat, kind: StreamKind, len: nat, groups: nat, data64: string)
    requires 3 * groups - 3 < len <= 3 * groups && |data64| == 4 * groups
    ensures FrameLen(id, kind, len) == |FrameText(id, kind, data64)|
  {
    assert (len + 2) / 3 == groups;
  }

  /** No chunk a pump reads comes near the frame limit, so a pump's send fails only with the
      connection. */
  lemma EveryChunkFits(id: nat, kind: StreamKind, len: nat)
    requires id <= U64_MAX && len <= CHUNK_LEN
    ensures FrameLen(id, kind, len) <= MAX_FRAME_LEN
  {
    Text.U64Length(id);
  }

  /** `handle_exec` when `run_exec` fails before it has spawned anything: what reaches the wire of
      request `id`. `write_frame` writes nothing of a frame over the limit, and the terminal frame
      is sent all the same. */
  function SpawnFailure(id: nat, argvEmpty: bool, reason: Bytes): seq<Body> {
    var text := Ascii("isopod-exec: ") + reason + Ascii("\n");
    if argvEmpty then [Error(Ascii("exec: ") + reason)]
    else
      (if FrameLen(id, Stderr, |text|) > MAX_FRAME_LEN then [] else [Stream(Stderr, Some(text))])
      + [Done(Exit(Some(127), None, false))]
  }

  /** An empty argument list is a malformed request: the host reports the guest's error. */
  lemma EmptyArgvIsReported(id: nat, reason: Bytes)
    ensures HostOutcome(SpawnFailure(id, true, reason)) == Err(GuestError(Ascii("exec: ") + reason))
  {
    EndsAt(SpawnFailure(id, true, reason), 0);
  }

  /** A command that cannot be started ends in one of three ways, by the length of its reason (the
      program name or working directory it quotes): exit 127 with the reason on stderr exactly when
      that fits one chunk; refused as oversize by the host when it fits a frame but no chunk; and
      exit 127 with nothing said when it does not fit a frame. */
  lemma SpawnFailureReported(id: nat, reason: Bytes)
    requires id <= U64_MAX
    ensures var wire, text := SpawnFailure(id, false, reason), Ascii("isopod-exec: ") + reason + Ascii("\n");
            if |text| <= 32768 then
              HostOutcome(wire) == Ok(Exit(Some(127), None, false)) && Demux(wire[..Accepted(wire)], Stderr) == text
            else if FrameLen(id, Stderr, |text|) <= 8388608 then
              HostOutcome(wire) == Err(OversizeChunk(Stderr, |text|))
            else
              HostOutcome(wire) == Ok(Exit(Some(127), None, false)) && Demux(wire[..Accepted(wire)], Stderr) == []
    ensures var text := Ascii("isopod-exec: ") + reason + Ascii("\n");
            |text| == |reason| + 14
            && (FrameLen(id, Stderr, |text|) > MAX_FRAME_LEN ==> |text| > CHUNK_LEN)
  {
    var text := Ascii("isopod-exec: ") + reason + Ascii("\n");
    var done := Done(Exit(Some(127), None, false));
    if FrameLen(id, Stderr, |text|) > MAX_FRAME_LEN {
      if |text| <= CHUNK_LEN {
        EveryChunkFits(id, Stderr, |text|);
      }
      assert SpawnFailure(id, false, reason) == [done];
    } else {
      var wire := SpawnFailure(id, false, reason);
      assert wire == [Stream(Stderr, Some(text)), done];
      assert wire[1..] == [done];
      if |text| <= CHUNK_LEN {
        assert Accepted(wire) == 1;
        assert wire[..1] == [] + [wire[0]];
        ChunksSnoc([], wire[0], Stderr);
        assert [] + text == text;
      }
    }
  }
}

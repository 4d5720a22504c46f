/** The jailed command line: `isopod-core` prints it, `isopod-fc` appends the VMM's own argv, and
    the `isopod-jail` launcher parses it. */
module JailCli {
  import opened Wrappers
  import Text

  const U32_MAX: nat := 0xFFFF_FFFF

  // ------------------------------------------------------------------ printing

  datatype Bind = Bind(path: string, writable: bool)

  /** `Bind::arg`. */
  function BindArg(b: Bind): string {
    b.path + [':'] + (if b.writable then "rw" else "ro")
  }

  function BindOptions(binds: seq<Bind>): seq<(string, string)> {
    seq(|binds|, i requires 0 <= i < |binds| => ("--bind", BindArg(binds[i])))
  }

  function DevOptions(devs: seq<string>): seq<(string, string)> {
    seq(|devs|, i requires 0 <= i < |devs| => ("--dev", devs[i]))
  }

  function JailOptions(cgroup: string, root: string, uid: nat, gid: nat, binds: seq<Bind>, devs: seq<string>): seq<(string, string)> {
    [("--cgroup", cgroup), ("--root", root), ("--uid", Text.Dec(uid)), ("--gid", Text.Dec(gid))]
    + BindOptions(binds) + DevOptions(devs)
  }

  /** Options as they stand on a command line. */
  function Flat(options: seq<(string, string)>): seq<string> {
    if options == [] then [] else Flat(options[..|options| - 1]) + [options[|options| - 1].0, options[|options| - 1].1]
  }

  /** The prefix `setup` prepares. */
  method SetupPrefix(jailBin: string, cgroup: string, root: string, uid: nat, gid: nat, binds: seq<Bind>, devs: seq<string>)
    returns (prefix: seq<string>)
    ensures prefix == [jailBin] + Flat(JailOptions(cgroup, root, uid, gid, binds, devs)) + ["--"]
  {
    ghost var done := [("--cgroup", cgroup), ("--root", root), ("--uid", Text.Dec(uid)), ("--gid", Text.Dec(gid))];
    prefix := [jailBin, "--cgroup", cgroup, "--root", root, "--uid", Text.Dec(uid), "--gid", Text.Dec(gid)];
    FlatOfFour(done);
    for i := 0 to |binds|
      invariant done == JailOptions(cgroup, root, uid, gid, binds[..i], [])
      invariant prefix == [jailBin] + Flat(done)
    {
      prefix := prefix + ["--bind"];
      prefix := prefix + [BindArg(binds[i])];
      FlatGrows(done, ("--bind", BindArg(binds[i])));
      done := done + [("--bind", BindArg(binds[i]))];
    }
    assert binds[..|binds|] == binds;
    for i := 0 to |devs|
      invariant done == JailOptions(cgroup, root, uid, gid, binds, devs[..i])
      invariant prefix == [jailBin] + Flat(done)
    {
      prefix := prefix + ["--dev"];
      prefix := prefix + [devs[i]];
      FlatGrows(done, ("--dev", devs[i]));
      done := done + [("--dev", devs[i])];
    }
    assert devs[..|devs|] == devs;
    prefix := prefix + ["--"];
  }

  lemma FlatGrows(options: seq<(string, string)>, o: (string, string))
    ensures Flat(options + [o]) == Flat(options) + [o.0, o.1]
  {
    assert (options + [o])[..|options|] == options;
  }

  lemma FlatOfFour(options: seq<(string, string)>)
    requires |options| == 4
    ensures Flat(options) == [options[0].0, options[0].1, options[1].0, options[1].1, options[2].0, options[2].1, options[3].0, options[3].1]
  {
    FlatGrows([], options[0]);
    FlatGrows([options[0]], options[1]);
    FlatGrows([options[0], options[1]], options[2]);
    FlatGrows([options[0], options[1], options[2]], options[3]);
    assert [] + [options[0]] == [options[0]];
    assert [options[0]] + [options[1]] == [options[0], options[1]];
    assert [options[0], options[1]] + [options[2]] == [options[0], options[1], options[2]];
    assert [options[0], options[1], options[2]] + [options[3]] == options;
  }

  /** `FcProcessConfig`. */
  datatype FcConfig = FcConfig(
    commandPrefix: seq<string>, firecrackerBin: string, apiSock: string,
    id: Option<string>, logPath: Option<string>, level: Option<string>, extraArgs: seq<string>)

  function Optional(flag: string, value: Option<string>): seq<string> {
    if value.Some? then [flag, value.value] else []
  }

  /** The argv without a prefix: what Firecracker itself must see, jailed or not. */
  function UnjailedArgv(c: FcConfig): (argv: seq<string>)
    ensures argv != []
  {
    [c.firecrackerBin, "--api-sock", c.apiSock]
    + Optional("--id", c.id) + Optional("--log-path", c.logPath) + Optional("--level", c.level) + c.extraArgs
  }

  /** `build_argv`. */
  method BuildArgv(c: FcConfig) returns (argv: seq<string>)
    ensures argv == c.commandPrefix + UnjailedArgv(c)
  {
    argv := c.commandPrefix;
    argv := argv + [c.firecrackerBin];
    argv := argv + ["--api-sock"];
    argv := argv + [c.apiSock];
    if c.id.Some? {
      argv := argv + ["--id"];
      argv := argv + [c.id.value];
    }
    if c.logPath.Some? {
      argv := argv + ["--log-path"];
      argv := argv + [c.logPath.value];
    }
    if c.level.Some? {
      argv := argv + ["--level"];
      argv := argv + [c.level.value];
    }
    argv := argv + c.extraArgs;
  }

  // ------------------------------------------------------------------- parsing

  /** The option variables of `Args::parse`. */
  datatype Options = Options(
    cgroup: Option<string>, root: Option<string>, uid: Option<nat>, gid: Option<nat>,
    binds: seq<Bind>, devs: seq<string>)

  const NO_OPTIONS := Options(None, None, None, None, [], [])

  datatype Args = Args(
    cgroup: Option<string>, root: string, uid: nat, gid: nat,
    binds: seq<Bind>, devs: seq<string>, program: seq<string>)

  datatype UsageError =
    | ValueRequired(flag: string) | InvalidUid(text: string) | InvalidGid(text: string)
    | UnknownArgument(text: string)
    | RootRequired | UidRequired | GidRequired | MissingProgram

  /** `parse_bind_spec`. */
  function ParseBindSpec(spec: string): Bind {
    match Text.RSplitOnce(spec, ':')
    case Some((path, mode)) =>
      if mode == "ro" then Bind(path, false) else if mode == "rw" then Bind(path, true) else Bind(spec, true)
    case None => Bind(spec, true)
  }

  predicate IsFlag(s: string) {
    s in {"--cgroup", "--root", "--uid", "--gid", "--bind", "--dev"}
  }

  /** One option and its value taken into account; a later one replaces or follows an earlier. */
  function Take(o: Options, flag: string, value: string): Result<Options, UsageError>
    requires IsFlag(flag)
  {
    if flag == "--cgroup" then Ok(o.(cgroup := Some(value)))
    else if flag == "--root" then Ok(o.(root := Some(value)))
    else if flag == "--uid" then
      var uid := Text.ParseUnsigned(value, U32_MAX);
      if uid.None? then Err(InvalidUid(value)) else Ok(o.(uid := uid))
    else if flag == "--gid" then
      var gid := Text.ParseUnsigned(value, U32_MAX);
      if gid.None? then Err(InvalidGid(value)) else Ok(o.(gid := gid))
    else if flag == "--bind" then Ok(o.(binds := o.binds + [ParseBindSpec(value)]))
    else Ok(o.(devs := o.devs + [value]))
  }

  /** What remains of a command line, given the options before it. */
  function ParseFrom(raw: seq<string>, o: Options): Result<(Options, seq<string>), UsageError> {
    if raw == [] then Ok((o, []))
    else if raw[0] == "--" then Ok((o, raw[1..]))
    else if !IsFlag(raw[0]) then Err(UnknownArgument(raw[0]))
    else if |raw| == 1 then Err(ValueRequired(raw[0]))
    else
      var taken := Take(o, raw[0], raw[1]);
      if taken.Err? then Err(taken.error) else ParseFrom(raw[2..], taken.value)
  }

  function Complete(o: Options, program: seq<string>): Result<Args, UsageError> {
    if o.root.None? then Err(RootRequired)
    else if o.uid.None? then Err(UidRequired)
    else if o.gid.None? then Err(GidRequired)
    else if program == [] then Err(MissingProgram)
    else Ok(Args(o.cgroup, o.root.value, o.uid.value, o.gid.value, o.binds, o.devs, program))
  }

  function ParseArgs(raw: seq<string>): Result<Args, UsageError> {
    var parsed := ParseFrom(raw, NO_OPTIONS);
    if parsed.Err? then Err(parsed.error) else Complete(parsed.value.0, parsed.value.1)
  }

  /** `Args::parse`. */
  method Parse(raw: seq<string>) returns (r: Result<Args, UsageError>)
    ensures r == ParseArgs(raw)
  {
    var o := NO_OPTIONS;
    var program: seq<string> := [];
    var i := 0;
    assert raw[0..] == raw;
    while i < |raw|
      invariant i <= |raw| && program == []
      invariant ParseFrom(raw, NO_OPTIONS) == ParseFrom(raw[i..], o)
    {
      var flag := raw[i];
      if flag == "--" {
        program := raw[i + 1..];
        assert ParseFrom(raw[i..], o) == Ok((o, program));
        break;
      }
      if !IsFlag(flag) {
        return Err(UnknownArgument(flag));
      }
      if i + 1 >= |raw| {
        return Err(ValueRequired(flag));
      }
      var value := raw[i + 1];
      var taken := Take(o, flag, value);
      assert raw[i..][0] == flag && raw[i..][1] == value && raw[i..][2..] == raw[i + 2..];
      if taken.Err? {
        return Err(taken.error);
      }
      o := taken.value;
      i := i + 2;
    }
    r := Complete(o, program);
  }

  /** An option's value is refused only when it should be a number that fits 32 bits and is not. */
  lemma TakeFailsFor(o: Options, flag: string, value: string)
    requires IsFlag(flag)
    ensures Take(o, flag, value).Err? <==>
              (flag == "--uid" || flag == "--gid") && !exists v: nat, k: nat :: v <= 4294967295 && Text.IsNumeralOf(value, v, k)
    ensures Take(o, flag, value).Err? ==>
              Take(o, flag, value).error == if flag == "--uid" then InvalidUid(value) else InvalidGid(value)
  {
    var parsed := Text.ParseUnsigned(value, U32_MAX);
    forall v: nat, k: nat | v <= 4294967295 && Text.IsNumeralOf(value, v, k)
      ensures parsed == Some(v)
    {
      Text.ParsesExactly(value, U32_MAX, v);
    }
    if parsed.Some? {
      Text.ParsesExactly(value, U32_MAX, parsed.value);
    }
  }

  /** What is missing at the end, in the order it is looked for. */
  lemma CompleteFailsFor(o: Options, program: seq<string>)
    ensures Complete(o, program).Err? <==> o.root.None? || o.uid.None? || o.gid.None? || program == []
    ensures Complete(o, program).Err? ==>
              var error := Complete(o, program).error;
              && (error == RootRequired <==> o.root.None?)
              && (error == UidRequired <==> o.root.Some? && o.uid.None?)
              && (error == GidRequired <==> o.root.Some? && o.uid.Some? && o.gid.None?)
              && (error == MissingProgram <==> o.root.Some? && o.uid.Some? && o.gid.Some? && program == [])
  {
  }

  // ------------------------------------------------------------ what is accepted

  /** The options of a list taken in order. */
  function TakeAll(o: Options, options: seq<(string, string)>): Result<Options, UsageError>
    requires forall i :: 0 <= i < |options| ==> IsFlag(options[i].0)
  {
    if options == [] then Ok(o)
    else
      var before := TakeAll(o, options[..|options| - 1]);
      if before.Err? then before else Take(before.value, options[|options| - 1].0, options[|options| - 1].1)
  }

  ghost predicate Flags(options: seq<(string, string)>) {
    forall i :: 0 <= i < |options| ==> IsFlag(options[i].0)
  }

  lemma {:induction false} ParseOfOptions(o: Options, options: seq<(string, string)>, rest: seq<string>)
    requires Flags(options) && TakeAll(o, options).Ok?
    ensures ParseFrom(Flat(options) + rest, o) == ParseFrom(rest, TakeAll(o, options).value)
  {
    if options == [] {
      assert Flat(options) + rest == rest;
    } else {
      var last := options[|options| - 1];
      ParseOfOptions(o, options[..|options| - 1], [last.0, last.1] + rest);
      assert Flat(options) + rest == Flat(options[..|options| - 1]) + ([last.0, last.1] + rest);
      assert ([last.0, last.1] + rest)[2..] == rest;
    }
  }

  /** The options a successful parse read, one pair for each two words before the program. */
  function Read(raw: seq<string>): seq<(string, string)> {
    if |raw| < 2 || raw[0] == "--" then [] else [(raw[0], raw[1])] + Read(raw[2..])
  }

  lemma {:induction false} FlatOfCons(o: (string, string), options: seq<(string, string)>)
    ensures Flat([o] + options) == [o.0, o.1] + Flat(options)
  {
    if options == [] {
      assert [o] + options == [o] && [o][..0] == [];
    } else {
      FlatOfCons(o, options[..|options| - 1]);
      assert ([o] + options)[..|options|] == [o] + options[..|options| - 1];
    }
  }

  lemma {:induction false} TakeAllOfCons(o: Options, first: (string, string), options: seq<(string, string)>)
    requires IsFlag(first.0) && Flags(options) && Take(o, first.0, first.1).Ok?
    ensures Flags([first] + options)
    ensures TakeAll(o, [first] + options) == TakeAll(Take(o, first.0, first.1).value, options)
  {
    if options == [] {
      assert [first] + options == [first] && [first][..0] == [];
    } else {
      TakeAllOfCons(o, first, options[..|options| - 1]);
      assert ([first] + options)[..|options|] == [first] + options[..|options| - 1];
    }
  }

  lemma {:induction false} ReadIsAll(raw: seq<string>, o: Options)
    requires ParseFrom(raw, o).Ok? && ParseFrom(raw, o).value.1 != []
    ensures Flags(Read(raw)) && raw == Flat(Read(raw)) + ["--"] + ParseFrom(raw, o).value.1
    ensures TakeAll(o, Read(raw)) == Ok(ParseFrom(raw, o).value.0)
  {
    if raw[0] != "--" {
      var taken := Take(o, raw[0], raw[1]).value;
      ReadIsAll(raw[2..], taken);
      FlatOfCons((raw[0], raw[1]), Read(raw[2..]));
      TakeAllOfCons(o, (raw[0], raw[1]), Read(raw[2..]));
      assert raw == [raw[0], raw[1]] + raw[2..];
    }
  }

  ghost predicate Writes(raw: seq<string>, options: seq<(string, string)>, args: Args) {
    && raw == Flat(options) + ["--"] + args.program
    && Flags(options) && TakeAll(NO_OPTIONS, options).Ok?
    && Complete(TakeAll(NO_OPTIONS, options).value, args.program) == Ok(args)
  }

  lemma WrittenParses(raw: seq<string>, options: seq<(string, string)>, args: Args)
    requires Writes(raw, options, args)
    ensures ParseArgs(raw) == Ok(args)
  {
    ParseOfOptions(NO_OPTIONS, options, ["--"] + args.program);
    assert raw == Flat(options) + (["--"] + args.program);
    assert (["--"] + args.program)[1..] == args.program;
  }

  /** A command line parses to `args` exactly when it is a list of flag-value pairs, `--` and the
      program, and the pairs taken in order give those options. */
  lemma AcceptedExactlyWhen(raw: seq<string>, args: Args)
    ensures ParseArgs(raw) == Ok(args) <==> exists options :: Writes(raw, options, args)
  {
    if ParseArgs(raw) == Ok(args) {
      ReadIsAll(raw, NO_OPTIONS);
      assert Writes(raw, Read(raw), args);
    }
    forall options | Writes(raw, options, args)
      ensures ParseArgs(raw) == Ok(args)
    {
      WrittenParses(raw, options, args);
    }
  }

  // ------------------------------------------------------------------ round trip

  /** The mode a bind was printed with comes back, whatever colons its path holds. */
  lemma BindRoundTrip(b: Bind)
    ensures ParseBindSpec(BindArg(b)) == b
  {
    Text.RSplitOnceOf(b.path, ':', if b.writable then "rw" else "ro");
  }

  /** What any bind text means: a last `:ro` or `:rw` is a mode, and a text without is a writable
      path as it stands. */
  lemma BindSpecMeans(spec: string)
    ensures forall path :: spec == path + ":ro" ==> ParseBindSpec(spec) == Bind(path, false)
    ensures forall path :: spec == path + ":rw" ==> ParseBindSpec(spec) == Bind(path, true)
    ensures (forall path :: spec != path + ":ro" && spec != path + ":rw") ==> ParseBindSpec(spec) == Bind(spec, true)
  {
    forall path: string | spec == path + ":ro"
      ensures ParseBindSpec(spec) == Bind(path, false)
    {
      Text.RSplitOnceOf(path, ':', "ro");
      assert path + ":ro" == path + [':'] + "ro";
    }
    forall path: string | spec == path + ":rw"
      ensures ParseBindSpec(spec) == Bind(path, true)
    {
      Text.RSplitOnceOf(path, ':', "rw");
      assert path + ":rw" == path + [':'] + "rw";
    }
    var split := Text.RSplitOnce(spec, ':');
    if split.Some? {
      assert split.value.1 == "ro" ==> spec == split.value.0 + ":ro";
      assert split.value.1 == "rw" ==> spec == split.value.0 + ":rw";
    }
  }

  lemma TakeLast(o: Options, options: seq<(string, string)>, before: Options)
    requires options != [] && Flags(options) && TakeAll(o, options[..|options| - 1]) == Ok(before)
    ensures TakeAll(o, options) == Take(before, options[|options| - 1].0, options[|options| - 1].1)
  {
  }

  lemma TakeBind(o: Options, b: Bind)
    ensures Take(o, "--bind", BindArg(b)) == Ok(o.(binds := o.binds + [b]))
  {
    BindRoundTrip(b);
  }

  lemma {:induction false} TakeBinds(o: Options, binds: seq<Bind>)
    ensures Flags(BindOptions(binds))
    ensures TakeAll(o, BindOptions(binds)) == Ok(o.(binds := o.binds + binds))
  {
    if binds == [] {
      assert o.binds + [] == o.binds;
    } else {
      var n := |binds| - 1;
      var before := o.(binds := o.binds + binds[..n]);
      hide TakeAll, Take;
      TakeBinds(o, binds[..n]);
      assert BindOptions(binds)[..n] == BindOptions(binds[..n]);
      TakeLast(o, BindOptions(binds), before);
      TakeBind(before, binds[n]);
      assert o.binds + binds == before.binds + [binds[n]];
    }
  }

  lemma {:induction false} TakeDevs(o: Options, devs: seq<string>)
    ensures Flags(DevOptions(devs))
    ensures TakeAll(o, DevOptions(devs)) == Ok(o.(devs := o.devs + devs))
  {
    if devs == [] {
      assert o.devs + [] == o.devs;
    } else {
      var n := |devs| - 1;
      var before := o.(devs := o.devs + devs[..n]);
      TakeDevs(o, devs[..n]);
      assert DevOptions(devs)[..n] == DevOptions(devs[..n]);
      TakeLast(o, DevOptions(devs), before);
      assert o.devs + devs == before.devs + [devs[n]];
    }
  }

  lemma {:induction false} TakeAllInTwo(o: Options, a: seq<(string, string)>, b: seq<(string, string)>)
    requires Flags(a) && Flags(b) && TakeAll(o, a).Ok?
    ensures Flags(a + b) && TakeAll(o, a + b) == TakeAll(TakeAll(o, a).value, b)
  {
    if b == [] {
      assert a + b == a;
    } else {
      TakeAllInTwo(o, a, b[..|b| - 1]);
      assert (a + b)[..|a + b| - 1] == a + b[..|b| - 1];
    }
  }

  lemma TakeScalars(cgroup: string, root: string, uid: nat, gid: nat)
    requires uid <= U32_MAX && gid <= U32_MAX
    ensures var options := [("--cgroup", cgroup), ("--root", root), ("--uid", Text.Dec(uid)), ("--gid", Text.Dec(gid))];
            Flags(options) && TakeAll(NO_OPTIONS, options) == Ok(Options(Some(cgroup), Some(root), Some(uid), Some(gid), [], []))
  {
    Text.ParseOfDec(uid, U32_MAX);
    Text.ParseOfDec(gid, U32_MAX);
    var c, r, u, g := ("--cgroup", cgroup), ("--root", root), ("--uid", Text.Dec(uid)), ("--gid", Text.Dec(gid));
    assert [c, r, u, g][..3] == [c, r, u] && [c, r, u][..2] == [c, r] && [c, r][..1] == [c] && [c][..0] == [];
    assert TakeAll(NO_OPTIONS, [c]) == Ok(NO_OPTIONS.(cgroup := Some(cgroup)));
    assert TakeAll(NO_OPTIONS, [c, r]) == Ok(NO_OPTIONS.(cgroup := Some(cgroup), root := Some(root)));
    assert TakeAll(NO_OPTIONS, [c, r, u]) == Ok(NO_OPTIONS.(cgroup := Some(cgroup), root := Some(root), uid := Some(uid)));
  }

  lemma TakeJailOptions(cgroup: string, root: string, uid: nat, gid: nat, binds: seq<Bind>, devs: seq<string>)
    requires uid <= U32_MAX && gid <= U32_MAX
    ensures var options := JailOptions(cgroup, root, uid, gid, binds, devs);
            Flags(options) && TakeAll(NO_OPTIONS, options) == Ok(Options(Some(cgroup), Some(root), Some(uid), Some(gid), binds, devs))
  {
    var scalars := [("--cgroup", cgroup), ("--root", root), ("--uid", Text.Dec(uid)), ("--gid", Text.Dec(gid))];
    TakeScalars(cgroup, root, uid, gid);
    var o := TakeAll(NO_OPTIONS, scalars).value;
    TakeBinds(o, binds);
    TakeAllInTwo(NO_OPTIONS, scalars, BindOptions(binds));
    TakeDevs(o.(binds := binds), devs);
    TakeAllInTwo(NO_OPTIONS, scalars + BindOptions(binds), DevOptions(devs));
    assert [] + binds == binds && [] + devs == devs;
  }

  /** Parsing undoes printing for the whole jailed command line, and the program the launcher
      executes is the unjailed argv. */
  method Launch(jailBin: string, cgroup: string, root: string, uid: nat, gid: nat, binds: seq<Bind>, devs: seq<string>, c: FcConfig)
    returns (r: Result<Args, UsageError>)
    requires uid <= U32_MAX && gid <= U32_MAX
    ensures r == Ok(Args(Some(cgroup), root, uid, gid, binds, devs, UnjailedArgv(c)))
  {
    var prefix := SetupPrefix(jailBin, cgroup, root, uid, gid, binds, devs);
    var argv := BuildArgv(c.(commandPrefix := prefix));
    r := Parse(argv[1..]);
    var options := JailOptions(cgroup, root, uid, gid, binds, devs);
    TakeJailOptions(cgroup, root, uid, gid, binds, devs);
    var args := Args(Some(cgroup), root, uid, gid, binds, devs, UnjailedArgv(c));
    WrittenParses(argv[1..], options, args);
  }
}

/** How the worker is configured and how it turns its configuration into the
    converter's command line (`PyMdownWorker.__init__` and `parse_options`).
    The command line is read back by `Decode`, which is the converter's view
    of it: every option the worker was asked for can be recovered from it. */
module Options {
  import opened Wrappers

  /** The keyword arguments a caller hands to the worker. `None` stands for a
      key that was not passed; for `title`, `basepath` and `settings`, whose
      default is `None`, that is the same as passing Python `None`. Booleans
      that were not passed are `false`, which is what
      `bool(kwargs.get(k, False))` makes of them. No caller passes an
      explicit `None` for `critic_mode` or `patterns`, which would give no
      critic argument and a TypeError respectively. */
  datatype Kwargs = Kwargs(
    paths: seq<string>,
    buffer: seq<string>,
    patterns: Option<seq<string>>,
    criticMode: Option<string>,
    criticDump: bool,
    title: Option<string>,
    basepath: Option<string>,
    batch: bool,
    preview: bool,
    settings: Option<string>,
    quiet: bool,
    callback: bool,
    plain: bool,
    forceStdout: bool,
    forceNoTemplate: bool)

  /** No keyword argument at all. */
  const NoKwargs: Kwargs :=
    Kwargs([], [], None, None, false, None, None, false, false, None, false, false, false, false, false)

  /** The worker's fields once its constructor has applied its defaults. */
  datatype WorkerConfig = WorkerConfig(
    binary: string,
    paths: seq<string>,
    buffer: seq<string>,
    patterns: seq<string>,
    criticMode: string,
    criticDump: bool,
    title: Option<string>,
    basepath: string,
    batch: bool,
    preview: bool,
    settings: Option<string>,
    quiet: bool,
    callback: bool,
    plain: bool,
    forceStdout: bool,
    forceNoTemplate: bool)

  /** Python's `str()` of an optional string: `None` prints as "None". */
  function PyStrOf(v: Option<string>): string {
    match v
    case None => "None"
    case Some(s) => s
  }

  /** Truthiness of an optional string: neither `None` nor empty. */
  predicate Truthy(v: Option<string>) {
    v.Some? && v.value != ""
  }

  /** `PyMdownWorker.__init__`: `binary` is the platform's entry of the
      `binary` setting ("" when unset) and `defaultPatterns` the
      `batch_convert_patterns` setting. */
  function NewWorker(kw: Kwargs, binary: string, defaultPatterns: seq<string>): (w: WorkerConfig)
    ensures w.criticMode == (if kw.criticMode.Some? then kw.criticMode.value else "view")
    ensures w.patterns == (if kw.patterns.Some? then kw.patterns.value else defaultPatterns)
    ensures kw.basepath.None? ==> w.basepath == "None"
  {
    WorkerConfig(
      binary, kw.paths, kw.buffer, kw.patterns.GetOr(defaultPatterns),
      kw.criticMode.GetOr("view"), kw.criticDump, kw.title, PyStrOf(kw.basepath),
      kw.batch, kw.preview, kw.settings, kw.quiet, kw.callback, kw.plain,
      kw.forceStdout, kw.forceNoTemplate)
  }

  /** The critic-mark arguments the converter understands. */
  datatype CriticArg = AcceptArg | RejectArg | ViewArg | NoCriticArg

  /** What a command line asks the converter for. `flags` lists, in order,
      the switches named by `FlagNames`. */
  datatype Argv = Argv(
    binary: string,
    title: Option<string>,
    basepath: Option<string>,
    settings: Option<string>,
    critic: CriticArg,
    flags: seq<bool>)

  /** The on/off switches, in the order `parse_options` appends them. */
  const FlagNames: seq<string> :=
    ["-b", "-P", "--force-stdout", "--force-no-template", "-p", "-q", "--critic-dump"]

  /** An `Argv` with one bit per switch. */
  predicate WellFormed(a: Argv) {
    |a.flags| == |FlagNames|
  }

  /** The critic argument a `critic_mode` value selects: "accept", "reject"
      and "view" are recognised, anything else adds nothing. */
  function CriticFor(mode: string): (c: CriticArg)
    ensures c == NoCriticArg <==> mode != "accept" && mode != "reject" && mode != "view"
  {
    if mode == "accept" then AcceptArg
    else if mode == "reject" then RejectArg
    else if mode == "view" then ViewArg
    else NoCriticArg
  }

  /** What a configured worker asks the converter for: a title only when it
      is truthy, a base path whenever `str(basepath)` is non-empty, a
      settings file only when truthy, and each switch when its field is set. */
  function Requested(w: WorkerConfig): (a: Argv)
    ensures WellFormed(a)
  {
    Argv(
      w.binary,
      if Truthy(w.title) then w.title else None,
      if w.basepath != "" then Some(w.basepath) else None,
      if Truthy(w.settings) then w.settings else None,
      CriticFor(w.criticMode),
      [w.batch, w.plain, w.forceStdout, w.forceNoTemplate, w.preview, w.quiet, w.criticDump])
  }

  /** A flag followed by its value, when there is a value. */
  function ValueArgs(flag: string, v: Option<string>): seq<string> {
    match v
    case None => []
    case Some(x) => [flag, x]
  }

  function CriticArgs(c: CriticArg): seq<string> {
    match c
    case AcceptArg => ["-a"]
    case RejectArg => ["-r"]
    case ViewArg => ["-r", "-a"]
    case NoCriticArg => []
  }

  /** The switches whose bit is set, in order. */
  function FlagArgs(names: seq<string>, bits: seq<bool>): (r: seq<string>)
    requires |names| == |bits|
  {
    if names == [] then []
    else (if bits[0] then [names[0]] else []) + FlagArgs(names[1..], bits[1..])
  }

  /** The command line for an `Argv`, in the order `parse_options` builds it. */
  function Encode(a: Argv): seq<string>
    requires WellFormed(a)
  {
    [a.binary] + EncodeArgs(a)
  }

  /** Everything after the binary. */
  function EncodeArgs(a: Argv): seq<string>
    requires WellFormed(a)
  {
    ValueArgs("--title", a.title)
      + (ValueArgs("--basepath", a.basepath)
      + (ValueArgs("-s", a.settings)
      + (CriticArgs(a.critic)
      + FlagArgs(FlagNames, a.flags))))
  }

  const SettingsCrash := "unsupported operand type(s) for +=: 'builtin_function_or_method' and 'list'"

  /** `parse_options` as written: no binary gives an empty command; a truthy
      `settings` reaches `cmd.append += [...]`, which raises; otherwise the
      binary comes first and the converter reads back exactly the options
      the worker holds. */
  function ParseOptions(w: WorkerConfig): (r: Result<seq<string>, Exception>)
    ensures r.Failure? <==> w.binary != "" && Truthy(w.settings)
    ensures r.Success? && w.binary == "" ==> r.value == []
    ensures r.Success? && w.binary != "" ==>
      && |r.value| > 0 && r.value[0] == w.binary
      && Decode(r.value) == Some(Requested(w))
      && Requested(w).settings.None?
  {
    if w.binary == "" then Success([])
    else if Truthy(w.settings) then Failure(TypeError(SettingsCrash))
    else
      DecodeEncode(Requested(w));
      Success(Encode(Requested(w)))
  }

  /** `parse_options` as evidently intended, with `cmd += ["-s", settings]`:
      it never raises, and the converter also reads back the settings file. */
  function IntendedParseOptions(w: WorkerConfig): (cmd: seq<string>)
    ensures w.binary == "" <==> cmd == []
    ensures cmd != [] ==> cmd[0] == w.binary && Decode(cmd) == Some(Requested(w))
    ensures ParseOptions(w).Success? ==> ParseOptions(w).value == cmd
  {
    if w.binary == "" then []
    else
      DecodeEncode(Requested(w));
      Encode(Requested(w))
  }

  /** Reads `flag value` off the front of `args`, if it is there. */
  function TakeValue(args: seq<string>, flag: string): (Option<string>, seq<string>) {
    if |args| >= 2 && args[0] == flag then (Some(args[1]), args[2..]) else (None, args)
  }

  function TakeCritic(args: seq<string>): (CriticArg, seq<string>) {
    if |args| >= 2 && args[0] == "-r" && args[1] == "-a" then (ViewArg, args[2..])
    else if |args| >= 1 && args[0] == "-r" then (RejectArg, args[1..])
    else if |args| >= 1 && args[0] == "-a" then (AcceptArg, args[1..])
    else (NoCriticArg, args)
  }

  /** Reads the switches `names`, each optional, in order. */
  function TakeFlags(names: seq<string>, args: seq<string>): (r: (seq<bool>, seq<string>))
    ensures |r.0| == |names|
  {
    if names == [] then ([], args)
    else
      var hit := |args| > 0 && args[0] == names[0];
      var next := TakeFlags(names[1..], if hit then args[1..] else args);
      ([hit] + next.0, next.1)
  }

  /** The converter's reading of a command line; `None` when it is empty or
      something is left over. */
  function Decode(cmd: seq<string>): Option<Argv> {
    if cmd == [] then None else DecodeArgs(cmd[0], cmd[1..])
  }

  /** The reading of everything after the binary. */
  function DecodeArgs(binary: string, args: seq<string>): Option<Argv> {
    var title := TakeValue(args, "--title");
    var basepath := TakeValue(title.1, "--basepath");
    var settings := TakeValue(basepath.1, "-s");
    var critic := TakeCritic(settings.1);
    var flags := TakeFlags(FlagNames, critic.1);
    if flags.1 == [] then Some(Argv(binary, title.0, basepath.0, settings.0, critic.0, flags.0))
    else None
  }

  /** No two switches share a name. */
  predicate Distinct(names: seq<string>) {
    forall i, j :: 0 <= i < j < |names| ==> names[i] != names[j]
  }

  lemma FlagNamesDistinct()
    ensures Distinct(FlagNames)
    ensures "--title" !in FlagNames && "--basepath" !in FlagNames && "-s" !in FlagNames
    ensures "-a" !in FlagNames && "-r" !in FlagNames
  {
  }

  /** Reading the switches back from their encoding gives the same bits. */
  lemma {:induction false} TakeFlagArgs(names: seq<string>, bits: seq<bool>)
    requires |names| == |bits| && Distinct(names)
    ensures TakeFlags(names, FlagArgs(names, bits)) == (bits, [])
  {
    if names != [] {
      var tail := FlagArgs(names[1..], bits[1..]);
      TakeFlagArgs(names[1..], bits[1..]);
      if bits[0] {
        assert ([names[0]] + tail)[1..] == tail;
      } else {
        assert FlagArgs(names, bits) == tail;
        if tail != [] {
          FlagArgsNames(names[1..], bits[1..]);
          assert tail[0] in tail;
          assert tail[0] in names[1..];
        }
      }
      assert bits == [bits[0]] + bits[1..];
    }
  }

  /** Only switch names appear among the switches. */
  lemma {:induction false} FlagArgsNames(names: seq<string>, bits: seq<bool>)
    requires |names| == |bits|
    ensures forall x :: x in FlagArgs(names, bits) ==> x in names
  {
    if names != [] {
      FlagArgsNames(names[1..], bits[1..]);
    }
  }

  /** `args` does not begin with `flag`. */
  predicate StartsOtherThan(args: seq<string>, flag: string) {
    args == [] || args[0] != flag
  }

  /** A value is read back when present and nothing is read when the next
      argument is some other flag. */
  lemma TakeValueArgs(flag: string, v: Option<string>, rest: seq<string>)
    requires StartsOtherThan(rest, flag)
    ensures TakeValue(ValueArgs(flag, v) + rest, flag) == (v, rest)
  {
    if v.Some? {
      assert (ValueArgs(flag, v) + rest)[2..] == rest;
    } else {
      assert ValueArgs(flag, v) + rest == rest;
    }
  }

  /** The critic argument is read back when what follows is not itself a
      critic argument. */
  lemma TakeCriticArgs(c: CriticArg, rest: seq<string>)
    requires StartsOtherThan(rest, "-a") && StartsOtherThan(rest, "-r")
    ensures TakeCritic(CriticArgs(c) + rest) == (c, rest)
  {
    match c
    case ViewArg => assert (CriticArgs(c) + rest)[2..] == rest;
    case RejectArg => assert (CriticArgs(c) + rest)[1..] == rest;
    case AcceptArg => assert (CriticArgs(c) + rest)[1..] == rest;
    case NoCriticArg => assert CriticArgs(c) + rest == rest;
  }

  /** The switches are read back, and they begin with none of the option
      names that precede them. */
  lemma FlagArgsRead(bits: seq<bool>)
    requires |bits| == |FlagNames|
    ensures TakeFlags(FlagNames, FlagArgs(FlagNames, bits)) == (bits, [])
    ensures var f := FlagArgs(FlagNames, bits);
      && StartsOtherThan(f, "-a") && StartsOtherThan(f, "-r") && StartsOtherThan(f, "-s")
      && StartsOtherThan(f, "--basepath") && StartsOtherThan(f, "--title")
  {
    FlagNamesDistinct();
    TakeFlagArgs(FlagNames, bits);
    var f := FlagArgs(FlagNames, bits);
    FlagArgsNames(FlagNames, bits);
    if f != [] {
      assert f[0] in f;
    }
  }

  /** `Decode` undoes `Encode`: every option is recovered, so each flag
      appears once exactly when it was asked for. */
  lemma DecodeEncode(a: Argv)
    requires WellFormed(a)
    ensures Decode(Encode(a)) == Some(a)
  {
    assert Encode(a)[1..] == EncodeArgs(a);
    DecodeArgsEncode(a);
  }

  /** The arguments after the binary are read back stage by stage. */
  lemma DecodeArgsEncode(a: Argv)
    requires WellFormed(a)
    ensures DecodeArgs(a.binary, EncodeArgs(a)) == Some(a)
  {
    var flags := FlagArgs(FlagNames, a.flags);
    var c := CriticArgs(a.critic) + flags;
    var s := ValueArgs("-s", a.settings) + c;
    var b := ValueArgs("--basepath", a.basepath) + s;
    FlagArgsRead(a.flags);
    TakeCriticArgs(a.critic, flags);
    assert StartsOtherThan(c, "-s");
    TakeValueArgs("-s", a.settings, c);
    assert StartsOtherThan(s, "--basepath");
    TakeValueArgs("--basepath", a.basepath, s);
    assert StartsOtherThan(b, "--title");
    TakeValueArgs("--title", a.title, b);
  }

  /** Whatever `TakeFlags` reads was the encoding of the bits it returns. */
  lemma {:induction false} TakeFlagsSplits(names: seq<string>, args: seq<string>)
    ensures args == FlagArgs(names, TakeFlags(names, args).0) + TakeFlags(names, args).1
  {
    if names != [] {
      var hit := |args| > 0 && args[0] == names[0];
      var rest := if hit then args[1..] else args;
      var next := TakeFlags(names[1..], rest);
      TakeFlagsSplits(names[1..], rest);
      assert TakeFlags(names, args) == ([hit] + next.0, next.1);
      FlagArgsCons(names, hit, next.0);
      var head: seq<string> := if hit then [names[0]] else [];
      HeadSplits(args, names[0], hit);
      ConcatAssoc(head, FlagArgs(names[1..], next.0), next.1);
    }
  }

  /** One more bit adds its switch in front, or nothing. */
  lemma FlagArgsCons(names: seq<string>, b: bool, bits: seq<bool>)
    requires |names| == |bits| + 1
    ensures FlagArgs(names, [b] + bits) == (if b then [names[0]] else []) + FlagArgs(names[1..], bits)
  {
    assert ([b] + bits)[1..] == bits;
  }

  /** The switch just read, then what is left. */
  lemma HeadSplits(args: seq<string>, name: string, hit: bool)
    requires hit == (|args| > 0 && args[0] == name)
    ensures args == (if hit then [name] else []) + (if hit then args[1..] else args)
  {
    if hit {
      assert args == [name] + args[1..];
    }
  }

  lemma ConcatAssoc<T>(a: seq<T>, b: seq<T>, c: seq<T>)
    ensures a + b + c == a + (b + c)
  {
  }

  /** Whatever `TakeValue` and `TakeCritic` read was the encoding of what
      they return. */
  lemma TakeValueSplits(args: seq<string>, flag: string)
    ensures args == ValueArgs(flag, TakeValue(args, flag).0) + TakeValue(args, flag).1
  {
    if |args| >= 2 && args[0] == flag {
      assert args == [flag, args[1]] + args[2..];
    }
  }

  lemma TakeCriticSplits(args: seq<string>)
    ensures args == CriticArgs(TakeCritic(args).0) + TakeCritic(args).1
  {
    if |args| >= 2 && args[0] == "-r" && args[1] == "-a" {
      assert args == ["-r", "-a"] + args[2..];
    } else if |args| >= 1 {
      assert args == [args[0]] + args[1..];
    }
  }

  /** `Encode` undoes `Decode`: a command line the converter can read is the
      encoding of what it reads, so the encoding is the only one. */
  lemma EncodeDecode(cmd: seq<string>)
    requires Decode(cmd).Some?
    ensures WellFormed(Decode(cmd).value) && Encode(Decode(cmd).value) == cmd
  {
    EncodeArgsDecode(cmd[0], cmd[1..]);
    assert cmd == [cmd[0]] + cmd[1..];
  }

  /** The arguments after the binary are the encoding of what is read from them. */
  lemma EncodeArgsDecode(binary: string, args: seq<string>)
    requires DecodeArgs(binary, args).Some?
    ensures WellFormed(DecodeArgs(binary, args).value)
    ensures EncodeArgs(DecodeArgs(binary, args).value) == args
  {
    var title := TakeValue(args, "--title");
    var basepath := TakeValue(title.1, "--basepath");
    var settings := TakeValue(basepath.1, "-s");
    var critic := TakeCritic(settings.1);
    var flags := TakeFlags(FlagNames, critic.1);
    TakeFlagsSplits(FlagNames, critic.1);
    TakeCriticSplits(settings.1);
    TakeValueSplits(basepath.1, "-s");
    TakeValueSplits(title.1, "--basepath");
    TakeValueSplits(args, "--title");
    var a := Argv(binary, title.0, basepath.0, settings.0, critic.0, flags.0);
    assert flags.1 == [];
    assert DecodeArgs(binary, args) == Some(a);
    var f := FlagArgs(FlagNames, flags.0);
    assert critic.1 == f + [] == f;
  }
}

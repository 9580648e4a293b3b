/** The buffer commands: `PyMdownCommand.setup`, the mode list and choice of
    `PyMdownConvertCommand`, the options its `convert` sets for each target,
    and the mode normalisation and options of `PyMdownCriticCommand`. */
module Commands {
  import opened Wrappers
  import opened Paths
  import opened Helpers
  import opened Options
  import Worker

  /** `setup`: the options every buffer conversion starts from. The title
      is never `None` because `parse_file_name` always returns one. */
  function Setup(fileName: Option<string>, fs: FileSystem, modeSetting: string, alternateSettings: Option<string>)
    : (kw: Kwargs)
    ensures kw.title.Some? && kw.callback
    ensures kw.basepath.None? <==> !SourceExists(fileName, fs)
    ensures (kw.title.value, kw.basepath) == ParseFileName(fileName, fs)
    ensures kw.criticMode == Some(modeSetting) && kw.settings == alternateSettings
    ensures !kw.batch && !kw.preview && !kw.quiet && !kw.plain && !kw.forceStdout && !kw.forceNoTemplate
    ensures !kw.criticDump && kw.paths == [] && kw.buffer == [] && kw.patterns.None?
  {
    var parsed := ParseFileName(fileName, fs);
    NoKwargs.(title := Some(parsed.0), basepath := parsed.1, criticMode := Some(modeSetting),
              settings := alternateSettings, callback := true)
  }

  /** An unsaved buffer is converted with the title "Untitled" and, through
      `str(None)`, the base path "None". */
  lemma UntitledArgv(fs: FileSystem, modeSetting: string, binary: string, defaults: seq<string>)
    requires binary != ""
    ensures var w := NewWorker(Setup(None, fs, modeSetting, None), binary, defaults);
      && ParseOptions(w).Success?
      && Decode(ParseOptions(w).value).value.title == Some("Untitled")
      && Decode(ParseOptions(w).value).value.basepath == Some("None")
  {
  }

  /** The conversion modes in the order the command offers them. */
  const KnownModes: seq<string> := ["template", "plain", "no_template"]

  function ModeLabel(mode: string): string {
    if mode == "template" then "Template"
    else if mode == "plain" then "Plain HTML"
    else "No Template"
  }

  /** A mode's position among `KnownModes`. */
  function Rank(mode: string): nat {
    if mode == "template" then 0 else if mode == "plain" then 1 else 2
  }

  /** `self.modes` and the matching quick-panel entries. */
  datatype ModeChoice = ModeChoice(modes: seq<string>, labels: seq<string>)

  /** The quick-panel entries for a list of modes. */
  function LabelsOf(modes: seq<string>): (labels: seq<string>)
    ensures |labels| == |modes|
    ensures forall i :: 0 <= i < |modes| ==> labels[i] == ModeLabel(modes[i])
  {
    if modes == [] then [] else [ModeLabel(modes[0])] + LabelsOf(modes[1..])
  }

  /** `[m]` when `m` was requested, `[]` otherwise. */
  function IfRequested(m: string, modes: seq<string>): seq<string> {
    if m in modes then [m] else []
  }

  /** The recognised modes that were requested, each once, in the order of
      `KnownModes`, with their labels alongside. */
  function SelectModes(modes: seq<string>): (mc: ModeChoice)
    ensures |mc.modes| == |mc.labels|
    ensures forall i :: 0 <= i < |mc.modes| ==> mc.labels[i] == ModeLabel(mc.modes[i])
    ensures forall m :: m in mc.modes <==> m in modes && m in KnownModes
  {
    var ms := IfRequested("template", modes) + IfRequested("plain", modes) + IfRequested("no_template", modes);
    ModeChoice(ms, LabelsOf(ms))
  }

  /** The modes are offered in the order of `KnownModes`, each at most once. */
  lemma SelectModesOrdered(modes: seq<string>)
    ensures var ms := SelectModes(modes).modes;
      forall i, j :: 0 <= i < j < |ms| ==> Rank(ms[i]) < Rank(ms[j])
  {
    var t := IfRequested("template", modes);
    var p := IfRequested("plain", modes);
    var n := IfRequested("no_template", modes);
    var ms := t + p + n;
    assert |t| <= 1 && |p| <= 1 && |n| <= 1;
    forall i, j | 0 <= i < j < |ms|
      ensures Rank(ms[i]) < Rank(ms[j])
    {
      var ri := if i < |t| then 0 else if i < |t| + |p| then 1 else 2;
      var rj := if j < |t| then 0 else if j < |t| + |p| then 1 else 2;
      assert Rank(ms[i]) == ri;
      assert Rank(ms[j]) == rj;
    }
  }

  /** What `PyMdownConvertCommand.run` does next. */
  datatype Plan = NoWindow | Prompt(choice: ModeChoice) | Launch(plain: bool, ignoreTemplate: bool)

  /** `PyMdownConvertCommand.run`: without a window nothing happens; with
      more than one recognised mode the user is asked; otherwise the
      conversion starts at once in the one mode requested (template when
      none is), so plain and no-template are never both set. */
  function ConvertRun(hasWindow: bool, modes: seq<string>): (p: Plan)
    ensures p.NoWindow? <==> !hasWindow
    ensures p.Prompt? <==> hasWindow && |SelectModes(modes).modes| > 1
    ensures p.Prompt? ==> p.choice == SelectModes(modes)
    ensures p.Launch? ==> !(p.plain && p.ignoreTemplate)
    ensures p.Launch? ==> (p.plain <==> "plain" in modes) && (p.ignoreTemplate <==> "no_template" in modes)
  {
    if !hasWindow then NoWindow
    else
      var mc := SelectModes(modes);
      if |mc.labels| > 1 then Prompt(mc)
      else
        assert "plain" in modes && "no_template" in modes ==> "plain" in mc.modes && "no_template" in mc.modes;
        Launch("plain" in modes, "no_template" in modes)
  }

  const IndexOutOfRange := "list index out of range"

  /** `process_choice`: a negative value is a cancelled panel and does
      nothing; a value past the list raises; otherwise the chosen mode is
      launched. */
  function ProcessChoice(mc: ModeChoice, value: int): (r: Result<Option<(bool, bool)>, Exception>)
    ensures value < 0 ==> r == Success(None)
    ensures value >= |mc.modes| ==> r.Failure?
    ensures 0 <= value < |mc.modes| ==> r.Success? && r.value.Some? && !(r.value.value.0 && r.value.value.1)
  {
    if value < 0 then Success(None)
    else if value >= |mc.modes| then Failure(IndexError(IndexOutOfRange))
    else
      var mode := mc.modes[value];
      Success(Some((mode == "plain", mode == "no_template")))
  }

  /** Picking a mode from the panel launches exactly what requesting that
      mode alone would have launched. */
  lemma ChoiceIsSingleMode(modes: seq<string>, i: int)
    requires 0 <= i < |SelectModes(modes).modes|
    ensures var mc := SelectModes(modes);
      var single := ConvertRun(true, [mc.modes[i]]);
      single.Launch? && ProcessChoice(mc, i) == Success(Some((single.plain, single.ignoreTemplate)))
  {
    var mc := SelectModes(modes);
    assert mc.modes[i] in mc.modes;
    assert mc.modes[i] in KnownModes;
  }

  /** `convert`: the options each target sets on top of `setup`'s. Each
      switch the code sets to `True` is or-ed into the one already there.
      Also returns `save_src_exists`, which only the "save" target records. */
  function ConvertOptions(kw: Kwargs, target: string, plain: bool, ignoreTemplate: bool,
                          fileName: Option<string>, fs: FileSystem, buffer: seq<string>)
    : (r: (Kwargs, Option<bool>))
    ensures r.1.Some? <==> target == "save"
    ensures r.1.Some? ==> r.1.value == SourceExists(fileName, fs)
  {
    var srcExists := SourceExists(fileName, fs);
    var browser := target == "browser";
    var stdout := WantsStdout(target, fileName, fs);
    var options := kw.(
      preview := kw.preview || browser,
      quiet := kw.quiet || !browser,
      forceStdout := kw.forceStdout || stdout,
      plain := kw.plain || plain,
      forceNoTemplate := kw.forceNoTemplate || (!plain && ignoreTemplate),
      buffer := buffer);
    (options, if target == "save" then Some(srcExists) else None)
  }

  /** What `convert` sets: the buffer; `force_stdout` when the HTML must
      come back; `preview` for the browser and `quiet` for every other
      target; `plain` when plain, and `force_no_template` only when not
      plain. Every other option is left as `setup` made it. */
  lemma ConvertSwitches(kw: Kwargs, target: string, plain: bool, ignoreTemplate: bool,
                        fileName: Option<string>, fs: FileSystem, buffer: seq<string>)
    ensures var r := ConvertOptions(kw, target, plain, ignoreTemplate, fileName, fs, buffer).0;
      && r.buffer == buffer
      && r.forceStdout == (kw.forceStdout || WantsStdout(target, fileName, fs))
      && r.preview == (kw.preview || target == "browser")
      && r.quiet == (kw.quiet || target != "browser")
      && r.plain == (kw.plain || plain)
      && r.forceNoTemplate == (kw.forceNoTemplate || (ignoreTemplate && !plain))
      && r.(buffer := kw.buffer, preview := kw.preview, quiet := kw.quiet, forceStdout := kw.forceStdout,
            plain := kw.plain, forceNoTemplate := kw.forceNoTemplate) == kw
  {
  }

  /** Whether the converter must print the HTML instead of saving it: for
      the clipboard and a new tab, and for saving a buffer with no file. */
  predicate WantsStdout(target: string, fileName: Option<string>, fs: FileSystem) {
    target == "sublime" || target == "clipboard"
      || (target == "save" && !SourceExists(fileName, fs))
  }

  /** The switches a buffer conversion passes: `-p` for the browser and
      `-q` for every other target, `--force-stdout` when the HTML must come
      back, `-P` for plain, `--force-no-template` only when not plain, and
      never `-b` or `--critic-dump`; the title and base path come from the
      file name. */
  lemma ConvertArgv(fileName: Option<string>, fs: FileSystem, modeSetting: string, alternateSettings: Option<string>,
                    target: string, plain: bool, ignoreTemplate: bool, buffer: seq<string>,
                    binary: string, defaults: seq<string>)
    requires binary != "" && !Truthy(alternateSettings)
    ensures var kw := ConvertOptions(Setup(fileName, fs, modeSetting, alternateSettings), target, plain, ignoreTemplate,
                                     fileName, fs, buffer).0;
      var cmd := ParseOptions(NewWorker(kw, binary, defaults));
      var parsed := ParseFileName(fileName, fs);
      && cmd.Success?
      && Decode(cmd.value).Some?
      && Decode(cmd.value).value.flags ==
           [false, plain, WantsStdout(target, fileName, fs), ignoreTemplate && !plain,
            target == "browser", target != "browser", false]
      && Decode(cmd.value).value.title == (if parsed.0 != "" then Some(parsed.0) else None)
      && Decode(cmd.value).value.basepath == (if PyStrOf(parsed.1) != "" then Some(PyStrOf(parsed.1)) else None)
  {
    var kw := ConvertOptions(Setup(fileName, fs, modeSetting, alternateSettings), target, plain, ignoreTemplate,
                             fileName, fs, buffer).0;
    ConvertSwitches(Setup(fileName, fs, modeSetting, alternateSettings), target, plain, ignoreTemplate,
                    fileName, fs, buffer);
    var w := NewWorker(kw, binary, defaults);
    assert Decode(ParseOptions(w).value) == Some(Requested(w));
    assert Requested(w).flags == [false, plain, WantsStdout(target, fileName, fs), ignoreTemplate && !plain,
                       target == "browser", target != "browser", false];
  }

  const CriticModes: seq<string> := ["view", "accept", "reject"]

  /** `PyMdownCriticCommand.run`: an unknown mode falls back to "view". */
  function CriticMode(mode: string): (m: string)
    ensures m in CriticModes
    ensures mode in CriticModes ==> m == mode
  {
    if mode in CriticModes then mode else "view"
  }

  /** `PyMdownCriticCommand.convert`: dump critic marks quietly to standard
      output in the chosen mode, over the whole buffer. */
  function CriticOptions(kw: Kwargs, mode: string, buffer: seq<string>): (r: Kwargs)
    ensures r.criticDump && r.quiet && r.forceStdout && r.buffer == buffer
    ensures r.criticMode == Some(CriticMode(mode))
  {
    kw.(criticDump := true, quiet := true, forceStdout := true, criticMode := Some(CriticMode(mode)), buffer := buffer)
  }

  /** A critic run asks for `-a` on "accept", `-r` on "reject" and `-r -a`
      on anything else, with `--force-stdout`, `-q` and `--critic-dump`,
      whatever mode the settings name. */
  lemma CriticArgv(fileName: Option<string>, fs: FileSystem, modeSetting: string, alternateSettings: Option<string>,
                   mode: string, buffer: seq<string>, binary: string, defaults: seq<string>)
    requires binary != "" && !Truthy(alternateSettings)
    ensures var kw := CriticOptions(Setup(fileName, fs, modeSetting, alternateSettings), mode, buffer);
      var cmd := ParseOptions(NewWorker(kw, binary, defaults));
      && cmd.Success?
      && Decode(cmd.value).Some?
      && Decode(cmd.value).value.critic ==
           (if mode == "accept" then AcceptArg else if mode == "reject" then RejectArg else ViewArg)
      && Decode(cmd.value).value.flags == [false, false, true, false, false, true, true]
  {
    var kw := CriticOptions(Setup(fileName, fs, modeSetting, alternateSettings), mode, buffer);
    var w := NewWorker(kw, binary, defaults);
    assert w.criticMode == CriticMode(mode);
    assert Decode(ParseOptions(w).value) == Some(Requested(w));
    assert CriticFor(CriticMode(mode)) ==
      (if mode == "accept" then AcceptArg else if mode == "reject" then RejectArg else ViewArg);
  }

  /** A conversion with an alternate settings file never runs: the worker's
      thread dies in `parse_options` before it looks at the flag, while the
      intended command line carries `-s` and the file. */
  lemma AlternateSettingsCrash(fileName: Option<string>, fs: FileSystem, modeSetting: string, settingsFile: string,
                               target: string, buffer: seq<string>, binary: string, defaults: seq<string>,
                               working: bool, env: Worker.Env)
    requires binary != "" && settingsFile != ""
    ensures var kw := ConvertOptions(Setup(fileName, fs, modeSetting, Some(settingsFile)), target, false, false,
                                     fileName, fs, buffer).0;
      var w := NewWorker(kw, binary, defaults);
      && Worker.Run(w, working, env) == Failure(TypeError(SettingsCrash))
      && Decode(IntendedParseOptions(w)).value.settings == Some(settingsFile)
  {
    var kw := ConvertOptions(Setup(fileName, fs, modeSetting, Some(settingsFile)), target, false, false,
                             fileName, fs, buffer).0;
    assert kw.settings == Some(settingsFile);
    var w := NewWorker(kw, binary, defaults);
    assert w.binary == binary && w.settings == Some(settingsFile);
    assert ParseOptions(w) == Failure(TypeError(SettingsCrash));
    assert Requested(w).settings == Some(settingsFile);
  }
}

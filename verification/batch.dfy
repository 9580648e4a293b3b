/** The batch commands: classifying the selected paths (`determine_type`),
    gating and labelling the menu entry (`is_enabled`, `description`),
    starting the worker (`run`), and reading custom patterns
    (`PyMdownCustomBatchCommand.process_patterns`). */
module Batch {
  import opened Wrappers
  import opened Paths
  import opened PyStr
  import opened Options
  import Worker

  datatype BatchType = BatchEmpty | BatchFile | BatchDir | BatchMixed | BatchMissing

  /** The loop variables of `determine_type`. */
  datatype Scan = Scan(kind: BatchType, hasDirs: bool, hasFiles: bool, missing: bool)

  const Start := Scan(BatchEmpty, false, false, false)

  /** The `for path in paths` loop, stopping at the first missing path and
      at the first moment both a file and a directory have been seen. */
  function ScanPaths(kinds: seq<PathKind>, s: Scan): Scan {
    if kinds == [] then s
    else if kinds[0] == Missing then s.(kind := BatchMissing, missing := true)
    else
      var s1 := if kinds[0] == File then s.(hasFiles := true, kind := BatchFile)
                else s.(hasDirs := true, kind := BatchDir);
      if s1.hasDirs && s1.hasFiles then s1.(kind := BatchMixed)
      else ScanPaths(kinds[1..], s1)
  }

  /** `determine_type` as written, including its final test
      `missing and kind == BATCH_FILE`, which `DeadBranch` shows can never
      succeed. */
  function DetermineType(kinds: seq<PathKind>): BatchType {
    var s := ScanPaths(kinds, Start);
    if s.missing && s.kind == BatchFile then BatchMissing
    else if s.kind == BatchMissing && s.hasDirs then BatchDir
    else s.kind
  }

  /** Where the scan stops for a missing path: the index of the first one,
      or the length when no path is missing. */
  function FirstMissing(kinds: seq<PathKind>): (n: nat)
    ensures n <= |kinds|
    ensures forall i :: 0 <= i < n ==> kinds[i] != Missing
    ensures n < |kinds| ==> kinds[n] == Missing
  {
    if kinds == [] || kinds[0] == Missing then 0 else 1 + FirstMissing(kinds[1..])
  }

  /** The classification stated directly on the paths before the first
      missing one: a file and a directory there make it mixed; otherwise a
      missing path makes it missing unless a directory came first, in which
      case it counts as a directory run; with nothing missing it is empty,
      all files or all directories. */
  function Classify(kinds: seq<PathKind>): BatchType {
    var seen := kinds[..FirstMissing(kinds)];
    if File in seen && Dir in seen then BatchMixed
    else if FirstMissing(kinds) < |kinds| then (if Dir in seen then BatchDir else BatchMissing)
    else if kinds == [] then BatchEmpty
    else if Dir in seen then BatchDir
    else BatchFile
  }

  /** The scan state that has seen files (`f`) and directories (`d`) but
      not both, nothing missing. */
  function Seen(f: bool, d: bool): Scan
    requires !(f && d)
  {
    Scan(if f then BatchFile else if d then BatchDir else BatchEmpty, d, f, false)
  }

  /** The scan from a state that has seen files `f` and directories `d`:
      with `seen` the paths before the first missing one, it ends mixed if
      both kinds turn up, missing if a missing path is reached, and otherwise
      with the kind of what it saw; its flags record what it saw. */
  lemma {:induction false} ScanPathsFrom(kinds: seq<PathKind>, f: bool, d: bool)
    requires !(f && d)
    ensures var seen := kinds[..FirstMissing(kinds)];
      var f' := f || File in seen;
      var d' := d || Dir in seen;
      var s := ScanPaths(kinds, Seen(f, d));
      && s.hasFiles == f' && s.hasDirs == d'
      && (f' && d' ==> s.kind == BatchMixed && !s.missing)
      && (!(f' && d') && FirstMissing(kinds) < |kinds| ==> s.kind == BatchMissing && s.missing)
      && (!(f' && d') && FirstMissing(kinds) == |kinds| ==> s == Seen(f', d'))
  {
    if kinds != [] && kinds[0] != Missing {
      var rest := kinds[1..];
      assert kinds[..FirstMissing(kinds)] == [kinds[0]] + rest[..FirstMissing(rest)];
      if kinds[0] == File {
        if !d {
          ScanPathsFrom(rest, true, false);
        }
      } else {
        if !f {
          ScanPathsFrom(rest, false, true);
        }
      }
    }
  }

  /** `determine_type` agrees with the direct classification on every
      sequence of path kinds. */
  lemma DetermineTypeClassifies(kinds: seq<PathKind>)
    ensures DetermineType(kinds) == Classify(kinds)
  {
    ScanPathsFrom(kinds, false, false);
    assert Seen(false, false) == Start;
  }

  /** The test `missing and kind == BATCH_FILE` is never true: a missing
      path stops the scan with the kind set to missing. */
  lemma DeadBranch(kinds: seq<PathKind>)
    ensures ScanPaths(kinds, Start).missing ==> ScanPaths(kinds, Start).kind == BatchMissing
  {
    ScanPathsFrom(kinds, false, false);
    assert Seen(false, false) == Start;
  }

  /** The asymmetry of the missing-path rule: after directories only, a
      missing path still gives a directory run; after files only, or with
      nothing before it, it gives a missing one. */
  lemma MissingAfter(before: seq<PathKind>, after: seq<PathKind>, k: PathKind)
    requires |before| > 0 && forall i :: 0 <= i < |before| ==> before[i] == k
    requires k != Missing
    ensures DetermineType(before + [Missing] + after) == (if k == Dir then BatchDir else BatchMissing)
    ensures DetermineType([Missing] + after) == BatchMissing
  {
    var kinds := before + [Missing] + after;
    DetermineTypeClassifies(kinds);
    DetermineTypeClassifies([Missing] + after);
    FirstMissingAt(before, after);
    assert kinds[..|before|] == before;
    assert before[0] in before;
    assert k == File ==> Dir !in before;
    assert k == Dir ==> File !in before;
  }

  /** In `before + [Missing] + after` with nothing missing in `before`, the
      first missing path is the one after `before`. */
  lemma {:induction false} FirstMissingAt(before: seq<PathKind>, after: seq<PathKind>)
    requires forall i :: 0 <= i < |before| ==> before[i] != Missing
    ensures FirstMissing(before + [Missing] + after) == |before|
  {
    if before != [] {
      assert (before + [Missing] + after)[1..] == before[1..] + [Missing] + after;
      FirstMissingAt(before[1..], after);
    }
  }

  /** `is_enabled`: only when no job is running and the paths are all files
      or all directories (a directory run also covers the missing-path case
      above). */
  function IsEnabled(working: bool, kinds: seq<PathKind>): (r: bool)
    ensures r <==> !working && (Classify(kinds) == BatchFile || Classify(kinds) == BatchDir)
  {
    DetermineTypeClassifies(kinds);
    if !working then
      var t := DetermineType(kinds);
      !(t == BatchMissing || t == BatchMixed || t == BatchEmpty)
    else false
  }

  /** The labels a batch command puts in its menu entries. */
  datatype Labels = Labels(convert: string, preview: string)

  const BatchLabels := Labels("Convert", "Preview")
  const CustomBatchLabels := Labels("Custom Convert", "Custom Preview")

  function Label(labels: Labels, preview: bool): string {
    if preview then labels.preview else labels.convert
  }

  /** The menu template `description` picks before formatting it. */
  function DescriptionTemplate(working: bool, kinds: seq<PathKind>): string {
    if !working then
      var t := DetermineType(kinds);
      if t == BatchMissing || t == BatchMixed || t == BatchEmpty then "NA"
      else if t == BatchFile then "%s File(s)..."
      else "%s Folder(s)..."
    else "NA"
  }

  /** The template is "NA" exactly when the entry is disabled, and
      otherwise the file or folder caption for the classification. */
  lemma TemplateFor(working: bool, kinds: seq<PathKind>)
    ensures DescriptionTemplate(working, kinds) ==
      if !IsEnabled(working, kinds) then "NA"
      else if Classify(kinds) == BatchFile then "%s File(s)..."
      else "%s Folder(s)..."
  {
    DetermineTypeClassifies(kinds);
  }

  /** What Python's `%` makes of the three templates. */
  lemma FormatTemplates(caption: string)
    ensures Format("NA", caption) == Failure(TypeError(NotAllConverted))
    ensures Format("%s File(s)...", caption) == Success(caption + " File(s)...")
    ensures Format("%s Folder(s)...", caption) == Success(caption + " Folder(s)...")
  {
    FormatWithoutConversion("NA", caption);
    FormatCaption(" File(s)...", caption);
    FormatCaption(" Folder(s)...", caption);
  }

  /** A template made of `%s` and a literal tail. */
  lemma FormatCaption(tail: string, caption: string)
    requires '%' !in tail
    ensures Format("%s" + tail, caption) == Success(caption + tail)
  {
    FormatOneConversion("", tail, caption);
    assert "" + "%s" + tail == "%s" + tail;
    assert "" + caption + tail == caption + tail;
  }

  /** `description` as written: the template is always formatted with the
      label, and Python's `'NA' % label` raises because the template has no
      conversion to take the label. */
  function DescriptionAsWritten(working: bool, kinds: seq<PathKind>, preview: bool, labels: Labels)
    : (r: Result<string, Exception>)
    ensures r.Failure? <==> !IsEnabled(working, kinds)
    ensures r.Failure? ==> r.error == TypeError(NotAllConverted)
  {
    TemplateFor(working, kinds);
    FormatTemplates(Label(labels, preview));
    Format(DescriptionTemplate(working, kinds), Label(labels, preview))
  }

  /** A disabled batch entry: the menu asks for its caption and gets an
      exception instead of "NA". */
  lemma DescriptionRaisesWhenBusy(kinds: seq<PathKind>, preview: bool, labels: Labels)
    ensures DescriptionAsWritten(true, kinds, preview, labels).Failure?
  {
  }

  /** `description` as evidently intended: "NA" when the entry is disabled,
      otherwise the file or folder caption filled with the label. Where the
      written version succeeds the two agree. */
  function Description(working: bool, kinds: seq<PathKind>, preview: bool, labels: Labels): (r: string)
    ensures !IsEnabled(working, kinds) ==> r == "NA"
    ensures IsEnabled(working, kinds) && Classify(kinds) == BatchFile ==> r == Label(labels, preview) + " File(s)..."
    ensures IsEnabled(working, kinds) && Classify(kinds) == BatchDir ==> r == Label(labels, preview) + " Folder(s)..."
    ensures DescriptionAsWritten(working, kinds, preview, labels).Success? ==>
      DescriptionAsWritten(working, kinds, preview, labels).value == r
  {
    DetermineTypeClassifies(kinds);
    TemplateFor(working, kinds);
    FormatTemplates(Label(labels, preview));
    var t := DetermineType(kinds);
    if !IsEnabled(working, kinds) then "NA"
    else if t == BatchFile then Label(labels, preview) + " File(s)..."
    else Label(labels, preview) + " Folder(s)..."
  }

  /** `PyMdownBatchCommand.run`: nothing happens while a job runs; otherwise
      the worker gets the paths, `batch`, `preview`, the callback, and the
      patterns when some were passed. The configured critic mode travels
      under the key `critic_accept`, which the worker never reads. */
  function BatchRun(working: bool, paths: seq<string>, patterns: Option<seq<string>>, preview: bool,
                    configuredCriticMode: string): (r: Option<Kwargs>)
    ensures r.Some? <==> !working
    ensures r.Some? ==> r.value.paths == paths && r.value.batch && r.value.preview == preview
                        && r.value.patterns == patterns && r.value.criticMode.None?
  {
    if working then None
    else Some(NoKwargs.(paths := paths, batch := true, preview := preview, callback := true, patterns := patterns))
  }

  /** Whatever critic mode is configured, a batch job runs in "view" mode
      (`-r -a`), with `-b`, with `--basepath None` and no title, and with
      `-p` exactly when previewing. */
  lemma BatchArgv(paths: seq<string>, patterns: Option<seq<string>>, preview: bool,
                  configuredCriticMode: string, binary: string, defaultPatterns: seq<string>)
    requires binary != ""
    ensures var kw := BatchRun(false, paths, patterns, preview, configuredCriticMode).value;
      var cmd := ParseOptions(NewWorker(kw, binary, defaultPatterns));
      && cmd.Success?
      && Decode(cmd.value) == Some(Argv(binary, None, Some("None"), None, ViewArg,
                                        [true, false, false, false, preview, false, false]))
  {
  }

  /** What one piece of the input contributes: its stripped form, unless
      that is empty, or ends in `*` and is not confirmed. */
  function KeepOne(piece: string, confirm: string -> bool): seq<string> {
    var p := Strip(piece);
    if p == "" then [] else if EndsWith(p, '*') then (if confirm(p) then [p] else []) else [p]
  }

  /** The part of `process_patterns` that builds the list: each stripped
      piece that is not empty is kept, a piece ending in `*` only if the
      user confirms it. */
  function KeepPatterns(pieces: seq<string>, confirm: string -> bool): seq<string> {
    if pieces == [] then []
    else KeepOne(pieces[0], confirm) + KeepPatterns(pieces[1..], confirm)
  }

  /** A piece survives exactly when its stripped form is not empty and, if
      it ends in `*`, is confirmed. */
  predicate Kept(piece: string, confirm: string -> bool) {
    Strip(piece) != "" && (EndsWith(Strip(piece), '*') ==> confirm(Strip(piece)))
  }

  /** One piece contributes its stripped form exactly when it survives. */
  lemma KeepOneMembers(piece: string, confirm: string -> bool)
    ensures forall p :: p in KeepOne(piece, confirm) <==> Kept(piece, confirm) && Strip(piece) == p
  {
  }

  /** One piece contributes its stripped form, once, exactly when it
      survives, and nothing otherwise. */
  lemma KeepOneKept(piece: string, confirm: string -> bool)
    ensures KeepOne(piece, confirm) == if Kept(piece, confirm) then [Strip(piece)] else []
  {
  }

  /** Keeping distributes over concatenation: each piece contributes in
      place, so the kept patterns follow the input order and a piece given
      twice is kept twice. */
  lemma {:induction false} KeepPatternsConcat(a: seq<string>, b: seq<string>, confirm: string -> bool)
    ensures KeepPatterns(a + b, confirm) == KeepPatterns(a, confirm) + KeepPatterns(b, confirm)
  {
    if a != [] {
      assert (a + b)[1..] == a[1..] + b;
      KeepPatternsConcat(a[1..], b, confirm);
    } else {
      assert a + b == b;
    }
  }

  /** The patterns kept are exactly the stripped forms of the pieces that
      survive. */
  lemma {:induction false} KeepPatternsMembers(pieces: seq<string>, confirm: string -> bool)
    ensures forall p :: p in KeepPatterns(pieces, confirm) <==>
      exists piece :: piece in pieces && Kept(piece, confirm) && Strip(piece) == p
  {
    if pieces != [] {
      var tail := pieces[1..];
      KeepPatternsMembers(tail, confirm);
      KeepOneMembers(pieces[0], confirm);
      forall p
        ensures p in KeepPatterns(pieces, confirm) <==>
          exists piece :: piece in pieces && Kept(piece, confirm) && Strip(piece) == p
      {
        if p in KeepPatterns(tail, confirm) {
          var piece :| piece in tail && Kept(piece, confirm) && Strip(piece) == p;
          assert piece in pieces;
        }
        if exists piece :: piece in pieces && Kept(piece, confirm) && Strip(piece) == p {
          var piece :| piece in pieces && Kept(piece, confirm) && Strip(piece) == p;
          if piece != pieces[0] {
            assert piece in tail;
          }
        }
      }
    }
  }

  /** A piece that is already stripped and survives. */
  predicate Clean(piece: string, confirm: string -> bool) {
    Strip(piece) == piece && Kept(piece, confirm)
  }

  /** A clean piece is kept as it is. */
  lemma KeepOneClean(piece: string, confirm: string -> bool)
    requires Clean(piece, confirm)
    ensures KeepOne(piece, confirm) == [piece]
  {
  }

  /** Pieces that are already clean and confirmed are all kept, in order. */
  lemma {:induction false} KeepPatternsClean(pieces: seq<string>, confirm: string -> bool)
    requires forall i :: 0 <= i < |pieces| ==> Clean(pieces[i], confirm)
    ensures KeepPatterns(pieces, confirm) == pieces
  {
    if pieces != [] {
      var tail := pieces[1..];
      forall i | 0 <= i < |tail|
        ensures Clean(tail[i], confirm)
      {
        assert tail[i] == pieces[i + 1];
      }
      KeepPatternsClean(tail, confirm);
      KeepOneClean(pieces[0], confirm);
      assert pieces == [pieces[0]] + tail;
    }
  }

  /** `process_patterns`: the input is split on `;`; the batch command is
      run with the surviving patterns only when the input is not empty and
      at least one pattern survives. `confirm` answers the dialog shown for
      a pattern ending in `*`. */
  function ProcessPatterns(value: string, confirm: string -> bool): (r: Option<seq<string>>)
    ensures r.Some? ==> value != "" && |r.value| > 0
    ensures r.Some? ==> forall p :: p in r.value <==>
      exists piece :: piece in Split(value, ';') && Kept(piece, confirm) && Strip(piece) == p
    ensures r.Some? ==> forall p :: p in r.value ==> ';' !in p && p != "" && Strip(p) == p
    ensures r.None? ==> value == "" || forall piece :: piece in Split(value, ';') ==> !Kept(piece, confirm)
    ensures r.Some? ==> r.value == KeepPatterns(Split(value, ';'), confirm)
  {
    if value == "" then None
    else
      var ps := KeepPatterns(Split(value, ';'), confirm);
      KeepPatternsMembers(Split(value, ';'), confirm);
      KeepPatternsShape(Split(value, ';'), confirm);
      assert forall piece :: piece in Split(value, ';') && Kept(piece, confirm) ==> Strip(piece) in ps;
      if |ps| > 0 then Some(ps) else None
  }

  /** Nothing is merged or reordered: a pattern given twice is dispatched
      twice. */
  lemma RepeatedPatternKeptTwice(confirm: string -> bool)
    ensures ProcessPatterns("a;a", confirm) == Some(["a", "a"])
  {
    assert "a;a" == "a" + [';'] + "a";
    SplitAfter("a", "a", ';');
    SplitFree("a", ';');
    assert Split("a;a", ';') == ["a", "a"];
    assert Strip("a") == "a";
    KeepPatternsConcat(["a"], ["a"], confirm);
    assert ["a"] + ["a"] == ["a", "a"];
  }

  /** A piece made only of the Mongolian vowel separator strips to nothing
      under Python 3.3, so nothing is dispatched. */
  lemma SeparatorOnlyDispatchesNothing(confirm: string -> bool)
    ensures ProcessPatterns("\U{180E}", confirm).None?
  {
    SplitFree("\U{180E}", ';');
    assert Split("\U{180E}", ';') == ["\U{180E}"];
    assert TrimStart("\U{180E}") == "";
    assert Strip("\U{180E}") == "";
  }

  /** A kept piece is stripped, non-empty and free of `;`. */
  lemma KeepOneShape(piece: string, confirm: string -> bool)
    requires ';' !in piece
    ensures forall p :: p in KeepOne(piece, confirm) ==> ';' !in p && p != "" && Strip(p) == p
  {
    StripIdempotent(piece);
    StripKeepsOut(piece, ';');
  }

  /** Every kept pattern is a stripped, non-empty piece. */
  lemma {:induction false} KeepPatternsShape(pieces: seq<string>, confirm: string -> bool)
    requires forall p :: p in pieces ==> ';' !in p
    ensures forall p :: p in KeepPatterns(pieces, confirm) ==> ';' !in p && p != "" && Strip(p) == p
  {
    if pieces != [] {
      assert pieces[0] in pieces;
      assert forall p :: p in pieces[1..] ==> p in pieces;
      KeepOneShape(pieces[0], confirm);
      KeepPatternsShape(pieces[1..], confirm);
    }
  }

  /** Accepting the input panel's default, the configured patterns joined
      with `;`, gives back those patterns when each is clean and every
      wildcard is confirmed. */
  lemma DefaultPatternsRoundTrip(defaults: seq<string>, confirm: string -> bool)
    requires |defaults| > 0
    requires forall p :: p in defaults ==>
      p != "" && ';' !in p && Strip(p) == p && (EndsWith(p, '*') ==> confirm(p))
    ensures ProcessPatterns(Join(defaults, ';'), confirm) == Some(defaults)
  {
    JoinSplit(defaults, ';');
    forall i | 0 <= i < |defaults|
      ensures Clean(defaults[i], confirm)
    {
      assert defaults[i] in defaults;
    }
    KeepPatternsClean(defaults, confirm);
    assert defaults[0] in defaults;
  }

  /** Custom patterns reach the worker, so a custom batch run never skips a
      path: every path, missing ones included, is expanded and converted.
      `ProcessPatterns` only ever dispatches a non-empty list. */
  lemma CustomBatchNeverSkips(patterns: seq<string>, paths: seq<string>, preview: bool,
                              configuredCriticMode: string, binary: string, defaults: seq<string>,
                              fs: FileSystem)
    requires patterns != []
    ensures var kw := BatchRun(false, paths, Some(patterns), preview, configuredCriticMode).value;
      var w := NewWorker(kw, binary, defaults);
      && w.patterns == patterns
      && Worker.Attempts(w, fs, paths) == |paths|
  {
    var kw := BatchRun(false, paths, Some(patterns), preview, configuredCriticMode).value;
    AllAttempted(NewWorker(kw, binary, defaults), fs, paths);
  }

  /** With patterns, no path is skipped. */
  lemma {:induction false} AllAttempted(w: WorkerConfig, fs: FileSystem, paths: seq<string>)
    requires w.patterns != []
    ensures Worker.Attempts(w, fs, paths) == |paths|
  {
    if paths != [] {
      AllAttempted(w, fs, paths[1..]);
    }
  }
}

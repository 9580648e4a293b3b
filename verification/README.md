# PyMdown for Sublime: a verified model of its deterministic core

The Sublime Text plugin `pymdown.py` hands Markdown to an external converter
binary and routes the HTML back into the editor. Most of the file is editor
and subprocess plumbing. Underneath sit a few deterministic rules, and this
project models them in Dafny and proves properties about them:

- **Argument vector.** How a worker's configuration becomes the converter's
  command line (`PyMdownWorker.__init__`, `parse_options`). This includes the
  fixed flag order, the critic-mode mapping, `str()` applied to `basepath`,
  and the crash on a truthy `settings`. `Options.Decode` is the converter's
  reading of a command line. The model proves that `Decode` inverts `Encode`
  in both directions, so every option is recoverable and each switch appears
  exactly when it was asked for.
- **Worker run.** `run` and `process_pattern`, modelled as a state machine over
  the process-wide `working` flag. The converter is an exit-status/output
  oracle and the file system is a path-kind oracle. The callback is recorded
  as an event.
- **Batch commands.** `determine_type` as written, compared with a direct
  classification, plus `is_enabled`, `description`, the batch `run`, and the
  custom-pattern dialog (`process_patterns`).
- **Write-through slot.** `PyMdownEditText` as a state machine over the view
  text and the slot.
- **Buffer commands.** `setup`, the mode list and panel choice of the convert
  command, the options each target sets, and the critic-mode normalisation.

Modules: `Wrappers`, `PyStr` (the Python `str` operations used), `Paths`,
`Helpers`, `Options`, `Worker`, `Batch`, `EditText`, `Commands`.

Details of the code that are easy to misread:

- `--title` and its value are passed as two separate arguments.
- `strip()` follows Python 3.3, the interpreter Sublime Text 3 embeds. Its
  whitespace set includes U+180E, which later Python versions no longer strip.
- `--basepath` is emitted whenever `str(basepath)` is non-empty. That covers
  every unsaved buffer and every batch run (`"None"`), but not a file whose
  directory name is empty.
- A missing path is classified from the paths *before* it only. If only
  directories were seen before the first missing path, the batch is a
  directory run; if only files or nothing, it is a missing-path batch; a mix
  of files and directories ends the scan as mixed before the missing path is
  reached. Paths after the first missing one are never looked at.
- The batch command passes the configured critic mode under the key
  `critic_accept`, which the worker never reads. Batch runs therefore always
  use "view" (`-r -a`).

## Model

| member | source | states |
|---|---|---|
| Helpers.HandleLineEndings | pymdown.py:119-122 | the normalised text contains no carriage return and is no longer than the input |
| Helpers.HandleLineEndingsConcat | pymdown.py:119-122 | normalisation distributes over concatenation; together with the single-character lemma this pins it down as "drop every CR, keep everything else in order" |
| Helpers.HandleLineEndingsOnChar | pymdown.py:122 | a lone CR is dropped and any other character is kept |
| Helpers.HandleLineEndingsKeepsCrFree | pymdown.py:119-122 | text without a CR is returned unchanged |
| Helpers.HandleLineEndingsIdempotent | pymdown.py:119-122 | normalising twice equals normalising once |
| Helpers.ParseFileName | pymdown.py:107-116 | no base path exactly when there is no file name or the file does not exist, and then the title is "Untitled"; otherwise the title is the file's stem and the base path its directory |
| PyStr.TrimStart | pymdown.py:426 | `lstrip` returns a suffix whose first character is not whitespace, and everything dropped is whitespace |
| PyStr.TrimEnd | pymdown.py:426 | `rstrip` returns a prefix whose last character is not whitespace, and everything dropped is whitespace |
| PyStr.Strip | pymdown.py:426 | `strip` returns a slice of the input with whitespace at neither end, and all that was cut off is whitespace; whitespace is Python 3.3's `isspace` set, which Sublime Text 3 embeds and which includes U+180E |
| PyStr.StripIdempotent | pymdown.py:426 | stripping twice equals stripping once |
| PyStr.StripKeepsOut | pymdown.py:426 | stripping adds no character that the input lacked, so a `;`-free piece stays `;`-free |
| PyStr.Split | pymdown.py:426 | `split(';')` yields at least one piece, no piece holds `;`, and joining the pieces with `;` gives the input back |
| PyStr.SplitAfter | pymdown.py:426 | a `;`-free prefix followed by `;` splits off as the first piece, leaving the split of the rest |
| PyStr.JoinSplit | pymdown.py:415-426 | splitting a `;`-joined list of `;`-free pieces gives the list back |
| PyStr.Format | pymdown.py:389 | no contract of its own: `fmt % arg` for one `str` argument; `PyStr.FormatWithoutConversion` and `PyStr.FormatOneConversion` state its two uses |
| PyStr.FormatWithoutConversion | pymdown.py:389 | `%` on a template with no conversion raises "not all arguments converted" |
| PyStr.FormatOneConversion | pymdown.py:389 | `%` on a template with one `%s` substitutes the argument there |
| Options.NewWorker | pymdown.py:141-146 | critic mode defaults to "view", patterns default to the configured ones, and an absent base path becomes the string "None" |
| Options.CriticFor | pymdown.py:169-174 | no critic argument exactly when the mode is none of accept, reject or view |
| Options.Requested | pymdown.py:157-189 | a worker asks for one bit per switch, in the switch table's order |
| Options.ParseOptions | pymdown.py:157-189 | raises exactly when there is a binary and `settings` is truthy; empty binary gives an empty command; otherwise the binary comes first and decoding the command gives back the title if truthy, the base path if non-empty, the critic argument for the mode and every switch bit |
| Options.IntendedParseOptions | pymdown.py:157-189 | the corrected builder never raises, is empty exactly when the binary is, decodes to everything the worker asked for including `-s`, and agrees with the written builder wherever that one succeeds |
| Options.Encode | pymdown.py:160-189 | no contract of its own: the command line `parse_options` builds for an option set; `Options.DecodeEncode` and `Options.EncodeDecode` make `Options.Decode` its inverse |
| Options.DecodeEncode | pymdown.py:160-189 | decoding an encoded option set returns that same set, so each flag occurs exactly when asked for, in the fixed order |
| Options.DecodeArgsEncode | pymdown.py:160-189 | the arguments after the binary are read back stage by stage: title, base path, settings, critic argument, then the switch bits |
| Options.EncodeDecode | pymdown.py:160-189 | any decodable command line is the encoding of what it decodes to, so the encoding is unique |
| Worker.Execute | pymdown.py:210-238 | no contract of its own: one converter call appends its output to `results`, or-s a non-zero status into `err` and is recorded; `Worker.ExecuteAccounts`, `Worker.ExecuteKeeps` and `Worker.ExecuteAnswers` state this |
| Worker.ExecuteAnswers | pymdown.py:210-238 | a call records the status and output the converter gave for its place among the calls, and earlier records stay as they were |
| Worker.ProcessPattern | pymdown.py:240-247 | no contract of its own: a file stands for itself, anything else becomes one `join(pth, p)` per pattern; `Worker.PathArgsContents` states it |
| Worker.PathArgs | pymdown.py:240-247 | a path is skipped exactly when there are no patterns and it does not exist; otherwise it contributes at least one argument |
| Worker.PathArgsContents | pymdown.py:240-247 | a file, or any path when there are no patterns, contributes itself; any other path contributes one `join(pth, p)` per pattern, in order |
| Worker.PathLoop | pymdown.py:272-282 | no contract of its own: the `for pth in self.paths` loop, one `Worker.Step` per path; the `PathLoop*` lemmas state what it does |
| Worker.PathLoopWorking | pymdown.py:272-282 | the path loop leaves the busy flag as it found it |
| Worker.PathLoopCmd | pymdown.py:272-280 | the path loop appends every path's contribution to the command line in order and never resets it |
| Worker.Step | pymdown.py:273-282 | one pass leaves the flag alone; a skipped path changes nothing; otherwise the path's arguments are appended and exactly one call is added, sending the whole accumulated command line without standard input |
| Worker.StepCalls | pymdown.py:273-282 | one pass adds a converter call exactly when the path is not skipped |
| Worker.PathLoopCalls | pymdown.py:272-282 | the path loop calls the converter once per path it does not skip |
| Worker.PathLoopEvents | pymdown.py:272-282 | the path loop keeps earlier events and adds only calls that send nothing to standard input |
| Worker.PathLoopAnswers | pymdown.py:272-282 | every status and output the loop records is the converter's answer to that call |
| Worker.PathLoopKeeps | pymdown.py:272-282 | the path loop keeps `err` equal to the OR of non-zero statuses and the results equal to the outputs in order, and each call's command strictly extends the previous one |
| Worker.RunWith | pymdown.py:258-284 | a run that finds the flag set leaves it set, reports the busy message with the error flag, makes no call and records only the callback; a run that finds it clear ends with it clear |
| Worker.Convert | pymdown.py:269-282 | no contract of its own: the buffer call, then the path loop, under the flag; `Worker.ConvertCmdAndCalls`, `Worker.ConvertBuffer` and `Worker.ConvertAnswers` state what it does |
| Worker.ConvertAnswers | pymdown.py:269-282 | every status and output the conversion records is the converter's answer, the n-th call getting the n-th answer |
| Worker.ConvertCmdAndCalls | pymdown.py:269-282 | the final command is the initial one plus every path's contribution; there is one call for the buffer when it and the command are non-empty, plus one per path not skipped, and no call at all with an empty command |
| Worker.ConvertBuffer | pymdown.py:269-271 | the buffer is sent, first and by the only call that uses standard input, exactly when both it and the command are non-empty |
| Worker.RunIdle | pymdown.py:258-284 | starting idle, the flag is set at every event and clear at the end; every recorded status and output is the converter's answer to that call; `err` holds exactly when some call returned non-zero; results are the outputs in order; commands grow strictly; the callback comes last with the results and `err`, exactly when there is one |
| Worker.RunIdleCalls | pymdown.py:269-283 | the finished run's command line is the initial one plus every path's contribution, and its call count is one for the buffer plus one per path not skipped; the callback adds no call |
| Worker.PathCmds | pymdown.py:272-282 | no contract of its own: the line sent for each path that is not skipped, computed from the paths alone; `Worker.PathCmdsAccumulate` states what each line is |
| Worker.PathCmdsAccumulate | pymdown.py:272-282 | there is one line per path that is not skipped, and each is the starting command plus everything the paths up to and including that one contribute |
| Worker.PathLoopSends | pymdown.py:272-282 | the loop's calls send exactly those lines, in order, each getting every argument appended so far |
| Worker.ConvertPathCalls | pymdown.py:269-282 | the conversion's events are the buffer call, if any, followed by exactly the path calls sending those lines |
| Worker.RunIdlePathCalls | pymdown.py:258-283 | in a run that finds the flag clear, the path calls follow the buffer call, one per path not skipped, and each sends the command plus what the paths up to a non-skipped one contribute |
| Worker.RunIdleBuffer | pymdown.py:269-271 | the finished run has written to the converter's standard input exactly when there was a command and a buffer |
| Worker.Run | pymdown.py:258-268 | the written `run` fails exactly when `parse_options` raises; otherwise it is the run over the command line the corrected builder produces |
| Worker.BackToBack | pymdown.py:264-268 | a second request at any moment of a first run is turned away with the busy message and no call; one made after the first finished proceeds as from a clear flag |
| Batch.ScanPaths | pymdown.py:343-357 | no contract of its own: the scanning loop of `determine_type`; `Batch.ScanPathsFrom` states where it ends |
| Batch.ScanPathsFrom | pymdown.py:343-357 | the scan, started after seeing some files or directories, ends mixed, missing, or with the kind of what it saw, judged on the paths before the first missing one |
| Batch.DetermineType | pymdown.py:332-363 | no contract of its own: `determine_type` as written; `Batch.DetermineTypeClassifies` equates it with `Batch.Classify` |
| Batch.DetermineTypeClassifies | pymdown.py:332-363 | `determine_type` equals the direct classification for every sequence of path kinds |
| Batch.DeadBranch | pymdown.py:358-359 | after the scan, `missing` implies the kind is missing, so the test `missing and kind == BATCH_FILE` never holds |
| Batch.MissingAfter | pymdown.py:343-361 | a missing path after directories only gives a directory run; after files only, or first, it gives a missing one |
| Batch.FirstMissing | pymdown.py:343-347 | the scan's stopping point is the first missing path, with none missing before it |
| Batch.IsEnabled | pymdown.py:365-375 | enabled exactly when no job runs and the paths classify as all files or all directories |
| Batch.DescriptionAsWritten | pymdown.py:377-389 | the written `description` raises TypeError exactly when the entry is disabled |
| Batch.DescriptionRaisesWhenBusy | pymdown.py:387-389 | while a job runs, the written `description` raises for any paths |
| Batch.Description | pymdown.py:377-389 | the intended caption is "NA" when disabled and "<label> File(s)..." or "<label> Folder(s)..." by classification otherwise, matching the written one wherever that succeeds |
| Batch.BatchRun | pymdown.py:305-319 | nothing starts while a job runs; otherwise the worker gets the paths, `batch`, `preview` and the patterns as passed, and no critic mode |
| Batch.BatchArgv | pymdown.py:305-319 | whatever critic mode is configured, a batch command line decodes to view mode, `-b`, base path "None", no title and `-p` exactly when previewing |
| Batch.KeepOne | pymdown.py:427-433 | no contract of its own: what one piece contributes; `Batch.KeepOneKept` states it |
| Batch.KeepOneKept | pymdown.py:427-433 | one piece contributes its stripped form, once, exactly when that is non-empty and, if it ends in `*`, confirmed, and nothing otherwise |
| Batch.KeepPatterns | pymdown.py:426-433 | no contract of its own: the loop that builds the pattern list; `Batch.KeepPatternsConcat` and `Batch.KeepOneKept` pin it down |
| Batch.KeepPatternsConcat | pymdown.py:426-433 | keeping distributes over concatenation, so each piece contributes in place: the kept patterns follow the input order and a repeated piece is kept each time |
| Batch.KeepOneMembers | pymdown.py:427-433 | one piece contributes its stripped form exactly when that is non-empty and, if it ends in `*`, confirmed |
| Batch.KeepPatternsMembers | pymdown.py:426-433 | a pattern is kept exactly when it is the stripped form of a piece that is non-empty and, if it ends in `*`, confirmed |
| Batch.KeepPatternsClean | pymdown.py:426-433 | clean, confirmed pieces are all kept, in order |
| Batch.KeepOneShape | pymdown.py:426-433 | what a `;`-free piece contributes is non-empty, stripped and `;`-free |
| Batch.KeepPatternsShape | pymdown.py:426-433 | every kept pattern is non-empty, stripped and free of `;` |
| Batch.ProcessPatterns | pymdown.py:421-438 | dispatches only for a non-empty input with at least one surviving pattern; the dispatched list is `KeepPatterns` of the `;`-split input, so it holds the surviving stripped pieces in input order, each as often as it occurs; every dispatched pattern is non-empty, stripped and `;`-free; no dispatch means no piece survived |
| Batch.RepeatedPatternKeptTwice | pymdown.py:425-433 | the input `a;a` dispatches `["a", "a"]`: nothing is merged or reordered |
| Batch.SeparatorOnlyDispatchesNothing | pymdown.py:425-437 | a pattern input made only of U+180E strips to nothing under Python 3.3, so no batch is dispatched |
| Batch.DefaultPatternsRoundTrip | pymdown.py:415-438 | accepting the panel's default (the configured patterns joined with `;`) dispatches exactly those patterns when they are clean and confirmed |
| Batch.CustomBatchNeverSkips | pymdown.py:434-438 | any non-empty pattern list the dialog dispatches reaches the worker unchanged, so no selected path is skipped, missing ones included |
| Batch.AllAttempted | pymdown.py:274-275 | with patterns configured, no path is skipped |
| EditText.SetWbfr | pymdown.py:470-474 | setting the slot stores the text and leaves the view alone |
| EditText.ClearWbfr | pymdown.py:476-480 | clearing empties the slot and leaves the view alone |
| EditText.Run | pymdown.py:450-468 | the slot ends empty in every case; insert prepends the normalised slot text; replace makes it the whole view; an unknown mode is rejected without change; an empty slot raises without change; a save happens only after a successful edit that asked for one |
| EditText.HandOff | pymdown.py:597-602 | setting the slot then replacing, or inserting into a new empty view, leaves exactly the CR-free result in the view and empties the slot |
| EditText.SingleUse | pymdown.py:457-466 | a second edit without a new `set_wbfr` raises, whatever the first edit did |
| Commands.Setup | pymdown.py:489-501 | the title and base path are what `parse_file_name` gives, so the title is always set and the base path is absent exactly for an unsaved or vanished file; the configured critic mode and alternate settings are passed and the callback is present; every switch is off and no buffer, paths or patterns are set |
| Commands.UntitledArgv | pymdown.py:494-497 | an unsaved buffer's command line decodes to the title "Untitled" and the base path "None" |
| Commands.SelectModes | pymdown.py:550-562 | a mode is offered exactly when it was requested and is one of template, plain and no-template, with its panel label at the same index |
| Commands.SelectModesOrdered | pymdown.py:550-561 | the offered modes appear in template, plain, no-template order, each at most once |
| Commands.ConvertRun | pymdown.py:541-566 | no window does nothing; more than one recognised mode prompts; otherwise it launches at once, never with both plain and no-template |
| Commands.ProcessChoice | pymdown.py:568-578 | a cancelled panel does nothing, an index past the list raises, and a valid index launches one mode |
| Commands.ChoiceIsSingleMode | pymdown.py:563-578 | picking a mode in the panel launches the same as requesting that mode alone |
| Commands.ConvertOptions | pymdown.py:635-640 | `save_src_exists` is recorded only for the save target, and is true exactly when the source file exists |
| Commands.ConvertSwitches | pymdown.py:627-645 | `convert` passes the buffer, sets `preview` for the browser and `quiet` for every other target, `force_stdout` for clipboard, new tab or saving an unsaved buffer, `plain` when plain and `force_no_template` only when not plain, and leaves every other option as it was |
| Commands.ConvertArgv | pymdown.py:627-645 | a buffer conversion decodes to `-p` for the browser and `-q` otherwise, `--force-stdout` for clipboard, new tab, or saving an unsaved buffer, `-P` when plain, `--force-no-template` only when not plain, and no `-b` or `--critic-dump` |
| Commands.CriticMode | pymdown.py:685 | the mode is one of view, accept or reject, and a recognised mode is kept |
| Commands.CriticOptions | pymdown.py:691-698 | a critic run dumps quietly to standard output in the normalised mode over the given buffer |
| Commands.CriticArgv | pymdown.py:681-699 | a critic command line decodes to `-a` for accept, `-r` for reject and `-r -a` otherwise, with `--force-stdout`, `-q` and `--critic-dump` |
| Commands.AlternateSettingsCrash | pymdown.py:167-168 | a conversion with an alternate settings file fails with TypeError before running, while the intended command line carries `-s` and the file |

## Findings

| source | as written | input that shows it | evidently intended | confidence | as-written member | corrected member |
|---|---|---|---|---|---|---|
| pymdown.py:167-168 | `cmd.append += ["-s", self.settings]` raises TypeError, which kills the worker thread before it checks the busy flag; no callback is delivered | any conversion with a configured binary and `alternate_settings="x.yml"` | `cmd += ["-s", self.settings]` | high; not executed | Options.ParseOptions | Options.IntendedParseOptions |
| pymdown.py:377-389 | `'NA' % label` raises TypeError ("not all arguments converted during string formatting") | `description(paths=[])`, or any call while a job runs | return "NA" without formatting | high; not executed | Batch.DescriptionAsWritten | Batch.Description |

Counterexamples: `Commands.AlternateSettingsCrash` for the first row and
`Batch.DescriptionRaisesWhenBusy` for the second. `Worker.RunWith`, and
every lemma about it, takes the command line as a parameter. Those
properties therefore hold for the corrected builder's output too, and
`Worker.Run` states the link.

## Left out

- Spawning the converter, piping the buffer into it, and UTF-8 decoding of its
  output (`get_process`, `execute`, `execute_buffer`). The converter is an
  oracle from call number and invocation to an exit status and output, or to
  a raised exception, which counts as status 1 with its traceback as output.
- `get_environ`. It only builds the child's environment through a login
  shell, which matters to the process, not to any rule modelled here.
- Threads and `sublime.set_timeout`. The run is sequential, and the callback
  is an event stamped with the flag's value when it is scheduled.
- Editor UI: notifications, error dialogs, logging, the batch `callback` and
  `report`, the quick and input panels, the clipboard, and `new_file` and
  `focus_view`. These are host calls with no visible logic. The panel result
  and the dialog answer are inputs.
- `PyMdownConvertCommand.output` and the critic `callback`. These only choose
  among UI calls. The one piece of logic that matters, the slot hand-off, is
  `EditText.HandOff`.
- `PyMdownCommand.call` and `is_enabled`. Each is a single test of the flag,
  and `Worker.RunWith` repeats that test.
- Reading the selection or the buffer into lines (`view.sel`, `view.lines`).
  The buffer lines are a parameter.
- `load_settings` and the SubNotify fallback. The binary, the default
  patterns and the configured critic mode are parameters.
- `os.path`. `exists` and `isfile` come from a path-kind oracle, and `join`,
  `dirname` and the stem are uninterpreted functions.
- Batch.ProcessPatterns: the confirmation dialog is a function of the pattern
  text, so the same pattern always gets the same answer within one input.
- PyStr.Format: only the `%s` and `%%` conversions with one `str` argument are
  modelled. Any other conversion character is reported as a ValueError, which
  Python does not always do. The plugin's templates use `%s` only.
- Options.Kwargs: keyword values are typed. Flags are booleans, which is what
  `bool()` makes of them. Titles, base paths and settings are optional
  strings, and a non-string value is not modelled.
- Options.Decode: this is the converter's reading of the argument order the
  plugin produces. It is not the real converter's command-line parser.

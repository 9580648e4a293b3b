/** `PyMdownWorker.run` and `process_pattern`: one conversion job guarded by
    the process-wide `working` flag. The converter and the file system are
    inputs; the callback is recorded as an event instead of being scheduled
    on the UI thread. */
module Worker {
  import opened Wrappers
  import opened Paths
  import opened Options

  const BusyMessage := "PyMdown Worker is already running!"

  /** One call of the converter: its argument vector and, for a buffer run,
      the lines written to its standard input. */
  datatype Invocation = Invocation(cmd: seq<string>, stdin: Option<seq<string>>)

  /** What a call came back with: an exit status and the combined output, or
      the traceback of an exception raised while spawning or talking to the
      process, which `execute` reports as exit status 1. */
  datatype ExecResult = Exited(code: int, output: string) | Raised(traceback: string) {

    function ReturnCode(): int {
      match this
      case Exited(c, _) => c
      case Raised(_) => 1
    }

    function Text(): string {
      match this
      case Exited(_, out) => out
      case Raised(tb) => tb
    }
  }

  /** The outside world of a run: the file system, and the converter, which
      answers the n-th call of the run (counting from 0). */
  datatype Env = Env(fs: FileSystem, converter: (nat, Invocation) -> ExecResult)

  /** What a run does that others can see, each stamped with the value of
      the `working` flag at that moment. */
  datatype Event =
    | Executed(call: Invocation, code: int, output: string, busy: bool)
    | CallbackScheduled(results: string, err: bool, busy: bool)

  /** The `working` flag, the worker's `cmd` and `results`, the local `err`,
      and what has happened so far. */
  datatype State = State(working: bool, cmd: seq<string>, results: string, err: bool, events: seq<Event>)

  /** How many times the converter was called. */
  function Calls(events: seq<Event>): nat {
    if events == [] then 0
    else Calls(events[..|events| - 1]) + (if events[|events| - 1].Executed? then 1 else 0)
  }

  /** The converter's outputs, in order. */
  function Outputs(events: seq<Event>): string {
    if events == [] then []
    else Outputs(events[..|events| - 1]) + (if events[|events| - 1].Executed? then events[|events| - 1].output else [])
  }

  /** Some call returned a non-zero status. */
  predicate AnyFailed(events: seq<Event>) {
    exists i :: 0 <= i < |events| && events[i].Executed? && events[i].code != 0
  }

  /** Some call wrote to the converter's standard input. */
  predicate WroteStdin(events: seq<Event>) {
    exists i :: 0 <= i < |events| && events[i].Executed? && events[i].call.stdin.Some?
  }

  /** The flag was set at every event. */
  predicate AllBusy(events: seq<Event>) {
    forall i :: 0 <= i < |events| ==> events[i].busy
  }

  /** Each call's command line strictly extends the one before: the list is
      only ever appended to. */
  predicate Grows(events: seq<Event>) {
    forall i, j :: 0 <= i < j < |events| && events[i].Executed? && events[j].Executed? ==>
      events[i].call.cmd < events[j].call.cmd
  }

  /** The bookkeeping of a run in progress: `err` is the OR of the non-zero
      statuses, `results` the outputs in order, the flag was set throughout,
      and every command line run so far is a prefix of the current one. */
  predicate Accounted(st: State) {
    && st.working
    && (st.err <==> AnyFailed(st.events))
    && st.results == Outputs(st.events)
    && AllBusy(st.events)
    && Grows(st.events)
    && (forall i :: 0 <= i < |st.events| ==> st.events[i].Executed? && st.events[i].call.cmd <= st.cmd)
  }

  /** The call at position `i`, if it is one, got the converter's answer
      for its place among the calls: its status and its output. */
  predicate AnsweredAt(events: seq<Event>, env: Env, i: int)
    requires 0 <= i < |events|
  {
    events[i].Executed? ==>
      var r := env.converter(Calls(events[..i]), events[i].call);
      events[i].code == r.ReturnCode() && events[i].output == r.Text()
  }

  /** Every recorded status and output is the one the converter gave. */
  predicate Answered(events: seq<Event>, env: Env) {
    forall i :: 0 <= i < |events| ==> AnsweredAt(events, env, i)
  }

  /** `execute` / `execute_buffer`: call the converter, append its output,
      and note a non-zero status. */
  function Execute(st: State, env: Env, call: Invocation): State {
    var r := env.converter(Calls(st.events), call);
    State(st.working, st.cmd, st.results + r.Text(), st.err || r.ReturnCode() != 0,
          st.events + [Executed(call, r.ReturnCode(), r.Text(), st.working)])
  }

  /** One more call adds one to the count, its output to the outputs, and
      its status to the failures. */
  lemma ExecuteAccounts(st: State, env: Env, call: Invocation)
    ensures var st' := Execute(st, env, call);
      && Calls(st'.events) == Calls(st.events) + 1
      && Outputs(st'.events) == Outputs(st.events) + st'.results[|st.results|..]
      && (AnyFailed(st'.events) <==> AnyFailed(st.events) || st'.events[|st.events|].code != 0)
  {
    var st' := Execute(st, env, call);
    assert st'.events[..|st'.events| - 1] == st.events;
    var e := st'.events[|st.events|];
    if AnyFailed(st'.events) && !AnyFailed(st.events) {
      var i :| 0 <= i < |st'.events| && st'.events[i].Executed? && st'.events[i].code != 0;
      assert i == |st.events|;
    }
    if AnyFailed(st.events) {
      var i :| 0 <= i < |st.events| && st.events[i].Executed? && st.events[i].code != 0;
      assert st'.events[i] == st.events[i];
    }
  }

  /** A call made with a command line that strictly extends every earlier
      one keeps the bookkeeping. */
  lemma ExecuteKeeps(st: State, env: Env, call: Invocation)
    requires Accounted(st)
    requires call.cmd == st.cmd
    requires forall i :: 0 <= i < |st.events| ==> st.events[i].call.cmd < st.cmd
    ensures Accounted(Execute(st, env, call))
    ensures Calls(Execute(st, env, call).events) == Calls(st.events) + 1
  {
    ExecuteAccounts(st, env, call);
    var st' := Execute(st, env, call);
    var n := |st.events|;
    var r := env.converter(Calls(st.events), call);
    assert st'.events == st.events + [Executed(call, r.ReturnCode(), r.Text(), true)];
    assert forall i :: 0 <= i < n ==> st'.events[i] == st.events[i];
    assert st'.err <==> AnyFailed(st'.events);
    assert st'.results == st.results + st'.results[|st.results|..];
    assert AllBusy(st'.events);
    AppendCallGrows(st.events, st'.events[n], st.cmd);
  }

  /** Appending a call whose command line extends every earlier one keeps
      the lines growing and bounded by the new one. */
  lemma AppendCallGrows(events: seq<Event>, e: Event, cmd: seq<string>)
    requires Grows(events)
    requires forall i :: 0 <= i < |events| ==> events[i].Executed? && events[i].call.cmd < cmd
    requires e.Executed? && e.call.cmd == cmd
    ensures Grows(events + [e])
    ensures forall i :: 0 <= i < |events + [e]| ==> (events + [e])[i].Executed? && (events + [e])[i].call.cmd <= cmd
  {
    var all := events + [e];
    forall i, j | 0 <= i < j < |all| && all[i].Executed? && all[j].Executed?
      ensures all[i].call.cmd < all[j].call.cmd
    {
      assert all[i] == events[i];
      if j < |events| {
        assert all[j] == events[j];
      }
    }
    forall i | 0 <= i < |all|
      ensures all[i].Executed? && all[i].call.cmd <= cmd
    {
      if i < |events| {
        assert all[i] == events[i];
      }
    }
  }

  /** A call records the converter's answer and keeps the earlier ones. */
  lemma ExecuteAnswers(st: State, env: Env, call: Invocation)
    requires Answered(st.events, env)
    ensures Answered(Execute(st, env, call).events, env)
    ensures Execute(st, env, call).events[..|st.events|] == st.events
  {
    var evs := Execute(st, env, call).events;
    var n := |st.events|;
    forall i | 0 <= i < |evs|
      ensures AnsweredAt(evs, env, i)
    {
      if i < n {
        assert evs[..i] == st.events[..i];
        assert evs[i] == st.events[i];
        assert AnsweredAt(st.events, env, i);
      } else {
        assert evs[..i] == st.events;
      }
    }
  }

  /** `process_pattern`: a file stands for itself; anything else (a
      directory, or a path that does not exist) is joined with each pattern. */
  function ProcessPattern(patterns: seq<string>, fs: FileSystem, pth: string): seq<string> {
    if IsFile(fs, pth) then [pth]
    else seq(|patterns|, i requires 0 <= i < |patterns| => fs.join(pth, patterns[i]))
  }

  /** What one path appends to the command line, or `None` when the loop
      skips it: with patterns every path is expanded, without them a path is
      appended if it exists and skipped if it does not. */
  function PathArgs(w: WorkerConfig, fs: FileSystem, pth: string): (r: Option<seq<string>>)
    ensures r.None? <==> w.patterns == [] && !Exists(fs, pth)
    ensures r.Some? ==> |r.value| > 0
  {
    if |w.patterns| > 0 then Some(ProcessPattern(w.patterns, fs, pth))
    else if Exists(fs, pth) then Some([pth])
    else None
  }

  /** A path that is not skipped appends itself when it is a file or when
      there are no patterns, and otherwise one `join(pth, p)` per pattern,
      in the patterns' order. */
  lemma PathArgsContents(w: WorkerConfig, fs: FileSystem, pth: string)
    requires PathArgs(w, fs, pth).Some?
    ensures IsFile(fs, pth) || w.patterns == [] ==> PathArgs(w, fs, pth).value == [pth]
    ensures !IsFile(fs, pth) && w.patterns != [] ==>
      var args := PathArgs(w, fs, pth).value;
      |args| == |w.patterns| && forall i :: 0 <= i < |w.patterns| ==> args[i] == fs.join(pth, w.patterns[i])
  {
  }

  /** Everything the paths append to the command line, in order. */
  function Contrib(w: WorkerConfig, fs: FileSystem, paths: seq<string>): seq<string> {
    if paths == [] then []
    else PathArgs(w, fs, paths[0]).GetOr([]) + Contrib(w, fs, paths[1..])
  }

  /** How many paths are not skipped. */
  function Attempts(w: WorkerConfig, fs: FileSystem, paths: seq<string>): nat {
    if paths == [] then 0
    else (if PathArgs(w, fs, paths[0]).Some? then 1 else 0) + Attempts(w, fs, paths[1..])
  }

  /** One pass of the `for pth in self.paths` loop: a skipped path changes
      nothing; otherwise its arguments are appended to the command line and
      the converter is called on the whole of it. */
  function Step(w: WorkerConfig, env: Env, st: State, pth: string): (r: State)
    ensures r.working == st.working
    ensures r.cmd == st.cmd + PathArgs(w, env.fs, pth).GetOr([])
    ensures PathArgs(w, env.fs, pth).None? ==> r == st
    ensures PathArgs(w, env.fs, pth).Some? ==>
      && |r.events| == |st.events| + 1 && r.events[..|st.events|] == st.events
      && r.events[|st.events|].Executed? && r.events[|st.events|].call == Invocation(r.cmd, None)
  {
    match PathArgs(w, env.fs, pth)
    case None => st
    case Some(args) =>
      var cmd := st.cmd + args;
      Execute(st.(cmd := cmd), env, Invocation(cmd, None))
  }

  /** The `for pth in self.paths` loop: the command line is never reset, so
      each call gets every argument appended so far. */
  function PathLoop(w: WorkerConfig, env: Env, st: State, paths: seq<string>): State
    decreases |paths|
  {
    if paths == [] then st
    else PathLoop(w, env, Step(w, env, st, paths[0]), paths[1..])
  }

  /** The loop leaves the flag alone. */
  lemma {:induction false} PathLoopWorking(w: WorkerConfig, env: Env, st: State, paths: seq<string>)
    ensures PathLoop(w, env, st, paths).working == st.working
    decreases |paths|
  {
    if paths != [] {
      PathLoopWorking(w, env, Step(w, env, st, paths[0]), paths[1..]);
    }
  }

  /** The loop appends exactly what the paths contribute: the command line
      is never reset. */
  lemma {:induction false} PathLoopCmd(w: WorkerConfig, env: Env, st: State, paths: seq<string>)
    ensures PathLoop(w, env, st, paths).cmd == st.cmd + Contrib(w, env.fs, paths)
    decreases |paths|
  {
    if paths == [] {
      assert st.cmd + [] == st.cmd;
    } else {
      PathLoopCmd(w, env, Step(w, env, st, paths[0]), paths[1..]);
      ConcatAssoc(st.cmd, PathArgs(w, env.fs, paths[0]).GetOr([]), Contrib(w, env.fs, paths[1..]));
    }
  }

  /** One pass adds a call exactly when the path is not skipped. */
  lemma StepCalls(w: WorkerConfig, env: Env, st: State, pth: string)
    ensures Calls(Step(w, env, st, pth).events) ==
      Calls(st.events) + (if PathArgs(w, env.fs, pth).Some? then 1 else 0)
  {
    match PathArgs(w, env.fs, pth)
    case None =>
    case Some(args) =>
      var cmd := st.cmd + args;
      ExecuteAccounts(st.(cmd := cmd), env, Invocation(cmd, None));
  }

  /** The loop calls the converter once per path it does not skip. */
  lemma {:induction false} PathLoopCalls(w: WorkerConfig, env: Env, st: State, paths: seq<string>)
    ensures Calls(PathLoop(w, env, st, paths).events) == Calls(st.events) + Attempts(w, env.fs, paths)
    decreases |paths|
  {
    if paths != [] {
      StepCalls(w, env, st, paths[0]);
      PathLoopCalls(w, env, Step(w, env, st, paths[0]), paths[1..]);
    }
  }

  /** `after` keeps the events of `before` and adds only calls that write
      nothing to the converter's standard input. */
  predicate PathCallsAppended(before: seq<Event>, after: seq<Event>) {
    && |after| >= |before| && after[..|before|] == before
    && forall i :: |before| <= i < |after| ==> after[i].Executed? && after[i].call.stdin.None?
  }

  lemma PathCallsAppendedTrans(a: seq<Event>, b: seq<Event>, c: seq<Event>)
    requires PathCallsAppended(a, b) && PathCallsAppended(b, c)
    ensures PathCallsAppended(a, c)
  {
    assert c[..|a|] == c[..|b|][..|a|];
    forall i | |a| <= i < |c|
      ensures c[i].Executed? && c[i].call.stdin.None?
    {
      if i < |b| {
        assert c[i] == c[..|b|][i];
      }
    }
  }

  /** One pass keeps the earlier events and adds at most a call that
      writes nothing to standard input. */
  lemma StepEvents(w: WorkerConfig, env: Env, st: State, pth: string)
    ensures PathCallsAppended(st.events, Step(w, env, st, pth).events)
  {
    if PathArgs(w, env.fs, pth).None? {
      assert st.events[..|st.events|] == st.events;
    }
  }

  /** The loop keeps the earlier events and adds only path calls, which
      write nothing to the converter's standard input. */
  lemma {:induction false} PathLoopEvents(w: WorkerConfig, env: Env, st: State, paths: seq<string>)
    ensures PathCallsAppended(st.events, PathLoop(w, env, st, paths).events)
    decreases |paths|
  {
    if paths == [] {
      assert st.events[..|st.events|] == st.events;
    } else {
      var st1 := Step(w, env, st, paths[0]);
      StepEvents(w, env, st, paths[0]);
      PathLoopEvents(w, env, st1, paths[1..]);
      PathCallsAppendedTrans(st.events, st1.events, PathLoop(w, env, st1, paths[1..]).events);
    }
  }

  /** From position `b` on, `events` holds one call without standard input
      per line of `cmds`, sending those lines in order. */
  predicate Sends(events: seq<Event>, b: nat, cmds: seq<seq<string>>) {
    && |events| >= b + |cmds|
    && forall j :: 0 <= j < |cmds| ==> SentAt(events, b + j, cmds[j])
  }

  /** The event at position `i` is a call without standard input sending `c`. */
  predicate SentAt(events: seq<Event>, i: int, c: seq<string>) {
    0 <= i < |events| && events[i].Executed? && events[i].call == Invocation(c, None)
  }

  /** The command line sent for each path that is not skipped, in order:
      the starting line plus every argument appended up to and including
      that path's own. */
  function PathCmds(w: WorkerConfig, fs: FileSystem, base: seq<string>, paths: seq<string>): seq<seq<string>>
    decreases |paths|
  {
    if paths == [] then []
    else match PathArgs(w, fs, paths[0])
      case None => PathCmds(w, fs, base, paths[1..])
      case Some(args) => [base + args] + PathCmds(w, fs, base + args, paths[1..])
  }

  /** `c` is the line after some path that is not skipped: the starting
      line plus what the paths up to and including that one contribute. */
  predicate SentAfter(w: WorkerConfig, fs: FileSystem, base: seq<string>, paths: seq<string>, c: seq<string>) {
    exists k :: 0 < k <= |paths| && PathArgs(w, fs, paths[k - 1]).Some? && c == base + Contrib(w, fs, paths[..k])
  }

  /** There is one command per path that is not skipped, and each is the
      starting line plus what the paths up to that one contribute. */
  lemma {:induction false} PathCmdsAccumulate(w: WorkerConfig, fs: FileSystem, base: seq<string>, paths: seq<string>)
    ensures |PathCmds(w, fs, base, paths)| == Attempts(w, fs, paths)
    ensures forall j :: 0 <= j < |PathCmds(w, fs, base, paths)| ==>
      SentAfter(w, fs, base, paths, PathCmds(w, fs, base, paths)[j])
    decreases |paths|
  {
    if paths != [] {
      var hit := PathArgs(w, fs, paths[0]).Some?;
      var a := PathArgs(w, fs, paths[0]).GetOr([]);
      var tail := paths[1..];
      PathCmdsAccumulate(w, fs, base + a, tail);
      if !hit {
        assert base + a == base;
      }
      var pc := PathCmds(w, fs, base, paths);
      var pc1 := PathCmds(w, fs, base + a, tail);
      assert pc == (if hit then [base + a] else []) + pc1;
      forall j | 0 <= j < |pc|
        ensures SentAfter(w, fs, base, paths, pc[j])
      {
        if hit && j == 0 {
          assert paths[..1][1..] == [];
          assert Contrib(w, fs, paths[..1]) == a + [];
          assert pc[0] == base + Contrib(w, fs, paths[..1]);
        } else {
          var j1 := if hit then j - 1 else j;
          assert pc[j] == pc1[j1];
          assert SentAfter(w, fs, base + a, tail, pc1[j1]);
          var k1 :| 0 < k1 <= |tail| && PathArgs(w, fs, tail[k1 - 1]).Some?
            && pc1[j1] == base + a + Contrib(w, fs, tail[..k1]);
          var k := k1 + 1;
          assert paths[..k][1..] == tail[..k1];
          assert Contrib(w, fs, paths[..k]) == a + Contrib(w, fs, tail[..k1]);
          ConcatAssoc(base, a, Contrib(w, fs, tail[..k1]));
          assert paths[k - 1] == tail[k1 - 1];
          assert pc[j] == base + Contrib(w, fs, paths[..k]);
        }
      }
    }
  }

  /** The loop's calls send exactly those command lines, in order: each
      path call gets everything appended so far, its own arguments
      included. */
  lemma {:induction false} PathLoopSends(w: WorkerConfig, env: Env, st: State, paths: seq<string>)
    ensures var st' := PathLoop(w, env, st, paths);
      var pc := PathCmds(w, env.fs, st.cmd, paths);
      |st'.events| == |st.events| + |pc| && Sends(st'.events, |st.events|, pc)
    decreases |paths|
  {
    if paths != [] {
      var st1 := Step(w, env, st, paths[0]);
      PathLoopSends(w, env, st1, paths[1..]);
      var st' := PathLoop(w, env, st1, paths[1..]);
      var pc := PathCmds(w, env.fs, st.cmd, paths);
      var pc1 := PathCmds(w, env.fs, st1.cmd, paths[1..]);
      if PathArgs(w, env.fs, paths[0]).Some? {
        PathLoopEvents(w, env, st1, paths[1..]);
        assert pc == [st1.cmd] + pc1;
        SendsCons(st'.events, st1.events, |st.events|, st1.cmd, pc1);
      } else {
        assert pc == pc1;
      }
    }
  }

  /** A call at position `n`, kept by what follows, extends the calls sent
      from `n + 1` on. */
  lemma SendsCons(all: seq<Event>, first: seq<Event>, n: nat, c: seq<string>, rest: seq<seq<string>>)
    requires |first| == n + 1 && |all| >= |first| && all[..|first|] == first
    requires SentAt(first, n, c)
    requires Sends(all, n + 1, rest)
    ensures Sends(all, n, [c] + rest)
  {
    var cmds := [c] + rest;
    forall j | 0 <= j < |cmds|
      ensures SentAt(all, n + j, cmds[j])
    {
      if j == 0 {
        assert all[n] == first[n];
      } else {
        assert cmds[j] == rest[j - 1];
        assert SentAt(all, n + 1 + (j - 1), rest[j - 1]);
      }
    }
  }

  /** One pass keeps the bookkeeping. */
  lemma StepKeeps(w: WorkerConfig, env: Env, st: State, pth: string)
    requires Accounted(st)
    ensures Accounted(Step(w, env, st, pth))
  {
    match PathArgs(w, env.fs, pth)
    case None =>
    case Some(args) =>
      var cmd := st.cmd + args;
      var mid := st.(cmd := cmd);
      forall i | 0 <= i < |mid.events|
        ensures mid.events[i].call.cmd < mid.cmd
      {
        assert st.events[i].call.cmd <= st.cmd;
      }
      ExecuteKeeps(mid, env, Invocation(cmd, None));
  }

  /** The loop keeps the bookkeeping. */
  lemma {:induction false} PathLoopKeeps(w: WorkerConfig, env: Env, st: State, paths: seq<string>)
    requires Accounted(st)
    ensures Accounted(PathLoop(w, env, st, paths))
    decreases |paths|
  {
    if paths != [] {
      StepKeeps(w, env, st, paths[0]);
      PathLoopKeeps(w, env, Step(w, env, st, paths[0]), paths[1..]);
    }
  }

  /** One pass records only the converter's answers. */
  lemma StepAnswers(w: WorkerConfig, env: Env, st: State, pth: string)
    requires Answered(st.events, env)
    ensures Answered(Step(w, env, st, pth).events, env)
  {
    match PathArgs(w, env.fs, pth)
    case None =>
    case Some(args) =>
      var cmd := st.cmd + args;
      ExecuteAnswers(st.(cmd := cmd), env, Invocation(cmd, None));
  }

  /** The loop records only the converter's answers. */
  lemma {:induction false} PathLoopAnswers(w: WorkerConfig, env: Env, st: State, paths: seq<string>)
    requires Answered(st.events, env)
    ensures Answered(PathLoop(w, env, st, paths).events, env)
    decreases |paths|
  {
    if paths != [] {
      StepAnswers(w, env, st, paths[0]);
      PathLoopAnswers(w, env, Step(w, env, st, paths[0]), paths[1..]);
    }
  }

  /** The callback, when there is one, recorded with the flag's value. */
  function Callback(w: WorkerConfig, results: string, err: bool, busy: bool): seq<Event> {
    if w.callback then [CallbackScheduled(results, err, busy)] else []
  }

  /** The body of `run` under the flag: convert the buffer when both it and
      the command are non-empty, then each path when both the command and
      the path list are non-empty. */
  function Convert(w: WorkerConfig, cmd: seq<string>, env: Env): State {
    var s0 := State(true, cmd, "", false, []);
    var s1 := if |cmd| > 0 && |w.buffer| > 0 then Execute(s0, env, Invocation(cmd, Some(w.buffer))) else s0;
    if |cmd| > 0 && |w.paths| > 0 then PathLoop(w, env, s1, w.paths) else s1
  }

  /** `run` once `parse_options` has produced `cmd`. A worker that finds the
      flag set reports itself busy with the error flag; otherwise it sets
      the flag, converts, schedules the callback and clears the flag. */
  function RunWith(w: WorkerConfig, cmd: seq<string>, working: bool, env: Env): (r: State)
    ensures working ==> r.working && r.results == BusyMessage && r.err && Calls(r.events) == 0
    ensures working ==> r.events == Callback(w, BusyMessage, true, true)
    ensures !working ==> !r.working
  {
    if working then
      State(true, cmd, BusyMessage, true, Callback(w, BusyMessage, true, working))
    else
      var s := Convert(w, cmd, env);
      State(false, s.cmd, s.results, s.err, s.events + Callback(w, s.results, s.err, s.working))
  }

  /** The conversion keeps the bookkeeping and keeps the flag set. */
  lemma ConvertAccounted(w: WorkerConfig, cmd: seq<string>, env: Env)
    ensures Accounted(Convert(w, cmd, env))
  {
    var s0 := State(true, cmd, "", false, []);
    if |cmd| > 0 && |w.buffer| > 0 {
      ExecuteKeeps(s0, env, Invocation(cmd, Some(w.buffer)));
    }
    var s1 := if |cmd| > 0 && |w.buffer| > 0 then Execute(s0, env, Invocation(cmd, Some(w.buffer))) else s0;
    if |cmd| > 0 && |w.paths| > 0 {
      PathLoopKeeps(w, env, s1, w.paths);
    }
  }

  /** Every status and output of the conversion is the converter's, the
      n-th call getting the n-th answer. */
  lemma ConvertAnswers(w: WorkerConfig, cmd: seq<string>, env: Env)
    ensures Answered(Convert(w, cmd, env).events, env)
  {
    var s0 := State(true, cmd, "", false, []);
    if |cmd| > 0 && |w.buffer| > 0 {
      ExecuteAnswers(s0, env, Invocation(cmd, Some(w.buffer)));
    }
    var s1 := if |cmd| > 0 && |w.buffer| > 0 then Execute(s0, env, Invocation(cmd, Some(w.buffer))) else s0;
    if |cmd| > 0 && |w.paths| > 0 {
      PathLoopAnswers(w, env, s1, w.paths);
    }
  }

  /** The conversion ends with everything the paths contributed appended to
      the command line, having made one call for the buffer when it was
      converted and one per path not skipped. */
  lemma ConvertCmdAndCalls(w: WorkerConfig, cmd: seq<string>, env: Env)
    ensures Convert(w, cmd, env).cmd == cmd + (if cmd != [] then Contrib(w, env.fs, w.paths) else [])
    ensures Calls(Convert(w, cmd, env).events) ==
      (if cmd != [] then (if w.buffer != [] then 1 else 0) + Attempts(w, env.fs, w.paths) else 0)
  {
    var s0 := State(true, cmd, "", false, []);
    if |cmd| > 0 && |w.buffer| > 0 {
      ExecuteAccounts(s0, env, Invocation(cmd, Some(w.buffer)));
    }
    var s1 := if |cmd| > 0 && |w.buffer| > 0 then Execute(s0, env, Invocation(cmd, Some(w.buffer))) else s0;
    if |cmd| > 0 && |w.paths| > 0 {
      PathLoopCmd(w, env, s1, w.paths);
      PathLoopCalls(w, env, s1, w.paths);
    } else {
      assert cmd + [] == cmd;
    }
  }

  /** The buffer is converted, first and by the only call that writes to
      standard input, exactly when both it and the command are non-empty. */
  lemma ConvertBuffer(w: WorkerConfig, cmd: seq<string>, env: Env)
    ensures var evs := Convert(w, cmd, env).events;
      && (WroteStdin(evs) <==> cmd != [] && w.buffer != [])
      && (cmd != [] && w.buffer != [] ==> evs[0].Executed? && evs[0].call == Invocation(cmd, Some(w.buffer)))
  {
    var s0 := State(true, cmd, "", false, []);
    var buffered := |cmd| > 0 && |w.buffer| > 0;
    var s1 := if buffered then Execute(s0, env, Invocation(cmd, Some(w.buffer))) else s0;
    var evs := Convert(w, cmd, env).events;
    if |cmd| > 0 && |w.paths| > 0 {
      PathLoopEvents(w, env, s1, w.paths);
    }
    assert |evs| >= |s1.events| && evs[..|s1.events|] == s1.events;
    assert forall i :: |s1.events| <= i < |evs| ==> evs[i].Executed? && evs[i].call.stdin.None?;
    if buffered {
      assert evs[0] == s1.events[0];
    }
  }

  /** Appending a callback event changes none of the call accounting. */
  lemma AppendCallback(events: seq<Event>, results: string, err: bool)
    ensures var evs := events + [CallbackScheduled(results, err, true)];
      && Calls(evs) == Calls(events)
      && Outputs(evs) == Outputs(events)
      && (AnyFailed(evs) <==> AnyFailed(events))
      && (AllBusy(events) ==> AllBusy(evs))
      && (Grows(events) ==> Grows(evs))
      && (WroteStdin(evs) <==> WroteStdin(events))
  {
    var evs := events + [CallbackScheduled(results, err, true)];
    assert evs[..|evs| - 1] == events;
    assert forall i :: 0 <= i < |events| ==> evs[i] == events[i];
  }

  /** Appending a callback event leaves every call's answer in place. */
  lemma AppendCallbackAnswers(events: seq<Event>, results: string, err: bool, env: Env)
    requires Answered(events, env)
    ensures Answered(events + [CallbackScheduled(results, err, true)], env)
  {
    var evs := events + [CallbackScheduled(results, err, true)];
    forall i | 0 <= i < |evs|
      ensures AnsweredAt(evs, env, i)
    {
      if i < |events| {
        assert evs[..i] == events[..i];
        assert evs[i] == events[i];
        assert AnsweredAt(events, env, i);
      }
    }
  }

  /** The run's events are the conversion's, then the callback if any. */
  lemma RunIdleEvents(w: WorkerConfig, cmd: seq<string>, env: Env)
    ensures var s := Convert(w, cmd, env);
      var r := RunWith(w, cmd, false, env);
      && r.cmd == s.cmd && r.results == s.results && r.err == s.err
      && r.events == s.events + Callback(w, s.results, s.err, true)
  {
    if |cmd| > 0 && |w.paths| > 0 {
      var s0 := State(true, cmd, "", false, []);
      var s1 := if |w.buffer| > 0 then Execute(s0, env, Invocation(cmd, Some(w.buffer))) else s0;
      PathLoopWorking(w, env, s1, w.paths);
    }
  }

  /** A run that finds the flag clear: the flag was set at every event and
      is clear at the end; the error flag is the OR of the non-zero statuses;
      the results are the outputs in order; each call's command line
      strictly extends the previous one's; the callback, if any, comes
      last with the results and the error flag; and every recorded status
      and output is the converter's answer to that call. */
  lemma RunIdle(w: WorkerConfig, cmd: seq<string>, env: Env)
    ensures var r := RunWith(w, cmd, false, env);
      && !r.working
      && AllBusy(r.events)
      && (r.err <==> AnyFailed(r.events))
      && r.results == Outputs(r.events)
      && Grows(r.events)
      && (w.callback <==> r.events != [] && r.events[|r.events| - 1] == CallbackScheduled(r.results, r.err, true))
      && Answered(r.events, env)
  {
    var s := Convert(w, cmd, env);
    ConvertAccounted(w, cmd, env);
    ConvertAnswers(w, cmd, env);
    RunIdleEvents(w, cmd, env);
    if w.callback {
      AppendCallback(s.events, s.results, s.err);
      AppendCallbackAnswers(s.events, s.results, s.err, env);
    } else {
      assert s.events + [] == s.events;
    }
  }

  /** The same run's command line and calls, as `ConvertCmdAndCalls`
      describes them; the callback adds no call. */
  lemma RunIdleCalls(w: WorkerConfig, cmd: seq<string>, env: Env)
    ensures var r := RunWith(w, cmd, false, env);
      && r.cmd == cmd + (if cmd != [] then Contrib(w, env.fs, w.paths) else [])
      && Calls(r.events) == (if cmd != [] then (if w.buffer != [] then 1 else 0) + Attempts(w, env.fs, w.paths) else 0)
  {
    var s := Convert(w, cmd, env);
    ConvertCmdAndCalls(w, cmd, env);
    RunIdleEvents(w, cmd, env);
    if w.callback {
      AppendCallback(s.events, s.results, s.err);
    } else {
      assert s.events + [] == s.events;
    }
  }

  /** The run writes to the converter's standard input exactly when there
      is a command and a buffer, as `ConvertBuffer` describes. */
  lemma RunIdleBuffer(w: WorkerConfig, cmd: seq<string>, env: Env)
    ensures var r := RunWith(w, cmd, false, env);
      WroteStdin(r.events) <==> cmd != [] && w.buffer != []
  {
    var s := Convert(w, cmd, env);
    ConvertBuffer(w, cmd, env);
    RunIdleEvents(w, cmd, env);
    if w.callback {
      AppendCallback(s.events, s.results, s.err);
    } else {
      assert s.events + [] == s.events;
    }
  }

  /** The conversion's path calls come right after the buffer call, if
      there was one, and send in order the lines `PathCmds` lists. */
  lemma ConvertPathCalls(w: WorkerConfig, cmd: seq<string>, env: Env)
    ensures var s := Convert(w, cmd, env);
      var b := if cmd != [] && w.buffer != [] then 1 else 0;
      var pc := if cmd != [] then PathCmds(w, env.fs, cmd, w.paths) else [];
      |s.events| == b + |pc| && Sends(s.events, b, pc)
  {
    var s0 := State(true, cmd, "", false, []);
    var b := if cmd != [] && w.buffer != [] then 1 else 0;
    var s1 := if |cmd| > 0 && |w.buffer| > 0 then Execute(s0, env, Invocation(cmd, Some(w.buffer))) else s0;
    assert s1.cmd == cmd && |s1.events| == b;
    if cmd == [] {
      assert Convert(w, cmd, env) == s0;
      assert Sends(s0.events, b, []);
    } else if w.paths == [] {
      assert Convert(w, cmd, env) == s1;
      assert PathCmds(w, env.fs, cmd, w.paths) == [];
      assert Sends(s1.events, b, []);
    } else {
      assert Convert(w, cmd, env) == PathLoop(w, env, s1, w.paths);
      PathLoopSends(w, env, s1, w.paths);
    }
  }

  /** The run's path calls come right after the buffer call, if there was
      one, one per path that is not skipped, and send in order the lines
      `PathCmds` lists: each gets the command with every argument appended
      up to and including its own path's. */
  lemma RunIdlePathCalls(w: WorkerConfig, cmd: seq<string>, env: Env)
    ensures var r := RunWith(w, cmd, false, env);
      var b := if cmd != [] && w.buffer != [] then 1 else 0;
      var pc := if cmd != [] then PathCmds(w, env.fs, cmd, w.paths) else [];
      && Sends(r.events, b, pc)
      && |pc| == (if cmd != [] then Attempts(w, env.fs, w.paths) else 0)
      && forall j :: 0 <= j < |pc| ==> SentAfter(w, env.fs, cmd, w.paths, pc[j])
  {
    var s := Convert(w, cmd, env);
    var b := if cmd != [] && w.buffer != [] then 1 else 0;
    var pc := if cmd != [] then PathCmds(w, env.fs, cmd, w.paths) else [];
    PathCmdsAccumulate(w, env.fs, cmd, w.paths);
    ConvertPathCalls(w, cmd, env);
    RunIdleEvents(w, cmd, env);
    SendsExtend(s.events, Callback(w, s.results, s.err, true), b, pc);
  }

  /** Later events leave the calls already made in place. */
  lemma SendsExtend(events: seq<Event>, more: seq<Event>, b: nat, cmds: seq<seq<string>>)
    requires Sends(events, b, cmds)
    ensures Sends(events + more, b, cmds)
  {
    var all := events + more;
    forall j | 0 <= j < |cmds|
      ensures SentAt(all, b + j, cmds[j])
    {
      assert SentAt(events, b + j, cmds[j]);
      assert all[b + j] == events[b + j];
    }
  }

  /** `run` as written: a truthy `settings` makes `parse_options` raise
      before the flag is looked at, so the thread dies with the flag as it
      was and no callback; otherwise it is `RunWith` on the command line,
      which is then also what the intended `parse_options` builds. */
  function Run(w: WorkerConfig, working: bool, env: Env): (r: Result<State, Exception>)
    ensures r.Failure? <==> w.binary != "" && Truthy(w.settings)
    ensures r.Success? ==> r.value == RunWith(w, IntendedParseOptions(w), working, env)
  {
    match ParseOptions(w)
    case Failure(e) => Failure(e)
    case Success(cmd) => Success(RunWith(w, cmd, working, env))
  }

  /** Two jobs back to back: a second request made at any moment of a first
      run finds the flag set and is turned away without a call; one made
      after the first has finished proceeds as on a fresh start. */
  lemma BackToBack(w1: WorkerConfig, cmd1: seq<string>, w2: WorkerConfig, cmd2: seq<string>, env: Env, k: nat)
    requires k < |RunWith(w1, cmd1, false, env).events|
    ensures var first := RunWith(w1, cmd1, false, env);
      && RunWith(w2, cmd2, first.events[k].busy, env).results == BusyMessage
      && Calls(RunWith(w2, cmd2, first.events[k].busy, env).events) == 0
      && RunWith(w2, cmd2, first.working, env) == RunWith(w2, cmd2, false, env)
  {
    RunIdle(w1, cmd1, env);
  }
}

/** The compiling processor: the walk over the list file, the compile step
    of one source with its staleness test, the link step, and `process`,
    which gates the link on the compile results. */
module Compiler {
  import opened Results
  import opened Text
  import opened Paths
  import opened ChildProcess
  import opened Environment
  import opened Utility
  import opened Message
  import opened Options
  import opened Seqs

  // ---------------------------------------------------------------------
  // List-file lines

  /** What a trimmed list-file line says. */
  datatype LineKind =
    | Skip                    // blank, or a `#` comment
    | PreScript(rest: string) // `^path`
    | PostScript(rest: string) // `$path`
    | Input(path: string)     // an object file or a source to compile

  /** The prefix tests in the order the loop makes them: a line opening
      with `^` or `$` is a script whatever it ends with. */
  function Classify(line: string): (k: LineKind)
    ensures k.Skip? <==> |line| == 0 || line[0] == '#'
    ensures k.PreScript? <==> |line| > 0 && line[0] == '^'
    ensures k.PostScript? <==> |line| > 0 && line[0] == '$'
    ensures k.PreScript? || k.PostScript? ==> k.rest == line[1..]
    ensures k.Input? ==> k.path == line
  {
    if |line| <= 0 || line[0] == '#' then Skip
    else if line[0] == '^' then PreScript(line[1..])
    else if line[0] == '$' then PostScript(line[1..])
    else Input(line)
  }

  /** `absPath.match(/\.(a|bc|o)$/i)`: an archive, bitcode or object file. */
  predicate IsObjectPath(p: string) {
    EndsWithIgnoringCase(p, ".a") || EndsWithIgnoringCase(p, ".bc") || EndsWithIgnoringCase(p, ".o")
  }

  /** The list file read as lines: split on `\r\n`, `\r` or `\n`, each
      line trimmed. */
  function ManifestLines(content: string): (lines: seq<string>)
    ensures |lines| == |SplitLines(content)|
    ensures forall k | 0 <= k < |lines| :: Trimmed(lines[k])
    ensures forall k | 0 <= k < |lines| :: lines[k] == Trim(SplitLines(content)[k])
  {
    var raw := SplitLines(content);
    seq(|raw|, k requires 0 <= k < |raw| => Trim(raw[k]))
  }

  // ---------------------------------------------------------------------
  // Compiling one source

  /** `extension.match(/\.c(c|pp|xx)$/i) !== null` */
  predicate IsCppSource(windows: bool, srcPath: string) {
    var ext := Extname(windows, srcPath);
    EndsWithIgnoringCase(ext, ".cc") || EndsWithIgnoringCase(ext, ".cpp") || EndsWithIgnoringCase(ext, ".cxx")
  }

  datatype Toolchain = Toolchain(compiler: string, flags: seq<string>)

  /** The compiler and flags for a source: C++ by extension, C otherwise;
      the common flags come first. */
  function SelectToolchain(windows: bool, opts: LoaderOption, srcPath: string): (t: Toolchain)
    ensures IsCppSource(windows, srcPath) ==> t == Toolchain(opts.cxx, opts.commonFlags + opts.cxxFlags)
    ensures !IsCppSource(windows, srcPath) ==> t == Toolchain(opts.cc, opts.commonFlags + opts.cFlags)
  {
    var cpp := IsCppSource(windows, srcPath);
    var compiler := if cpp then opts.cxx else opts.cc;
    var xxFlags := if cpp then opts.cxxFlags else opts.cFlags;
    Toolchain(compiler, opts.commonFlags + xxFlags)
  }

  /** The commands a step issued, in order, and the messages it returned. */
  datatype UnitRun = UnitRun(trace: seq<Command>, messages: seq<CompileMessage>)

  function NotFound(program: string): string {
    "Not found '" + program + ". Have you install it?'"
  }

  /** A placeholder for the `TypeError` thrown when `code` is read from a
      missing error object; no rejection of `exec` lacks one, so this path
      is dead in practice and the exact wording is not promised. */
  const CodeOfUndefined: string := "TypeError: Cannot read property 'code' of undefined"

  /** The `.catch` handler of the compile and link steps, for any promise:
      a rejection with code `ENOENT` throws, another one yields its stderr
      (and one without an error object fails on `err.err.code`). */
  function SettleTool(p: Promise<ExecResult>, program: string): (r: Result<string>)
    ensures p.Resolved? ==> r == Ok(p.value.stderr)
    ensures p.Rejected? && p.reason.err == Some(ExecError("ENOENT")) ==> r == Err(NotFound(program))
    ensures p.Rejected? && p.reason.err.Some? && p.reason.err != Some(ExecError("ENOENT")) ==> r == Ok(p.reason.stderr)
    ensures p.Rejected? && p.reason.err.None? ==> r == Err(CodeOfUndefined)
  {
    match p
    case Resolved(v) => Ok(v.stderr)
    case Rejected(e) =>
      if e.err == Some(ExecError("ENOENT")) then Err(NotFound(program))
      else if e.err.None? then Err(CodeOfUndefined)
      else Ok(e.stderr)
  }

  /** `flags ++ ['-c', '-o', out, src]`, both paths relative to `cwd` when
      it is set. */
  function CompileArgs(host: Host, opts: LoaderOption, flags: seq<string>, outputPath: string, srcPath: string): seq<string> {
    flags + ["-c", "-o", Relativize(host, opts.cwd, outputPath), Relativize(host, opts.cwd, srcPath)]
  }

  /** The `-MM` run of a source. */
  function DependencyRunOf(host: Host, opts: LoaderOption, srcPath: string): DependencyRun {
    var t := SelectToolchain(host.windows, opts, srcPath);
    GetDependencies(host, t.compiler, srcPath, t.flags, opts.cwd).value
  }

  /** The compile command of a source. */
  function CompileCommand(host: Host, opts: LoaderOption, outputPath: string, srcPath: string): Command {
    var t := SelectToolchain(host.windows, opts, srcPath);
    ChildCommand(host.windows, t.compiler, CompileArgs(host, opts, t.flags, outputPath, srcPath), opts.cwd)
  }

  /** The output must be rebuilt: its time does not exceed the latest time
      of its dependencies (equal times rebuild). */
  predicate Stale(host: Host, dependencies: seq<string>, outputPath: string)
    requires |dependencies| > 0
  {
    !(LatestModifiedTime(host, dependencies).value < ModifiedTime(host, outputPath))
  }

  /** `compile(context, outputPath, srcPath, options)`. */
  function Compile(host: Host, opts: LoaderOption, outputPath: string, srcPath: string): (r: Result<UnitRun>)
    ensures var deps := DependencyRunOf(host, opts, srcPath);
            && (r.Err? <==> |deps.dependencies| == 0)
            && (r.Err? ==> r.message == "paths must be non-empty.")
            && (r.Ok? && !Stale(host, deps.dependencies, outputPath) ==> r.value == UnitRun([deps.command], []))
            && (r.Ok? && Stale(host, deps.dependencies, outputPath) ==>
                  var cmd := CompileCommand(host, opts, outputPath, srcPath);
                  r.value == UnitRun([deps.command, cmd], ParseClangMessage(host.run(cmd).stderr)))
    ensures r.Ok? ==> AllUndefined(r.value.messages)
  {
    var t := SelectToolchain(host.windows, opts, srcPath);
    var deps := GetDependencies(host, t.compiler, srcPath, t.flags, opts.cwd).value;
    var latestModifiedTime :- LatestModifiedTime(host, deps.dependencies);
    var bcModifiedTime := ModifiedTime(host, outputPath);
    if latestModifiedTime < bcModifiedTime then Ok(UnitRun([deps.command], []))
    else
      var args := CompileArgs(host, opts, t.flags, outputPath, srcPath);
      match SettleTool(Execute(host.windows, host.run, t.compiler, args, opts.cwd), t.compiler)
      case Ok(stderr) =>
        Ok(UnitRun([deps.command, ChildCommand(host.windows, t.compiler, args, opts.cwd)], ParseClangMessage(stderr)))
      case Err(thrown) => Err(thrown)
  }

  // ---------------------------------------------------------------------
  // Linking

  function RelativizeAll(host: Host, cwd: Option<string>, paths: seq<string>): (r: seq<string>)
    ensures |r| == |paths|
    ensures !Truthy(cwd) ==> r == paths
    ensures Truthy(cwd) ==> forall k | 0 <= k < |r| :: r[k] == host.relative(cwd.value, paths[k])
  {
    seq(|paths|, k requires 0 <= k < |paths| => Relativize(host, cwd, paths[k]))
  }

  /** Where the optional script pairs sit at the head of the linker's
      arguments. */
  lemma ScriptsLayout(post: seq<string>, pre: seq<string>, tail: seq<string>)
    requires |post| == 0 || |post| == 2
    requires |pre| == 0 || |pre| == 2
    ensures |post| == 2 ==> (post + pre + tail)[..2] == post
    ensures |post| == 0 && |pre| == 2 ==> (post + pre + tail)[..2] == pre
    ensures |post| == 2 && |pre| == 2 ==> (post + pre + tail)[2..4] == pre
  {
    SliceLeft(post, pre, 0, |post|);
    SliceRight(post, pre, |post|, |post| + |pre|);
    SliceLeft(post + pre, tail, 0, if |post| == 2 then 2 else |pre|);
    SliceLeft(post + pre, tail, |post|, |post| + |pre|);
  }

  /** Where the flags, the output and the objects sit after a head of
      `|head|` arguments. */
  lemma FlagsLayout(head: seq<string>, common: seq<string>, ld: seq<string>, out: seq<string>, objArgs: seq<string>)
    ensures var a := head + (common + ld + out + objArgs);
            a[|head|..|head| + |common|] == common
    ensures var a := head + (common + ld + out + objArgs);
            a[|head|..|head| + |common| + |ld|] == common + ld
    ensures var a := head + (common + ld + out + objArgs);
            a[|a| - |objArgs| - |out|..|a| - |objArgs|] == out
    ensures var a := head + (common + ld + out + objArgs);
            a[|a| - |objArgs|..] == objArgs
  {
    var tail := common + ld + out + objArgs;
    var m := |head| + |tail|;
    assert tail[..|common|] == common;
    assert tail[..|common| + |ld|] == common + ld;
    assert tail[|tail| - |objArgs| - |out|..|tail| - |objArgs|] == out;
    assert tail[|tail| - |objArgs|..] == objArgs;
    SliceRight(head, tail, |head|, |head| + |common|);
    SliceRight(head, tail, |head|, |head| + |common| + |ld|);
    SliceRight(head, tail, m - |objArgs| - |out|, m - |objArgs|);
    SliceRight(head, tail, m - |objArgs|, m);
  }

  /** The linker's arguments: common and link flags, `-s WASM=1`, the
      output, the objects; then `--pre-js` is put in front, and `--post-js`
      in front of that. */
  function LinkArgs(host: Host, opts: LoaderOption, outputPath: string, objs: seq<string>): (args: seq<string>)
    ensures var extra := (if Truthy(opts.preJs) then 2 else 0) + (if Truthy(opts.postJs) then 2 else 0);
            |args| == extra + |opts.commonFlags| + |opts.ldFlags| + 4 + |objs|
    ensures |args| >= |objs| + 4
    ensures args[|args| - |objs|..] == RelativizeAll(host, opts.cwd, objs)
    ensures args[|args| - |objs| - 4..|args| - |objs|] == ["-s", "WASM=1", "-o", Relativize(host, opts.cwd, outputPath)]
    ensures Truthy(opts.postJs) ==> args[..2] == ["--post-js", Relativize(host, opts.cwd, opts.postJs.value)]
    ensures Truthy(opts.preJs) && !Truthy(opts.postJs) ==> args[..2] == ["--pre-js", Relativize(host, opts.cwd, opts.preJs.value)]
    ensures Truthy(opts.preJs) && Truthy(opts.postJs) ==> args[2..4] == ["--pre-js", Relativize(host, opts.cwd, opts.preJs.value)]
    ensures !Truthy(opts.preJs) && !Truthy(opts.postJs) ==> args[..|opts.commonFlags|] == opts.commonFlags
    ensures var p := (if Truthy(opts.preJs) then 2 else 0) + (if Truthy(opts.postJs) then 2 else 0);
            args[p..p + |opts.commonFlags| + |opts.ldFlags|] == opts.commonFlags + opts.ldFlags
  {
    var post := if Truthy(opts.postJs) then ["--post-js", Relativize(host, opts.cwd, opts.postJs.value)] else [];
    var pre := if Truthy(opts.preJs) then ["--pre-js", Relativize(host, opts.cwd, opts.preJs.value)] else [];
    var out := ["-s", "WASM=1", "-o", Relativize(host, opts.cwd, outputPath)];
    var objArgs := RelativizeAll(host, opts.cwd, objs);
    var tail := opts.commonFlags + opts.ldFlags + out + objArgs;
    ScriptsLayout(post, pre, tail);
    FlagsLayout(post + pre, opts.commonFlags, opts.ldFlags, out, objArgs);
    post + pre + tail
  }

  function LinkCommand(host: Host, opts: LoaderOption, outputPath: string, objs: seq<string>): Command {
    ChildCommand(host.windows, opts.ld, LinkArgs(host, opts, outputPath, objs), opts.cwd)
  }

  /** `link(context, outputPath, objs, options)`: never throws, since the
      run it waits for never rejects. */
  function Link(host: Host, opts: LoaderOption, outputPath: string, objs: seq<string>): (r: Result<UnitRun>)
    ensures r.Ok?
    ensures var cmd := LinkCommand(host, opts, outputPath, objs);
            r.value == UnitRun([cmd], ParseClangMessage(host.run(cmd).stderr))
  {
    var flags := LinkArgs(host, opts, outputPath, objs);
    match SettleTool(Execute(host.windows, host.run, opts.ld, flags, opts.cwd), opts.ld)
    case Ok(stderr) => Ok(UnitRun([ChildCommand(host.windows, opts.ld, flags, opts.cwd)], ParseClangMessage(stderr)))
    case Err(thrown) => Err(thrown)
  }

  // ---------------------------------------------------------------------
  // The walk over the list file

  /** What the loop has built so far: the options (with the scripts it
      found), the link list, the sticky error flag, the commands issued,
      the messages emitted, and the messages of each compiled unit. */
  datatype WalkState = WalkState(
    opts: LoaderOption,
    objs: seq<string>,
    error: bool,
    trace: seq<Command>,
    emitted: seq<Emission>,
    diagnostics: seq<seq<CompileMessage>>
  )

  function InitialState(opts: LoaderOption): WalkState {
    WalkState(opts, [], false, [], [], [])
  }

  /** Where the bitcode of a source goes: the build directory joined with
      its temp name and `.bc`. */
  function ObjectOutput(host: Host, buildDir: string, absPath: string): string {
    host.join(buildDir, TempName(host, absPath) + ".bc")
  }

  /** Some unit's messages hold an error. */
  predicate AnyError(diagnostics: seq<seq<CompileMessage>>) {
    exists k | 0 <= k < |diagnostics| :: ContainsError(diagnostics[k])
  }

  /** The errors the walk can throw. */
  predicate IsWalkError(message: string) {
    message == "Multiple preJs is not supported."
    || message == "Multiple postJs is not supported."
    || message == "paths must be non-empty."
  }

  /** Everything but the scripts is unchanged. */
  predicate SameSettings(a: LoaderOption, b: LoaderOption) {
    a.(preJs := None, postJs := None) == b.(preJs := None, postJs := None)
  }

  /** What a line adds to the link list, independently of the loop. */
  function LineObjects(host: Host, context: string, buildDir: string, line: string): seq<string> {
    match Classify(line)
    case Input(p) =>
      var absPath := host.resolve(context, p);
      [if IsObjectPath(absPath) then absPath else ObjectOutput(host, buildDir, absPath)]
    case _ => []
  }

  function ExpectedObjs(host: Host, context: string, buildDir: string, lines: seq<string>): seq<string> {
    if |lines| == 0 then []
    else LineObjects(host, context, buildDir, lines[0]) + ExpectedObjs(host, context, buildDir, lines[1..])
  }

  /** `st` grows into `r`: the earlier unit messages are kept, every new
      unit's messages come from the parser, and the error flag is set
      exactly when it was set before or a new unit reported an error. */
  predicate Follows(st: WalkState, r: WalkState) {
    var n := |st.diagnostics|;
    && n <= |r.diagnostics|
    && r.diagnostics[..n] == st.diagnostics
    && (forall k | n <= k < |r.diagnostics| :: AllUndefined(r.diagnostics[k]))
    && (r.error <==> st.error || AnyError(r.diagnostics[n..]))
  }

  /** Messages without levels hold no error. */
  lemma NoLevelNoError(diagnostics: seq<seq<CompileMessage>>)
    requires forall k | 0 <= k < |diagnostics| :: AllUndefined(diagnostics[k])
    ensures !AnyError(diagnostics)
  {
  }

  lemma FollowsRefl(st: WalkState)
    ensures Follows(st, st)
  {
    NoLevelNoError(st.diagnostics[|st.diagnostics|..]);
  }

  lemma FollowsTrans(a: WalkState, b: WalkState, c: WalkState)
    requires Follows(a, b) && Follows(b, c)
    ensures Follows(a, c)
  {
    var na, nb := |a.diagnostics|, |b.diagnostics|;
    assert c.diagnostics[..na] == b.diagnostics[..na];
    assert forall k | na <= k < |c.diagnostics| :: AllUndefined(c.diagnostics[k]) by {
      forall k | na <= k < |c.diagnostics| ensures AllUndefined(c.diagnostics[k]) {
        if k < nb { assert c.diagnostics[k] == b.diagnostics[k]; }
      }
    }
    NoLevelNoError(b.diagnostics[na..]);
    NoLevelNoError(c.diagnostics[nb..]);
    NoLevelNoError(c.diagnostics[na..]);
  }

  /** A compiled unit is recorded with the messages it returned. */
  function Record(st: WalkState, outputPath: string, unit: UnitRun): (r: WalkState)
    requires AllUndefined(unit.messages)
    ensures Follows(st, r)
  {
    var r := WalkState(
      st.opts,
      st.objs + [outputPath],
      st.error || ContainsError(unit.messages),
      st.trace + unit.trace,
      st.emitted + EmitCompileMessages(unit.messages),
      st.diagnostics + [unit.messages]);
    assert r.diagnostics[|st.diagnostics|..] == [unit.messages];
    NoLevelNoError([unit.messages]);
    r
  }

  /** An input line: an object file joins the link list as it is, a source
      is compiled to its bitcode file, which joins the list. */
  function AddInput(host: Host, st: WalkState, absPath: string): (r: Result<WalkState>)
    ensures r.Err? ==> r.message == "paths must be non-empty."
    ensures r.Ok? ==> r.value.opts == st.opts && Follows(st, r.value)
    ensures r.Ok? ==> r.value.objs == st.objs + [if IsObjectPath(absPath) then absPath else ObjectOutput(host, st.opts.buildDir, absPath)]
  {
    if IsObjectPath(absPath) then
      FollowsRefl(st);
      Ok(st.(objs := st.objs + [absPath]))
    else
      var outputPath := ObjectOutput(host, st.opts.buildDir, absPath);
      var unit :- Compile(host, st.opts, outputPath, absPath);
      Ok(Record(st, outputPath, unit))
  }

  /** One iteration of the list-file loop. */
  function WalkLine(host: Host, context: string, st: WalkState, line: string): (r: Result<WalkState>)
    ensures r.Err? ==> IsWalkError(r.message)
    ensures r.Ok? ==> SameSettings(r.value.opts, st.opts) && Follows(st, r.value)
    ensures r.Ok? ==> r.value.objs == st.objs + LineObjects(host, context, st.opts.buildDir, line)
    ensures Classify(line).PreScript? ==> (r.Err? <==> Truthy(st.opts.preJs))
    ensures Classify(line).PreScript? && r.Err? ==> r.message == "Multiple preJs is not supported."
    ensures Classify(line).PreScript? && r.Ok? ==> r.value.opts.preJs == Some(host.resolve(context, Classify(line).rest))
    ensures !Classify(line).PreScript? && r.Ok? ==> r.value.opts.preJs == st.opts.preJs
    ensures Classify(line).PostScript? ==> (r.Err? <==> Truthy(st.opts.postJs))
    ensures Classify(line).PostScript? && r.Err? ==> r.message == "Multiple postJs is not supported."
    ensures Classify(line).PostScript? && r.Ok? ==> r.value.opts.postJs == Some(host.resolve(context, Classify(line).rest))
    ensures !Classify(line).PostScript? && r.Ok? ==> r.value.opts.postJs == st.opts.postJs
  {
    FollowsRefl(st);
    match Classify(line)
    case Skip => Ok(st)
    case PreScript(rest) =>
      if Truthy(st.opts.preJs) then Err("Multiple preJs is not supported.")
      else Ok(st.(opts := st.opts.(preJs := Some(host.resolve(context, rest)))))
    case PostScript(rest) =>
      if Truthy(st.opts.postJs) then Err("Multiple postJs is not supported.")
      else Ok(st.(opts := st.opts.(postJs := Some(host.resolve(context, rest)))))
    case Input(p) => AddInput(host, st, host.resolve(context, p))
  }

  /** The list-file loop from state `st`. */
  function Walk(host: Host, context: string, lines: seq<string>, st: WalkState): (r: Result<WalkState>)
    ensures r.Err? ==> IsWalkError(r.message)
    ensures r.Ok? ==> SameSettings(r.value.opts, st.opts) && Follows(st, r.value)
    ensures r.Ok? ==> r.value.objs == st.objs + ExpectedObjs(host, context, st.opts.buildDir, lines)
    decreases |lines|
  {
    if |lines| == 0 then
      FollowsRefl(st);
      Ok(st)
    else
      match WalkLine(host, context, st, lines[0])
      case Err(thrown) => Err(thrown)
      case Ok(next) =>
        var r := Walk(host, context, lines[1..], next);
        WalkStep(host, context, lines, st, next, r);
        r
  }

  /** The loop's facts compose: one line, then the rest. */
  lemma WalkStep(host: Host, context: string, lines: seq<string>, st: WalkState, next: WalkState, r: Result<WalkState>)
    requires |lines| > 0
    requires SameSettings(next.opts, st.opts) && Follows(st, next)
    requires next.objs == st.objs + LineObjects(host, context, st.opts.buildDir, lines[0])
    requires r.Err? ==> IsWalkError(r.message)
    requires r.Ok? ==> SameSettings(r.value.opts, next.opts) && Follows(next, r.value)
    requires r.Ok? ==> r.value.objs == next.objs + ExpectedObjs(host, context, next.opts.buildDir, lines[1..])
    ensures r.Ok? ==> SameSettings(r.value.opts, st.opts) && Follows(st, r.value)
    ensures r.Ok? ==> r.value.objs == st.objs + ExpectedObjs(host, context, st.opts.buildDir, lines)
  {
    if r.Ok? {
      FollowsTrans(st, next, r.value);
      assert next.opts.buildDir == st.opts.buildDir;
      AppendAssoc(st.objs, LineObjects(host, context, st.opts.buildDir, lines[0]), ExpectedObjs(host, context, st.opts.buildDir, lines[1..]));
    }
  }

  // ---------------------------------------------------------------------
  // The whole build

  /** What a successful run leaves behind: the options with the scripts,
      the link list, the linked script's path, the commands issued and the
      messages emitted. */
  datatype Build = Build(
    opts: LoaderOption,
    objs: seq<string>,
    scriptPath: string,
    trace: seq<Command>,
    emitted: seq<Emission>
  )

  const CompileFailure: string := "Encountered error while compiling."

  /** The build directory joined with the list file's stem and `.js`. */
  function BaseScriptPath(host: Host, opts: LoaderOption, resourcePath: string): string {
    host.join(opts.buildDir, Stem(host.windows, resourcePath) + ".js")
  }

  /** `process(context, content, options)` up to the emitting of files:
      walk the list file, link only when no unit reported an error, and
      throw when a unit or the link did. */
  function Process(host: Host, opts: LoaderOption, resourcePath: string, context: string, content: string): (r: Result<Build>)
    ensures r.Err? ==> IsWalkError(r.message) || r.message == CompileFailure
    ensures r.Ok? ==> SameSettings(r.value.opts, opts)
    ensures r.Ok? ==> r.value.objs == ExpectedObjs(host, context, opts.buildDir, ManifestLines(content))
    ensures r.Ok? ==> r.value.scriptPath == BaseScriptPath(host, opts, resourcePath)
    ensures r.Ok? ==> (
      && |r.value.trace| > 0
      && r.value.trace[|r.value.trace| - 1] == LinkCommand(host, r.value.opts, r.value.scriptPath, r.value.objs))
  {
    match Walk(host, context, ManifestLines(content), InitialState(opts))
    case Err(thrown) => Err(thrown)
    case Ok(st) =>
      if st.error then Err(CompileFailure)
      else
        var scriptPath := BaseScriptPath(host, st.opts, resourcePath);
        var link := Link(host, st.opts, scriptPath, st.objs).value;
        if ContainsError(link.messages) then Err(CompileFailure)
        else
          var b := Build(st.opts, st.objs, scriptPath, st.trace + link.trace, st.emitted + EmitCompileMessages(link.messages));
          BuildFacts(host, opts, resourcePath, st.opts, st.objs, ExpectedObjs(host, context, opts.buildDir, ManifestLines(content)), st.trace, link.trace, b);
          Ok(b)
  }

  /** The facts `Process` states about a finished build, from those the
      walk and the link state. */
  lemma BuildFacts(host: Host, opts: LoaderOption, resourcePath: string, walked: LoaderOption,
                   objs: seq<string>, expected: seq<string>, trace: seq<Command>, linkTrace: seq<Command>, b: Build)
    requires SameSettings(walked, opts)
    requires objs == [] + expected
    requires b.opts == walked && b.objs == objs && b.trace == trace + linkTrace
    requires b.scriptPath == BaseScriptPath(host, walked, resourcePath)
    requires linkTrace == [LinkCommand(host, walked, b.scriptPath, objs)]
    ensures SameSettings(b.opts, opts)
    ensures b.objs == expected
    ensures b.scriptPath == BaseScriptPath(host, opts, resourcePath)
    ensures |b.trace| > 0 && b.trace[|b.trace| - 1] == LinkCommand(host, b.opts, b.scriptPath, b.objs)
  {
    assert walked.buildDir == walked.(preJs := None, postJs := None).buildDir;
    assert opts.buildDir == opts.(preJs := None, postJs := None).buildDir;
    assert (trace + linkTrace)[|trace|] == linkTrace[0];
  }
}

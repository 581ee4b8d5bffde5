/** Properties of the compiling processor: how the walk composes, what
    lines and flags it ignores, how often a script may be named, when a
    unit is rebuilt, and when the build as a whole fails. */
module CompilerProperties {
  import opened Results
  import opened Text
  import opened Paths
  import opened ChildProcess
  import opened Utility
  import opened Environment
  import opened Message
  import opened Options
  import opened Compiler

  // ---------------------------------------------------------------------
  // Composition of the walk

  /** Continue a walk that may have thrown. */
  function Then(host: Host, context: string, r: Result<WalkState>, lines: seq<string>): Result<WalkState> {
    match r
    case Err(m) => Err(m)
    case Ok(st) => Walk(host, context, lines, st)
  }

  /** Walking two pieces of a list file one after the other is walking the
      whole file; a throw in the first piece ends the walk. */
  lemma {:induction false} WalkAppend(host: Host, context: string, a: seq<string>, b: seq<string>, st: WalkState)
    ensures Walk(host, context, a + b, st) == Then(host, context, Walk(host, context, a, st), b)
    decreases |a|
  {
    if |a| == 0 {
      assert a + b == b;
    } else {
      assert (a + b)[0] == a[0];
      assert (a + b)[1..] == a[1..] + b;
      match WalkLine(host, context, st, a[0]) {
        case Err(_) =>
        case Ok(next) => WalkAppend(host, context, a[1..], b, next);
      }
    }
  }

  // ---------------------------------------------------------------------
  // Blank and comment lines

  /** The lines that are neither blank nor comments, in order. */
  function WithoutSkips(lines: seq<string>): (r: seq<string>)
    ensures |r| <= |lines|
    ensures forall k | 0 <= k < |r| :: !Classify(r[k]).Skip?
  {
    if |lines| == 0 then []
    else (if Classify(lines[0]).Skip? then [] else [lines[0]]) + WithoutSkips(lines[1..])
  }

  /** Blank and `#` lines change nothing: walking the file is walking the
      file with them removed. */
  lemma {:induction false} SkipLinesInert(host: Host, context: string, lines: seq<string>, st: WalkState)
    ensures Walk(host, context, lines, st) == Walk(host, context, WithoutSkips(lines), st)
    decreases |lines|
  {
    if |lines| > 0 {
      var rest := WithoutSkips(lines[1..]);
      if Classify(lines[0]).Skip? {
        assert WithoutSkips(lines) == rest;
        SkipLinesInert(host, context, lines[1..], st);
      } else {
        var kept := WithoutSkips(lines);
        assert kept == [lines[0]] + rest;
        assert kept[0] == lines[0] && kept[1..] == rest;
        match WalkLine(host, context, st, lines[0]) {
          case Err(_) =>
          case Ok(next) => SkipLinesInert(host, context, lines[1..], next);
        }
      }
    }
  }

  // ---------------------------------------------------------------------
  // The error flag

  /** A state with its error flag cleared. */
  function Forget(st: WalkState): WalkState {
    st.(error := false)
  }

  lemma WalkLineErrorFlagInert(host: Host, context: string, line: string, s1: WalkState, s2: WalkState)
    requires Forget(s1) == Forget(s2)
    ensures WalkLine(host, context, s1, line).Err? ==> WalkLine(host, context, s1, line) == WalkLine(host, context, s2, line)
    ensures WalkLine(host, context, s1, line).Ok? ==>
      WalkLine(host, context, s2, line).Ok? && Forget(WalkLine(host, context, s1, line).value) == Forget(WalkLine(host, context, s2, line).value)
  {
    assert s1.opts == s2.opts && s1.objs == s2.objs && s1.trace == s2.trace;
    assert s1.emitted == s2.emitted && s1.diagnostics == s2.diagnostics;
  }

  /** An earlier error does not stop the loop: every later source is still
      compiled, with the same commands, messages and link list, whatever
      the flag says. */
  lemma {:induction false} WalkErrorFlagInert(host: Host, context: string, lines: seq<string>, s1: WalkState, s2: WalkState)
    requires Forget(s1) == Forget(s2)
    ensures Walk(host, context, lines, s1).Err? ==> Walk(host, context, lines, s1) == Walk(host, context, lines, s2)
    ensures Walk(host, context, lines, s1).Ok? ==>
      Walk(host, context, lines, s2).Ok? && Forget(Walk(host, context, lines, s1).value) == Forget(Walk(host, context, lines, s2).value)
    decreases |lines|
  {
    if |lines| > 0 {
      WalkLineErrorFlagInert(host, context, lines[0], s1, s2);
      match WalkLine(host, context, s1, lines[0]) {
        case Err(_) =>
        case Ok(n1) =>
          var n2 := WalkLine(host, context, s2, lines[0]).value;
          WalkErrorFlagInert(host, context, lines[1..], n1, n2);
      }
    }
  }

  // ---------------------------------------------------------------------
  // Scripts

  function CountPreScripts(lines: seq<string>): nat {
    if |lines| == 0 then 0 else (if Classify(lines[0]).PreScript? then 1 else 0) + CountPreScripts(lines[1..])
  }

  function CountPostScripts(lines: seq<string>): nat {
    if |lines| == 0 then 0 else (if Classify(lines[0]).PostScript? then 1 else 0) + CountPostScripts(lines[1..])
  }

  /** A walk that succeeds met at most one `^` line, and none at all when a
      pre-js script was already set (resolved paths are never empty). */
  lemma {:induction false} AtMostOnePreJs(host: Host, context: string, lines: seq<string>, st: WalkState)
    requires forall p :: host.resolve(context, p) != ""
    requires Walk(host, context, lines, st).Ok?
    ensures CountPreScripts(lines) + (if Truthy(st.opts.preJs) then 1 else 0) <= 1
    decreases |lines|
  {
    if |lines| > 0 {
      var next := WalkLine(host, context, st, lines[0]).value;
      AtMostOnePreJs(host, context, lines[1..], next);
    }
  }

  /** The same for `$` lines and the post-js script. */
  lemma {:induction false} AtMostOnePostJs(host: Host, context: string, lines: seq<string>, st: WalkState)
    requires forall p :: host.resolve(context, p) != ""
    requires Walk(host, context, lines, st).Ok?
    ensures CountPostScripts(lines) + (if Truthy(st.opts.postJs) then 1 else 0) <= 1
    decreases |lines|
  {
    if |lines| > 0 {
      var next := WalkLine(host, context, st, lines[0]).value;
      AtMostOnePostJs(host, context, lines[1..], next);
    }
  }

  /** Two `^` lines in a row: the second throws. */
  lemma DuplicatePreJsRejected(host: Host, context: string, opts: LoaderOption, a: string, b: string)
    requires opts.preJs == None
    requires host.resolve(context, a) != ""
    ensures Walk(host, context, ["^" + a, "^" + b], InitialState(opts)) == Err("Multiple preJs is not supported.")
  {
    var lines := ["^" + a, "^" + b];
    assert Classify(lines[0]) == PreScript(a);
    assert Classify(lines[1]) == PreScript(b);
    var next := WalkLine(host, context, InitialState(opts), lines[0]).value;
    assert lines[1..] == ["^" + b];
    assert Walk(host, context, lines[1..], next) == Err("Multiple preJs is not supported.");
  }

  /** Two `$` lines in a row: the second throws. */
  lemma DuplicatePostJsRejected(host: Host, context: string, opts: LoaderOption, a: string, b: string)
    requires opts.postJs == None
    requires host.resolve(context, a) != ""
    ensures Walk(host, context, ["$" + a, "$" + b], InitialState(opts)) == Err("Multiple postJs is not supported.")
  {
    var lines := ["$" + a, "$" + b];
    assert Classify(lines[0]) == PostScript(a);
    assert Classify(lines[1]) == PostScript(b);
    var next := WalkLine(host, context, InitialState(opts), lines[0]).value;
    assert lines[1..] == ["$" + b];
    assert Walk(host, context, lines[1..], next) == Err("Multiple postJs is not supported.");
  }

  /** The pre-js script a walk that succeeds ends with, as a fold over the
      lines independent of the loop: the last `^` line wins. */
  function PreJsAfter(host: Host, context: string, lines: seq<string>, current: Option<string>): Option<string> {
    if |lines| == 0 then current
    else
      var k := Classify(lines[0]);
      PreJsAfter(host, context, lines[1..], if k.PreScript? then Some(host.resolve(context, k.rest)) else current)
  }

  /** The same for `$` lines. */
  function PostJsAfter(host: Host, context: string, lines: seq<string>, current: Option<string>): Option<string> {
    if |lines| == 0 then current
    else
      var k := Classify(lines[0]);
      PostJsAfter(host, context, lines[1..], if k.PostScript? then Some(host.resolve(context, k.rest)) else current)
  }

  /** The scripts a walk records are those the fold finds. */
  lemma {:induction false} WalkScripts(host: Host, context: string, lines: seq<string>, st: WalkState)
    requires Walk(host, context, lines, st).Ok?
    ensures Walk(host, context, lines, st).value.opts.preJs == PreJsAfter(host, context, lines, st.opts.preJs)
    ensures Walk(host, context, lines, st).value.opts.postJs == PostJsAfter(host, context, lines, st.opts.postJs)
    decreases |lines|
  {
    if |lines| > 0 {
      var next := WalkLine(host, context, st, lines[0]).value;
      WalkScripts(host, context, lines[1..], next);
    }
  }

  /** A list file naming a pre-js script, a source, an object file and a
      post-js script: the link list is the source's bitcode then the object,
      both scripts are recorded, and the linker is given `--post-js` first
      and `--pre-js` second. */
  lemma ScriptsAndObjects(host: Host, context: string, opts: LoaderOption, pre: string, src: string, obj: string, post: string, outputPath: string)
    requires Classify(src) == Input(src) && Classify(obj) == Input(obj)
    requires host.resolve(context, pre) != "" && host.resolve(context, post) != ""
    requires IsObjectPath(host.resolve(context, obj)) && !IsObjectPath(host.resolve(context, src))
    requires Walk(host, context, ["^" + pre, src, obj, "$" + post], InitialState(opts)).Ok?
    ensures var st := Walk(host, context, ["^" + pre, src, obj, "$" + post], InitialState(opts)).value;
      && st.objs == [ObjectOutput(host, opts.buildDir, host.resolve(context, src)), host.resolve(context, obj)]
      && st.opts.preJs == Some(host.resolve(context, pre))
      && st.opts.postJs == Some(host.resolve(context, post))
      && LinkArgs(host, st.opts, outputPath, st.objs)[..4] == [
           "--post-js", Relativize(host, st.opts.cwd, host.resolve(context, post)),
           "--pre-js", Relativize(host, st.opts.cwd, host.resolve(context, pre))]
  {
    var lines := ["^" + pre, src, obj, "$" + post];
    var st := Walk(host, context, lines, InitialState(opts)).value;
    ScenarioFolds(host, context, opts, pre, src, obj, post, lines);
    WalkScripts(host, context, lines, InitialState(opts));
    LinkArgsBothScripts(host, st.opts, outputPath, st.objs);
  }

  /** With both scripts set, the linker's arguments open with the post-js
      pair and then the pre-js pair. */
  lemma LinkArgsBothScripts(host: Host, opts: LoaderOption, outputPath: string, objs: seq<string>)
    requires Truthy(opts.preJs) && Truthy(opts.postJs)
    ensures LinkArgs(host, opts, outputPath, objs)[..4] == [
      "--post-js", Relativize(host, opts.cwd, opts.postJs.value),
      "--pre-js", Relativize(host, opts.cwd, opts.preJs.value)]
  {
    var args := LinkArgs(host, opts, outputPath, objs);
    assert args[..4] == args[..2] + args[2..4];
  }

  lemma ScenarioFolds(host: Host, context: string, opts: LoaderOption, pre: string, src: string, obj: string, post: string, lines: seq<string>)
    requires lines == ["^" + pre, src, obj, "$" + post]
    requires Classify(src) == Input(src) && Classify(obj) == Input(obj)
    requires IsObjectPath(host.resolve(context, obj)) && !IsObjectPath(host.resolve(context, src))
    ensures ExpectedObjs(host, context, opts.buildDir, lines)
         == [ObjectOutput(host, opts.buildDir, host.resolve(context, src)), host.resolve(context, obj)]
    ensures PreJsAfter(host, context, lines, InitialState(opts).opts.preJs) == Some(host.resolve(context, pre))
    ensures PostJsAfter(host, context, lines, InitialState(opts).opts.postJs) == Some(host.resolve(context, post))
  {
    ScenarioObjects(host, context, opts.buildDir, pre, src, obj, post, lines);
    ScenarioScripts(host, context, InitialState(opts).opts.preJs, InitialState(opts).opts.postJs, pre, src, obj, post, lines);
  }

  lemma ScenarioObjects(host: Host, context: string, dir: string, pre: string, src: string, obj: string, post: string, lines: seq<string>)
    requires lines == ["^" + pre, src, obj, "$" + post]
    requires Classify(src) == Input(src) && Classify(obj) == Input(obj)
    requires IsObjectPath(host.resolve(context, obj)) && !IsObjectPath(host.resolve(context, src))
    ensures ExpectedObjs(host, context, dir, lines)
         == [ObjectOutput(host, dir, host.resolve(context, src)), host.resolve(context, obj)]
  {
    var l1, l2, l3 := lines[1..], lines[2..], lines[3..];
    assert l1[1..] == l2 && l2[1..] == l3 && l3[1..] == [];
    assert LineObjects(host, context, dir, lines[0]) == [];
    assert LineObjects(host, context, dir, l3[0]) == [];
    var a := ObjectOutput(host, dir, host.resolve(context, src));
    var b := host.resolve(context, obj);
    assert LineObjects(host, context, dir, l1[0]) == [a];
    assert LineObjects(host, context, dir, l2[0]) == [b];
    assert ExpectedObjs(host, context, dir, l3) == [];
    assert ExpectedObjs(host, context, dir, l2) == [b];
    assert ExpectedObjs(host, context, dir, l1) == [a, b];
  }

  lemma ScenarioScripts(host: Host, context: string, p0: Option<string>, q0: Option<string>,
                        pre: string, src: string, obj: string, post: string, lines: seq<string>)
    requires lines == ["^" + pre, src, obj, "$" + post]
    requires Classify(src) == Input(src) && Classify(obj) == Input(obj)
    ensures PreJsAfter(host, context, lines, p0) == Some(host.resolve(context, pre))
    ensures PostJsAfter(host, context, lines, q0) == Some(host.resolve(context, post))
  {
    var l1, l2, l3 := lines[1..], lines[2..], lines[3..];
    assert l1[1..] == l2 && l2[1..] == l3 && l3[1..] == [];
    assert Classify(lines[0]) == PreScript(pre);
    assert Classify(l3[0]) == PostScript(post);
    var p, q := Some(host.resolve(context, pre)), Some(host.resolve(context, post));
    assert PreJsAfter(host, context, l3, p) == p;
    assert PreJsAfter(host, context, l2, p) == p;
    assert PreJsAfter(host, context, l1, p) == p;
    assert PostJsAfter(host, context, l3, q0) == q;
    assert PostJsAfter(host, context, l2, q0) == q;
    assert PostJsAfter(host, context, l1, q0) == q;
  }

  // ---------------------------------------------------------------------
  // Names and commands

  /** A list-file entry is taken as an object file exactly when its last
      extension is `a`, `bc` or `o`, in any case. */
  lemma ObjectPathOfName(pre: string, ext: string)
    requires forall i | 0 <= i < |ext| :: ext[i] != '.'
    ensures IsObjectPath(pre + "." + ext) <==>
              EqualsIgnoringCase(ext, "a") || EqualsIgnoringCase(ext, "bc") || EqualsIgnoringCase(ext, "o")
  {
    assert pre + "." + ext == pre + ("." + ext);
    assert ".a" == "." + "a" && ".bc" == "." + "bc" && ".o" == "." + "o";
    DotSuffixAfter(pre, ext, "a");
    DotSuffixAfter(pre, ext, "bc");
    DotSuffixAfter(pre, ext, "o");
  }

  /** A source goes to the C++ compiler exactly when its extension is
      `cc`, `cpp` or `cxx`, in any case. */
  lemma CppSourceOfName(windows: bool, dir: string, stem: string, ext: string)
    requires |stem| > 0
    requires forall i | 0 <= i < |stem| :: stem[i] != '.' && !IsSeparator(windows, stem[i])
    requires forall i | 0 <= i < |ext| :: ext[i] != '.' && !IsSeparator(windows, ext[i])
    ensures IsCppSource(windows, dir + "/" + stem + "." + ext) <==>
              EqualsIgnoringCase(ext, "cc") || EqualsIgnoringCase(ext, "cpp") || EqualsIgnoringCase(ext, "cxx")
  {
    ExtnameOfName(windows, dir, stem, ext);
    CppExtension(ext);
  }

  lemma CppExtension(ext: string)
    requires forall i | 0 <= i < |ext| :: ext[i] != '.'
    ensures EndsWithIgnoringCase("." + ext, ".cc") || EndsWithIgnoringCase("." + ext, ".cpp") || EndsWithIgnoringCase("." + ext, ".cxx")
            <==> EqualsIgnoringCase(ext, "cc") || EqualsIgnoringCase(ext, "cpp") || EqualsIgnoringCase(ext, "cxx")
  {
    assert ".cc" == "." + "cc" && ".cpp" == "." + "cpp" && ".cxx" == "." + "cxx";
    DotSuffixIgnoringCase(ext, "cc");
    DotSuffixIgnoringCase(ext, "cpp");
    DotSuffixIgnoringCase(ext, "cxx");
  }

  /** A source `dir/stem.ext` compiles to `stem-<30 digest digits>.bc` in
      the build directory. */
  lemma ObjectOutputOfName(host: Host, buildDir: string, dir: string, stem: string, ext: string)
    requires |stem| > 0
    requires forall i | 0 <= i < |stem| :: stem[i] != '.' && !IsSeparator(host.windows, stem[i])
    requires forall i | 0 <= i < |ext| :: ext[i] != '.' && !IsSeparator(host.windows, ext[i])
    requires |host.md5(dir + "/" + stem + "." + ext)| == 32
    ensures var p := dir + "/" + stem + "." + ext;
            ObjectOutput(host, buildDir, p) == host.join(buildDir, stem + "-" + host.md5(p)[..30] + ".bc")
  {
    var p := dir + "/" + stem + "." + ext;
    ExtnameOfName(host.windows, dir, stem, ext);
    TempNameShape(host, p);
  }

  /** The linked script of a list file `dir/stem.ext` is `stem.js` in the
      build directory. */
  lemma BaseScriptPathOfName(host: Host, opts: LoaderOption, dir: string, stem: string, ext: string)
    requires |stem| > 0
    requires forall i | 0 <= i < |stem| :: stem[i] != '.' && !IsSeparator(host.windows, stem[i])
    requires forall i | 0 <= i < |ext| :: ext[i] != '.' && !IsSeparator(host.windows, ext[i])
    ensures BaseScriptPath(host, opts, dir + "/" + stem + "." + ext) == host.join(opts.buildDir, stem + ".js")
  {
    ExtnameOfName(host.windows, dir, stem, ext);
  }

  /** The dependency listing and the compile of a unit ask the same
      compiler, chosen by extension, with the same flags, and name the
      same source last; the listing adds `-MM`, the compile `-c -o out`. */
  lemma CompileAndListingAgree(host: Host, opts: LoaderOption, outputPath: string, srcPath: string)
    ensures var d := Requested(host.windows, DependencyRunOf(host, opts, srcPath).command);
            var c := Requested(host.windows, CompileCommand(host, opts, outputPath, srcPath));
            var cpp := IsCppSource(host.windows, srcPath);
            var flags := opts.commonFlags + (if cpp then opts.cxxFlags else opts.cFlags);
            var src := Relativize(host, opts.cwd, srcPath);
            && d.Some? && c.Some?
            && d.value.0 == c.value.0 == (if cpp then opts.cxx else opts.cc)
            && d.value.1 == flags + ["-MM", src]
            && c.value.1 == flags + ["-c", "-o", Relativize(host, opts.cwd, outputPath), src]
  {
    var t := SelectToolchain(host.windows, opts, srcPath);
    var src := Relativize(host, opts.cwd, srcPath);
    RequestedChildCommand(host.windows, t.compiler, t.flags + ["-MM", src], opts.cwd);
    RequestedChildCommand(host.windows, t.compiler, CompileArgs(host, opts, t.flags, outputPath, srcPath), opts.cwd);
  }

  // ---------------------------------------------------------------------
  // Rebuilding a unit

  /** The output is rebuilt exactly when some dependency is at least as new
      as it; a missing output counts as the epoch. */
  lemma StaleIffSomeDependencyNotOlder(host: Host, dependencies: seq<string>, outputPath: string)
    requires |dependencies| > 0
    ensures Stale(host, dependencies, outputPath)
        <==> exists k | 0 <= k < |dependencies| :: ModifiedTime(host, outputPath) <= ModifiedTime(host, dependencies[k])
  {
    var latest := LatestModifiedTime(host, dependencies).value;
    if Stale(host, dependencies, outputPath) {
      var k :| 0 <= k < |dependencies| && ModifiedTime(host, dependencies[k]) == latest;
      assert ModifiedTime(host, outputPath) <= ModifiedTime(host, dependencies[k]);
    }
  }

  /** An output newer than every dependency is not recompiled: only the
      dependency listing runs, and no message comes back. */
  lemma CompileSkipsFreshOutput(host: Host, opts: LoaderOption, outputPath: string, srcPath: string)
    requires var deps := DependencyRunOf(host, opts, srcPath).dependencies;
      && |deps| > 0
      && forall k | 0 <= k < |deps| :: ModifiedTime(host, deps[k]) < ModifiedTime(host, outputPath)
    ensures Compile(host, opts, outputPath, srcPath) == Ok(UnitRun([DependencyRunOf(host, opts, srcPath).command], []))
  {
    StaleIffSomeDependencyNotOlder(host, DependencyRunOf(host, opts, srcPath).dependencies, outputPath);
  }

  /** A missing output is always compiled when its dependencies exist with
      times at or after the epoch. */
  lemma CompileBuildsMissingOutput(host: Host, opts: LoaderOption, outputPath: string, srcPath: string)
    requires !host.fileExists(outputPath)
    requires var deps := DependencyRunOf(host, opts, srcPath).dependencies;
      && |deps| > 0 && Epoch <= ModifiedTime(host, deps[0])
    ensures Compile(host, opts, outputPath, srcPath).Ok?
    ensures |Compile(host, opts, outputPath, srcPath).value.trace| == 2
    ensures Compile(host, opts, outputPath, srcPath).value.trace[1] == CompileCommand(host, opts, outputPath, srcPath)
  {
    StaleIffSomeDependencyNotOlder(host, DependencyRunOf(host, opts, srcPath).dependencies, outputPath);
  }

  /** A compiler that prints nothing for `-MM` (one that is not installed,
      say: `execute` never rejects, so its empty output is parsed) leaves
      no dependency, and the unit fails on the empty list before the
      compile command is reached. */
  lemma SilentDependencyListingFails(host: Host, opts: LoaderOption, outputPath: string, srcPath: string)
    requires Trim(host.run(DependencyRunOf(host, opts, srcPath).command).stdout) == ""
    ensures Compile(host, opts, outputPath, srcPath) == Err("paths must be non-empty.")
  {
    var deps := DependencyRunOf(host, opts, srcPath);
    assert deps.dependencies == ParseDependencies(host.run(deps.command).stdout);
  }

  // ---------------------------------------------------------------------
  // The build as a whole

  /** The gate of `process`: after a walk that did not throw, the build
      fails with the compile error exactly when a unit or the link reported
      an error. */
  lemma ProcessGate(host: Host, opts: LoaderOption, resourcePath: string, context: string, content: string)
    requires Walk(host, context, ManifestLines(content), InitialState(opts)).Ok?
    ensures var st := Walk(host, context, ManifestLines(content), InitialState(opts)).value;
      var link := Link(host, st.opts, BaseScriptPath(host, st.opts, resourcePath), st.objs).value;
      (Process(host, opts, resourcePath, context, content) == Err(CompileFailure) <==>
         AnyError(st.diagnostics) || ContainsError(link.messages))
  {
  }

  /** As written, the parsed messages never carry a level, so no unit and
      no link reports an error: `process` fails only when the walk throws. */
  lemma ProcessFailsOnlyInWalk(host: Host, opts: LoaderOption, resourcePath: string, context: string, content: string)
    ensures Process(host, opts, resourcePath, context, content).Err?
        <==> Walk(host, context, ManifestLines(content), InitialState(opts)).Err?
    ensures Process(host, opts, resourcePath, context, content).Err? ==>
      IsWalkError(Process(host, opts, resourcePath, context, content).message)
  {
    var w := Walk(host, context, ManifestLines(content), InitialState(opts));
    if w.Ok? {
      var st := w.value;
      NoLevelNoError(st.diagnostics[0..]);
      assert st.diagnostics[0..] == st.diagnostics;
      assert !st.error;
    }
  }
}

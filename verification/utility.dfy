/** Helpers of the loader: reading the compiler's dependency listing,
    file modification times, the build-directory name of a source, and the
    working-directory-relative form of a path. */
module Utility {
  import opened Results
  import opened Text
  import opened Paths
  import opened ChildProcess
  import opened Environment
  import opened Seqs

  /** `Date.UTC(1970, 0)`: the time given to a file that does not exist. */
  const Epoch: int := 0

  /** `cwd ? path.relative(cwd, p) : p` */
  function Relativize(host: Host, cwd: Option<string>, p: string): string {
    if Truthy(cwd) then host.relative(cwd.value, p) else p
  }

  /** The `-MM` output read as a dependency list: trimmed, backslash line
      continuations deleted, split on whitespace runs, and the first field
      (the `name.o:` rule head) dropped. */
  function ParseDependencies(stdout: string): (deps: seq<string>)
    ensures forall k | 0 <= k < |deps| :: NoSpace(deps[k])
    ensures Trim(stdout) == "" ==> deps == []
  {
    SplitWhitespace(RemoveContinuations(Trim(stdout)))[1..]
  }

  /** The `-MM` command `getDependencies` issues, and its parsed output. */
  datatype DependencyRun = DependencyRun(command: Command, dependencies: seq<string>)

  /** The `.catch(err => { throw err.err; })` of `getDependencies`. */
  function SettleDependencies(p: Promise<ExecResult>): (r: Result<string>)
    ensures p.Resolved? ==> r == Ok(p.value.stdout)
    ensures p.Rejected? ==> r.Err?
  {
    match p
    case Resolved(v) => Ok(v.stdout)
    case Rejected(e) => Err(if e.err.Some? then e.err.value.code else "undefined")
  }

  /** `getDependencies(compiler, absPath, flags, cwd)`: runs the compiler
      with `-MM` after the flags and parses what it prints, whatever its
      exit status. */
  function GetDependencies(host: Host, compiler: string, absPath: string, flags: seq<string>, cwd: Option<string>): (r: Result<DependencyRun>)
    ensures r.Ok?
    ensures r.value.command == ChildCommand(host.windows, compiler, flags + ["-MM", Relativize(host, cwd, absPath)], cwd)
    ensures r.value.dependencies == ParseDependencies(host.run(r.value.command).stdout)
  {
    var args := flags + ["-MM", Relativize(host, cwd, absPath)];
    match SettleDependencies(Execute(host.windows, host.run, compiler, args, cwd))
    case Ok(stdout) => Ok(DependencyRun(ChildCommand(host.windows, compiler, args, cwd), ParseDependencies(stdout)))
    case Err(thrown) => Err(thrown)
  }

  /** `getModifiedTime(file)`: the file's modification time, or the epoch
      when it does not exist. */
  function ModifiedTime(host: Host, file: string): (t: int)
    ensures host.fileExists(file) ==> t == host.mtime(file)
    ensures !host.fileExists(file) ==> t == Epoch
  {
    if !host.fileExists(file) then Epoch else host.mtime(file)
  }

  /** The loop of `getLatestModifiedTime`: keeps the larger of `latest` and
      each path's time, replacing only on a strictly later time. */
  function ScanLatest(host: Host, latest: int, paths: seq<string>): (r: int)
    ensures latest <= r
    ensures forall k | 0 <= k < |paths| :: ModifiedTime(host, paths[k]) <= r
    ensures r == latest || exists k | 0 <= k < |paths| :: ModifiedTime(host, paths[k]) == r
    decreases |paths|
  {
    if |paths| == 0 then latest
    else
      var time := ModifiedTime(host, paths[0]);
      var r := ScanLatest(host, if time > latest then time else latest, paths[1..]);
      assert forall k | 1 <= k < |paths| :: paths[k] == paths[1..][k - 1];
      r
  }

  /** `getLatestModifiedTime(paths)`: throws on an empty list, otherwise
      the latest modification time among the paths. */
  function LatestModifiedTime(host: Host, paths: seq<string>): (r: Result<int>)
    ensures |paths| == 0 <==> r.Err?
    ensures r.Err? ==> r.message == "paths must be non-empty."
    ensures r.Ok? ==> forall k | 0 <= k < |paths| :: ModifiedTime(host, paths[k]) <= r.value
    ensures r.Ok? ==> exists k | 0 <= k < |paths| :: ModifiedTime(host, paths[k]) == r.value
  {
    if |paths| <= 0 then Err("paths must be non-empty.")
    else Ok(ScanLatest(host, ModifiedTime(host, paths[0]), paths))
  }

  /** `s.slice(0, -2)` */
  function DropLastTwo(s: string): (r: string)
    ensures |s| >= 2 ==> r + s[|s| - 2..] == s
    ensures |s| < 2 ==> r == ""
  {
    if |s| >= 2 then s[..|s| - 2] else ""
  }

  /** `getTempName(absPath)`: the stem of the path, a dash, and the MD5
      hex digest of the whole path without its last two digits. */
  function TempName(host: Host, absPath: string): (r: string)
    ensures |r| > |Stem(host.windows, absPath)|
    ensures r[..|Stem(host.windows, absPath)|] == Stem(host.windows, absPath)
    ensures r[|Stem(host.windows, absPath)|] == '-'
  {
    var stem := Stem(host.windows, absPath);
    var r := stem + "-" + DropLastTwo(host.md5(absPath));
    assert r[..|stem|] == stem && r[|stem|] == '-';
    r
  }

  // ---------------------------------------------------------------------
  // Properties

  /** A `-MM` listing of a rule head followed by dependencies, separated by
      single spaces, reads back as exactly those dependencies. */
  lemma DependenciesRoundTrip(head: string, deps: seq<string>)
    requires |head| > 0 && NoSpace(head)
    requires forall k | 0 <= k < |deps| :: |deps[k]| > 0 && NoSpace(deps[k])
    ensures ParseDependencies(Join([head] + deps, " ")) == deps
  {
    var fields := [head] + deps;
    var s := Join(fields, " ");
    JoinNoLineBreak(fields);
    JoinStartsWith(fields);
    JoinEndsWith(fields);
    assert Trim(s) == s;
    SplitJoinWhitespace(fields);
    assert fields[1..] == deps;
  }

  /** What `-MM` puts between two names: whitespace, possibly with
      backslash-newline continuations inside, not ending in a backslash,
      and still a whitespace run once the continuations are gone. */
  predicate RawGap(g: string) {
    && |g| > 0 && g[|g| - 1] != '\\'
    && |RemoveContinuations(g)| > 0 && AllSpace(RemoveContinuations(g))
  }

  /** The separators once the continuations are removed. */
  function CleanGaps(gaps: seq<string>): (r: seq<string>)
    ensures |r| == |gaps|
    ensures forall i | 0 <= i < |gaps| :: r[i] == RemoveContinuations(gaps[i])
  {
    seq(|gaps|, i requires 0 <= i < |gaps| => RemoveContinuations(gaps[i]))
  }

  /** A make rule as `-MM` prints it, with any whitespace before and after,
      names separated by whitespace runs and wrapped lines (` \` and a line
      break), reads back as exactly the names after the rule head. */
  lemma DependenciesOfMakeRule(lead: string, fields: seq<string>, gaps: seq<string>, trail: string)
    requires AllSpace(lead) && AllSpace(trail)
    requires |fields| >= 1 && |gaps| == |fields| - 1
    requires forall i | 0 <= i < |fields| ::
      |fields[i]| > 0 && NoSpace(fields[i]) && fields[i][|fields[i]| - 1] != '\\'
    requires forall i | 0 <= i < |gaps| :: RawGap(gaps[i])
    ensures ParseDependencies(lead + Weave(fields, gaps) + trail) == fields[1..]
  {
    var w := Weave(fields, gaps);
    WeaveEnds(fields, gaps);
    assert Trimmed(w) by {
      assert !IsJsSpace(w[0]) && !IsJsSpace(w[|w| - 1]);
    }
    TrimAround(lead, w, trail);
    ContinuationsInWeave(fields, gaps);
    var clean := CleanGaps(gaps);
    assert forall i | 0 <= i < |clean| :: |clean[i]| > 0 && AllSpace(clean[i]) by {
      forall i | 0 <= i < |clean|
        ensures |clean[i]| > 0 && AllSpace(clean[i])
      {
        assert RawGap(gaps[i]);
      }
    }
    SplitWhitespaceWeave(fields, clean);
    assert ParseDependencies(lead + w + trail) == SplitWhitespace(Weave(fields, clean))[1..];
  }

  /** A wrapped listing as the compiler prints it. */
  lemma WrappedRuleExample()
    ensures ParseDependencies("main.o: main.c \\\n  util.h\n") == ["main.c", "util.h"]
  {
    var fields := ["main.o:", "main.c", "util.h"];
    var gaps := [" ", " \\\n  "];
    ExampleShape(fields, gaps);
    ExampleWeave(fields, gaps);
    DependenciesOfMakeRule("", fields, gaps, "\n");
    var w := Weave(fields, gaps);
    assert "" + w + "\n" == "main.o: main.c \\\n  util.h\n";
    assert fields[1..] == ["main.c", "util.h"];
  }

  lemma ExampleShape(fields: seq<string>, gaps: seq<string>)
    requires fields == ["main.o:", "main.c", "util.h"] && gaps == [" ", " \\\n  "]
    ensures AllSpace("") && AllSpace("\n")
    ensures forall i | 0 <= i < |fields| ::
      |fields[i]| > 0 && NoSpace(fields[i]) && fields[i][|fields[i]| - 1] != '\\'
    ensures forall i | 0 <= i < |gaps| :: RawGap(gaps[i])
  {
    ExampleFields(fields);
    ExampleGaps(gaps[1]);
    assert gaps[0] == " ";
  }

  lemma ExampleFields(fields: seq<string>)
    requires fields == ["main.o:", "main.c", "util.h"]
    ensures forall i | 0 <= i < |fields| ::
      |fields[i]| > 0 && NoSpace(fields[i]) && fields[i][|fields[i]| - 1] != '\\'
  {
  }

  lemma ExampleGaps(gap: string)
    requires gap == " \\\n  "
    ensures RawGap(" ") && RawGap(gap)
  {
    assert RemoveContinuations(" ") == " ";
    assert RemoveContinuations(gap) == "   " by {
      assert gap == [' '] + (['\\', '\n'] + "  ");
      ContinuationRemoved('\n', "  ");
    }
  }

  lemma ExampleWeave(fields: seq<string>, gaps: seq<string>)
    requires fields == ["main.o:", "main.c", "util.h"] && gaps == [" ", " \\\n  "]
    ensures Weave(fields, gaps) == "main.o: main.c \\\n  util.h"
  {
    assert fields[1..] == ["main.c", "util.h"] && gaps[1..] == [gaps[1]];
    assert Weave(fields[1..], gaps[1..]) == "main.c" + gaps[1] + "util.h";
  }

  /** Continuations vanish from the separators only: names keep every
      character. */
  lemma {:induction false} ContinuationsInWeave(fields: seq<string>, gaps: seq<string>)
    requires |fields| >= 1 && |gaps| == |fields| - 1
    requires forall i | 0 <= i < |fields| ::
      |fields[i]| > 0 && NoSpace(fields[i]) && fields[i][|fields[i]| - 1] != '\\'
    requires forall i | 0 <= i < |gaps| :: RawGap(gaps[i])
    ensures RemoveContinuations(Weave(fields, gaps)) == Weave(fields, CleanGaps(gaps))
    decreases |gaps|
  {
    var f := fields[0];
    assert '\n' !in f && '\r' !in f by {
      assert IsJsSpace('\n') && IsJsSpace('\r');
    }
    if |gaps| > 0 {
      var rest := Weave(fields[1..], gaps[1..]);
      ContinuationsInWeave(fields[1..], gaps[1..]);
      assert CleanGaps(gaps)[1..] == CleanGaps(gaps[1..]);
      RemoveContinuationsAppend(f, gaps[0] + rest);
      RemoveContinuationsAppend(gaps[0], rest);
      AppendAssoc(f, gaps[0], rest);
    }
  }

  lemma {:induction false} JoinNoLineBreak(fields: seq<string>)
    requires forall k | 0 <= k < |fields| :: NoSpace(fields[k])
    ensures '\n' !in Join(fields, " ") && '\r' !in Join(fields, " ")
    decreases |fields|
  {
    if |fields| > 1 {
      JoinNoLineBreak(fields[1..]);
      assert IsJsSpace('\n') && IsJsSpace('\r');
    } else if |fields| == 1 {
      assert IsJsSpace('\n') && IsJsSpace('\r');
    }
  }

  lemma {:induction false} JoinEndsWith(fields: seq<string>)
    requires |fields| >= 1 && |fields[|fields| - 1]| > 0
    ensures var s := Join(fields, " ");
            var last := fields[|fields| - 1];
            |s| > 0 && s[|s| - 1] == last[|last| - 1]
    decreases |fields|
  {
    if |fields| > 1 {
      JoinEndsWith(fields[1..]);
    }
  }

  /** The name read back: with a 32-digit digest, the stem, a dash and the
      first 30 digits. */
  lemma TempNameShape(host: Host, absPath: string)
    requires |host.md5(absPath)| == 32
    ensures TempName(host, absPath) == Stem(host.windows, absPath) + "-" + host.md5(absPath)[..30]
    ensures |TempName(host, absPath)| == |Stem(host.windows, absPath)| + 31
  {
  }

  /** Two paths share a build name only if they share the stem and the
      first 30 digest digits, so distinct digests keep outputs apart. */
  lemma TempNameSeparates(host: Host, p: string, q: string)
    requires |host.md5(p)| == 32 && |host.md5(q)| == 32
    requires TempName(host, p) == TempName(host, q)
    ensures Stem(host.windows, p) == Stem(host.windows, q)
    ensures host.md5(p)[..30] == host.md5(q)[..30]
  {
    var a, b := TempName(host, p), TempName(host, q);
    var sp, sq := Stem(host.windows, p), Stem(host.windows, q);
    assert |sp| == |sq|;
    assert sp == a[..|sp|];
    assert host.md5(p)[..30] == a[|sp| + 1..];
  }
}

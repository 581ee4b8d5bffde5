/** `execute`: running an external program and turning every outcome of
    the child-process callback into a resolved result. */
module ChildProcess {
  import opened Results

  /** The program, argument vector and working directory handed to
      `child_process.execFile`. */
  datatype Command = Command(file: string, args: seq<string>, cwd: Option<string>)

  /** The `code` of the error the callback receives (`'ENOENT'`, ...). */
  datatype ExecError = ExecError(code: string)

  /** What `execute` resolves with: the error, if the run failed, beside
      the captured output. */
  datatype ExecResult = ExecResult(err: Option<ExecError>, stdout: string, stderr: string)

  /** A settled promise; a rejection carries the value the source's
      `.catch` handlers expect (`err.err`, `err.stderr`). */
  datatype Promise<T> = Resolved(value: T) | Rejected(reason: T)

  /** The command `execute` issues: on Windows the program runs through
      `cmd /s /c`, elsewhere it runs directly. */
  function ChildCommand(windows: bool, file: string, args: seq<string>, cwd: Option<string>): (c: Command)
    ensures c.cwd == cwd
    ensures windows ==> c.file == "cmd" && |c.args| == |args| + 3 && c.args[..3] == ["/s", "/c", file]
    ensures !windows ==> c.file == file
  {
    if windows then Command("cmd", ["/s", "/c", file] + args, cwd)
    else Command(file, args, cwd)
  }

  /** The program and arguments a command runs, seen through the
      `cmd /s /c` wrapper on Windows. */
  function Requested(windows: bool, c: Command): Option<(string, seq<string>)> {
    if !windows then Some((c.file, c.args))
    else if c.file == "cmd" && |c.args| >= 3 && c.args[..2] == ["/s", "/c"] then Some((c.args[2], c.args[3..]))
    else None
  }

  /** `execute(file, args, options)` given the operating system as `run`:
      the callback resolves on success and on failure alike, so the
      promise never rejects, and a failure travels in `err`. */
  function Execute(windows: bool, run: Command -> ExecResult, file: string, args: seq<string>, cwd: Option<string>): (p: Promise<ExecResult>)
    ensures p.Resolved?
    ensures p.value.stdout == run(ChildCommand(windows, file, args, cwd)).stdout
    ensures p.value.stderr == run(ChildCommand(windows, file, args, cwd)).stderr
    ensures p.value.err == run(ChildCommand(windows, file, args, cwd)).err
  {
    var outcome := run(ChildCommand(windows, file, args, cwd));
    match outcome.err
    case Some(e) => Resolved(ExecResult(Some(e), outcome.stdout, outcome.stderr))
    case None => Resolved(ExecResult(None, outcome.stdout, outcome.stderr))
  }

  /** The wrapped command always tells which program and arguments were
      asked for. */
  lemma RequestedChildCommand(windows: bool, file: string, args: seq<string>, cwd: Option<string>)
    ensures Requested(windows, ChildCommand(windows, file, args, cwd)) == Some((file, args))
  {
    if windows {
      var c := ChildCommand(windows, file, args, cwd);
      assert c.args[3..] == args;
    }
  }

  /** Two different requests never produce the same command. */
  lemma ChildCommandInjective(windows: bool, f1: string, a1: seq<string>, f2: string, a2: seq<string>, cwd: Option<string>)
    requires ChildCommand(windows, f1, a1, cwd) == ChildCommand(windows, f2, a2, cwd)
    ensures f1 == f2 && a1 == a2
  {
    RequestedChildCommand(windows, f1, a1, cwd);
    RequestedChildCommand(windows, f2, a2, cwd);
  }
}

/** Everything the loader learns from the machine it runs on, as inputs of
    the model: the platform, the operating system's answer to each command,
    the file system's existence test and modification times (milliseconds
    since the epoch), the MD5 hex digest, and Node's `resolve`, `join` and
    `relative`. */
module Environment {
  import opened ChildProcess

  datatype Host = Host(
    windows: bool,
    run: Command -> ExecResult,
    fileExists: string -> bool,
    mtime: string -> int,
    md5: string -> string,
    resolve: (string, string) -> string,
    join: (string, string) -> string,
    relative: (string, string) -> string
  )
}

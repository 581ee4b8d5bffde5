/** The parts of Node's `path` module whose results steer the loader:
    `basename`, `extname` and `isAbsolute`, for the POSIX flavour and the
    win32 flavour (selected by `windows`). `resolve`, `join` and `relative`
    are inputs of the model (see module Environment). */
module Paths {
  import opened Text
  import opened Seqs

  predicate IsSeparator(windows: bool, c: char) {
    c == '/' || (windows && c == '\\')
  }

  /** A win32 path that starts with a drive designator such as `C:`. */
  predicate HasDrive(windows: bool, p: string) {
    windows && |p| >= 2 && IsAsciiLetter(p[0]) && p[1] == ':'
  }

  /** The index just past the last separator of `p`, or 0. */
  function SeparatorEnd(windows: bool, p: string): (e: nat)
    ensures e <= |p|
    ensures e > 0 ==> IsSeparator(windows, p[e - 1])
    ensures forall k | e <= k < |p| :: !IsSeparator(windows, p[k])
  {
    if |p| == 0 then 0
    else if IsSeparator(windows, p[|p| - 1]) then |p|
    else SeparatorEnd(windows, p[..|p| - 1])
  }

  /** Where the last path component starts; win32 skips a drive
      designator when there is no separator. */
  function BaseStart(windows: bool, p: string): (k: nat)
    ensures k <= |p|
    ensures forall i | k <= i < |p| :: !IsSeparator(windows, p[i])
  {
    var e := SeparatorEnd(windows, p);
    if e == 0 && HasDrive(windows, p) then 2 else e
  }

  /** `path.basename(p)`, trailing separators aside. */
  function Basename(windows: bool, p: string): (b: string)
    ensures forall i | 0 <= i < |b| :: !IsSeparator(windows, b[i])
    ensures |b| <= |p| && b == p[|p| - |b|..]
    ensures |b| < |p| ==>
      || IsSeparator(windows, p[|p| - |b| - 1])
      || (HasDrive(windows, p) && |b| == |p| - 2 && forall i | 0 <= i < |p| :: !IsSeparator(windows, p[i]))
  {
    p[BaseStart(windows, p)..]
  }

  /** The index of the last `.` of `s`, or -1. */
  function LastDot(s: string): (k: int)
    ensures -1 <= k < |s|
    ensures k >= 0 ==> s[k] == '.'
    ensures forall i | k < i < |s| :: s[i] != '.'
  {
    if |s| == 0 then -1
    else if s[|s| - 1] == '.' then |s| - 1
    else LastDot(s[..|s| - 1])
  }

  /** The extension of a last path component `b`: from its last `.` to
      its end, or "" when there is no `.`, when the `.` opens the
      component, or when the component is `..`. */
  function ExtnameOf(b: string): (x: string)
    ensures x == "" || (x[0] == '.' && forall i | 1 <= i < |x| :: x[i] != '.')
    ensures |x| < |b| || x == ""
    ensures x == b[|b| - |x|..]
    ensures (LastDot(b) > 0 && b != "..") ==> x == b[LastDot(b)..]
    ensures x == "" <==> (LastDot(b) <= 0 || b == "..")
  {
    var k := LastDot(b);
    if k <= 0 || b == ".." then "" else b[k..]
  }

  /** `path.extname(p)`: the extension of the last component of `p`. */
  function Extname(windows: bool, p: string): (x: string)
    ensures x == "" || (x[0] == '.' && forall i | 1 <= i < |x| :: x[i] != '.')
    ensures |x| < |Basename(windows, p)| || x == ""
    ensures x == Basename(windows, p)[|Basename(windows, p)| - |x|..]
    ensures var b := Basename(windows, p);
            (LastDot(b) > 0 && b != "..") ==> x == b[LastDot(b)..]
    ensures var b := Basename(windows, p);
            x == "" <==> (LastDot(b) <= 0 || b == "..")
  {
    var b := Basename(windows, p);
    ExtnameOf(b)
  }

  /** `path.basename(p, path.extname(p))`: the last component without its
      extension. */
  function Stem(windows: bool, p: string): (s: string)
    ensures s + Extname(windows, p) == Basename(windows, p)
    ensures Extname(windows, p) != "" ==> |s| > 0
  {
    var b, x := Basename(windows, p), Extname(windows, p);
    SplitAt(b, |b| - |x|);
    b[..|b| - |x|]
  }

  /** `path.isAbsolute(p)`: POSIX wants a leading `/`; win32 also accepts
      a leading `\` and a drive designator followed by a separator. */
  predicate IsAbsolute(windows: bool, p: string) {
    if !windows then |p| > 0 && p[0] == '/'
    else
      || (|p| > 0 && IsSeparator(true, p[0]))
      || (|p| > 2 && IsAsciiLetter(p[0]) && p[1] == ':' && IsSeparator(true, p[2]))
  }

  /** A drive designator makes a win32 path absolute exactly when a
      separator follows it; POSIX never reads it as absolute. */
  lemma DriveAbsolute(d: char, rest: string)
    requires IsAsciiLetter(d)
    ensures IsAbsolute(true, [d, ':'] + rest) <==> |rest| > 0 && IsSeparator(true, rest[0])
    ensures !IsAbsolute(false, [d, ':'] + rest)
  {
    var p := [d, ':'] + rest;
    assert p[0] == d && p[1] == ':';
    if |rest| > 0 {
      assert p[2] == rest[0];
    }
  }

  /** Every POSIX-absolute path is win32-absolute too. */
  lemma PosixAbsoluteIsWin32(p: string)
    requires IsAbsolute(false, p)
    ensures IsAbsolute(true, p)
  {
  }

  /** The file name after the last `/` is the base name. */
  lemma BasenameAfterSeparator(windows: bool, dir: string, name: string)
    requires forall i | 0 <= i < |name| :: !IsSeparator(windows, name[i])
    ensures Basename(windows, dir + "/" + name) == name
  {
    var p := dir + "/" + name;
    assert IsSeparator(windows, p[|dir|]);
    assert p[|dir| + 1..] == name;
  }

  /** A name `stem.ext` with a non-empty, dot-free stem and a dot-free
      extension has the extension `.ext` and the stem `stem`. */
  lemma ExtnameOfName(windows: bool, dir: string, stem: string, ext: string)
    requires |stem| > 0
    requires forall i | 0 <= i < |stem| :: stem[i] != '.' && !IsSeparator(windows, stem[i])
    requires forall i | 0 <= i < |ext| :: ext[i] != '.' && !IsSeparator(windows, ext[i])
    ensures Extname(windows, dir + "/" + stem + "." + ext) == "." + ext
    ensures Stem(windows, dir + "/" + stem + "." + ext) == stem
  {
    var name := stem + "." + ext;
    assert dir + "/" + stem + "." + ext == dir + "/" + name;
    NameParts(windows, stem, ext);
    BasenameAfterSeparator(windows, dir, name);
  }

  lemma NameParts(windows: bool, stem: string, ext: string)
    requires |stem| > 0
    requires forall i | 0 <= i < |stem| :: stem[i] != '.' && !IsSeparator(windows, stem[i])
    requires forall i | 0 <= i < |ext| :: ext[i] != '.' && !IsSeparator(windows, ext[i])
    ensures var name := stem + "." + ext;
            && (forall i | 0 <= i < |name| :: !IsSeparator(windows, name[i]))
            && LastDot(name) == |stem| && name != ".."
            && name[|stem|..] == "." + ext && name[..|stem|] == stem
  {
    var name := stem + "." + ext;
    assert name[|stem|] == '.';
    assert forall i | |stem| < i < |name| :: name[i] == ext[i - |stem| - 1];
    LastDotIs(name, |stem|);
    assert name[|stem|..] == "." + ext;
    assert name != ".." by { assert name[0] == stem[0]; }
  }

  /** The last dot is the one with no dot after it. */
  lemma {:induction false} LastDotIs(s: string, k: nat)
    requires k < |s| && s[k] == '.'
    requires forall i | k < i < |s| :: s[i] != '.'
    ensures LastDot(s) == k
    decreases |s|
  {
    if k < |s| - 1 {
      LastDotIs(s[..|s| - 1], k);
    }
  }
}

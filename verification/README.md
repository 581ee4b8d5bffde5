# emcc-loader, modelled in Dafny

This project models the core of `emcc-loader`, a webpack loader that builds
C/C++ sources with Emscripten. The loader reads a *list file*, one
directive per line:

- blank lines and `#` comments are skipped;
- `^path` names the `--pre-js` script and `$path` names the `--post-js` script;
- a path ending in `.a`, `.bc` or `.o`, ignoring case, is linked as it is;
- any other path is a source to compile to bitcode.

For each source the loader does four things:

1. It asks the compiler for the source's dependencies (`-MM`).
2. It compares their newest modification time with that of the bitcode.
3. It compiles only when the bitcode is not newer.
4. It parses clang's diagnostics from the compiler's stderr.

Once every unit has been compiled without an error, it links all objects
with `emcc -s WASM=1`.

The model is written as pure functions over immutable data:

- **Results**: `Option` and `Result`.
- **Text**: JavaScript's `trim`, `split` and `\s`.
- **Paths**: Node's `basename`/`extname`/`isAbsolute`, with POSIX and win32 separators.
- **ChildProcess**: `execute`, which never rejects.
- **Environment**: the `Host`, which holds everything the loader learns from the machine.
- **Utility**: dependencies, modification times, temp names.
- **Message**: the diagnostic parser and its routing.
- **Options**: `parseOption`.
- **Compiler**: the list-file walk, compile, link, process.

`MessageSpec` gives an independent, block-wise reference definition of the
diagnostic parser and proves the parser equal to it. `CompilerProperties`
proves properties of the walk and of the whole build.

Nothing in the model talks to the machine. Its inputs are the values
carried by a `Host`:

- the operating system's outcome for each command (`run`);
- file existence and modification times;
- MD5 digests;
- Node's `path.resolve`, `path.join` and `path.relative`.

The model follows the code as written, including these behaviours:

- **Headers.** The header regular expression carries the `g` flag, so `match` returns only the whole line. The parsed message therefore has the whole line as its file path. Its line and column are `NaN`, and its level and summary are `undefined`.
- **Level and summary.** The level and summary are a single word character each. So a real clang header such as `main.c:3:5: error: x` is not a header at all.
- **Detail lines.** The detail is the first non-empty line after a header. Each later line adds a newline and the seven characters `${line}`, because the template sits in single quotes.
- **Never fails on a unit's error.** Parsed messages never have level `error`. So `process` never fails with "Encountered error while compiling.": it fails only in the walk (`ProcessFailsOnlyInWalk`).
- **Unreachable `.catch`.** `execute` resolves on failure too, so the `.catch` handlers never run, and "Not found" is never reported. A compiler that cannot be started prints nothing on stdout. Its `-MM` run therefore lists no dependency, and the unit fails with "paths must be non-empty." (`SilentDependencyListingFails`). Only a linker that cannot be started has its stderr parsed as diagnostics.
- **Missing dependencies.** When `-MM` prints nothing, the dependency list is empty. `getLatestModifiedTime` then throws "paths must be non-empty.", and that aborts the walk.
- **`cwd` is never set.** `parseOption` never sets `cwd`, so after parsing it is always absent. The compile and link steps still model the branch where it is set.

## Model

| member | source | states |
|---|---|---|
| Text.Trim | src/compiler.ts:25 | the trimmed line is empty or starts and ends with a non-whitespace character, is no longer than the input, and a line already trimmed is unchanged |
| Text.TrimSplit | src/compiler.ts:25 | any text is a whitespace run, its trimmed text and a whitespace run; with the trimmed text's own ends, only the surrounding whitespace is dropped |
| Text.TrimAround | src/utility.ts:35 | a non-empty trimmed text with whitespace runs on both sides trims back to itself |
| Text.TrimIdempotent | src/compiler.ts:25 | trimming twice is trimming once |
| Text.SplitLines | src/compiler.ts:25 | splitting on `\r\n`, `\r` or `\n` gives at least one line and no line contains a line break |
| Text.SplitLinesJoin | src/compiler.ts:25 | the lines joined with `\n` give back the content with every line break written as `\n` |
| Text.SplitOn | src/message.ts:28 | splitting on one character gives at least one piece, no piece holds the separator, and a text without it is a single piece |
| Text.SplitOnJoin | src/message.ts:28 | the pieces joined with the separator give back the text |
| Text.SplitOnAppend | src/message.ts:28 | splitting a concatenation splits both halves and glues the last piece of the first to the first piece of the second |
| Text.SplitWhitespace | src/utility.ts:36 | splitting on `\s+` gives at least one field and no field holds whitespace |
| Text.SplitWhitespaceWeave | src/utility.ts:36 | whitespace-free fields, all non-empty except perhaps the first and the last, separated by non-empty whitespace runs of any kind split back into exactly those fields |
| Text.SplitJoinWhitespace | src/utility.ts:32-36 | non-empty whitespace-free fields joined with spaces split back into the same fields |
| Text.SplitWordThenRest | src/utility.ts:36 | a word without whitespace glued in front of a text joins the text's first field |
| Text.RemoveContinuations | src/utility.ts:35 | removing backslash-line-break continuations never lengthens the text, and a text with no backslash followed by a line break is unchanged |
| Text.ContinuationRemoved | src/utility.ts:35 | a backslash followed by `\n` or `\r` disappears, and the removal goes on after it |
| Text.CharacterKept | src/utility.ts:35 | a character that does not open a continuation is kept in place |
| Text.RemoveContinuationsAppend | src/utility.ts:35 | removal works piece by piece on two texts when the first does not end with a backslash |
| Text.DotSuffixIgnoringCase | src/compiler.ts:109 | an extension `.ext` with a dot-free `ext` ends with `.x`, ignoring case, exactly when `ext` is `x` ignoring case |
| Text.DotSuffixAfter | src/compiler.ts:53 | the same after any prefix when `x` is dot-free too |
| Paths.Basename | src/compiler.ts:73 | the base name holds no separator and is the end of the path; it follows a separator, or the drive designator of a separator-free win32 path, or is the whole path: the last segment |
| Paths.BasenameAfterSeparator | src/compiler.ts:73 | `dir/name` has the base name `name` for any directory |
| Paths.Extname | src/compiler.ts:107 | the extension is empty or a dot with no further dot, is a proper suffix of the base name starting at its last dot, and is empty exactly when the base name has no dot, opens with its only dot, or is `..` |
| Paths.Stem | src/compiler.ts:73 | the stem followed by the extension is the base name, and a name with an extension has a non-empty stem |
| Paths.ExtnameOfName | src/utility.ts:126 | `dir/stem.ext` with dot-free, separator-free parts has the extension `.ext` and the stem `stem` |
| Paths.DriveAbsolute | src/option.ts:73 | on win32 a path opening with a drive designator is absolute exactly when a separator follows the drive; on POSIX it never is |
| Paths.PosixAbsoluteIsWin32 | src/option.ts:73 | a path that is absolute on POSIX is absolute on win32 too |
| ChildProcess.ChildCommand | src/utility.ts:94-97 | on Windows the program runs as `cmd /s /c file args`, elsewhere as itself, in the given working directory |
| ChildProcess.RequestedChildCommand | src/utility.ts:94-97 | the issued command always tells back which program and arguments were asked for |
| ChildProcess.ChildCommandInjective | src/utility.ts:94-97 | two requests that give the same command asked for the same program and arguments |
| ChildProcess.Execute | src/utility.ts:83-120 | the promise always resolves, with the run's error, stdout and stderr |
| Utility.ParseDependencies | src/utility.ts:32-38 | no dependency holds whitespace, and empty output gives no dependency |
| Utility.DependenciesRoundTrip | src/utility.ts:32-38 | `target: dep1 dep2 ...` parses back to exactly `dep1 dep2 ...` |
| Utility.DependenciesOfMakeRule | src/utility.ts:32-38 | any make rule, with whitespace around it and fields separated by whitespace runs that may hold backslash-line-break continuations, parses to the fields after the rule head |
| Utility.WrappedRuleExample | src/utility.ts:32-38 | `main.o: main.c \` and `  util.h` on the next line lists `main.c` and `util.h` |
| Utility.SettleDependencies | src/utility.ts:29-31 | a resolved run gives its stdout, a rejected one throws |
| Utility.GetDependencies | src/utility.ts:19-39 | always succeeds; the command is the compiler with the flags, `-MM` and the source (relative to `cwd` when set); the list is its stdout parsed |
| Utility.ModifiedTime | src/utility.ts:73-78 | an existing file gives its modification time, a missing one the epoch |
| Utility.ScanLatest | src/utility.ts:60-67 | the scan's result is at least every file's time and the start value, and is one of them |
| Utility.LatestModifiedTime | src/utility.ts:56-68 | fails with "paths must be non-empty." exactly on an empty list; otherwise the result is the maximum of the files' times |
| Utility.DropLastTwo | src/utility.ts:128 | `slice(0, -2)` drops the last two characters, and gives the empty string for shorter input |
| Utility.TempName | src/utility.ts:125-129 | the temp name is the stem followed by `-` and more |
| Utility.TempNameShape | src/utility.ts:125-129 | with a 32-digit digest the name is `stem-` and the first 30 hex digits, 31 characters longer than the stem |
| Utility.TempNameSeparates | src/utility.ts:125-129 | two paths with the same temp name have the same stem and the same first 30 digest digits |
| Message.ParseLines | src/message.ts:31-51 | the loop adds one message per header line, keeps every earlier closed message, and leaves all header fields undefined |
| Message.KeptLines | src/message.ts:28-29 | a text without a newline keeps no line once the last piece is popped |
| Message.ParseClangMessage | src/message.ts:25-54 | one message per header line among the kept lines, none for text without a newline, and every level, summary, line and column undefined |
| Message.MessageText | src/message.ts:61-62 | the emitted text starts with the file path and `(` and ends with a newline and the detail |
| Message.ParsedMessageText | src/message.ts:61-62 | a parsed message, with no line, column, level or summary, prints as `path(NaN,NaN): undefined: undefined`, a newline and the detail |
| Message.EmitCompileMessages | src/message.ts:59-76 | at most one emission per message, something reaches the error sink exactly when the list contains an error, and messages of no known level emit nothing |
| Message.EmitMembers | src/message.ts:59-76 | every message of level error, warning or note emits its text on its level's channel, and every emission is the text of such a message on its level's channel |
| Message.EmitRouted | src/message.ts:59-76 | the emissions are exactly one per message of level error, warning or note, in the messages' order, each its text on its level's channel |
| Message.EmitSingle | src/message.ts:64-74 | one message goes to the error sink, the warning sink or the console according to its level, and emits nothing at any other level |
| Message.EmitAppend | src/message.ts:60 | emitting two lists is emitting the first and then the second, so emissions follow the messages' order |
| Message.ContainsErrorAppend | src/message.ts:81-83 | a list holds an error exactly when one of its parts does |
| Message.RouteLevels | src/message.ts:64-74 | a message reaches some channel exactly when its level is `error`, `warning` or `note` |
| Message.RouteInjective | src/message.ts:64-74 | each channel is reached from one level only |
| Message.HeaderOfParts | src/message.ts:20 | every `path:line:column: l: s` with a path free of line terminators, two digit runs and one word character each for `l` and `s` is a header |
| Message.HeaderShape | src/message.ts:20 | every header is at least 11 characters long and ends in `: l: s` with word characters `l` and `s` |
| MessageSpec.NextHeader | src/message.ts:32-50 | the next header at or after a position, with no header in between |
| MessageSpec.Blocks | src/message.ts:25-54 | the block-wise reading has one message per header line |
| MessageSpec.ParseIsBlocks | src/message.ts:25-54 | the parser equals the block-wise reading of the kept lines |
| MessageSpec.BlocksFilePaths | src/message.ts:33-43 | the messages' file paths are the header lines, in order |
| MessageSpec.PreambleDropped | src/message.ts:44 | lines before the first header belong to no message |
| MessageSpec.BlocksAppend | src/message.ts:32-51 | the messages of lines cut at a header are those of the two parts |
| MessageSpec.DetailOfShape | src/message.ts:44-49 | a detail is the first non-empty line followed by one `\n${line}` per later line |
| MessageSpec.DetailIgnoresLaterContent | src/message.ts:45-46 | only the number of later detail lines matters, not their content |
| MessageSpec.KeptLinesAppend | src/message.ts:28-29 | the kept lines of two texts, the first ending in a newline, are the kept lines of each |
| MessageSpec.ParseConcat | src/message.ts:25-54 | two outputs, the first ending in a newline and the second starting with a header, parse to the two message lists one after the other |
| MessageSpec.ParsedNeverError | src/message.ts:33-42 | no parsed message has level `error` |
| MessageSpec.ParsedEmitsNothing | src/message.ts:64-74 | parsed messages reach neither the error sink, the warning sink nor the log |
| MessageSpec.ClangHeaderRejected | src/message.ts:20 | `main.c:3:5: error: x` is not a header |
| MessageSpec.ShortHeaderAccepted | src/message.ts:20 | `main.c:3:5: e: x` is a header |
| Options.ParseOption | src/option.ts:68-88 | fails with "must be specified." exactly when `buildDir` is missing or empty, with "must be absolute." exactly when it is relative; otherwise keeps it, fills the toolchain and leaves the scripts and `cwd` unset |
| Options.ToolchainDefaults | src/option.ts:79-82 | an unset or empty `environment`, `cc`, `cxx`, `ld` becomes `WEB`, `emcc`, `em++`, `emcc`; a given one is kept |
| Options.FlagDefaults | src/option.ts:83-86 | a missing flag list becomes empty, a given one is kept |
| Options.ParseOptionIdempotent | src/option.ts:68-88 | parsed options parse again to themselves |
| Compiler.Classify | src/compiler.ts:27-51 | a line is skipped exactly when empty or `#`, a pre-script exactly when it opens with `^`, a post-script exactly when it opens with `$`, and an input otherwise |
| Compiler.ManifestLines | src/compiler.ts:25 | one trimmed line per line of the content |
| Compiler.SelectToolchain | src/compiler.ts:107-112 | a `.cc`, `.cpp` or `.cxx` source takes `cxx` and the common then C++ flags, any other `cc` and the common then C flags |
| Compiler.SettleTool | src/compiler.ts:145-152 | a resolved run gives its stderr; a rejection with `ENOENT` throws "Not found"; another rejection gives its stderr; one without an error object throws |
| Compiler.Compile | src/compiler.ts:101-154 | fails exactly when the source has no dependency; skips the compile when every dependency is older than the bitcode; otherwise runs the compile command and parses its stderr |
| Compiler.RelativizeAll | src/compiler.ts:172 | each object is made relative to `cwd` when it is set and kept otherwise |
| Compiler.LinkArgs | src/compiler.ts:165-189 | the arguments open with `--post-js` then `--pre-js` when set, then the common flags followed by the link flags, and end with `-s WASM=1 -o output` and the objects; the count adds up |
| Compiler.Link | src/compiler.ts:159-202 | the link never throws; it runs the link command and parses its stderr |
| Compiler.AddInput | src/compiler.ts:51-69 | an input adds the object itself or its bitcode path to the link list, or fails with the empty-dependencies message |
| Compiler.WalkLine | src/compiler.ts:26-70 | one line fails only with a walk error; a script line fails, with "Multiple preJs is not supported." or "Multiple postJs is not supported.", exactly when that script is already set, and otherwise sets it; the link list grows by the line's objects |
| Compiler.Walk | src/compiler.ts:26-70 | the loop fails only with a walk error; otherwise it keeps the settings, collects every unit's messages, sets the error flag exactly when one contains an error, and lists the objects in list-file order |
| Compiler.Process | src/compiler.ts:15-89 | fails only with a walk error or "Encountered error while compiling."; on success the objects are the list file's, the output is the build directory's `<stem>.js`, and the last command is the link |
| CompilerProperties.WalkAppend | src/compiler.ts:26-70 | walking two line lists is walking the first, then the second from where it stopped |
| CompilerProperties.WithoutSkips | src/compiler.ts:27-29 | the list without its skipped lines holds no skipped line |
| CompilerProperties.SkipLinesInert | src/compiler.ts:27-29 | blank and comment lines change nothing |
| CompilerProperties.WalkLineErrorFlagInert | src/compiler.ts:68 | the error flag never steers a line |
| CompilerProperties.WalkErrorFlagInert | src/compiler.ts:23-70 | the error flag never steers the walk |
| CompilerProperties.AtMostOnePreJs | src/compiler.ts:31-39 | a walk that succeeds met at most one `^` line, and none when a pre-script was already set |
| CompilerProperties.AtMostOnePostJs | src/compiler.ts:41-49 | a walk that succeeds met at most one `$` line, and none when a post-script was already set |
| CompilerProperties.DuplicatePreJsRejected | src/compiler.ts:32-34 | a second `^` line fails with "Multiple preJs is not supported." |
| CompilerProperties.DuplicatePostJsRejected | src/compiler.ts:42-44 | a second `$` line fails with "Multiple postJs is not supported." |
| CompilerProperties.WalkScripts | src/compiler.ts:31-49 | after a successful walk each script is the one named by its last directive line |
| CompilerProperties.ScriptsAndObjects | src/compiler.ts:31-69 | a list with a pre-script, a source, an object and a post-script links the bitcode then the object, behind `--post-js` then `--pre-js` |
| CompilerProperties.ScenarioFolds | src/compiler.ts:31-69 | the four-line list links the source's bitcode then the object, and names its `^` and `$` scripts |
| CompilerProperties.LinkArgsBothScripts | src/compiler.ts:174-189 | with both scripts set the link starts `--post-js post --pre-js pre` |
| CompilerProperties.ObjectPathOfName | src/compiler.ts:53 | an entry ending in `.ext` with a dot-free `ext` is linked as it is exactly when `ext` is `a`, `bc` or `o`, ignoring case |
| CompilerProperties.CppSourceOfName | src/compiler.ts:107-109 | `dir/stem.ext` goes to the C++ compiler exactly when `ext` is `cc`, `cpp` or `cxx`, ignoring case |
| CompilerProperties.ObjectOutputOfName | src/compiler.ts:59-60 | `dir/stem.ext` compiles to `stem-` and the first 30 digest digits, with `.bc`, in the build directory |
| CompilerProperties.BaseScriptPathOfName | src/compiler.ts:72-74 | the list file `dir/stem.ext` links to `stem.js` in the build directory |
| CompilerProperties.CompileAndListingAgree | src/compiler.ts:107-142 | the `-MM` run and the compile run ask the compiler chosen by extension, with the common then language flags and the same source last; the listing adds `-MM`, the compile `-c -o output` |
| CompilerProperties.StaleIffSomeDependencyNotOlder | src/compiler.ts:121-128 | a unit is rebuilt exactly when some dependency is not older than its bitcode |
| CompilerProperties.CompileSkipsFreshOutput | src/compiler.ts:126-128 | a unit whose dependencies are all older than its bitcode only lists dependencies and reports nothing |
| CompilerProperties.CompileBuildsMissingOutput | src/compiler.ts:124-153 | a unit without bitcode is compiled, provided its first dependency's time is not before the epoch |
| CompilerProperties.SilentDependencyListingFails | src/compiler.ts:114-123 | a unit whose `-MM` run prints only whitespace fails with "paths must be non-empty." |
| CompilerProperties.ProcessGate | src/compiler.ts:76-89 | after a successful walk the build fails exactly when a unit's or the link's messages contain an error |
| CompilerProperties.ProcessFailsOnlyInWalk | src/compiler.ts:23-89 | the build fails exactly when the walk fails, and then only with a walk error |

## Left out

- **The `index.ts` entry point.** It reads the options, starts `process` and routes the promise to webpack's callback. This is glue with no logic of its own.
- **The steps after a successful link.** These are `emitFiles`, `emitIfExists`, `readFile` of the linked script, and `buildLoaderScript`. They are file I/O plus a fixed text template. `Process` stops at the `Build` that these steps would consume.
- **Webpack's context calls.** These are `clearDependencies`, `addDependency`, `addDependencies` and `emitFile`. None of them changes a value the core computes.
- **Node's `path.resolve`, `path.join`, `path.relative` and the MD5 digest.** These are inputs, carried by the `Host`. `basename`, `extname` and `isAbsolute` are modelled, but trailing separators are not stripped.
- **Number formatting.** `NaN` and integers print in decimal. Floating point is not modelled.
- **Text.** Strings are sequences of characters; UTF-16 surrogates and `Buffer` decoding are not modelled.
- **Option values.** Only string and string-list values are modelled. `getOptions`'s parsing of the query string is not part of this model.
- **Failing `mkdirs`.** Creating the output's directory before compiling and before linking (src/compiler.ts:130, src/compiler.ts:190) is taken to succeed. A rejection there, which would abort the unit or the link, is not modelled.
- **The shell.** Every command runs with `shell: true` (src/utility.ts:28, src/compiler.ts:143, src/compiler.ts:192). The model records the program and its argument list; the shell's word splitting, quoting and expansion of them are not modelled.
- **Mixed `Date` and number comparison.** Modification times are integers, so `getModifiedTime`'s mix of a `Date` and a number is compared by value.
- Utility.ParseDependencies: the contract states that each field is free of whitespace and that empty output gives an empty list. The exact list is stated by `DependenciesOfMakeRule` for output shaped as a make rule, whatever its whitespace runs and continuations; output with a field ending in a backslash is not covered.

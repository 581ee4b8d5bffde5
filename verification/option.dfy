/** The loader's options: validation of the build directory and the
    defaults for the toolchain and the flag lists. */
module Options {
  import opened Results
  import opened Paths

  /** The options object as configured. A missing entry is `None`; strings
      and string lists are the only value types modelled. */
  datatype RawOptions = RawOptions(
    buildDir: Option<string>,
    environment: Option<string>,
    cc: Option<string>,
    cxx: Option<string>,
    ld: Option<string>,
    commonFlags: Option<seq<string>>,
    cFlags: Option<seq<string>>,
    cxxFlags: Option<seq<string>>,
    ldFlags: Option<seq<string>>
  )

  /** The options the compiler works with. `preJs` and `postJs` are filled
      in by the manifest walk; `cwd` is read by the compile and link steps
      although `parseOption` never sets it. */
  datatype LoaderOption = LoaderOption(
    buildDir: string,
    environment: string,
    cc: string,
    cxx: string,
    ld: string,
    commonFlags: seq<string>,
    cFlags: seq<string>,
    cxxFlags: seq<string>,
    ldFlags: seq<string>,
    preJs: Option<string>,
    postJs: Option<string>,
    cwd: Option<string>
  )

  /** `xs || []`: every array is truthy, so a given list passes unchanged. */
  function ListOrEmpty(xs: Option<seq<string>>): seq<string> {
    match xs
    case Some(v) => v
    case None => []
  }

  /** `parseOption(context)` */
  function ParseOption(windows: bool, raw: RawOptions): (r: Result<LoaderOption>)
    ensures !Truthy(raw.buildDir) <==> r == Err("options.buildDir must be specified.")
    ensures (Truthy(raw.buildDir) && !IsAbsolute(windows, raw.buildDir.value))
        <==> r == Err("options.buildDir must be absolute.")
    ensures r.Ok? ==> r.value.buildDir == raw.buildDir.value && IsAbsolute(windows, r.value.buildDir)
    ensures r.Ok? ==> r.value.environment != "" && r.value.cc != "" && r.value.cxx != "" && r.value.ld != ""
    ensures r.Ok? ==> r.value.preJs == None && r.value.postJs == None && r.value.cwd == None
  {
    if !Truthy(raw.buildDir) then Err("options.buildDir must be specified.")
    else if !IsAbsolute(windows, raw.buildDir.value) then Err("options.buildDir must be absolute.")
    else Ok(LoaderOption(
      raw.buildDir.value,
      OrElse(raw.environment, "WEB"),
      OrElse(raw.cc, "emcc"),
      OrElse(raw.cxx, "em++"),
      OrElse(raw.ld, "emcc"),
      ListOrEmpty(raw.commonFlags),
      ListOrEmpty(raw.cFlags),
      ListOrEmpty(raw.cxxFlags),
      ListOrEmpty(raw.ldFlags),
      None, None, None))
  }

  /** The options written back as a configuration. */
  function AsRaw(o: LoaderOption): RawOptions {
    RawOptions(Some(o.buildDir), Some(o.environment), Some(o.cc), Some(o.cxx), Some(o.ld),
      Some(o.commonFlags), Some(o.cFlags), Some(o.cxxFlags), Some(o.ldFlags))
  }

  /** Toolchain defaults: an unset or empty entry takes the default, a
      given one is kept. */
  lemma ToolchainDefaults(windows: bool, raw: RawOptions)
    requires ParseOption(windows, raw).Ok?
    ensures var o := ParseOption(windows, raw).value;
            && (Truthy(raw.environment) ==> o.environment == raw.environment.value)
            && (!Truthy(raw.environment) ==> o.environment == "WEB")
            && (Truthy(raw.cc) ==> o.cc == raw.cc.value)
            && (!Truthy(raw.cc) ==> o.cc == "emcc")
            && (Truthy(raw.cxx) ==> o.cxx == raw.cxx.value)
            && (!Truthy(raw.cxx) ==> o.cxx == "em++")
            && (Truthy(raw.ld) ==> o.ld == raw.ld.value)
            && (!Truthy(raw.ld) ==> o.ld == "emcc")
  {
  }

  /** Flag defaults: a missing list becomes empty, a given one (even an
      empty one) is kept. */
  lemma FlagDefaults(windows: bool, raw: RawOptions)
    requires ParseOption(windows, raw).Ok?
    ensures var o := ParseOption(windows, raw).value;
            && (raw.commonFlags.Some? ==> o.commonFlags == raw.commonFlags.value)
            && (raw.commonFlags.None? ==> o.commonFlags == [])
            && (raw.cFlags.Some? ==> o.cFlags == raw.cFlags.value)
            && (raw.cFlags.None? ==> o.cFlags == [])
            && (raw.cxxFlags.Some? ==> o.cxxFlags == raw.cxxFlags.value)
            && (raw.cxxFlags.None? ==> o.cxxFlags == [])
            && (raw.ldFlags.Some? ==> o.ldFlags == raw.ldFlags.value)
            && (raw.ldFlags.None? ==> o.ldFlags == [])
  {
  }

  /** Parsing is idempotent: options that came out of `ParseOption`, fed
      back in, come out unchanged. */
  lemma ParseOptionIdempotent(windows: bool, raw: RawOptions)
    requires ParseOption(windows, raw).Ok?
    ensures ParseOption(windows, AsRaw(ParseOption(windows, raw).value)) == ParseOption(windows, raw)
  {
  }
}

/**
 * Options of `hdiutil attach`, their argument tokens and their display form.
 * `mount(.required)` writes the bare raw value `required`, and `owners`
 * writes one token with an embedded space, as the library does.
 */
module AttachOptions {
  import opened Wrappers
  import opened Strings
  import opened CommonOptions

  /** `AttachImageOption.MontOption` */
  datatype MountOption = Required | Optional | Suppressed

  /** `hdiutilClass.AttachImageOption` */
  datatype AttachImageOption =
    | Readonly
    | Readwrite
    | Kernel(enabled: bool)
    | Notremovable
    | Mount(option: Option<MountOption>)
    | MountRoot(path: string)
    | MountRandom(path: string)
    | MountPoint(path: string)
    | NoBrowse
    | Owners(flag: bool)
    | IgnoreBadChecksums(enabled: bool)
    | Idme(enabled: bool)
    | IdmeReveal(enabled: bool)
    | IdmeTrash(enabled: bool)
    | Verify(enabled: bool)
    | AutoOpen(enabled: bool)
    | AutoOpenReadonly(enabled: bool)
    | AutoOpenReadwrite(enabled: bool)
    | AutoFileSystemChecking(enabled: bool)
    | Encryption(crypto: CryptoMethod)
    | StdinPass
    | AgentPass
    | Recover(keychainFile: string)
    | ImageKey(key: string, val: string)
    | DriveKey(key: string, val: string)
    | Shadow(shadowFile: string)
    | InsecureHTTP
    | Cacert(fileOrDir: string)
    | PuppetStrings
    | Plist
    | Verbose
    | Quiet
    | Debug

  /** `MontOption.rawValue`: a lower-case word, so it is never taken for a flag. */
  function MountRaw(m: MountOption): (r: string)
    ensures |r| >= 8 && 'a' <= r[0] <= 'z'
    ensures r in {"required", "optional", "suppressed"}
  {
    match m
    case Required => "required"
    case Optional => "optional"
    case Suppressed => "suppressed"
  }

  /** `-name` when enabled, `-noname` otherwise. */
  function Negatable(name: string, enabled: bool): (r: string)
    ensures EndsWith(r, name) && |r| > |name| && r[0] == '-'
  {
    "-" + (if enabled then "" else "no") + name
  }

  /** The tokens one option contributes: one or two. */
  function OptionTokens(o: AttachImageOption): (r: seq<string>)
    ensures 1 <= |r| <= 2
  {
    match o
    case Readonly => ["-readonly"]
    case Readwrite => ["-readwrite"]
    case Kernel(enabled) => [if enabled then "-kernel" else "-nokernel"]
    case Notremovable => ["-notremovable"]
    case Mount(Some(option)) => [MountRaw(option)]
    case Mount(None) => ["-nomount"]
    case MountRoot(path) => ["-mountroot", path]
    case MountRandom(path) => ["-mountrandom", path]
    case MountPoint(path) => ["-mountpoint", path]
    case NoBrowse => ["-nobrowse"]
    case Owners(flag) => ["-owners " + (if flag then "on" else "off")]
    case DriveKey(key, val) => ["-drivekey", key + "=" + val]
    case Verify(enabled) => [Negatable("verify", enabled)]
    case IgnoreBadChecksums(enabled) => [Negatable("ignorebadchecksums", enabled)]
    case Idme(enabled) => [Negatable("idme", enabled)]
    case IdmeReveal(enabled) => [Negatable("idmereveal", enabled)]
    case IdmeTrash(enabled) => [Negatable("idmetrash", enabled)]
    case AutoOpen(enabled) => [Negatable("autoopen", enabled)]
    case AutoOpenReadonly(enabled) => [Negatable("autoopenro", enabled)]
    case AutoOpenReadwrite(enabled) => [Negatable("autoopenrw", enabled)]
    case AutoFileSystemChecking(enabled) => [Negatable("autofsck", enabled)]
    case Encryption(crypto) => ["-encryption", CryptoRawValue(crypto)]
    case StdinPass => ["-stdinpass"]
    case AgentPass => ["-agentpass"]
    case Recover(keychainFile) => ["-recover", keychainFile]
    case ImageKey(key, val) => ["-imagekey", key + "=" + val]
    case Shadow(shadowFile) => ["-shadow", shadowFile]
    case InsecureHTTP => ["-insecurehttp"]
    case Cacert(fileOrDir) => ["-cacert", fileOrDir]
    case PuppetStrings => ["-puppetstrings"]
    case Plist => ["-plist"]
    case Verbose => ["-verbose"]
    case Quiet => ["-quiet"]
    case Debug => ["-debug"]
  }

  /** `[AttachImageOption].arguments`: every option yields one or two tokens, in order. */
  function Arguments(opts: seq<AttachImageOption>): (r: seq<string>)
    ensures |opts| <= |r| <= 2 * |opts|
  {
    FlatMapBound(opts, OptionTokens, 2);
    FlatMapAtLeastOne(opts, OptionTokens);
    FlatMap(opts, OptionTokens)
  }

  /** `kernel` and the processing options: the options toggled by one boolean. */
  predicate HasEnabledFlag(o: AttachImageOption)
  {
    o.Kernel? || o.IgnoreBadChecksums? || o.Idme? || o.IdmeReveal? || o.IdmeTrash?
    || o.Verify? || o.AutoOpen? || o.AutoOpenReadonly? || o.AutoOpenReadwrite?
    || o.AutoFileSystemChecking?
  }

  lemma NegatableSpelling(name: string)
    ensures StartsWith(Negatable(name, true), "-") && Negatable(name, true)[1..] == name
    ensures Negatable(name, false) == "-no" + name == "-no" + Negatable(name, true)[1..]
  {
    assert Negatable(name, true) == "-" + name;
    assert "-" + "no" + name == "-no" + name;
  }

  /**
   * A boolean option writes a single dash-led token; disabling it inserts
   * `no` right after the dash (`-verify` / `-noverify`).
   */
  lemma NegatableFlags(o: AttachImageOption)
    requires HasEnabledFlag(o)
    ensures var on := Arguments([o.(enabled := true)]); var off := Arguments([o.(enabled := false)]);
      |on| == 1 && |off| == 1 && StartsWith(on[0], "-") && off[0] == "-no" + on[0][1..]
      && Arguments([o]) == (if o.enabled then on else off)
  {
    match o
    case Kernel(_) =>
      assert "-kernel"[1..] == "kernel";
      assert "-no" + "kernel" == "-nokernel";
      TogglePair(o, "-kernel", "-nokernel");
    case IgnoreBadChecksums(_) => NegatablePair(o, "ignorebadchecksums");
    case Idme(_) => NegatablePair(o, "idme");
    case IdmeReveal(_) => NegatablePair(o, "idmereveal");
    case IdmeTrash(_) => NegatablePair(o, "idmetrash");
    case Verify(_) => NegatablePair(o, "verify");
    case AutoOpen(_) => NegatablePair(o, "autoopen");
    case AutoOpenReadonly(_) => NegatablePair(o, "autoopenro");
    case AutoOpenReadwrite(_) => NegatablePair(o, "autoopenrw");
    case AutoFileSystemChecking(_) => NegatablePair(o, "autofsck");
  }

  /** An option spelled by `Negatable` has the enabled and disabled tokens `NegatableFlags` states. */
  lemma NegatablePair(o: AttachImageOption, name: string)
    requires HasEnabledFlag(o)
    requires OptionTokens(o.(enabled := true)) == [Negatable(name, true)]
    requires OptionTokens(o.(enabled := false)) == [Negatable(name, false)]
    ensures var on := Arguments([o.(enabled := true)]); var off := Arguments([o.(enabled := false)]);
      |on| == 1 && |off| == 1 && StartsWith(on[0], "-") && off[0] == "-no" + on[0][1..]
      && Arguments([o]) == (if o.enabled then on else off)
  {
    NegatableSpelling(name);
    TogglePair(o, Negatable(name, true), Negatable(name, false));
  }

  /** The one-option arguments of a toggled option, given its two tokens. */
  lemma TogglePair(o: AttachImageOption, on: string, off: string)
    requires HasEnabledFlag(o)
    requires OptionTokens(o.(enabled := true)) == [on] && OptionTokens(o.(enabled := false)) == [off]
    ensures Arguments([o.(enabled := true)]) == [on] && Arguments([o.(enabled := false)]) == [off]
    ensures Arguments([o]) == if o.enabled then [on] else [off]
  {
    var t, f := o.(enabled := true), o.(enabled := false);
    FlatMapSingle(o, OptionTokens);
    FlatMapSingle(t, OptionTokens);
    FlatMapSingle(f, OptionTokens);
    assert o == (if o.enabled then t else f);
  }

  /**
   * `mount(opt)` writes the bare raw value, with no dash and no `-mount`
   * flag; `mount(nil)` writes `-nomount`.
   */
  lemma MountTokens(m: MountOption)
    ensures Arguments([Mount(Some(m))]) == [MountRaw(m)]
    ensures MountRaw(m) in {"required", "optional", "suppressed"}
    ensures !StartsWith(MountRaw(m), "-")
    ensures Arguments([Mount(None)]) == ["-nomount"]
  {
    FlatMapSingle(Mount(Some(m)), OptionTokens);
    FlatMapSingle(Mount(None), OptionTokens);
    StartsWithDash(MountRaw(m));
  }

  /** `owners` writes a single token with an embedded space. */
  lemma OwnersToken(flag: bool)
    ensures Arguments([Owners(flag)]) == [if flag then "-owners on" else "-owners off"]
  {
    FlatMapSingle(Owners(flag), OptionTokens);
    if flag {
      assert "-owners " + "on" == "-owners on";
    } else {
      assert "-owners " + "off" == "-owners off";
    }
  }

  /** Key/value options write the flag then one `key=value` token. */
  lemma KeyValueOptions(key: string, val: string)
    ensures Arguments([DriveKey(key, val)]) == ["-drivekey", key + "=" + val]
    ensures Arguments([ImageKey(key, val)]) == ["-imagekey", key + "=" + val]
  {
    FlatMapSingle(DriveKey(key, val), OptionTokens);
    FlatMapSingle(ImageKey(key, val), OptionTokens);
  }

  /** The mount location options write the flag then the path verbatim. */
  lemma PathOptions(path: string)
    ensures Arguments([MountRoot(path)]) == ["-mountroot", path]
    ensures Arguments([MountRandom(path)]) == ["-mountrandom", path]
    ensures Arguments([MountPoint(path)]) == ["-mountpoint", path]
  {
    FlatMapSingle(MountRoot(path), OptionTokens);
    FlatMapSingle(MountRandom(path), OptionTokens);
    FlatMapSingle(MountPoint(path), OptionTokens);
  }

  /** `[AttachImageOption].stringValue` */
  function StringValue(opts: seq<AttachImageOption>): (r: string)
    ensures r == "" <==> opts == []
  {
    DisplayStringEmpty(Arguments(opts), FlagBare);
    DisplayString(Arguments(opts), FlagBare)
  }

  /**
   * Each token of the display form is the argument token, bare exactly when
   * it starts with `-` and quoted otherwise; unquoting gives it back.
   */
  lemma StringValueQuoting(opts: seq<AttachImageOption>, i: int)
    requires 0 <= i < |Arguments(opts)|
    ensures var t := Arguments(opts)[i]; var d := Shown(Arguments(opts), FlagBare)[i];
      (d == t <==> StartsWith(t, "-")) && (d == Quote(t) <==> !StartsWith(t, "-")) && Unquote(d) == t
    ensures StringValue(opts) == Join(Shown(Arguments(opts), FlagBare), " ")
  {
    var t := Arguments(opts)[i];
    assert |Quote(t)| != |t|;
    UnquoteShown(Arguments(opts), FlagBare, i);
  }
}

/**
 * Options of `hdiutil create`, their argument tokens and their display form.
 * The tokens are written as the library writes them, including its quirks:
 * a size carries no `-size` flag, `autostretch` and `copyuid` have no
 * leading dash, and a token starting with `-c ` is quoted in the display form.
 */
module CreateOptions {
  import opened Wrappers
  import opened Strings
  import opened Url
  import opened CommonOptions

  /** `CreateImageOption.Size`: a magnitude and a unit (sectors, KiB … EiB). */
  datatype Size =
    | B(value: int)
    | Kb(value: int)
    | Mb(value: int)
    | Gb(value: int)
    | Tb(value: int)
    | Pb(value: int)
    | Eb(value: int)

  /** `CreateImageOption.ImageType` */
  datatype ImageType = Udif | Sparse | SparseBundle | Udto

  /** `CreateImageOption.FileSystem` */
  datatype FileSystem = Hfs | Jhfs | Hfsx | Jhfsx | Msdos | Udf

  /** `CreateImageOption.Mode` */
  datatype Mode = U

  /** `CreateImageOption.Layout` */
  datatype Layout = Mbrspud | Spud | UniversalCD | NoMap | Gptspud | Spcd | UniversalHD | Isocd

  /** `CreateImageOption.Format` */
  datatype Format =
    | Udro | Udco | Udzo | Udbz | Ulfo | Ulmo | Ufbi | Ipod
    | Udsb | Udsp | Udrw | Udto | Univ | SparseBundle | Sparse | Udif

  /** `hdiutilClass.CreateImageOption` */
  datatype CreateImageOption =
    | Size(size: Size)
    | Sectors(count: int)
    | Megabytes(megabytes: int)
    | SrcFolder(source: string)
    | SrcFolderURL(url: URL)
    | SrcDevice(device: string)
    | Align(alignment: string)
    | Type(imageType: ImageType)
    | Fs(fileSystem: FileSystem)
    | Volname(name: string)
    | Uid(uid: int)
    | Gid(gid: int)
    | Mode(mode: Mode)
    | AutoStretch(enabled: bool)
    | Stretch(maxStretch: int)
    | Fsargs(args: string)
    | Layout(layout: Layout)
    | Library(bundle: string)
    | PartitionType(partitionType: string)
    | Overwrite
    | Attach
    | Format(format: Format)
    | SegmentSize
    | CrossDev(enabled: bool)
    | Scrub(enabled: bool)
    | Anyowners(enabled: bool)
    | SkipUnreadable
    | CopyUID(user: string)
    | Encryption(crypto: CryptoMethod)
    | StdinPass
    | AgentPass
    | Certificate(cert: string)
    | PubKey(keys: seq<string>)
    | ImageKey(key: string, val: string)
    | TgtimageKey(key: string, val: string)
    | Plist
    | PuppetStrings
    | Verbose
    | Debug
    | Quiet

  // ---------------------------------------------------------------------
  // Sizes

  /** The unit letter of a size. */
  function SizeUnit(s: Size): char
  {
    match s
    case B(_) => 'b'
    case Kb(_) => 'k'
    case Mb(_) => 'm'
    case Gb(_) => 'g'
    case Tb(_) => 't'
    case Pb(_) => 'p'
    case Eb(_) => 'e'
  }

  /**
   * `Size.stringValue`: one token, the decimal magnitude immediately
   * followed by the unit letter.
   */
  function SizeString(s: Size): (r: string)
    ensures |r| >= 2 && r[|r| - 1] in "bkmgtpe"
    ensures r[..|r| - 1] == Decimal(s.value)
    ensures ' ' !in r
  {
    Decimal(s.value) + [SizeUnit(s)]
  }

  /** Reads a size token back: the inverse of `SizeString`. */
  function ParseSize(t: string): Option<Size>
  {
    if |t| < 2 || !IsDecimal(t[..|t| - 1]) then None
    else
      var n := IntValue(t[..|t| - 1]);
      match t[|t| - 1]
      case 'b' => Some(B(n))
      case 'k' => Some(Kb(n))
      case 'm' => Some(Mb(n))
      case 'g' => Some(Gb(n))
      case 't' => Some(Tb(n))
      case 'p' => Some(Pb(n))
      case 'e' => Some(Eb(n))
      case _ => None
  }

  /** A size token names its size: no two sizes render alike. */
  lemma SizeRoundTrip(s: Size)
    ensures ParseSize(SizeString(s)) == Some(s)
  {
    var t := SizeString(s);
    DecimalRoundTrip(s.value);
    assert t[|t| - 1] == SizeUnit(s);
  }

  // ---------------------------------------------------------------------
  // Raw values

  /** `ImageType.rawValue`. It starts with an upper-case letter, so it is never taken for a flag. */
  function ImageTypeRaw(t: ImageType): (r: string)
    ensures |r| >= 3 && 'A' <= r[0] <= 'Z'
  {
    match t
    case Udif => "UDIF"
    case Sparse => "SPARSE"
    case SparseBundle => "SPARSEBUNDLE"
    case Udto => "UDTO"
  }

  /** `FileSystem.rawValue`. It starts with an upper-case letter, so it is never taken for a flag. */
  function FileSystemRaw(f: FileSystem): (r: string)
    ensures |r| >= 3 && 'A' <= r[0] <= 'Z'
  {
    match f
    case Hfs => "HFS+"
    case Jhfs => "HFS+J"
    case Hfsx => "HFSX"
    case Jhfsx => "JHFS+X"
    case Msdos => "MS_DOS"
    case Udf => "UDF"
  }

  /** `Layout.rawValue`; only the two `UNIVERSAL` layouts embed a space. It starts with an upper-case letter, so it is never taken for a flag. */
  function LayoutRaw(l: Layout): (r: string)
    ensures |r| >= 3 && 'A' <= r[0] <= 'Z'
    ensures ' ' in r <==> l == UniversalCD || l == UniversalHD
  {
    match l
    case Mbrspud => "MBRSPUD"
    case Spud => "SPUD"
    case UniversalCD => "UNIVERSAL CD"
    case NoMap => "NONE"
    case Gptspud => "GPTSPUD"
    case Spcd => "SPCD"
    case UniversalHD => "UNIVERSAL HD"
    case Isocd => "ISOCD"
  }

  /** `Format.rawValue`. It starts with an upper-case letter, so it is never taken for a flag. */
  function FormatRaw(f: Format): (r: string)
    ensures |r| >= 3 && 'A' <= r[0] <= 'Z'
  {
    match f
    case Udro => "UDRO"
    case Udco => "UDCO"
    case Udzo => "UDZO"
    case Udbz => "UDBZ"
    case Ulfo => "ULFO"
    case Ulmo => "ULMO"
    case Ufbi => "UFBI"
    case Ipod => "IPOD"
    case Udsb => "UDSB"
    case Udsp => "UDSP"
    case Udrw => "UDRW"
    case Udto => "UDTO"
    case Univ => "UNIV"
    case SparseBundle => "SPARSEBUNDLE"
    case Sparse => "SPARSE"
    case Udif => "UDIF"
  }

  /** Distinct cases of each enumeration have distinct wire strings. */
  lemma RawValuesInjective(t1: ImageType, t2: ImageType, f1: FileSystem, f2: FileSystem,
                           l1: Layout, l2: Layout, g1: Format, g2: Format)
    ensures ImageTypeRaw(t1) == ImageTypeRaw(t2) ==> t1 == t2
    ensures FileSystemRaw(f1) == FileSystemRaw(f2) ==> f1 == f2
    ensures LayoutRaw(l1) == LayoutRaw(l2) ==> l1 == l2
    ensures FormatRaw(g1) == FormatRaw(g2) ==> g1 == g2
  {
  }

  // ---------------------------------------------------------------------
  // Arguments

  /** The tokens one option contributes: none for `segmentSize`, one or two otherwise. */
  function OptionTokens(o: CreateImageOption): (r: seq<string>)
    ensures |r| <= 2
    ensures r == [] <==> o.SegmentSize?
  {
    match o
    case Size(size) => [SizeString(size)]
    case Sectors(count) => ["-sectors", Decimal(count)]
    case Megabytes(size) => ["-megabytes", Decimal(size)]
    case SrcFolder(source) => ["-srcfolder", source]
    case SrcFolderURL(url) => ["-srcfolder", url.path]
    case SrcDevice(device) => ["-srcdevice", device]
    case Align(alignment) => ["-align", alignment]
    case Type(t) => ["-type", ImageTypeRaw(t)]
    case Fs(fileSystem) => ["-fs", FileSystemRaw(fileSystem)]
    case Volname(name) => ["-volname", name]
    case Uid(id) => ["-uid", Decimal(id)]
    case Gid(id) => ["-gid", Decimal(id)]
    case Mode(mode) => ["-mode", "u"]
    case AutoStretch(enabled) => [(if enabled then "" else "no") + "autostretch"]
    case Stretch(maxStretch) => ["-stretch", Decimal(maxStretch)]
    case Fsargs(args) => ["-fsargs", args]
    case Layout(layout) => ["-layout", LayoutRaw(layout)]
    case Library(bundle) => ["-library", bundle]
    case PartitionType(t) => ["-partitionType", t]
    case Overwrite => ["-ov"]
    case Attach => ["-attach"]
    case Format(format) => ["-format", FormatRaw(format)]
    case SegmentSize => []
    case CrossDev(enabled) => ["-" + (if enabled then "" else "no") + "crossdev"]
    case Scrub(enabled) => ["-" + (if enabled then "" else "no") + "scrub"]
    case Anyowners(enabled) => ["-" + (if enabled then "" else "no") + "anyowners"]
    case SkipUnreadable => ["-skipunreadable"]
    case CopyUID(user) => ["copyuid", user]
    case Encryption(crypto) => ["-encryption", CryptoRawValue(crypto)]
    case StdinPass => ["-stdinpass"]
    case AgentPass => ["-agentpass"]
    case Certificate(cert) => ["-certificate", cert]
    case PubKey(keys) => ["-pubkey", Join(keys, " ")]
    case ImageKey(key, val) => ["-imagekey", key + "=" + val]
    case TgtimageKey(key, val) => ["-tgtimagekey", key + "=" + val]
    case Plist => ["-plist"]
    case PuppetStrings => ["-puppetstrings"]
    case Verbose => ["-verbose"]
    case Debug => ["-debug"]
    case Quiet => ["-quiet"]
  }

  /** `[CreateImageOption].arguments`: the options' tokens in order, at most two each. */
  function Arguments(opts: seq<CreateImageOption>): (r: seq<string>)
    ensures |r| <= 2 * |opts|
  {
    FlatMapBound(opts, OptionTokens, 2);
    FlatMap(opts, OptionTokens)
  }

  /** `segmentSize` contributes nothing wherever it appears. */
  lemma SegmentSizeContributesNothing(a: seq<CreateImageOption>, b: seq<CreateImageOption>)
    ensures Arguments(a + [SegmentSize] + b) == Arguments(a + b)
  {
    FlatMapAppend(a + [SegmentSize], b, OptionTokens);
    FlatMapAppend(a, [SegmentSize], OptionTokens);
    FlatMapSingle(SegmentSize, OptionTokens);
    FlatMapAppend(a, b, OptionTokens);
  }

  /** A size is one bare token with no `-size` flag in front of it. */
  lemma SizeIsOneBareToken(s: Size)
    ensures Arguments([Size(s)]) == [SizeString(s)]
    ensures s.value >= 0 ==> !StartsWith(SizeString(s), "-")
  {
    FlatMapSingle(Size(s), OptionTokens);
  }

  /** The enumerated options write their flag and then the case's wire string. */
  lemma EnumOptionsUseRawValues(t: ImageType, f: FileSystem, l: Layout, g: Format)
    ensures Arguments([Type(t)]) == ["-type", ImageTypeRaw(t)]
    ensures Arguments([Fs(f)]) == ["-fs", FileSystemRaw(f)]
    ensures Arguments([Layout(l)]) == ["-layout", LayoutRaw(l)]
    ensures Arguments([Format(g)]) == ["-format", FormatRaw(g)]
    ensures FileSystemRaw(Hfs) == "HFS+" && FormatRaw(Udzo) == "UDZO"
  {
    FlatMapSingle(Type(t), OptionTokens);
    FlatMapSingle(Fs(f), OptionTokens);
    FlatMapSingle(Layout(l), OptionTokens);
    FlatMapSingle(Format(g), OptionTokens);
  }

  /** `crossDev`, `scrub` and `anyowners` write `-name` when true and `-noname` when false. */
  lemma NegatableFlags(enabled: bool)
    ensures Arguments([CrossDev(enabled)]) == [if enabled then "-crossdev" else "-nocrossdev"]
    ensures Arguments([Scrub(enabled)]) == [if enabled then "-scrub" else "-noscrub"]
    ensures Arguments([Anyowners(enabled)]) == [if enabled then "-anyowners" else "-noanyowners"]
  {
    FlatMapSingle(CrossDev(enabled), OptionTokens);
    FlatMapSingle(Scrub(enabled), OptionTokens);
    FlatMapSingle(Anyowners(enabled), OptionTokens);
    if enabled {
      assert "-" + "" + "crossdev" == "-crossdev";
      assert "-" + "" + "scrub" == "-scrub";
      assert "-" + "" + "anyowners" == "-anyowners";
    } else {
      assert "-" + "no" + "crossdev" == "-nocrossdev";
      assert "-" + "no" + "scrub" == "-noscrub";
      assert "-" + "no" + "anyowners" == "-noanyowners";
    }
  }

  /** `autoStretch` and `copyUID` are written without a leading dash. */
  lemma DashlessOptions(enabled: bool, user: string)
    ensures Arguments([AutoStretch(enabled)]) == [if enabled then "autostretch" else "noautostretch"]
    ensures Arguments([CopyUID(user)]) == ["copyuid", user]
    ensures !StartsWith(Arguments([AutoStretch(enabled)])[0], "-")
    ensures !StartsWith(Arguments([CopyUID(user)])[0], "-")
  {
    FlatMapSingle(AutoStretch(enabled), OptionTokens);
    FlatMapSingle(CopyUID(user), OptionTokens);
    if enabled {
      assert "" + "autostretch" == "autostretch";
    } else {
      assert "no" + "autostretch" == "noautostretch";
    }
    StartsWithDash(if enabled then "autostretch" else "noautostretch");
    StartsWithDash("copyuid");
  }

  /**
   * Key/value options write the flag and one `key=value` token; `pubKey`
   * writes the flag and all keys in one space-separated token.
   */
  lemma KeyValueOptions(key: string, val: string, keys: seq<string>)
    ensures Arguments([ImageKey(key, val)]) == ["-imagekey", key + "=" + val]
    ensures Arguments([TgtimageKey(key, val)]) == ["-tgtimagekey", key + "=" + val]
    ensures Arguments([PubKey(keys)]) == ["-pubkey", Join(keys, " ")]
  {
    FlatMapSingle(ImageKey(key, val), OptionTokens);
    FlatMapSingle(TgtimageKey(key, val), OptionTokens);
    FlatMapSingle(PubKey(keys), OptionTokens);
  }

  // ---------------------------------------------------------------------
  // Display form

  /** Create's quoting rule: a flag stays bare unless it starts with `-c `. */
  predicate CreateBare(t: string) {
    StartsWith(t, "-") && !StartsWith(t, "-c ")
  }

  /**
   * `[CreateImageOption].stringValue`: empty exactly when every option is
   * `segmentSize`, the one option without tokens.
   */
  function StringValue(opts: seq<CreateImageOption>): (r: string)
    ensures r == "" <==> forall i :: 0 <= i < |opts| ==> opts[i].SegmentSize?
  {
    DisplayStringEmpty(Arguments(opts), CreateBare);
    FlatMapEmpty(opts, OptionTokens);
    DisplayString(Arguments(opts), CreateBare)
  }

  /**
   * Each token of the display form is the argument token, quoted exactly
   * when it does not start with `-` or starts with `-c `; unquoting it gives
   * the argument token back.
   */
  lemma StringValueQuoting(opts: seq<CreateImageOption>, i: int)
    requires 0 <= i < |Arguments(opts)|
    ensures var t := Arguments(opts)[i]; var d := Shown(Arguments(opts), CreateBare)[i];
      (d == t <==> CreateBare(t)) && (d == Quote(t) <==> !CreateBare(t)) && Unquote(d) == t
    ensures StringValue(opts) == Join(Shown(Arguments(opts), CreateBare), " ")
  {
    var t := Arguments(opts)[i];
    assert |Quote(t)| != |t|;
    UnquoteShown(Arguments(opts), CreateBare, i);
  }

  /** `fsargs` shows its flag bare and its value as create's quoting rule says. */
  lemma FsargsShown(t: string)
    ensures StringValue([Fsargs(t)]) == "-fsargs" + " " + (if CreateBare(t) then t else Quote(t))
  {
    FlatMapSingle(Fsargs(t), OptionTokens);
    assert CreateBare("-fsargs") by {
      StartsWithDash("-fsargs");
      assert "-fsargs"[..3][1] != "-c "[1];
    }
    var shown := Shown(["-fsargs", t], CreateBare);
    assert shown == ["-fsargs"] + [shown[1]];
    JoinCons("-fsargs", [shown[1]], " ");
  }

  /** The `newfs` arguments that minimise the filesystem's front gaps. */
  const CompactFsargs := "-c c=64,a=16,e=16"

  /** `fsargs("-c c=64,a=16,e=16")` has its value quoted although it starts with a dash. */
  lemma FsargsValueQuoted()
    ensures StartsWith(CompactFsargs, "-") && !CreateBare(CompactFsargs)
    ensures StringValue([Fsargs(CompactFsargs)]) == "-fsargs" + " " + Quote(CompactFsargs)
  {
    assert CompactFsargs[..3] == "-c ";
    FsargsShown(CompactFsargs);
  }

}

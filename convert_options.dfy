/**
 * Options of `hdiutil convert` and the target formats it accepts. Every
 * option begins with a dash-led flag; values follow as their own tokens.
 */
module ConvertOptions {
  import opened Wrappers
  import opened Strings
  import opened CommonOptions

  /** `ConvertImageOption.Format`: the target image format of a conversion. */
  datatype Format = Udro | Udco | Udzo | Udbz | Ulfo | Ulmo | Ufbi | Ipod | Udsb | Udsp | Udrw | Udto

  /** `hdiutilClass.ConvertImageOption` */
  datatype ConvertImageOption =
    | Overwrite
    | Alignment(alignment: int)
    | Pmap
    | SegmentSize(sizeSpec: string)
    | Tasks(taskCount: int)
    | Encryption(crypto: CryptoMethod)
    | StdinPass
    | AgentPass
    | Certificate(cert: string)
    | ImageKey(key: string, val: string)
    | SrcImageKey(key: string, val: string)
    | TgtImageKey(key: string, val: string)
    | Shadow(shadowFile: string)
    | InsecureHTTP
    | Cacert(fileOrDir: string)
    | Plist
    | PuppetStrings
    | Verbose
    | Debug
    | Quiet

  predicate IsUpper(c: char) {
    'A' <= c <= 'Z'
  }

  /** `Format.rawValue`: four upper-case letters. */
  function FormatRaw(f: Format): (r: string)
    ensures |r| == 4 && forall i :: 0 <= i < 4 ==> IsUpper(r[i])
  {
    match f
    case Udro => "UDRO"
    case Udco => "UDCO"
    case Udzo => "UDZO"
    case Udbz => "UDBZ"
    case Ulfo => "ULFO"
    case Ulmo => "ULMO"
    case Ufbi => "UFBI"
    case Ipod => "IPOD"
    case Udsb => "UDSB"
    case Udsp => "UDSP"
    case Udrw => "UDRW"
    case Udto => "UDTO"
  }

  /** `Format(rawValue:)` */
  function FormatFromRaw(r: string): Option<Format>
  {
    if r == "UDRO" then Some(Udro)
    else if r == "UDCO" then Some(Udco)
    else if r == "UDZO" then Some(Udzo)
    else if r == "UDBZ" then Some(Udbz)
    else if r == "ULFO" then Some(Ulfo)
    else if r == "ULMO" then Some(Ulmo)
    else if r == "UFBI" then Some(Ufbi)
    else if r == "IPOD" then Some(Ipod)
    else if r == "UDSB" then Some(Udsb)
    else if r == "UDSP" then Some(Udsp)
    else if r == "UDRW" then Some(Udrw)
    else if r == "UDTO" then Some(Udto)
    else None
  }

  /** Decoding a raw value gives back exactly the format that spells it, and nothing else decodes. */
  lemma FormatRawRoundTrip(f: Format, r: string)
    ensures FormatFromRaw(FormatRaw(f)) == Some(f)
    ensures FormatFromRaw(r) == Some(f) <==> FormatRaw(f) == r
  {
  }

  /** The tokens one option contributes: a dash-led flag, then at most one value. */
  function OptionTokens(o: ConvertImageOption): (r: seq<string>)
    ensures 1 <= |r| <= 2 && StartsWith(r[0], "-")
  {
    match o
    case Overwrite => ["-ov"]
    case Alignment(alignment) => ["-align", Decimal(alignment)]
    case Pmap => ["-pmap"]
    case SegmentSize(sizeSpec) => ["-segmentSize", sizeSpec]
    case Tasks(taskCount) => ["-tasks", Decimal(taskCount)]
    case Encryption(crypto) => ["-encryption", CryptoRawValue(crypto)]
    case StdinPass => ["-stdinpass"]
    case AgentPass => ["-agentpass"]
    case Certificate(cert) => ["-certificate", cert]
    case ImageKey(key, val) => ["-imagekey", key + "=" + val]
    case SrcImageKey(key, val) => ["-srcimagekey", key + "=" + val]
    case TgtImageKey(key, val) => ["-tgtimagekey", key + "=" + val]
    case Shadow(shadowFile) => ["-shadow", shadowFile]
    case InsecureHTTP => ["-insecurehttp"]
    case Cacert(fileOrDir) => ["-cacert", fileOrDir]
    case Plist => ["-plist"]
    case PuppetStrings => ["-puppetstrings"]
    case Verbose => ["-verbose"]
    case Debug => ["-debug"]
    case Quiet => ["-quiet"]
  }

  /** `[ConvertImageOption].arguments`: every option yields one or two tokens, in order. */
  function Arguments(opts: seq<ConvertImageOption>): (r: seq<string>)
    ensures |opts| <= |r| <= 2 * |opts|
    ensures opts != [] ==> StartsWith(r[0], "-")
  {
    FlatMapBound(opts, OptionTokens, 2);
    FlatMapAtLeastOne(opts, OptionTokens);
    assert opts != [] ==> FlatMap(opts, OptionTokens) == OptionTokens(opts[0]) + FlatMap(opts[1..], OptionTokens);
    FlatMap(opts, OptionTokens)
  }

  /**
   * Numeric options write their value in decimal as a separate token, which
   * reads back as the same integer.
   */
  lemma NumericOptions(n: int)
    ensures Arguments([Alignment(n)]) == ["-align", Decimal(n)]
    ensures Arguments([Tasks(n)]) == ["-tasks", Decimal(n)]
    ensures IsDecimal(Decimal(n)) && IntValue(Decimal(n)) == n
  {
    FlatMapSingle(Alignment(n), OptionTokens);
    FlatMapSingle(Tasks(n), OptionTokens);
    DecimalRoundTrip(n);
  }

  /** Key/value options write the flag then one `key=value` token. */
  lemma KeyValueOptions(key: string, val: string)
    ensures Arguments([ImageKey(key, val)]) == ["-imagekey", key + "=" + val]
    ensures Arguments([SrcImageKey(key, val)]) == ["-srcimagekey", key + "=" + val]
    ensures Arguments([TgtImageKey(key, val)]) == ["-tgtimagekey", key + "=" + val]
  {
    FlatMapSingle(ImageKey(key, val), OptionTokens);
    FlatMapSingle(SrcImageKey(key, val), OptionTokens);
    FlatMapSingle(TgtImageKey(key, val), OptionTokens);
  }

  /** `overwrite` writes `-ov`; the string-valued options write the flag then the string verbatim. */
  lemma VerbatimOptions(s: string)
    ensures Arguments([Overwrite]) == ["-ov"]
    ensures Arguments([SegmentSize(s)]) == ["-segmentSize", s]
    ensures Arguments([Certificate(s)]) == ["-certificate", s]
    ensures Arguments([Shadow(s)]) == ["-shadow", s]
    ensures Arguments([Cacert(s)]) == ["-cacert", s]
  {
    FlatMapSingle(Overwrite, OptionTokens);
    FlatMapSingle(SegmentSize(s), OptionTokens);
    FlatMapSingle(Certificate(s), OptionTokens);
    FlatMapSingle(Shadow(s), OptionTokens);
    FlatMapSingle(Cacert(s), OptionTokens);
  }

  /** `[ConvertImageOption].stringValue` */
  function StringValue(opts: seq<ConvertImageOption>): (r: string)
    ensures r == "" <==> opts == []
  {
    DisplayStringEmpty(Arguments(opts), FlagBare);
    DisplayString(Arguments(opts), FlagBare)
  }

  /**
   * Each token of the display form is the argument token, bare exactly when
   * it starts with `-` and quoted otherwise; unquoting gives it back. Flags
   * are never quoted, and a negative alignment shows its value bare.
   */
  lemma StringValueQuoting(opts: seq<ConvertImageOption>, i: int, n: int)
    requires 0 <= i < |Arguments(opts)|
    ensures var t := Arguments(opts)[i]; var d := Shown(Arguments(opts), FlagBare)[i];
      (d == t <==> StartsWith(t, "-")) && (d == Quote(t) <==> !StartsWith(t, "-")) && Unquote(d) == t
    ensures StringValue(opts) == Join(Shown(Arguments(opts), FlagBare), " ")
    ensures |opts| == 1 ==> Shown(Arguments(opts), FlagBare)[0] == OptionTokens(opts[0])[0]
    ensures Shown(Arguments([Alignment(n)]), FlagBare)[1] == Decimal(n) <==> n < 0
  {
    var t := Arguments(opts)[i];
    assert |Quote(t)| != |t|;
    UnquoteShown(Arguments(opts), FlagBare, i);
    if |opts| == 1 {
      assert opts == [opts[0]];
      FlatMapSingle(opts[0], OptionTokens);
    }
    FlatMapSingle(Alignment(n), OptionTokens);
    assert |Quote(Decimal(n))| != |Decimal(n)|;
  }
}

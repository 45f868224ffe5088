/**
 * Options of `hdiutil resize`. Unlike the other verbs, each option becomes
 * exactly ONE token: a flag and its value are written into a single token
 * separated by a space (`-sectors 100`), and a size is written bare.
 */
module ResizeOptions {
  import opened Strings
  import opened CommonOptions
  import CreateOptions

  /** `ResizeImageOption.SectorsOptions` */
  datatype SectorsOption = Count(count: int) | Min

  /** `hdiutilClass.ResizeImageOption` */
  datatype ResizeImageOption =
    | Size(size: CreateOptions.Size)
    | Sectors(sectors: SectorsOption)
    | ImageOnly
    | PartitionOnly
    | PartitionNumber(id: int)
    | GrowOnly
    | ShrinkOnly
    | NoFinalGap
    | Limits
    | AllLimits
    | Encryption(crypto: CryptoMethod)
    | Stdinpass
    | Agentpass
    | SrcImageKey(key: string, val: string)
    | Shadow(file: string)
    | InsecureHTTP
    | Cacert(fileOrDir: string)
    | Plist
    | Verbose
    | Debug
    | Quiet

  /** A size written bare with a non-negative magnitude: the only token without a leading dash. */
  predicate IsBareSize(o: ResizeImageOption) {
    o.Size? && o.size.value >= 0
  }

  /** The single token one option contributes. */
  function OptionToken(o: ResizeImageOption): (r: string)
    ensures StartsWith(r, "-") <==> !IsBareSize(o)
  {
    var r := match o
      case Size(size) => CreateOptions.SizeString(size)
      case Sectors(Count(count)) => "-sectors " + Decimal(count)
      case Sectors(Min) => "-secotrs min"
      case ImageOnly => "-imageonly"
      case PartitionOnly => "-partitiononly"
      case PartitionNumber(id) => "-partitionID " + Decimal(id)
      case GrowOnly => "-growonly"
      case ShrinkOnly => "-shrinkonly"
      case NoFinalGap => "-nofinalgap"
      case Limits => "-limits"
      case AllLimits => "-alllimits"
      case Encryption(crypto) => "-encryption " + CryptoRawValue(crypto)
      case Stdinpass => "-stdinpass"
      case Agentpass => "-agentpass"
      case SrcImageKey(key, val) => "-srcimagekey " + key + "=" + val
      case Shadow(file) => "-shadow " + file
      case InsecureHTTP => "-insecurehttp"
      case Cacert(fileOrDir) => "-cacert " + fileOrDir
      case Plist => "-plist"
      case Verbose => "-verbose"
      case Debug => "-debug"
      case Quiet => "-quiet";
    StartsWithDash(r);
    if o.Size? then
      var d := Decimal(o.size.value);
      StartsWithDash(d);
      assert r[..|r| - 1] == d && |d| > 0;
      assert r[0] == d[0];
      r
    else
      assert r[0] == '-';
      r
  }

  /** `[ResizeImageOption].arguments`: one token per option, in order. */
  function Arguments(opts: seq<ResizeImageOption>): (r: seq<string>)
    ensures |r| == |opts|
    ensures forall i :: 0 <= i < |opts| ==> r[i] == OptionToken(opts[i])
  {
    MapTokens(opts, OptionToken)
  }

  /**
   * A sector count is one token, the flag, one space and the decimal count;
   * splitting it on the space gives the flag and the count back. `min` is
   * written with the flag misspelled, so it does not carry `-sectors`.
   */
  lemma SectorsTokens(n: int)
    ensures OptionToken(Sectors(Count(n))) == "-sectors " + Decimal(n)
    ensures Split(OptionToken(Sectors(Count(n))), " ") == ["-sectors", Decimal(n)]
    ensures OptionToken(Sectors(Min)) == "-secotrs min"
    ensures !StartsWith(OptionToken(Sectors(Min)), "-sectors")
  {
    assert "-sectors " == "-sectors" + [' '];
    SplitPair("-sectors", Decimal(n), ' ');
    assert OptionToken(Sectors(Min))[4] != "-sectors"[4];
  }

  /** A partition number is one token, `-partitionID` and the decimal number. */
  lemma PartitionNumberToken(n: int)
    ensures OptionToken(PartitionNumber(n)) == "-partitionID " + Decimal(n)
    ensures Split(OptionToken(PartitionNumber(n)), " ") == ["-partitionID", Decimal(n)]
  {
    assert "-partitionID " == "-partitionID" + [' '];
    SplitPair("-partitionID", Decimal(n), ' ');
  }

  /** A size is written bare with no flag, exactly as `hdiutil create` writes it. */
  lemma SizeToken(s: CreateOptions.Size)
    ensures Arguments([Size(s)]) == [CreateOptions.SizeString(s)]
    ensures s.value >= 0 ==> !StartsWith(Arguments([Size(s)])[0], "-")
  {
  }

  /**
   * `encryption` writes the flag and the raw method name as one token with an
   * embedded space; splitting it on the space recovers both.
   */
  lemma EncryptionToken(m: CryptoMethod)
    ensures OptionToken(Encryption(m)) == "-encryption" + " " + CryptoRawValue(m)
    ensures Split(OptionToken(Encryption(m)), " ") == ["-encryption", CryptoRawValue(m)]
  {
    CryptoRawValues(m, CryptoRawValue(m));
    assert ' ' !in CryptoRawValue(m);
    assert "-encryption " == "-encryption" + " ";
    SplitPair("-encryption", CryptoRawValue(m), ' ');
  }

  /**
   * `srcImageKey` writes `-srcimagekey key=value` as one token; splitting it
   * on spaces recovers the flag and the pair whenever the pair has no space.
   */
  lemma SrcImageKeyToken(key: string, val: string)
    ensures OptionToken(SrcImageKey(key, val)) == "-srcimagekey" + " " + (key + "=" + val)
    ensures ' ' !in key + "=" + val ==>
      Split(OptionToken(SrcImageKey(key, val)), " ") == ["-srcimagekey", key + "=" + val]
  {
    assert "-srcimagekey " + key + "=" + val == "-srcimagekey" + " " + (key + "=" + val);
    if ' ' !in key + "=" + val {
      SplitPair("-srcimagekey", key + "=" + val, ' ');
    }
  }

  /**
   * `shadow` and `cacert` write the flag and the path as one token; splitting
   * it on spaces recovers both whenever the path has no space.
   */
  lemma PathTokens(file: string)
    ensures OptionToken(Shadow(file)) == "-shadow" + " " + file
    ensures OptionToken(Cacert(file)) == "-cacert" + " " + file
    ensures ' ' !in file ==> Split(OptionToken(Shadow(file)), " ") == ["-shadow", file]
    ensures ' ' !in file ==> Split(OptionToken(Cacert(file)), " ") == ["-cacert", file]
  {
    assert "-shadow " == "-shadow" + " ";
    assert "-cacert " == "-cacert" + " ";
    if ' ' !in file {
      SplitPair("-shadow", file, ' ');
      SplitPair("-cacert", file, ' ');
    }
  }

  /** `[ResizeImageOption].stringValue` */
  function StringValue(opts: seq<ResizeImageOption>): (r: string)
    ensures r == "" <==> opts == []
  {
    DisplayStringEmpty(Arguments(opts), FlagBare);
    DisplayString(Arguments(opts), FlagBare)
  }

  /**
   * In the display form an option's token is quoted exactly when it is a
   * size with a non-negative magnitude; every other token is shown as is.
   */
  lemma StringValueQuoting(opts: seq<ResizeImageOption>, i: int)
    requires 0 <= i < |opts|
    ensures var t := OptionToken(opts[i]); var d := Shown(Arguments(opts), FlagBare)[i];
      (d == Quote(t) <==> IsBareSize(opts[i])) && (d == t <==> !IsBareSize(opts[i])) && Unquote(d) == t
  {
    var t := OptionToken(opts[i]);
    assert |Quote(t)| != |t|;
    UnquoteShown(Arguments(opts), FlagBare, i);
  }
}

/**
 * Options of `hdiutil info`. Every option is a single flag token, so the
 * display form never quotes anything.
 */
module InfoOptions {
  import opened Wrappers
  import opened Strings

  /** `hdiutilClass.InfoOption` */
  datatype InfoOption = Simplified | Plist | Verbose | Quiet | Debug

  /** The single flag token one option contributes. */
  function OptionToken(o: InfoOption): (r: string)
    ensures StartsWith(r, "-")
  {
    var r := match o
      case Simplified => "-s"
      case Plist => "-plist"
      case Verbose => "-verbose"
      case Quiet => "-quiet"
      case Debug => "-debug";
    StartsWithDash(r);
    r
  }

  /** Reads a flag token back. */
  function ParseToken(t: string): Option<InfoOption>
  {
    if t == "-s" then Some(Simplified)
    else if t == "-plist" then Some(Plist)
    else if t == "-verbose" then Some(Verbose)
    else if t == "-quiet" then Some(Quiet)
    else if t == "-debug" then Some(Debug)
    else None
  }

  /** Each option's token reads back as that option: no two options share a token. */
  lemma TokenRoundTrip(o: InfoOption)
    ensures ParseToken(OptionToken(o)) == Some(o)
    ensures o == Simplified <==> OptionToken(o) == "-s"
  {
  }

  /** `InfoOptions.arguments`: one token per option, in order. */
  function Arguments(opts: seq<InfoOption>): (r: seq<string>)
    ensures |r| == |opts|
    ensures forall i :: 0 <= i < |opts| ==> r[i] == OptionToken(opts[i])
  {
    MapTokens(opts, OptionToken)
  }

  /** `InfoOptions.stringValue` */
  function StringValue(opts: seq<InfoOption>): (r: string)
    ensures r == "" <==> opts == []
  {
    DisplayStringEmpty(Arguments(opts), FlagBare);
    DisplayString(Arguments(opts), FlagBare)
  }

  /**
   * No token is quoted: the display form is the tokens joined by single
   * spaces, and no options display as the empty string.
   */
  lemma StringValueIsJoin(opts: seq<InfoOption>)
    ensures StringValue(opts) == Join(Arguments(opts), " ")
    ensures opts == [] ==> Arguments(opts) == [] && StringValue(opts) == ""
  {
    DisplayStringAllBare(Arguments(opts), FlagBare);
  }
}

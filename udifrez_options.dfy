/**
 * Options of `hdiutil udifrez`. Each option is one token; a file operand is
 * written into the same token as its flag after a space (`-xml file`).
 */
module UdifrezOptions {
  import opened Wrappers
  import opened Strings

  /** `hdiutilClass.UDIFrezOption` */
  datatype UdifrezOption = Xml(file: string) | RsrcFork(file: string) | ReplaceAll

  /** The single token one option contributes. */
  function OptionToken(o: UdifrezOption): (r: string)
    ensures StartsWith(r, "-")
  {
    var r := match o
      case Xml(file) => "-xml " + file
      case RsrcFork(file) => "-rsrcfork " + file
      case ReplaceAll => "-replaceall";
    StartsWithDash(r);
    assert r[0] == '-';
    r
  }

  /** Reads a token back, taking everything after the flag's space as the file. */
  function ParseToken(t: string): Option<UdifrezOption>
  {
    if StartsWith(t, "-xml ") then Some(Xml(t[5..]))
    else if StartsWith(t, "-rsrcfork ") then Some(RsrcFork(t[10..]))
    else if t == "-replaceall" then Some(ReplaceAll)
    else None
  }

  /**
   * Each option's token reads back as that option, whatever the file name
   * holds (spaces included): the token keeps the whole operand.
   */
  lemma TokenRoundTrip(o: UdifrezOption)
    ensures ParseToken(OptionToken(o)) == Some(o)
  {
    var t := OptionToken(o);
    match o
    case Xml(file) =>
      assert t[..5] == "-xml ";
      assert t[5..] == file;
    case RsrcFork(file) =>
      assert t[1] != "-xml "[1];
      assert t[..10] == "-rsrcfork ";
      assert t[10..] == file;
    case ReplaceAll =>
      assert t[1] != "-xml "[1];
      assert t[2] != "-rsrcfork "[2];
  }

  /** `UDIFrezOptions.arguments`: one token per option, in order. */
  function Arguments(opts: seq<UdifrezOption>): (r: seq<string>)
    ensures |r| == |opts|
    ensures forall i :: 0 <= i < |opts| ==> r[i] == OptionToken(opts[i])
  {
    MapTokens(opts, OptionToken)
  }

  /** `UDIFrezOptions.stringValue` */
  function StringValue(opts: seq<UdifrezOption>): (r: string)
    ensures r == "" <==> opts == []
  {
    DisplayStringEmpty(Arguments(opts), FlagBare);
    DisplayString(Arguments(opts), FlagBare)
  }

  /** No token is ever quoted: the display form is the tokens joined by single spaces. */
  lemma StringValueIsJoin(opts: seq<UdifrezOption>)
    ensures StringValue(opts) == Join(Arguments(opts), " ")
  {
    DisplayStringAllBare(Arguments(opts), FlagBare);
  }
}

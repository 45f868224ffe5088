/**
 * The options every verb shares (`CommonOption`), the encryption methods
 * (`CryptoMethod`), and the display form of a heterogeneous option list,
 * which keeps only the common options.
 */
module CommonOptions {
  import opened Wrappers
  import opened Strings

  /** `hdiutilClass.CommonOption` */
  datatype CommonOption = Verbose | Quiet | Debug

  /** `CommonOption.CryptoMethod` */
  datatype CryptoMethod = Aes128 | Aes256

  /** `CryptoMethod.rawValue`: an AES key length, written the way hdiutil spells it. */
  function CryptoRawValue(m: CryptoMethod): (r: string)
    ensures |r| == 7 && StartsWith(r, "AES-")
  {
    match m
    case Aes128 => "AES-128"
    case Aes256 => "AES-256"
  }

  /** `CryptoMethod(rawValue:)` */
  function CryptoFromRawValue(r: string): Option<CryptoMethod>
  {
    if r == "AES-128" then Some(Aes128)
    else if r == "AES-256" then Some(Aes256)
    else None
  }

  /** The raw values are exactly `"AES-128"` and `"AES-256"`, and they name their cases back. */
  lemma CryptoRawValues(m: CryptoMethod, r: string)
    ensures CryptoRawValue(m) in {"AES-128", "AES-256"}
    ensures CryptoFromRawValue(CryptoRawValue(m)) == Some(m)
    ensures CryptoFromRawValue(r).Some? <==> r in {"AES-128", "AES-256"}
    ensures CryptoFromRawValue(r).Some? ==> CryptoRawValue(CryptoFromRawValue(r).value) == r
  {
  }

  /** The flag a common option contributes to an option list's display form. */
  function CommonToken(o: CommonOption): (r: string)
    ensures StartsWith(r, "-")
  {
    match o
    case Verbose => "-verbose"
    case Quiet => "-quiet"
    case Debug => "-debug"
  }
}

/**
 * `[HDIUtilOptions].stringValue`: the display form of a list that mixes
 * option kinds. Only the common options are written; every other option
 * contributes nothing.
 */
module OptionLists {
  import opened Strings
  import opened CommonOptions
  import CreateOptions
  import AttachOptions
  import ConvertOptions
  import ResizeOptions
  import UdifrezOptions

  /** `hdiutilClass.DetachImageOption` */
  datatype DetachImageOption = Force

  /** A value of any type conforming to `HDIUtilOptions`. */
  datatype HDIUtilOption =
    | Common(common: CommonOption)
    | Create(create: CreateOptions.CreateImageOption)
    | Attach(attach: AttachOptions.AttachImageOption)
    | Convert(convert: ConvertOptions.ConvertImageOption)
    | Resize(resize: ResizeOptions.ResizeImageOption)
    | Udifrez(udifrez: UdifrezOptions.UdifrezOption)
    | Detach(detach: DetachImageOption)

  /** The tokens the loop collects, as a function of the list it has read. */
  function CommonTokens(options: seq<HDIUtilOption>): (r: seq<string>)
    ensures |r| <= |options|
    ensures forall i :: 0 <= i < |r| ==> StartsWith(r[i], "-")
  {
    if options == [] then []
    else
      var last := options[|options| - 1];
      CommonTokens(options[..|options| - 1]) + (if last.Common? then [CommonToken(last.common)] else [])
  }

  /** The common options of a list, in order: the list filtered to its `CommonOption`s. */
  function Commons(options: seq<HDIUtilOption>): (r: seq<CommonOption>)
    ensures |r| <= |options|
  {
    if options == [] then []
    else (if options[0].Common? then [options[0].common] else []) + Commons(options[1..])
  }

  lemma {:induction false} CommonsAppend(a: seq<HDIUtilOption>, b: seq<HDIUtilOption>)
    ensures Commons(a + b) == Commons(a) + Commons(b)
    decreases |a|
  {
    if a == [] {
      assert a + b == b;
    } else {
      var head := if a[0].Common? then [a[0].common] else [];
      assert (a + b)[0] == a[0] && (a + b)[1..] == a[1..] + b;
      CommonsAppend(a[1..], b);
      calc {
        Commons(a + b);
        head + Commons(a[1..] + b);
        head + (Commons(a[1..]) + Commons(b));
        (head + Commons(a[1..])) + Commons(b);
      }
    }
  }

  /**
   * The collected tokens are the common options of the list, filtered in
   * order, each written as its flag: other option kinds are skipped.
   */
  lemma {:induction false} CommonTokensFilterMap(options: seq<HDIUtilOption>)
    ensures CommonTokens(options) == MapTokens(Commons(options), CommonToken)
    decreases |options|
  {
    if options != [] {
      var front, last := options[..|options| - 1], options[|options| - 1];
      assert options == front + [last];
      CommonTokensFilterMap(front);
      CommonsAppend(front, [last]);
      assert Commons([last]) == (if last.Common? then [last.common] else []);
      MapTokensAppend(Commons(front), Commons([last]), CommonToken);
    }
  }

  /** Collecting over a concatenation collects each part in turn: order is kept. */
  lemma CommonTokensAppend(a: seq<HDIUtilOption>, b: seq<HDIUtilOption>)
    ensures CommonTokens(a + b) == CommonTokens(a) + CommonTokens(b)
  {
    CommonTokensFilterMap(a + b);
    CommonTokensFilterMap(a);
    CommonTokensFilterMap(b);
    CommonsAppend(a, b);
    MapTokensAppend(Commons(a), Commons(b), CommonToken);
  }

  /**
   * `[HDIUtilOptions].stringValue`: appends the flag of every common option,
   * in order, then joins the flags with single spaces.
   */
  method StringValue(options: seq<HDIUtilOption>) returns (s: string)
    ensures s == Join(CommonTokens(options), " ")
    ensures s == Join(MapTokens(Commons(options), CommonToken), " ")
  {
    var arguments: seq<string> := [];
    for i := 0 to |options|
      invariant arguments == CommonTokens(options[..i])
    {
      assert options[..i + 1][..i] == options[..i];
      match options[i]
      case Common(option) => {
        match option
        case Verbose => arguments := arguments + ["-verbose"];
        case Quiet => arguments := arguments + ["-quiet"];
        case Debug => arguments := arguments + ["-debug"];
      }
      case _ =>
    }
    assert options[..|options|] == options;
    CommonTokensFilterMap(options);
    s := Join(arguments, " ");
  }

  /**
   * Only the common options matter: a list without any displays as the
   * empty string, and two lists with the same common options display alike.
   */
  lemma OnlyCommonOptionsCount(options: seq<HDIUtilOption>, others: seq<HDIUtilOption>)
    ensures (forall i :: 0 <= i < |options| ==> !options[i].Common?) ==> Join(CommonTokens(options), " ") == ""
    ensures Commons(options) == Commons(others) ==> CommonTokens(options) == CommonTokens(others)
  {
    CommonTokensFilterMap(options);
    CommonTokensFilterMap(others);
    if forall i :: 0 <= i < |options| ==> !options[i].Common? {
      NoCommons(options);
    }
  }

  lemma {:induction false} NoCommons(options: seq<HDIUtilOption>)
    requires forall i :: 0 <= i < |options| ==> !options[i].Common?
    ensures Commons(options) == []
  {
    if options != [] {
      assert !options[0].Common?;
      NoCommons(options[1..]);
    }
  }

  /** The three common options display as `-verbose`, `-quiet` and `-debug`. */
  lemma CommonFlags()
    ensures CommonTokens([Common(Verbose)]) == ["-verbose"]
    ensures CommonTokens([Common(Quiet)]) == ["-quiet"]
    ensures CommonTokens([Common(Debug)]) == ["-debug"]
  {
    assert [Common(Verbose)][..0] == [];
    assert [Common(Quiet)][..0] == [];
    assert [Common(Debug)][..0] == [];
  }
}

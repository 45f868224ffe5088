/**
 * The command layer of `hdiutilClass`: the verbs and where their operands
 * sit among the argument tokens, the one-line display form used on the
 * AppleScript route, the path join of `create`, the AppleScript text, the
 * dispatch between the two routes, the reading of a finished process, the
 * parse-or-throw wrappers of `attach` and `create`, and `configure`.
 */
module Hdiutil {
  import opened Wrappers
  import opened Strings
  import opened Url
  import opened Errors
  import opened Outputs
  import AttachOptions
  import CreateOptions
  import ConvertOptions
  import InfoOptions
  import ResizeOptions
  import UdifrezOptions

  // ---------------------------------------------------------------------
  // Verbs

  /** `hdiutilClass.Verb` */
  datatype Verb =
    | Help
    | Attach(image: string, attachOptions: seq<AttachOptions.AttachImageOption>)
    | Detach(devName: string, force: bool)
    | Create(image: string, createOptions: seq<CreateOptions.CreateImageOption>)
    | Convert(image: string, format: ConvertOptions.Format, outFile: string,
              convertOptions: seq<ConvertOptions.ConvertImageOption>)
    | Info(infoOptions: seq<InfoOptions.InfoOption>)
    | Resize(image: string, resizeOptions: seq<ResizeOptions.ResizeImageOption>)
    | Udifrez(image: string, udifrezOptions: seq<UdifrezOptions.UdifrezOption>)

  /** `Verb.arguments`: the argument vector handed to `/usr/bin/hdiutil`. */
  function Arguments(v: Verb): (r: seq<string>)
    ensures |r| >= 1
  {
    match v
    case Help => ["help"]
    case Attach(image, opts) => ["attach", image] + AttachOptions.Arguments(opts)
    case Detach(devName, force) => ["detach", devName] + (if force then ["-force"] else [])
    case Create(image, opts) => ["create", image] + CreateOptions.Arguments(opts)
    case Convert(image, format, outFile, opts) =>
      ["convert", "-format", ConvertOptions.FormatRaw(format), "-o", outFile]
      + ConvertOptions.Arguments(opts) + [image]
    case Info(opts) => ["info"] + InfoOptions.Arguments(opts)
    case Resize(image, opts) => ["resize"] + ResizeOptions.Arguments(opts) + [image]
    case Udifrez(image, opts) => ["udifrez"] + UdifrezOptions.Arguments(opts) + [image]
  }

  /** `help` takes no operand; `info` takes only its option tokens. */
  lemma HelpAndInfo(opts: seq<InfoOptions.InfoOption>)
    ensures Arguments(Help) == ["help"]
    ensures Arguments(Info(opts)) == ["info"] + InfoOptions.Arguments(opts)
    ensures |Arguments(Info(opts))| == |opts| + 1
  {
  }

  /** `detach` is the device then `-force` exactly when forced. */
  lemma DetachArguments(dev: string, force: bool)
    ensures Arguments(Detach(dev, force)) == if force then ["detach", dev, "-force"] else ["detach", dev]
  {
  }

  /**
   * `attach` and `create` put their target right after the verb and the
   * option tokens, unchanged and in order, after it.
   */
  lemma TargetFirst(image: string, a: seq<AttachOptions.AttachImageOption>,
                    c: seq<CreateOptions.CreateImageOption>)
    ensures var r := Arguments(Attach(image, a));
      r[0] == "attach" && r[1] == image && r[2..] == AttachOptions.Arguments(a)
    ensures var r := Arguments(Create(image, c));
      r[0] == "create" && r[1] == image && r[2..] == CreateOptions.Arguments(c)
  {
    var r, s := Arguments(Attach(image, a)), Arguments(Create(image, c));
    assert r[2..] == AttachOptions.Arguments(a);
    assert s[2..] == CreateOptions.Arguments(c);
  }

  /**
   * `convert` puts the format's raw code at index 2 and the output file at
   * index 4, then the option tokens, and the source image always last.
   */
  lemma ConvertPlacement(image: string, format: ConvertOptions.Format, outFile: string,
                         opts: seq<ConvertOptions.ConvertImageOption>)
    ensures var r := Arguments(Convert(image, format, outFile, opts));
      |r| == |ConvertOptions.Arguments(opts)| + 6
      && r[..5] == ["convert", "-format", ConvertOptions.FormatRaw(format), "-o", outFile]
      && r[5..|r| - 1] == ConvertOptions.Arguments(opts)
      && r[|r| - 1] == image
  {
    var r := Arguments(Convert(image, format, outFile, opts));
    assert r[5..|r| - 1] == ConvertOptions.Arguments(opts);
  }

  /**
   * `resize` and `udifrez` put one token per option after the verb and the
   * image last.
   */
  lemma ImageLast(image: string, rs: seq<ResizeOptions.ResizeImageOption>,
                  us: seq<UdifrezOptions.UdifrezOption>)
    ensures var r := Arguments(Resize(image, rs));
      |r| == |rs| + 2 && r[0] == "resize" && r[1..|r| - 1] == ResizeOptions.Arguments(rs) && r[|r| - 1] == image
    ensures var r := Arguments(Udifrez(image, us));
      |r| == |us| + 2 && r[0] == "udifrez" && r[1..|r| - 1] == UdifrezOptions.Arguments(us) && r[|r| - 1] == image
  {
    var r, s := Arguments(Resize(image, rs)), Arguments(Udifrez(image, us));
    assert r[1..|r| - 1] == ResizeOptions.Arguments(rs);
    assert s[1..|s| - 1] == UdifrezOptions.Arguments(us);
  }

  // ---------------------------------------------------------------------
  // The display form of a verb

  /**
   * `Verb.stringValue`: one line for a shell. Operands are wrapped in
   * double quotes (without escaping) and the options are shown by their
   * lists' display forms; the literal spaces are kept even when an option
   * list is empty.
   */
  function StringValue(v: Verb): (r: string)
    ensures Split(r, " ")[0] == Arguments(v)[0]
  {
    match v
    case Help =>
      OneWord("help");
      "help"
    case Attach(image, opts) =>
      FirstOfThree("attach", Quote(image), AttachOptions.StringValue(opts));
      "attach" + " " + Quote(image) + " " + AttachOptions.StringValue(opts)
    case Detach(devName, force) =>
      FirstOfThree("detach", Quote(devName), if force then "-force" else "");
      "detach" + " " + Quote(devName) + " " + (if force then "-force" else "")
    case Create(image, opts) =>
      FirstOfThree("create", Quote(image), CreateOptions.StringValue(opts));
      "create" + " " + Quote(image) + " " + CreateOptions.StringValue(opts)
    case Convert(image, format, outFile, opts) =>
      FirstOfConvert("convert", "-format", ConvertOptions.FormatRaw(format), "-o", Quote(outFile),
                     ConvertOptions.StringValue(opts), Quote(image));
      "convert" + " " + "-format" + " " + ConvertOptions.FormatRaw(format) + " " + "-o" + " " + Quote(outFile) + " "
      + ConvertOptions.StringValue(opts) + " " + Quote(image)
    case Info(opts) =>
      SplitFirstWord("info", InfoOptions.StringValue(opts), ' ');
      "info" + " " + InfoOptions.StringValue(opts)
    case Resize(image, opts) =>
      FirstOfThree("resize", ResizeOptions.StringValue(opts), Quote(image));
      "resize" + " " + ResizeOptions.StringValue(opts) + " " + Quote(image)
    case Udifrez(image, opts) =>
      FirstOfThree("udifrez", UdifrezOptions.StringValue(opts), Quote(image));
      "udifrez" + " " + UdifrezOptions.StringValue(opts) + " " + Quote(image)
  }

  /** A word without spaces is the first space-separated piece of itself. */
  lemma OneWord(w: string)
    requires ' ' !in w
    ensures Split(w, " ")[0] == w
  {
    ContainsCharIff(w, ' ');
    SplitAbsent(w, " ");
  }

  /** A word without spaces comes first among the space-separated pieces of it and two more texts. */
  lemma FirstOfThree(w: string, a: string, b: string)
    requires ' ' !in w
    ensures Split(w + " " + a + " " + b, " ")[0] == w
  {
    assert w + " " + a + " " + b == w + [' '] + (a + " " + b);
    SplitFirstWord(w, a + " " + b, ' ');
  }

  /** The same, for the seven space-separated parts of `convert`'s display form. */
  lemma FirstOfConvert(w: string, a: string, b: string, c: string, d: string, e: string, f: string)
    requires ' ' !in w
    ensures Split(w + " " + a + " " + b + " " + c + " " + d + " " + e + " " + f, " ")[0] == w
  {
    var rest := a + " " + b + " " + c + " " + d + " " + e + " " + f;
    assert w + " " + a + " " + b + " " + c + " " + d + " " + e + " " + f == w + [' '] + rest;
    SplitFirstWord(w, rest, ' ');
  }

  /** Joining `x`, `y` and a non-empty rest with spaces. */
  lemma JoinTwoThen(x: string, y: string, rest: seq<string>)
    requires rest != []
    ensures Join([x, y] + rest, " ") == x + " " + y + " " + Join(rest, " ")
  {
    assert [x, y] + rest == [x] + ([y] + rest);
    JoinCons(y, rest, " ");
    JoinCons(x, [y] + rest, " ");
  }

  /** A word, the display form of non-empty tokens and a last item, joined by spaces. */
  lemma DisplayAround(x: string, tokens: seq<string>, z: string)
    requires tokens != []
    ensures x + " " + DisplayString(tokens, FlagBare) + " " + z
         == Join([x] + Shown(tokens, FlagBare) + [z], " ")
  {
    var mid := Shown(tokens, FlagBare);
    JoinAppend([x] + mid, [z], " ");
    JoinCons(x, mid, " ");
  }

  /**
   * With option tokens present, the display form of `attach` is its
   * argument vector shown token by token and joined by single spaces: the
   * verb bare, the image quoted, and each option token as the option list
   * shows it.
   */
  lemma AttachDisplay(image: string, a: seq<AttachOptions.AttachImageOption>)
    requires a != []
    ensures StringValue(Attach(image, a))
         == Join(["attach", Quote(image)] + Shown(AttachOptions.Arguments(a), FlagBare), " ")
  {
    JoinTwoThen("attach", Quote(image), Shown(AttachOptions.Arguments(a), FlagBare));
  }

  /** The same for `create`, whose list quotes `-c `-led values too. */
  lemma CreateDisplay(image: string, c: seq<CreateOptions.CreateImageOption>)
    requires CreateOptions.Arguments(c) != []
    ensures StringValue(Create(image, c))
         == Join(["create", Quote(image)] + Shown(CreateOptions.Arguments(c), CreateOptions.CreateBare), " ")
  {
    JoinTwoThen("create", Quote(image), Shown(CreateOptions.Arguments(c), CreateOptions.CreateBare));
  }

  /**
   * With options present, the display form of `resize` is the verb, each
   * option token as the list shows it, and the quoted image last.
   */
  lemma ResizeDisplay(image: string, rs: seq<ResizeOptions.ResizeImageOption>)
    requires rs != []
    ensures StringValue(Resize(image, rs))
         == Join(["resize"] + Shown(ResizeOptions.Arguments(rs), FlagBare) + [Quote(image)], " ")
  {
    var args := ResizeOptions.Arguments(rs);
    assert |args| == |rs|;
    var shown := ResizeOptions.StringValue(rs);
    assert StringValue(Resize(image, rs)) == "resize" + " " + shown + " " + Quote(image);
    assert shown == DisplayString(args, FlagBare);
    DisplayAround("resize", args, Quote(image));
  }

  /** The same for `udifrez`, whose tokens are all flags and so all bare. */
  lemma UdifrezDisplay(image: string, us: seq<UdifrezOptions.UdifrezOption>)
    requires us != []
    ensures StringValue(Udifrez(image, us))
         == Join(["udifrez"] + UdifrezOptions.Arguments(us) + [Quote(image)], " ")
  {
    var args := UdifrezOptions.Arguments(us);
    assert |args| == |us|;
    UdifrezOptions.StringValueIsJoin(us);
    DisplayAllBare(args);
    DisplayAround("udifrez", args, Quote(image));
  }

  lemma DisplayAllBare(tokens: seq<string>)
    requires forall i :: 0 <= i < |tokens| ==> StartsWith(tokens[i], "-")
    ensures Shown(tokens, FlagBare) == tokens
  {
  }

  /**
   * With options present, the display form of `convert` is its argument
   * vector shown token by token: the verb, the flags and the format bare,
   * the output file and the image quoted.
   */
  lemma ConvertDisplay(image: string, format: ConvertOptions.Format, outFile: string,
                       cs: seq<ConvertOptions.ConvertImageOption>)
    requires cs != []
    ensures StringValue(Convert(image, format, outFile, cs))
         == Join(["convert", "-format", ConvertOptions.FormatRaw(format), "-o", Quote(outFile)]
                 + Shown(ConvertOptions.Arguments(cs), FlagBare) + [Quote(image)], " ")
  {
    var head := ["convert", "-format", ConvertOptions.FormatRaw(format), "-o", Quote(outFile)];
    var sc := Shown(ConvertOptions.Arguments(cs), FlagBare);
    JoinAppend(head + sc, [Quote(image)], " ");
    JoinAppend(head, sc, " ");
    ConvertHead(ConvertOptions.FormatRaw(format), Quote(outFile));
  }

  lemma ConvertHead(raw: string, out: string)
    ensures Join(["convert", "-format", raw, "-o", out], " ")
         == "convert" + " " + "-format" + " " + raw + " " + "-o" + " " + out
  {
    var h := ["convert", "-format", raw, "-o", out];
    assert h == ["convert", "-format"] + [raw, "-o", out];
    JoinTwoThen("convert", "-format", [raw, "-o", out]);
    assert [raw, "-o", out] == [raw] + ["-o", out];
    JoinCons(raw, ["-o", out], " ");
    JoinCons("-o", [out], " ");
  }

  /** An empty attach list leaves the literal trailing space. */
  lemma AttachTrailingSpace(image: string)
    ensures StringValue(Attach(image, [])) == "attach" + " " + Quote(image) + " "
  {
    assert AttachOptions.Arguments([]) == [];
  }

  /** An unforced detach leaves the literal trailing space. */
  lemma DetachTrailingSpace(dev: string)
    ensures StringValue(Detach(dev, false)) == "detach" + " " + Quote(dev) + " "
  {
  }

  /** An empty convert list leaves two spaces before the image. */
  lemma ConvertDoubleSpace(image: string, format: ConvertOptions.Format, outFile: string)
    ensures StringValue(Convert(image, format, outFile, []))
         == "convert" + " " + "-format" + " " + ConvertOptions.FormatRaw(format) + " " + "-o" + " "
            + Quote(outFile) + " " + " " + Quote(image)
  {
    assert ConvertOptions.Arguments([]) == [];
  }


  // ---------------------------------------------------------------------
  // create's image path

  /**
   * The image path `create` asks for: the image under `desPath`, with a
   * `/` added only when `desPath` does not already end in one, or the
   * image itself when no directory is given.
   */
  function CreateImagePath(image: string, desPath: Option<string>): (r: string)
    ensures desPath.None? ==> r == image
    ensures desPath.Some? ==> StartsWith(r, desPath.value) && EndsWith(r, image)
    ensures desPath.Some? ==> EndsWith(r[..|r| - |image|], "/")
    ensures desPath.Some? ==> |r| - |image| - |desPath.value| == (if EndsWith(desPath.value, "/") then 0 else 1)
  {
    match desPath
    case None => image
    case Some(dir) =>
      var r := if EndsWith(dir, "/") then dir + image else dir + "/" + image;
      assert r[..|dir|] == dir && r[|r| - |image|..] == image;
      assert EndsWith(dir, "/") ==> r[..|r| - |image|] == dir;
      assert !EndsWith(dir, "/") ==> r[..|r| - |image|] == dir + "/";
      r
  }

  /** The separator is never doubled: a directory with or without its trailing `/` gives the same path. */
  lemma CreateImagePathSlashOnce(image: string, dir: string)
    requires !EndsWith(dir, "/")
    ensures CreateImagePath(image, Some(dir + "/")) == CreateImagePath(image, Some(dir))
  {
    assert (dir + "/")[|dir + "/"| - 1..] == "/";
  }

  // ---------------------------------------------------------------------
  // The AppleScript text

  /** Every `"` in `t` is preceded by a backslash. */
  predicate QuotesEscaped(t: string) {
    forall i :: 0 <= i < |t| && t[i] == '"' ==> i > 0 && t[i - 1] == '\\'
  }

  /** `command.replacingOccurrences(of: "\"", with: "\\\"")`: backslashes are left as they are. */
  function Escape(s: string): (r: string)
    ensures QuotesEscaped(r)
    ensures |r| >= |s|
  {
    if s == [] then []
    else
      var head := if s[0] == '"' then EscapedQuote else [s[0]];
      var r := head + Escape(s[1..]);
      assert forall i :: |head| <= i < |r| ==> r[i] == Escape(s[1..])[i - |head|];
      r
  }

  /** A backslash and a quote: how a `"` is written inside an AppleScript string. */
  const EscapedQuote := ['\\', '"']

  /**
   * The text an AppleScript string literal stands for, for a body whose
   * only escapes are `\"` and `\\`.
   */
  function LiteralValue(t: string): string
    decreases |t|
  {
    if t == [] then []
    else if |t| >= 2 && t[0] == '\\' && (t[1] == '"' || t[1] == '\\') then [t[1]] + LiteralValue(t[2..])
    else [t[0]] + LiteralValue(t[1..])
  }

  lemma LiteralEscapedQuote(b: string)
    ensures LiteralValue(EscapedQuote + b) == "\"" + LiteralValue(b)
  {
    assert (EscapedQuote + b)[2..] == b;
  }

  lemma LiteralPlain(c: char, b: string)
    requires c != '\\'
    ensures LiteralValue([c] + b) == [c] + LiteralValue(b)
  {
    assert ([c] + b)[1..] == b;
  }

  /**
   * Escaping is undone by AppleScript's reading of the literal, provided the
   * command holds no backslash (backslashes are not escaped).
   */
  lemma {:induction false} EscapeRoundTrip(s: string)
    requires '\\' !in s
    ensures LiteralValue(Escape(s)) == s
  {
    if s != [] {
      EscapeRoundTrip(s[1..]);
      if s[0] == '"' {
        LiteralEscapedQuote(Escape(s[1..]));
      } else {
        LiteralPlain(s[0], Escape(s[1..]));
      }
      assert s == [s[0]] + s[1..];
    }
  }

  /** Text without backslashes reads as itself, whatever follows it. */
  lemma {:induction false} LiteralAppend(a: string, b: string)
    requires '\\' !in a
    ensures LiteralValue(a + b) == a + LiteralValue(b)
    decreases |a|
  {
    if a == [] {
      assert a + b == b;
    } else {
      assert a + b == [a[0]] + (a[1..] + b);
      LiteralPlain(a[0], a[1..] + b);
      LiteralAppend(a[1..], b);
      assert a == [a[0]] + a[1..];
    }
  }

  const ScriptPrefix := "do shell script \""
  const HdiutilPath := "/usr/bin/hdiutil "
  const CdCommand := "cd "
  const AndThen := " && "

  /** The shell commands the script runs: an optional `cd` into the path, then hdiutil. */
  function ShellParts(command: string, path: Option<string>): (r: seq<string>)
    ensures |r| == (if path.Some? then 2 else 1)
    ensures StartsWith(r[|r| - 1], HdiutilPath) && QuotesEscaped(r[|r| - 1][|HdiutilPath|..])
    ensures path.Some? ==> StartsWith(r[0], CdCommand)
  {
    (if path.Some? then [CdCommand + EscapedQuote + path.value + EscapedQuote] else [])
    + [HdiutilPath + Escape(command)]
  }

  /** The AppleScript source `runHDIUtilViaAppleScript` compiles. */
  function ScriptText(command: string, path: Option<string>): (r: string)
    ensures |r| == |ScriptPrefix| + |Join(ShellParts(command, path), AndThen)| + 1
    ensures StartsWith(r, ScriptPrefix) && r[|r| - 1] == '"'
    ensures r[|ScriptPrefix|..|r| - 1] == Join(ShellParts(command, path), AndThen)
  {
    var r := ScriptPrefix + Join(ShellParts(command, path), AndThen) + "\"";
    assert r[..|ScriptPrefix|] == ScriptPrefix;
    assert r[|ScriptPrefix|..|r| - 1] == Join(ShellParts(command, path), AndThen);
    r
  }

  /** The shell command a script stands for, as a shell receives it. */
  function ShellCommand(command: string, path: Option<string>): string
  {
    (if path.Some? then CdCommand + "\"" + path.value + "\"" + AndThen else "") + (HdiutilPath + command)
  }

  /**
   * The body of the script's string literal stands for `cd "<path>" && `
   * (when a path is given) followed by `/usr/bin/hdiutil ` and the command,
   * provided neither holds a backslash and the path holds no `"` (the path
   * is not escaped).
   */
  lemma ScriptRunsCommand(command: string, path: Option<string>)
    requires '\\' !in command
    requires path.Some? ==> '\\' !in path.value && '"' !in path.value
    ensures LiteralValue(Join(ShellParts(command, path), AndThen)) == ShellCommand(command, path)
  {
    var run := HdiutilPath + Escape(command);
    RunPart(command);
    match path
    case None =>
      assert ShellParts(command, path) == [run];
    case Some(p) =>
      assert ShellParts(command, path) == [CdCommand + EscapedQuote + p + EscapedQuote, run];
      CdThenRun(p, run, HdiutilPath + command);
  }

  /** A `cd` part followed by a part that reads as `text`. */
  lemma CdThenRun(p: string, run: string, text: string)
    requires '\\' !in p && LiteralValue(run) == text
    ensures LiteralValue(Join([CdCommand + EscapedQuote + p + EscapedQuote, run], AndThen))
         == CdCommand + "\"" + p + "\"" + AndThen + text
  {
    var cd := CdCommand + EscapedQuote + p + EscapedQuote;
    JoinCons(cd, [run], AndThen);
    assert [cd, run] == [cd] + [run];
    assert cd + AndThen + Join([run], AndThen) == cd + (AndThen + run);
    CdPart(p, AndThen + run);
    LiteralAppend(AndThen, run);
  }

  lemma RunPart(command: string)
    requires '\\' !in command
    ensures LiteralValue(HdiutilPath + Escape(command)) == HdiutilPath + command
  {
    LiteralAppend(HdiutilPath, Escape(command));
    EscapeRoundTrip(command);
  }

  lemma CdPart(p: string, rest: string)
    requires '\\' !in p
    ensures LiteralValue(CdCommand + EscapedQuote + p + EscapedQuote + rest)
         == CdCommand + "\"" + p + "\"" + LiteralValue(rest)
  {
    assert CdCommand + EscapedQuote + p + EscapedQuote + rest
        == CdCommand + (EscapedQuote + (p + (EscapedQuote + rest)));
    LiteralAppend(CdCommand, EscapedQuote + (p + (EscapedQuote + rest)));
    LiteralEscapedQuote(p + (EscapedQuote + rest));
    LiteralAppend(p, EscapedQuote + rest);
    LiteralEscapedQuote(rest);
  }


  // ---------------------------------------------------------------------
  // Running a verb

  /**
   * What a finished `/usr/bin/hdiutil` process left behind: the bytes it
   * wrote to standard error, those bytes decoded as UTF-8 (`None` when they
   * are not valid UTF-8), and standard output decoded likewise.
   */
  datatype Capture = Capture(errData: seq<bv8>, errText: Option<string>, outText: Option<string>)

  /**
   * Reading a finished process: any byte on standard error throws a process
   * error carrying the decoded text; otherwise the result is standard
   * output, or the empty string when it does not decode.
   */
  function DirectResult(c: Capture): (r: Result<string, HdiutilError>)
    ensures r.Failure? <==> |c.errData| > 0
    ensures r.Failure? ==> r.error == ProcessError(c.errText)
    ensures r.Success? ==> r.value == c.outText.GetOr("")
  {
    if |c.errData| > 0 then Failure(ProcessError(c.errText))
    else Success(c.outText.GetOr(""))
  }

  /** Standard error wins: with the same non-empty error bytes, standard output does not matter. */
  lemma StderrDecides(c: Capture, d: Capture)
    requires |c.errData| > 0 && c.errData == d.errData && c.errText == d.errText
    ensures DirectResult(c) == DirectResult(d) == Failure(ProcessError(c.errText))
  {
  }

  /**
   * What running the script gave: `NSAppleScript(source:)` returned nil, or
   * `executeAndReturnError` failed (to compile or to run the script) with a
   * described error, or it returned a value.
   */
  datatype ScriptOutcome =
    | NotCreated
    | ExecutionFailed(described: string)
    | Returned(value: Option<string>)

  /** Reading the script's outcome: its string value, or the empty string when it has none. */
  function BridgedResult(o: ScriptOutcome): (r: Result<string, HdiutilError>)
    ensures r.Failure? <==> !o.Returned?
    ensures o.NotCreated? ==> r == Failure(InvalidAppleScriptText)
    ensures o.ExecutionFailed? ==> r == Failure(Unexpected(o.described))
    ensures o.Returned? ==> r == Success(o.value.GetOr(""))
  {
    match o
    case NotCreated => Failure(InvalidAppleScriptText)
    case ExecutionFailed(described) => Failure(Unexpected(described))
    case Returned(value) => Success(value.GetOr(""))
  }

  /**
   * The world a call runs in: whether the library takes the AppleScript
   * route, the process runner for `/usr/bin/hdiutil`, and the AppleScript
   * runner.
   */
  datatype Host = Host(sandboxed: bool, spawn: seq<string> -> Capture, bridge: string -> ScriptOutcome)

  /**
   * `run(verb:path:)`: directly with the argument vector, or through
   * AppleScript with the display form and the working path.
   */
  function Run(host: Host, v: Verb, path: Option<string>): (r: Result<string, HdiutilError>)
    ensures r.Failure? ==> r.error.ProcessError? || r.error.InvalidAppleScriptText? || r.error.Unexpected?
    ensures !host.sandboxed ==> r == DirectResult(host.spawn(Arguments(v)))
    ensures host.sandboxed ==> r == BridgedResult(host.bridge(ScriptText(StringValue(v), path)))
  {
    if host.sandboxed then BridgedResult(host.bridge(ScriptText(StringValue(v), path)))
    else DirectResult(host.spawn(Arguments(v)))
  }

  /** The direct route ignores the working path: only the AppleScript route changes directory. */
  lemma DirectIgnoresPath(host: Host, v: Verb, p: Option<string>, q: Option<string>)
    requires !host.sandboxed
    ensures Run(host, v, p) == Run(host, v, q)
  {
  }

  // ---------------------------------------------------------------------
  // attach and create

  /**
   * `attach(image:options:)`: runs the verb and reads its output; output
   * that does not parse throws `attachError(.invalidOutput)`, and a failed
   * run passes its error on.
   */
  function AttachImage(host: Host, image: string, opts: seq<AttachOptions.AttachImageOption>,
                       parse: string -> Option<URL>): (r: Result<AttachOutput, HdiutilError>)
    ensures var run := Run(host, Attach(image, opts), None);
      (run.Failure? ==> r == Failure(run.error))
      && (run.Success? ==> r.Success? == ParseAttach(run.value, parse).Some?)
      && (r.Success? ==> run.Success? && r.value == ParseAttach(run.value, parse).value)
    ensures r == Failure(AttachError(InvalidAttachOutput)) <==>
      Run(host, Attach(image, opts), None).Success?
      && ParseAttach(Run(host, Attach(image, opts), None).value, parse).None?
  {
    match Run(host, Attach(image, opts), None)
    case Failure(e) => Failure(e)
    case Success(output) =>
      match ParseAttach(output, parse)
      case None => Failure(AttachError(InvalidAttachOutput))
      case Some(o) => Success(o)
  }

  /**
   * `create(image:to:options:)`: creates the image at its joined path,
   * running in `desPath`; output that does not parse throws
   * `createError(.invalidOutput)`, and a failed run passes its error on.
   */
  function CreateImage(host: Host, image: string, desPath: Option<string>,
                       opts: seq<CreateOptions.CreateImageOption>,
                       parse: string -> Option<URL>): (r: Result<CreateOutput, HdiutilError>)
    ensures var run := Run(host, Create(CreateImagePath(image, desPath), opts), desPath);
      (run.Failure? ==> r == Failure(run.error))
      && (run.Success? ==> r.Success? == ParseCreate(run.value, parse).Some?)
      && (r.Success? ==> run.Success? && r.value == ParseCreate(run.value, parse).value)
    ensures r == Failure(CreateError(InvalidCreateOutput)) <==>
      var run := Run(host, Create(CreateImagePath(image, desPath), opts), desPath);
      run.Success? && ParseCreate(run.value, parse).None?
  {
    match Run(host, Create(CreateImagePath(image, desPath), opts), desPath)
    case Failure(e) => Failure(e)
    case Success(output) =>
      match ParseCreate(output, parse)
      case None => Failure(CreateError(InvalidCreateOutput))
      case Some(o) => Success(o)
  }

  /**
   * When hdiutil reports `created: <path>` for the joined path, the created
   * path read back is the path asked for (the directory and image holding
   * no colon and no newline).
   */
  lemma CreateReadsBackJoinedPath(image: string, dir: string)
    requires ':' !in image && '\n' !in image && ':' !in dir && '\n' !in dir
    ensures CreatedPath("created: " + CreateImagePath(image, Some(dir)) + "\n") == CreateImagePath(image, Some(dir))
  {
    var p := CreateImagePath(image, Some(dir));
    assert p == dir + image || p == dir + "/" + image;
    assert ':' !in p && '\n' !in p;
    CreatedLine(p);
  }

  // ---------------------------------------------------------------------
  // configure

  /** `hdiutilClass.ConfigOption` */
  datatype ConfigOption = Log(enabled: bool)

  /**
   * The `log` setting after applying `options` in order to `log`: the old
   * setting or the value of one of the options, never anything else.
   */
  function Configured(options: seq<ConfigOption>, log: bool): (r: bool)
    ensures r == log || exists i :: 0 <= i < |options| && options[i] == Log(r)
  {
    if options == [] then log else Configured(options[1..], options[0].enabled)
  }

  /** The last `.log` option decides; with none, the setting is unchanged. */
  lemma {:induction false} ConfiguredLastWins(options: seq<ConfigOption>, log: bool)
    ensures Configured(options, log) == if options == [] then log else options[|options| - 1].enabled
  {
    if options != [] {
      ConfiguredLastWins(options[1..], options[0].enabled);
    }
  }

  /** Configuring twice is configuring once with both lists in order. */
  lemma {:induction false} ConfiguredCompose(a: seq<ConfigOption>, b: seq<ConfigOption>, log: bool)
    ensures Configured(a + b, log) == Configured(b, Configured(a, log))
    decreases |a|
  {
    if a == [] {
      assert a + b == b;
    } else {
      assert (a + b)[0] == a[0] && (a + b)[1..] == a[1..] + b;
      ConfiguredCompose(a[1..], b, a[0].enabled);
    }
  }

  /** `hdiutilClass`: the one piece of state the library keeps is its `log` switch. */
  class HdiutilClass {
    var log: bool

    constructor()
      ensures !log
    {
      log := false;
    }

    /** `configure(options:)`: applies each option in order. */
    method Configure(options: seq<ConfigOption>)
      modifies this
      ensures log == Configured(options, old(log))
      ensures log == if options == [] then old(log) else options[|options| - 1].enabled
    {
      for i := 0 to |options|
        invariant log == Configured(options[..i], old(log))
      {
        ConfiguredCompose(options[..i], [options[i]], old(log));
        assert options[..i + 1] == options[..i] + [options[i]];
        match options[i]
        case Log(enabled) =>
          log := enabled;
      }
      assert options[..|options|] == options;
      ConfiguredLastWins(options, old(log));
    }
  }
}

# hdiutil command construction and output parsing

A Dafny model of the Swift library `hdiutil`. The library wraps macOS's
`/usr/bin/hdiutil` disk-image tool. It has four parts, and each is modelled here.

- **Per-verb option serialisers.** Each verb (`create`, `attach`, `convert`,
  `resize`, `info`, `udifrez`) has a closed enum of options.
  - An `arguments` rendering maps an ordered option list to the argument tokens handed to the tool.
  - A `stringValue` display form quotes the tokens that are not flags and joins them with spaces.
  - The common options and `[HDIUtilOptions].stringValue` belong here too.
- **The verb layer** (`hdiutilClass.Verb`). It fixes where each verb's operands sit among its tokens. Around it:
  - the one-line display form used on the AppleScript route;
  - the path join of `create`;
  - the `do shell script` text with its quote escaping;
  - the dispatch between running the tool directly and running it through AppleScript;
  - the reading of a finished process, where any byte on standard error makes it a process error;
  - the parse-or-throw wrappers of `attach` and `create`;
  - the `configure` loop that sets the library's one mutable field, `log`.
- **Output parsers.** `AttachOutput.init?` reads a device node and a mount point from the tool's output, and `CreateOutput.init?` reads the created image path.
- **The error taxonomy.** `hdiutilError` and its `errorDescription`.

Files:

| file | module | contents |
|---|---|---|
| `wrappers.dfy` | `Wrappers` | `Option`, `Result` |
| `strings.dfy` | `Strings` | `joined(separator:)`, `components(separatedBy:)`, `replacingOccurrences`, decimal interpolation, quoting, `map`/`flatMap` over option lists |
| `url.dfy` | `Url` | the `URL` value (its construction is a parameter) |
| `hdiutil_options.dfy` | `CommonOptions`, `OptionLists` | common options, `CryptoMethod`, `[HDIUtilOptions].stringValue` |
| `create_options.dfy` | `CreateOptions` | `CreateImageOption`, `Size`, raw values, rendering |
| `attach_options.dfy` | `AttachOptions` | `AttachImageOption`, `MontOption`, rendering |
| `convert_options.dfy` | `ConvertOptions` | `ConvertImageOption`, `Format`, rendering |
| `resize_options.dfy` | `ResizeOptions` | `ResizeImageOption`, `SectorsOptions`, rendering |
| `info_options.dfy` | `InfoOptions` | `InfoOption`, rendering |
| `udifrez_options.dfy` | `UdifrezOptions` | `UDIFrezOption`, rendering |
| `errors.dfy` | `Errors` | `hdiutilError`, `AttachError`, `CreateError`, descriptions |
| `outputs.dfy` | `Outputs` | `AttachOutput.init?`, `CreateOutput.init?` |
| `hdiutil.dfy` | `Hdiutil` | `Verb`, the path join, the AppleScript text, `run`, `attach`, `create`, `configure` |

How the world outside the library is represented:

- `URL(string:)` is a parameter `parse: string -> Option<URL>` of the parsers, so URL construction stays uninterpreted.
- Running a process and running AppleScript are parameters of a `Host` value.
  - `spawn` maps an argument vector to the captured standard error bytes, their UTF-8 decoding and the decoded standard output.
  - `bridge` maps script text to "`NSAppleScript(source:)` returned nil", "failed to compile or run, with a described error" or "returned a value".
- `isSandbox` is a `Host.sandboxed` flag. The library hard-wires it to `false` (`hdiutil.swift:10-12`), so as shipped every call takes the direct route.

The library's quirks are modelled as written:

- `.size` has no `-size` flag.
- `autostretch` and `copyuid` have no dash.
- `mount(.required)` emits a bare `required`.
- The sector minimum is misspelled `-secotrs min`.
- Resize and udifrez tokens embed a space.
- `create` also quotes tokens that start with `-c `.
- The verb display form keeps its literal spaces when an option list is empty.
- The AppleScript builder escapes quotes but not backslashes, and does not escape the `cd` path.

The parsers cannot fail on a missing separator, because splitting always yields at least one piece. Only URL construction can make them return nil, and the model follows the code in this. A failed AppleScript execution is reported as `unexpected` carrying the error, as the code does, not as a process error.

## Model

| member | source | states |
|---|---|---|
| CommonOptions.CryptoRawValue | Sources/hdiutil/Options/hdiutilOptions.swift:56-61 | A crypto method's raw value is seven characters and starts with `AES-`. |
| CommonOptions.CryptoRawValues | Sources/hdiutil/Options/hdiutilOptions.swift:56-61 | The raw values are exactly `AES-128` and `AES-256`. Decoding a raw value gives the method back, and nothing else decodes. |
| CommonOptions.CommonToken | Sources/hdiutil/Options/hdiutilOptions.swift:19-26 | Every common option renders as a dash-led flag. |
| OptionLists.Commons | Sources/hdiutil/Options/hdiutilOptions.swift:18 | Filtering the common options out of a mixed list never lengthens it. |
| OptionLists.CommonTokens | Sources/hdiutil/Options/hdiutilOptions.swift:16-29 | The loop collects at most one token per option, and every collected token is a dash-led flag. |
| OptionLists.CommonsAppend | Sources/hdiutil/Options/hdiutilOptions.swift:18 | The filter distributes over concatenation, so order is kept. |
| OptionLists.CommonTokensFilterMap | Sources/hdiutil/Options/hdiutilOptions.swift:16-29 | The loop's tokens are the common options filtered out, then each mapped to its flag. |
| OptionLists.CommonTokensAppend | Sources/hdiutil/Options/hdiutilOptions.swift:16-29 | The tokens of a concatenation are the tokens of each part, in order. |
| OptionLists.StringValue | Sources/hdiutil/Options/hdiutilOptions.swift:15-30 | The appending loop returns the common options' flags, in input order, joined by single spaces. |
| OptionLists.OnlyCommonOptionsCount | Sources/hdiutil/Options/hdiutilOptions.swift:16-29 | A list with no common option yields the empty string. Lists with the same common options give the same tokens, whatever else they hold. |
| OptionLists.NoCommons | Sources/hdiutil/Options/hdiutilOptions.swift:18 | A list without common options filters to nothing. |
| OptionLists.CommonFlags | Sources/hdiutil/Options/hdiutilOptions.swift:19-26 | `verbose`, `quiet` and `debug` render as `-verbose`, `-quiet` and `-debug`. |
| CreateOptions.SizeString | Sources/hdiutil/Options/CreateImageOptions.swift:238-255 | A size is its decimal magnitude followed immediately by one unit letter from `bkmgtpe`, with no space. |
| CreateOptions.SizeRoundTrip | Sources/hdiutil/Options/CreateImageOptions.swift:238-255 | Reading a size token back gives the size: no two sizes render alike. |
| CreateOptions.ImageTypeRaw | Sources/hdiutil/Options/CreateImageOptions.swift:260-269 | An image type's raw value starts with an upper-case letter, so it is never dash-led. |
| CreateOptions.FileSystemRaw | Sources/hdiutil/Options/CreateImageOptions.swift:271-284 | A file system's raw value starts with an upper-case letter, so it is never dash-led. |
| CreateOptions.LayoutRaw | Sources/hdiutil/Options/CreateImageOptions.swift:290-307 | A layout's raw value starts with an upper-case letter, and it holds a space exactly for `UNIVERSAL CD` and `UNIVERSAL HD`. |
| CreateOptions.FormatRaw | Sources/hdiutil/Options/CreateImageOptions.swift:313-346 | A format's raw value starts with an upper-case letter, so it is never dash-led. |
| CreateOptions.RawValuesInjective | Sources/hdiutil/Options/CreateImageOptions.swift:260-346 | Distinct cases of `ImageType`, `FileSystem`, `Layout` and `Format` have distinct raw values. |
| CreateOptions.OptionTokens | Sources/hdiutil/Options/CreateImageOptions.swift:352-438 | Each option yields at most two tokens, and none exactly when it is `segmentSize`. |
| CreateOptions.Arguments | Sources/hdiutil/Options/CreateImageOptions.swift:351-440 | A list renders to at most two tokens per option. |
| CreateOptions.SegmentSizeContributesNothing | Sources/hdiutil/Options/CreateImageOptions.swift:402-403 | Inserting `segmentSize` anywhere leaves the tokens unchanged. |
| CreateOptions.SizeIsOneBareToken | Sources/hdiutil/Options/CreateImageOptions.swift:354-355 | `.size` is one token with no `-size` flag, and with a non-negative magnitude it is not dash-led. |
| CreateOptions.EnumOptionsUseRawValues | Sources/hdiutil/Options/CreateImageOptions.swift:372-401 | `-type`, `-fs`, `-layout` and `-format` are followed by the case's raw value, e.g. `HFS+` and `UDZO`. |
| CreateOptions.NegatableFlags | Sources/hdiutil/Options/CreateImageOptions.swift:404-409 | `crossDev`, `scrub` and `anyowners` render as `-name` when true and `-noname` when false. |
| CreateOptions.DashlessOptions | Sources/hdiutil/Options/CreateImageOptions.swift:384-413 | `autoStretch` renders as `autostretch`/`noautostretch`, and `copyUID` as `copyuid` then the user. Neither starts with a dash. |
| CreateOptions.KeyValueOptions | Sources/hdiutil/Options/CreateImageOptions.swift:422-427 | `imageKey` and `tgtimageKey` render as the flag then `key=value`. `pubKey` renders as `-pubkey` then all keys in one space-joined token. |
| CreateOptions.StringValue | Sources/hdiutil/Options/CreateImageOptions.swift:442-453 | The display form is empty exactly when every option is `segmentSize`, the one option with no tokens. |
| CreateOptions.StringValueQuoting | Sources/hdiutil/Options/CreateImageOptions.swift:442-453 | A displayed token is bare exactly when it is dash-led and does not start with `-c `, quoted otherwise, and unquotes to the argument token. The display form is these joined by spaces. |
| CreateOptions.FsargsShown | Sources/hdiutil/Options/CreateImageOptions.swift:388-389 | `fsargs` shows its flag bare and its value bare or quoted by create's rule. |
| CreateOptions.FsargsValueQuoted | Sources/hdiutil/Options/CreateImageOptions.swift:446 | `fsargs("-c c=64,a=16,e=16")` shows its value quoted although it starts with a dash. |
| AttachOptions.OptionTokens | Sources/hdiutil/Options/AttachImageOptions.swift:193-264 | Each option yields one or two tokens. |
| AttachOptions.MountRaw | Sources/hdiutil/Options/AttachImageOptions.swift:185-186 | A mount option's raw value is `required`, `optional` or `suppressed`: a lower-case word, never dash-led. |
| AttachOptions.Negatable | Sources/hdiutil/Options/AttachImageOptions.swift:219-236 | A negatable flag is dash-led, longer than its name and ends with the name. |
| AttachOptions.Arguments | Sources/hdiutil/Options/AttachImageOptions.swift:191-193 | A list of n options renders to between n and 2n tokens. |
| AttachOptions.NegatableSpelling | Sources/hdiutil/Options/AttachImageOptions.swift:219-236 | The enabled spelling is a dash then the name; the disabled spelling is `-no` then the name. |
| AttachOptions.NegatableFlags | Sources/hdiutil/Options/AttachImageOptions.swift:198-236 | `kernel` and each processing option render as one dash-led token. Disabling inserts `no` after the dash, and the option renders its enabled or disabled spelling as its flag says. |
| AttachOptions.MountTokens | Sources/hdiutil/Options/AttachImageOptions.swift:202-205 | `mount(opt)` renders as the bare raw value (`required`, `optional` or `suppressed`), with no dash. `mount(nil)` renders as `-nomount`. |
| AttachOptions.OwnersToken | Sources/hdiutil/Options/AttachImageOptions.swift:214-215 | `owners` renders as the single token `-owners on` or `-owners off`. |
| AttachOptions.KeyValueOptions | Sources/hdiutil/Options/AttachImageOptions.swift:216-247 | `driveKey` and `imageKey` render as the flag then `key=value`. |
| AttachOptions.PathOptions | Sources/hdiutil/Options/AttachImageOptions.swift:206-211 | `mountRoot`, `mountRandom` and `mountPoint` render as the flag then the path verbatim. |
| AttachOptions.StringValue | Sources/hdiutil/Options/AttachImageOptions.swift:269-279 | The display form is empty exactly when the list is. |
| AttachOptions.StringValueQuoting | Sources/hdiutil/Options/AttachImageOptions.swift:269-279 | A displayed token is bare exactly when it is dash-led, quoted otherwise, and unquotes to the argument token. The display form is these joined by spaces. |
| ConvertOptions.FormatRaw | Sources/hdiutil/Options/ConvertImageOptions.swift:63-99 | Every format's raw code is four upper-case letters. |
| ConvertOptions.FormatRawRoundTrip | Sources/hdiutil/Options/ConvertImageOptions.swift:63-99 | Decoding a raw code gives exactly the format that spells it. |
| ConvertOptions.OptionTokens | Sources/hdiutil/Options/ConvertImageOptions.swift:105-147 | Each option yields one or two tokens, and the first is dash-led. |
| ConvertOptions.Arguments | Sources/hdiutil/Options/ConvertImageOptions.swift:104-149 | A list of n options renders to between n and 2n tokens, and a non-empty one starts with a flag. |
| ConvertOptions.NumericOptions | Sources/hdiutil/Options/ConvertImageOptions.swift:109-116 | `alignment` and `tasks` render as the flag then the decimal value, which reads back as the same integer. |
| ConvertOptions.KeyValueOptions | Sources/hdiutil/Options/ConvertImageOptions.swift:125-130 | `imageKey`, `srcImageKey` and `tgtImageKey` render as the flag then `key=value`. |
| ConvertOptions.VerbatimOptions | Sources/hdiutil/Options/ConvertImageOptions.swift:107-136 | `overwrite` renders as `-ov`. `segmentSize`, `certificate`, `shadow` and `cacert` render as the flag then the string verbatim. |
| ConvertOptions.StringValue | Sources/hdiutil/Options/ConvertImageOptions.swift:151-161 | The display form is empty exactly when the list is. |
| ConvertOptions.StringValueQuoting | Sources/hdiutil/Options/ConvertImageOptions.swift:151-161 | Over any list, a displayed token is bare exactly when it is dash-led, quoted otherwise, and unquotes to the argument token; the display form is these joined by spaces. A one-option list shows its flag bare, and a negative alignment shows its value bare. |
| ResizeOptions.OptionToken | Sources/hdiutil/Options/ResizeImageOptions.swift:82-130 | An option's single token is dash-led exactly when the option is not a size with a non-negative magnitude. |
| ResizeOptions.Arguments | Sources/hdiutil/Options/ResizeImageOptions.swift:80-82 | A list renders to exactly one token per option, in order. |
| ResizeOptions.SectorsTokens | Sources/hdiutil/Options/ResizeImageOptions.swift:85-91 | A sector count is the single token `-sectors n`, which splits back into the flag and the decimal count. The minimum is `-secotrs min`, which does not carry `-sectors`. |
| ResizeOptions.PartitionNumberToken | Sources/hdiutil/Options/ResizeImageOptions.swift:96-97 | `partitionNumber(n)` is the single token `-partitionID n`, which splits back into its two parts. |
| ResizeOptions.SizeToken | Sources/hdiutil/Options/ResizeImageOptions.swift:83-84 | A size renders as the bare size token, with no flag. |
| ResizeOptions.EncryptionToken | Sources/hdiutil/Options/ResizeImageOptions.swift:108-109 | `encryption` is one token with an embedded space, which splits back into the flag and the raw method. |
| ResizeOptions.SrcImageKeyToken | Sources/hdiutil/Options/ResizeImageOptions.swift:114-115 | `srcImageKey` is the single token `-srcimagekey key=value`, which splits back when the pair has no space. |
| ResizeOptions.PathTokens | Sources/hdiutil/Options/ResizeImageOptions.swift:116-121 | `shadow` and `cacert` are one token each, which splits back when the path has no space. |
| ResizeOptions.StringValue | Sources/hdiutil/Options/ResizeImageOptions.swift:134-144 | The display form is empty exactly when the list is. |
| ResizeOptions.StringValueQuoting | Sources/hdiutil/Options/ResizeImageOptions.swift:134-144 | A displayed token is quoted exactly when its option is a non-negative size, and unquotes to the token. |
| InfoOptions.OptionToken | Sources/hdiutil/Options/InfoOptions.swift:46-57 | Every info option renders as a dash-led token. |
| InfoOptions.TokenRoundTrip | Sources/hdiutil/Options/InfoOptions.swift:47-56 | Reading a token back gives the option, and `-s` is exactly `simplified`. |
| InfoOptions.Arguments | Sources/hdiutil/Options/InfoOptions.swift:44-59 | A list renders to one token per option, in order. |
| InfoOptions.StringValue | Sources/hdiutil/Options/InfoOptions.swift:61-71 | The display form is empty exactly when the list is. |
| InfoOptions.StringValueIsJoin | Sources/hdiutil/Options/InfoOptions.swift:61-71 | The display form is the tokens joined by spaces, with no quotes. An empty list gives no tokens and an empty string. |
| UdifrezOptions.OptionToken | Sources/hdiutil/Options/UDIFrezOptions.swift:27-34 | Every udifrez option renders as a dash-led token. |
| UdifrezOptions.TokenRoundTrip | Sources/hdiutil/Options/UDIFrezOptions.swift:28-33 | Reading `-xml f`, `-rsrcfork f` or `-replaceall` back gives the option and its file. |
| UdifrezOptions.Arguments | Sources/hdiutil/Options/UDIFrezOptions.swift:25-36 | A list renders to one token per option, in order. |
| UdifrezOptions.StringValue | Sources/hdiutil/Options/UDIFrezOptions.swift:38-48 | The display form is empty exactly when the list is. |
| UdifrezOptions.StringValueIsJoin | Sources/hdiutil/Options/UDIFrezOptions.swift:38-48 | The display form is the tokens joined by spaces, with no quotes. |
| Errors.ErrorDescription | Sources/hdiutil/Errors/hdiutilError.swift:18-31 | A description starts with `Process error: ` exactly for process errors, and the rest is the text or `nil`. |
| Errors.ProcessErrorText | Sources/hdiutil/Errors/hdiutilError.swift:20-21 | The text is recoverable from the description. A missing text describes as `Process error: nil`, the same as the text `nil`. |
| Errors.FixedDescriptions | Sources/hdiutil/Errors/hdiutilError.swift:22-27 | `invalidAppleScriptText` describes as `Invalid apple script text`. The attach and create errors delegate to `invalid output`. |
| Errors.AttachErrorDescription | Sources/hdiutil/Errors/AttachError.swift:14-19 | The message is non-empty, is not a process error's, and is the same text as create's parse failure. |
| Errors.CreateErrorDescription | Sources/hdiutil/Errors/CreateError.swift:14-19 | The message is non-empty and is not a process error's. |
| Outputs.ParseAttach | Sources/hdiutil/Outputs/AttachOutput.swift:16-25 | The parse succeeds exactly when the URL of `file://` plus the mount path does. The device node is the first space-separated piece, and the mount point is that URL. |
| Outputs.DeviceName | Sources/hdiutil/Outputs/AttachOutput.swift:17 | The device node holds no space and is the whole output or its start followed by a space. |
| Outputs.MountDir | Sources/hdiutil/Outputs/AttachOutput.swift:18 | The mount path holds no tab and no newline. |
| Outputs.MountDirAfterLastSpace | Sources/hdiutil/Outputs/AttachOutput.swift:18 | Whatever precedes the last space is ignored: the mount path is the text after it with tabs and newlines removed. |
| Outputs.AttachWithoutSpace | Sources/hdiutil/Outputs/AttachOutput.swift:17-18 | With no space in the output, the device node is the whole output, and the mount path is the output with its tabs and newlines removed. |
| Outputs.AttachLine | Sources/hdiutil/Outputs/AttachOutput.swift:17-18 | For `node \t\tmount\n` with space-free fields, the parser reads the node and the mount path back. |
| Outputs.StripLeadingTabs | Sources/hdiutil/Outputs/AttachOutput.swift:18 | Stripping tabs then newlines from `\t\tmount\n` leaves the mount path. |
| Outputs.DropTabs | Sources/hdiutil/Outputs/AttachOutput.swift:18 | Stripping tabs from two tabs and a tab-free tail leaves the tail. |
| Outputs.AttachExample | Sources/hdiutil/Outputs/AttachOutput.swift:17-18 | `disk2 \t\t/tmp/abcde\n` reads as device `disk2` at `/tmp/abcde`. |
| Outputs.CreatedPath | Sources/hdiutil/Outputs/CreateOutput.swift:15 | The created path holds no newline. |
| Outputs.ParseCreate | Sources/hdiutil/Outputs/CreateOutput.swift:14-21 | The parse succeeds exactly when the URL of `file://` plus the created path does, and its URL is that one. |
| Outputs.CreatedPathAfterLastSeparator | Sources/hdiutil/Outputs/CreateOutput.swift:15 | The created path is the text after the last `: ` with its newlines removed, or the whole output when there is no `: `. |
| Outputs.CreatedLine | Sources/hdiutil/Outputs/CreateOutput.swift:15 | `created: path\n` reads back as the path, for a path with no colon and no newline. |
| Hdiutil.Arguments | Sources/hdiutil/hdiutil.swift:287-331 | Every verb renders to at least one token. |
| Hdiutil.HelpAndInfo | Sources/hdiutil/hdiutil.swift:289-290 | `help` is `["help"]`, and `info` is `info` followed by its option tokens only. |
| Hdiutil.DetachArguments | Sources/hdiutil/hdiutil.swift:296-300 | `detach` is `["detach", dev]`, with `-force` appended exactly when forced. |
| Hdiutil.TargetFirst | Sources/hdiutil/hdiutil.swift:291-305 | `attach` and `create` are the verb, then the target, then the option tokens unchanged. |
| Hdiutil.ConvertPlacement | Sources/hdiutil/hdiutil.swift:306-313 | `convert` starts `convert -format <raw> -o <out>`, then the option tokens, and the image is always last. |
| Hdiutil.ImageLast | Sources/hdiutil/hdiutil.swift:318-329 | `resize` and `udifrez` are the verb, one token per option, then the image last. |
| Hdiutil.StringValue | Sources/hdiutil/hdiutil.swift:333-352 | The first space-separated word of every verb's display form is the verb's name, the first token of its argument vector. |
| Hdiutil.AttachDisplay | Sources/hdiutil/hdiutil.swift:337-338 | With options, attach's display form is its argument vector shown token by token: the verb bare, the image quoted, options as their list shows them. |
| Hdiutil.CreateDisplay | Sources/hdiutil/hdiutil.swift:341-342 | With option tokens, create's display form is its argument vector shown token by token. |
| Hdiutil.ResizeDisplay | Sources/hdiutil/hdiutil.swift:347-348 | With options, resize's display form is the verb, the displayed option tokens and the quoted image, joined by spaces. |
| Hdiutil.UdifrezDisplay | Sources/hdiutil/hdiutil.swift:349-350 | With options, the display form of `udifrez` is its argument tokens joined by spaces, with only the image quoted. |
| Hdiutil.ConvertDisplay | Sources/hdiutil/hdiutil.swift:343-344 | With options, convert's display form is its argument vector shown token by token, with the output file and the image quoted. |
| Hdiutil.ConvertHead | Sources/hdiutil/hdiutil.swift:344 | The fixed head of convert's display form is its first five tokens joined by spaces. |
| Hdiutil.AttachTrailingSpace | Sources/hdiutil/hdiutil.swift:338 | With no options, attach's display form ends in a space. |
| Hdiutil.DetachTrailingSpace | Sources/hdiutil/hdiutil.swift:340 | An unforced detach's display form ends in a space. |
| Hdiutil.ConvertDoubleSpace | Sources/hdiutil/hdiutil.swift:344 | With no options, convert's display form has two spaces before the image. |
| Hdiutil.CreateImagePath | Sources/hdiutil/hdiutil.swift:73-82 | Without a directory the path is the image. With one, it starts with the directory, ends with the image, and puts a `/` between them, added only when the directory lacks one. |
| Hdiutil.CreateImagePathSlashOnce | Sources/hdiutil/hdiutil.swift:75-79 | A directory with or without its trailing `/` gives the same path: the separator is never doubled. |
| Hdiutil.Escape | Sources/hdiutil/hdiutil.swift:440 | Every `"` in the escaped command is preceded by a backslash. |
| Hdiutil.EscapeRoundTrip | Sources/hdiutil/hdiutil.swift:440 | AppleScript's reading of the escaped command gives the command back, when the command has no backslash. |
| Hdiutil.LiteralAppend | Sources/hdiutil/hdiutil.swift:437-443 | Backslash-free text reads as itself inside the script literal. |
| Hdiutil.ShellParts | Sources/hdiutil/hdiutil.swift:437-442 | There are two shell parts exactly when a path is given, the first starting with `cd `; the last runs `/usr/bin/hdiutil ` with every `"` of the command escaped. |
| Hdiutil.ScriptText | Sources/hdiutil/hdiutil.swift:437-443 | The script is `do shell script "`, then the shell parts joined by ` && `, then `"`. |
| Hdiutil.ScriptRunsCommand | Sources/hdiutil/hdiutil.swift:437-443 | The script literal stands for `cd "<path>" && ` (only when a path is given) then `/usr/bin/hdiutil ` and the command, when neither holds a backslash and the path holds no `"`. |
| Hdiutil.DirectResult | Sources/hdiutil/hdiutil.swift:407-423 | A run fails exactly when standard error is non-empty, with a process error carrying the decoded text. Otherwise it returns standard output, or empty text when that does not decode. |
| Hdiutil.StderrDecides | Sources/hdiutil/hdiutil.swift:407-416 | With non-empty standard error, standard output does not matter. |
| Hdiutil.BridgedResult | Sources/hdiutil/hdiutil.swift:449-461 | `NSAppleScript(source:)` returning nil gives `invalidAppleScriptText`, and a script that fails to compile or run gives `unexpected`. A returned value gives its text, or empty text when it has none. |
| Hdiutil.Run | Sources/hdiutil/hdiutil.swift:357-366 | Direct mode runs the argument vector, and the AppleScript mode runs the display form in the path. A run never fails with an attach or create error. |
| Hdiutil.DirectIgnoresPath | Sources/hdiutil/hdiutil.swift:357-366 | On the direct route the working path has no effect. |
| Hdiutil.AttachImage | Sources/hdiutil/hdiutil.swift:37-44 | A failed run passes its error on. A successful run yields the parsed output, and throws `attachError(.invalidOutput)` exactly when the output does not parse. |
| Hdiutil.CreateImage | Sources/hdiutil/hdiutil.swift:72-90 | It runs `create` on the joined path in `desPath`. A failed run passes its error on, and unparsable output throws `createError(.invalidOutput)` exactly. |
| Hdiutil.CreateReadsBackJoinedPath | Tests/hdiutilTests/hdiutilTests.swift:12-25 | When the tool reports `created: <joined path>`, the path read back is the path asked for. |
| Hdiutil.ConfiguredLastWins | Sources/hdiutil/hdiutil.swift:16-23 | After configuring, `log` is the last `.log` option's value, or unchanged with none. |
| Hdiutil.ConfiguredCompose | Sources/hdiutil/hdiutil.swift:16-23 | Configuring twice is configuring once with both lists in order. |
| Hdiutil.Configured | Sources/hdiutil/hdiutil.swift:16-23 | The setting after configuring is the old one or the value of one of the options, never anything else. |
| Hdiutil.HdiutilClass.constructor | Sources/hdiutil/hdiutil.swift:9 | A fresh instance has `log` off. |
| Hdiutil.HdiutilClass.Configure | Sources/hdiutil/hdiutil.swift:16-23 | The loop leaves `log` equal to the left fold of the options over the old value, which is the last option's value. |
| Strings.SplitJoin | Sources/hdiutil/Outputs/AttachOutput.swift:17 | Joining the split pieces with the separator gives the input back. |
| Strings.SplitPiecesFree | Sources/hdiutil/Outputs/AttachOutput.swift:17 | No split piece contains the separator. |
| Strings.SplitFirst | Sources/hdiutil/Outputs/AttachOutput.swift:17 | The first piece holds no separator and is the whole input or its start followed by the separator. |
| Strings.SplitLast | Sources/hdiutil/Outputs/AttachOutput.swift:18 | The last piece holds no separator and is the whole input or its end preceded by the separator. |
| Strings.SplitLastChar | Sources/hdiutil/Outputs/AttachOutput.swift:18 | With a one-character separator, the last piece of `p`, the separator and a separator-free `t` is `t`, whatever `p` holds. |
| Strings.SplitFirstWord | Sources/hdiutil/hdiutil.swift:333-352 | With a one-character separator, a separator-free word followed by the separator is the first piece, whatever follows. |
| Strings.Remove | Sources/hdiutil/Outputs/AttachOutput.swift:18 | Removing a character leaves none of it, and removing an absent character changes nothing. |
| Strings.RemoveKeepsOthers | Sources/hdiutil/Outputs/AttachOutput.swift:18 | Removing a character keeps every other character's count. |
| Strings.Decimal | Sources/hdiutil/Options/CreateImageOptions.swift:357 | Interpolating an integer gives a decimal numeral with no space, dash-led exactly when the number is negative. |
| Strings.DecimalRoundTrip | Sources/hdiutil/Options/CreateImageOptions.swift:357 | The numeral reads back as the same integer. |
| Strings.UnquoteShown | Sources/hdiutil/Options/AttachImageOptions.swift:269-279 | When only dash-led tokens stay bare, every displayed token unquotes to its argument token. |
| Strings.DisplayStringEmpty | Sources/hdiutil/Options/AttachImageOptions.swift:269-279 | When bare tokens are flags, a display form is empty exactly when there are no tokens. |
| Strings.FlatMapAppend | Sources/hdiutil/Options/AttachImageOptions.swift:191-192 | `flatMap` distributes over concatenation, so option order is kept; used for the create, attach and convert lists. |
| Strings.FlatMapSingle | Sources/hdiutil/Options/AttachImageOptions.swift:191-193 | A one-option list renders that option's tokens; used for the create, attach and convert lists. |
| Strings.FlatMapAtLeastOne | Sources/hdiutil/Options/AttachImageOptions.swift:191-193 | When every option yields a token, a list of n options yields at least n tokens. |
| Strings.FlatMapBound | Sources/hdiutil/Options/CreateImageOptions.swift:350-353 | When every option yields at most k tokens, a list of n options yields at most k times n. |
| Strings.FlatMapEmpty | Sources/hdiutil/Options/CreateImageOptions.swift:350-353 | A list yields no token exactly when none of its options yields one. |
| Strings.MapTokensAppend | Sources/hdiutil/Options/ResizeImageOptions.swift:80-82 | `map` distributes over concatenation, so option order is kept; used for the resize, info and udifrez lists and the common flags. |

## Left out

- Process spawning, pipes, draining and `waitUntilExit` (`hdiutil.swift:370-432`) are operating-system I/O. The model starts from what a finished process left on its two streams.
- A launch failure from `try task.run()` (`hdiutil.swift:399`) is not modelled. It would pass a Foundation error on unchanged.
- The branch for systems older than macOS 10.15.4 force-unwraps the decoded standard output (`hdiutil.swift:422`), so undecodable output there is a crash. The model uses the `?? ""` branch.
- `NSAppleScript` creation, compilation and execution are a foreign call, represented by the `bridge` parameter.
- `async`, continuations and `Logger` calls have no behaviour to model. Logging is the only effect of the `log` field.
- `URL(string:)`, `URL.path` and `url.path(percentEncoded:)` are Foundation internals. Construction is the `parse` parameter, and `srcFolderURL` renders the URL's stored path.
- UTF-8 decoding is represented by the decoded texts carried in a capture.
- `hdiutilError.unexpected` carries `Any?` and is described through `String(describing:)`. The model carries the already-described text.
- The `fatalError` stubs (`verify`, `burn`, `makeHybrid`, `compact`, `checksum`, `chpass`, `eraseKeys`, `unflatten`, `flatten`, `fsid`, `mountVol`, `unmount`, `imageInfo`, `isencrypted`, `plugins`, `internetEnable`, `segment`, `pmap`, `udifderez`) have no behaviour.
- `Options/InternetEnableOptions.swift` is used only by the unimplemented `internetEnable`.
- `Options/DetachImageOptions.swift` is a one-case enum with no rendering. It appears only as `OptionLists.DetachImageOption`; detach's force flag lives in the verb.
- `help`, `detach`, `convert`, `info`, `resize` and `udifrez` each run their verb without a path and return its text. They are `Hdiutil.Run` of that verb and have no members of their own.
- Codable and Hashable conformances are derived boilerplate.
- Swift strings are sequences of grapheme clusters. The model treats them as sequences of characters, which matches for the characters the library splits on and strips. It does not match for `hasPrefix("-")` when a dash is followed by a combining mark (`"-\u{301}x"`): Swift sees no leading dash and quotes the token, while the model's `StartsWith` leaves it bare.
- Integers are Swift `Int`. The model uses unbounded integers, so 64-bit overflow in interpolated numbers is not represented.

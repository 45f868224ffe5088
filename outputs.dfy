/**
 * Reading `hdiutil`'s standard output back into values. Both parsers split
 * on a separator, keep the first or last piece and strip characters; the
 * split always has a first and a last piece, so the only way for either to
 * fail is the URL constructor, which is a parameter (`parse`).
 */
module Outputs {
  import opened Wrappers
  import opened Strings
  import opened Url

  /** `hdiutilClass.AttachOutput` */
  datatype AttachOutput = AttachOutput(deviceNode: string, mountPoint: URL)

  /** `hdiutilClass.CreateOutput` */
  datatype CreateOutput = CreateOutput(dmgURL: URL)

  /**
   * The device node: the text before the first space. It holds no space and
   * is the start of the output, either all of it or followed there by a space.
   */
  function DeviceName(output: string): (r: string)
    ensures ' ' !in r
    ensures r == output || StartsWith(output, r + " ")
  {
    var r := Split(output, " ")[0];
    SplitFirst(output, " ");
    ContainsCharIff(r, ' ');
    r
  }

  /**
   * The mount directory: the text after the last space, with tabs and
   * newlines removed, so it holds neither.
   */
  function MountDir(output: string): (r: string)
    ensures '\t' !in r && '\n' !in r
  {
    var pieces := Split(output, " ");
    var stripped := Remove(pieces[|pieces| - 1], '\t');
    RemoveKeepsOthers(stripped, '\n', '\t');
    Remove(stripped, '\n')
  }

  /**
   * Whatever precedes the last space is ignored: the mount directory is the
   * text after it with tabs and newlines removed.
   */
  lemma MountDirAfterLastSpace(prefix: string, tail: string)
    requires ' ' !in tail
    ensures MountDir(prefix + " " + tail) == Remove(Remove(tail, '\t'), '\n')
  {
    SplitLastChar(prefix, tail, ' ');
  }

  /** `AttachOutput.init?`: fails only when `file://` + the mount directory is not a URL. */
  function ParseAttach(output: string, parse: string -> Option<URL>): (r: Option<AttachOutput>)
    ensures r.Some? <==> parse("file://" + MountDir(output)).Some?
    ensures r.Some? ==> r.value.deviceNode == DeviceName(output)
    ensures r.Some? ==> r.value.mountPoint == parse("file://" + MountDir(output)).value
  {
    match parse("file://" + MountDir(output))
    case None => None
    case Some(mountURL) => Some(AttachOutput(DeviceName(output), mountURL))
  }

  /**
   * Only spaces separate fields, tabs do not: with no space in the output,
   * the whole output is the device node, and the whole output stripped of
   * tabs and newlines is the mount directory.
   */
  lemma AttachWithoutSpace(output: string)
    requires ' ' !in output
    ensures DeviceName(output) == output
    ensures MountDir(output) == Remove(Remove(output, '\t'), '\n')
  {
    ContainsCharIff(output, ' ');
    SplitAbsent(output, " ");
  }

  /**
   * A device node, one space, then tabs, the mount point and a newline:
   * the node is the text before the space and the mount point is the rest
   * without its tabs and newline.
   */
  lemma AttachLine(node: string, mount: string)
    requires ' ' !in node && ' ' !in mount && '\t' !in mount && '\n' !in mount
    ensures DeviceName(node + " " + "\t\t" + mount + "\n") == node
    ensures MountDir(node + " " + "\t\t" + mount + "\n") == mount
  {
    var rest := "\t\t" + mount + "\n";
    assert ' ' !in rest;
    assert node + " " + "\t\t" + mount + "\n" == node + [' '] + rest;
    SplitPair(node, rest, ' ');
    StripLeadingTabs(mount);
  }

  lemma StripLeadingTabs(mount: string)
    requires '\t' !in mount && '\n' !in mount
    ensures Remove(Remove("\t\t" + mount + "\n", '\t'), '\n') == mount
  {
    DropTabs(mount + "\n");
    assert "\t\t" + mount + "\n" == "\t\t" + (mount + "\n");
    RemoveAppend(mount, "\n", '\n');
  }

  lemma DropTabs(tail: string)
    requires '\t' !in tail
    ensures Remove("\t\t" + tail, '\t') == tail
  {
    RemoveAppend("\t\t", tail, '\t');
    assert Remove("\t\t", '\t') == "";
  }

  /** `disk2 \t\t/tmp/abcde\n` attaches `disk2` at `/tmp/abcde`. */
  lemma AttachExample()
    ensures DeviceName("disk2 \t\t/tmp/abcde\n") == "disk2"
    ensures MountDir("disk2 \t\t/tmp/abcde\n") == "/tmp/abcde"
  {
    assert "disk2 \t\t/tmp/abcde\n" == "disk2" + " " + "\t\t" + "/tmp/abcde" + "\n";
    AttachLine("disk2", "/tmp/abcde");
  }

  /** The created path: the text after the last `": "`, with newlines removed. */
  function CreatedPath(output: string): (path: string)
    ensures '\n' !in path
  {
    var pieces := Split(output, ": ");
    Remove(pieces[|pieces| - 1], '\n')
  }

  /** `CreateOutput.init?`: fails only when `file://` + the created path is not a URL. */
  function ParseCreate(output: string, parse: string -> Option<URL>): (r: Option<CreateOutput>)
    ensures r.Some? <==> parse("file://" + CreatedPath(output)).Some?
    ensures r.Some? ==> r.value.dmgURL == parse("file://" + CreatedPath(output)).value
  {
    match parse("file://" + CreatedPath(output))
    case None => None
    case Some(url) => Some(CreateOutput(url))
  }

  /**
   * Whatever precedes the last `": "` is ignored: the created path is the
   * text after it with newlines removed. Without any `": "`, it is the whole
   * output with newlines removed.
   */
  lemma CreatedPathAfterLastSeparator(prefix: string, tail: string)
    requires !Contains(tail, ": ")
    ensures CreatedPath(prefix + ": " + tail) == Remove(tail, '\n')
    ensures CreatedPath(tail) == Remove(tail, '\n')
  {
    SplitLastAfter(prefix, tail, ": ");
    CreatedPathOfLastPiece(prefix + ": " + tail, tail);
    SplitAbsent(tail, ": ");
    CreatedPathOfLastPiece(tail, tail);
  }

  lemma CreatedPathOfLastPiece(output: string, last: string)
    requires var pieces := Split(output, ": "); pieces[|pieces| - 1] == last
    ensures CreatedPath(output) == Remove(last, '\n')
  {
  }

  /**
   * A `created: <path>` line yields the path when the path holds neither a
   * colon nor a newline.
   */
  lemma CreatedLine(path: string)
    requires ':' !in path && '\n' !in path
    ensures CreatedPath("created: " + path + "\n") == path
  {
    assert ':' !in path + "\n";
    AbsentFirstChar(path + "\n", ": ");
    assert "created: " + path + "\n" == "created" + ": " + (path + "\n");
    CreatedPathAfterLastSeparator("created", path + "\n");
    RemoveAppend(path, "\n", '\n');
  }
}

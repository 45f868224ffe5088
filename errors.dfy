/**
 * The errors the library throws and the messages it gives them
 * (`errorDescription`). Every case has a message, so descriptions are plain
 * strings here.
 */
module Errors {
  import opened Wrappers
  import opened Strings

  /** `hdiutilError.AttachError` */
  datatype AttachError = InvalidAttachOutput

  /** `hdiutilClass.CreateError` */
  datatype CreateError = InvalidCreateOutput

  /** `hdiutilClass.hdiutilError` */
  datatype HdiutilError =
    | ProcessError(text: Option<string>)
    | InvalidAppleScriptText
    | CreateError(createError: CreateError)
    | AttachError(attachError: AttachError)
      /** The payload, as `String(describing:)` renders it. */
    | Unexpected(described: string)

  /**
   * `AttachError.errorDescription`: a non-empty message that is not a
   * process error's, and the same message as create's parse failure.
   */
  function AttachErrorDescription(e: AttachError): (r: string)
    ensures r != "" && !StartsWith(r, ProcessErrorPrefix)
    ensures r == CreateErrorDescription(InvalidCreateOutput)
  {
    match e
    case InvalidAttachOutput => "invalid output"
  }

  /** `CreateError.errorDescription`: a non-empty message that is not a process error's. */
  function CreateErrorDescription(e: CreateError): (r: string)
    ensures r != "" && !StartsWith(r, ProcessErrorPrefix)
  {
    match e
    case InvalidCreateOutput => "invalid output"
  }

  const ProcessErrorPrefix := "Process error: "

  /**
   * `hdiutilError.errorDescription`. Exactly the process errors carry the
   * `Process error: ` prefix, and the captured text follows it unchanged.
   */
  function ErrorDescription(e: HdiutilError): (r: string)
    ensures e.ProcessError? <==> StartsWith(r, ProcessErrorPrefix)
    ensures e.ProcessError? ==> r[|ProcessErrorPrefix|..] == e.text.GetOr("nil")
  {
    var r := match e
      case ProcessError(text) => ProcessErrorPrefix + text.GetOr("nil")
      case InvalidAppleScriptText => "Invalid apple script text"
      case AttachError(attachError) => AttachErrorDescription(attachError)
      case CreateError(createError) => CreateErrorDescription(createError)
      case Unexpected(described) => "Unexpected: " + described;
    assert !e.ProcessError? ==> r[0] != ProcessErrorPrefix[0];
    assert e.ProcessError? ==> r[..|ProcessErrorPrefix|] == ProcessErrorPrefix;
    r
  }

  /**
   * The message of a process error gives back the captured text, except
   * that a missing text and the text `nil` read alike.
   */
  lemma ProcessErrorText(e: HdiutilError, s: string)
    ensures ErrorDescription(ProcessError(Some(s)))[|ProcessErrorPrefix|..] == s
    ensures ErrorDescription(ProcessError(None)) == "Process error: nil"
    ensures ErrorDescription(ProcessError(None)) == ErrorDescription(ProcessError(Some("nil")))
    ensures e.ProcessError? && ErrorDescription(e) == ErrorDescription(ProcessError(Some(s))) ==>
      e == ProcessError(Some(s)) || (s == "nil" && e == ProcessError(None))
  {
    if e.ProcessError? && ErrorDescription(e) == ErrorDescription(ProcessError(Some(s))) {
      assert e.text.GetOr("nil") == s;
    }
  }

  /**
   * The fixed messages: parse failures of `attach` and `create` both read
   * `invalid output`, so the message alone does not tell them apart.
   */
  lemma FixedDescriptions()
    ensures ErrorDescription(InvalidAppleScriptText) == "Invalid apple script text"
    ensures ErrorDescription(AttachError(InvalidAttachOutput)) == "invalid output"
    ensures ErrorDescription(CreateError(InvalidCreateOutput)) == "invalid output"
  {
  }
}

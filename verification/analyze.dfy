/**
 * `handleAnalyze`: the choice between the file and the text request, the local
 * validation gate, and the normalisation of whatever comes back into exactly
 * one of a stored result or an error message.
 */
module Analyze {
  import opened Options
  import opened JsString
  import opened Api
  import opened EmlParser
  import opened AppState

  /** The request `handleAnalyze` sends, resolved once from the state at the call. */
  datatype Request =
    | NoRequest
    | FileRequest(file: SelectedFile, useEnhanced: bool)                       // POST /api/analyze-file
    | TextRequest(senderEmail: string, emailContent: string,
                  rawHeaders: string, useEnhanced: bool)                      // POST /api/analyze

  const MissingFieldsMessage := "Please provide both sender email and email content"
  const FallbackMessage := "Analysis failed"
  const ConnectPrefix := "Failed to connect to server: "

  /**
   * The request `handleAnalyze` sends: the selected file whenever there is
   * one; otherwise the text fields, but only when sender and content are both
   * non-empty. Either request carries the enhanced flag as it is at the call.
   */
  function Dispatch(s: Ui): (r: Request)
    ensures r.FileRequest? <==> s.file.Some?
    ensures r.FileRequest? ==> r.file == s.file.value
    ensures r.NoRequest? <==> s.file.None? && (s.form.senderEmail == "" || s.form.emailContent == "")
    ensures r.TextRequest? ==>
      && r.senderEmail == s.form.senderEmail
      && r.emailContent == s.form.emailContent
      && r.rawHeaders == s.form.rawHeaders
    ensures !r.NoRequest? ==> r.useEnhanced == s.form.useEnhanced
  {
    match s.file
    case Some(f) => FileRequest(f, s.form.useEnhanced)
    case None =>
      if s.form.senderEmail == "" || s.form.emailContent == "" then NoRequest
      else TextRequest(s.form.senderEmail, s.form.emailContent, s.form.rawHeaders, s.form.useEnhanced)
  }

  /** A selected file always wins, whatever the text fields hold. */
  lemma DispatchPrefersFile(s: Ui, form: FormData)
    requires s.file.Some?
    ensures Dispatch(s.(form := form)) == FileRequest(s.file.value, form.useEnhanced)
  {
  }

  /** The raw headers are never required: they do not decide whether a request goes out. */
  lemma RawHeadersOptional(s: Ui, headers: string)
    ensures Dispatch(s.(form := s.form.(rawHeaders := headers))).NoRequest? == Dispatch(s).NoRequest?
  {
  }

  /**
   * What reading the response yields: the parsed reply, or the message of the
   * exception thrown while reading it. `Unreadable` covers a body that is not
   * JSON (`response.json()` throws) and a JSON `null` (reading `data.success`
   * throws). Any other JSON value that is not an object, such as `42` or
   * `"x"`, has no `success` or `error` property and reads as
   * `Json(Reply(false, None, ...))`.
   */
  datatype Body = Json(reply: Reply) | Unreadable(message: string)

  /** The outcome of `fetch`: a response (with its `ok` flag) or a rejection with a message. */
  datatype Exchange = Delivered(ok: bool, body: Body) | NetworkError(message: string)

  /**
   * One call of `handleAnalyze` as a single transition. `ex` is what the
   * service's round trip yields; it is consulted only when a request is sent.
   */
  function HandleAnalyze(s: Ui, ex: Exchange): (r: Ui)
    ensures !r.loading
    ensures !(r.results.Some? && r.error.Some?)
    ensures r.form == s.form && r.file == s.file && r.pickerCleared == s.pickerCleared
    ensures Dispatch(s).NoRequest? ==> r.results.None? && r.error == Some(MissingFieldsMessage)
    ensures !Dispatch(s).NoRequest? ==>
      match ex
      case NetworkError(m) => r.results.None? && r.error == Some(ConnectPrefix + m)
      case Delivered(_, Unreadable(m)) => r.results.None? && r.error == Some(ConnectPrefix + m)
      case Delivered(_, Json(d)) =>
        if d.success then r.results == Some(d) && r.error.None?
        else r.results.None? && r.error.Some? && r.error.value != "" &&
             (d.error.Some? && d.error.value != "" ==> r.error == d.error)
  {
    var cleared := s.(error := None, results := None, loading := true);
    var settled :=
      if Dispatch(s).NoRequest? then
        cleared.(error := Some(MissingFieldsMessage))
      else
        match ex
        case NetworkError(m) => cleared.(error := Some(ConnectPrefix + m))
        case Delivered(_, Unreadable(m)) => cleared.(error := Some(ConnectPrefix + m))
        case Delivered(_, Json(d)) =>
          if d.success then cleared.(results := Some(d))
          else cleared.(error := Some(Or(if d.error.Some? then d.error.value else "", FallbackMessage)));
    settled.(loading := false)
  }

  /** A result is stored exactly when a request went out and its reply says `success`. */
  lemma ResultsIff(s: Ui, ex: Exchange)
    ensures HandleAnalyze(s, ex).results.Some? <==>
      !Dispatch(s).NoRequest? && ex.Delivered? && ex.body.Json? && ex.body.reply.success
  {
  }

  /** A failed reply without a usable `error` surfaces the fallback message. */
  lemma FallbackWhenNoError(s: Ui, ok: bool, d: Reply)
    requires !Dispatch(s).NoRequest? && !d.success
    requires d.error.None? || d.error == Some("")
    ensures HandleAnalyze(s, Delivered(ok, Json(d))).error == Some(FallbackMessage)
  {
  }

  /** The HTTP status is never consulted: an error status with the same body is handled alike. */
  lemma StatusIgnored(s: Ui, b: Body)
    ensures HandleAnalyze(s, Delivered(true, b)) == HandleAnalyze(s, Delivered(false, b))
  {
  }

  /** Each attempt starts afresh: earlier results, errors and the loading flag do not matter. */
  lemma AttemptForgetsPrevious(s: Ui, ex: Exchange, results: Option<Reply>, error: Option<string>, loading: bool)
    ensures HandleAnalyze(s.(results := results, error := error, loading := loading), ex) == HandleAnalyze(s, ex)
  {
  }

  /** Right after a reset every analysis stops at the validation gate, whatever the service would say. */
  lemma AnalyzeAfterReset(s: Ui, ex: Exchange)
    ensures var r := HandleAnalyze(HandleReset(s), ex);
      r.results.None? && r.error == Some(MissingFieldsMessage)
  {
  }

  /** After an accepted `.eml` pick, analysing sends the file with the current enhanced flag. */
  lemma AnalyzeAfterFilePick(s: Ui, f: SelectedFile)
    requires |f.name| >= 4 && f.name[|f.name| - 4..] == ".EML"
    ensures Dispatch(HandleFileChange(s, Some(f))) == FileRequest(f, s.form.useEnhanced)
  {
    assert f.name[|f.name| - 4] == '.' && f.name[|f.name| - 1] == 'L';
  }

  /** A refused pick leaves no file behind, so the next analysis falls back to the text fields. */
  lemma AnalyzeAfterRefusedPick(s: Ui, f: SelectedFile)
    requires !IsEmlName(f.name)
    ensures Dispatch(HandleFileChange(s, Some(f))) == Dispatch(s.(file := None))
  {
  }
}

/**
 * The state of the `App` component and its three synchronous handlers:
 * `handleInputChange`, `handleFileChange` (with the `FileReader` callback
 * applied at once) and `handleReset`.
 */
module AppState {
  import opened Options
  import opened JsString
  import opened RegexSplit
  import opened EmlParser
  import opened Api

  /** The `formData` state object. */
  datatype FormData = FormData(senderEmail: string, emailContent: string, rawHeaders: string, useEnhanced: bool)

  const EmptyForm := FormData("", "", "", false)

  /** A picked file: its name, and its text, or `None` when reading it fails (`onload` never fires). */
  datatype SelectedFile = SelectedFile(name: string, text: Option<string>)

  /**
   * All of `App`'s state. `pickerCleared` stands for the native file input's
   * value having been blanked by the app (on reset) with no file picked since.
   */
  datatype Ui = Ui(
    form: FormData,
    file: Option<SelectedFile>,
    results: Option<Reply>,
    loading: bool,
    error: Option<string>,
    pickerCleared: bool)

  const Initial := Ui(EmptyForm, None, None, false, None, false)

  const WrongFileMessage := "Please select a .eml file"

  // ---------------------------------------------------------------------------
  // handleInputChange

  datatype Field = SenderEmail | EmailContent | RawHeaders | UseEnhanced

  datatype InputKind = Checkbox | TextInput

  /** The `name`, `type`, `value` and `checked` of the changed element. */
  datatype Target = Target(name: Field, kind: InputKind, value: string, checked: bool)

  /** As rendered, the one checkbox is `useEnhanced` and every other input is textual. */
  predicate Rendered(t: Target) {
    t.kind == Checkbox <==> t.name == UseEnhanced
  }

  datatype FieldValue = Text(text: string) | Flag(flag: bool)

  /** `formData[name]`. */
  function Get(form: FormData, f: Field): FieldValue {
    match f
    case SenderEmail => Text(form.senderEmail)
    case EmailContent => Text(form.emailContent)
    case RawHeaders => Text(form.rawHeaders)
    case UseEnhanced => Flag(form.useEnhanced)
  }

  /** `{...prev, [name]: type === 'checkbox' ? checked : value}`. */
  function HandleInputChange(s: Ui, t: Target): (r: Ui)
    requires Rendered(t)
    ensures Get(r.form, t.name) == (if t.kind == Checkbox then Flag(t.checked) else Text(t.value))
    ensures forall f :: f != t.name ==> Get(r.form, f) == Get(s.form, f)
    ensures r.(form := s.form) == s
  {
    var form :=
      match t.name
      case SenderEmail => s.form.(senderEmail := t.value)
      case EmailContent => s.form.(emailContent := t.value)
      case RawHeaders => s.form.(rawHeaders := t.value)
      case UseEnhanced => s.form.(useEnhanced := t.checked);
    s.(form := form)
  }

  // ---------------------------------------------------------------------------
  // handleFileChange

  /**
   * The `setFormData` merge of `reader.onload`: each text field takes what the
   * file yields when that is non-empty and otherwise keeps its previous value.
   */
  function AutoFill(prev: FormData, text: string): (r: FormData)
    ensures var x := Extract(text);
      var lines := Split(LineBreak, x.headers);
      var from := LastValue(FromKey, lines, "");
      var subject := LastValue(SubjectKey, lines, "");
      && r.senderEmail == (if from != "" then from else prev.senderEmail)
      && r.emailContent ==
           (if subject != "" then subject + "\n\n" + x.body
            else if x.body != "" then x.body
            else prev.emailContent)
      && r.rawHeaders == (if x.headers != "" then x.headers else prev.rawHeaders)
    ensures r.useEnhanced == prev.useEnhanced
    ensures prev.senderEmail != "" ==> r.senderEmail != ""
    ensures prev.emailContent != "" ==> r.emailContent != ""
    ensures prev.rawHeaders != "" ==> r.rawHeaders != ""
  {
    var x := Extract(text);
    var content := if x.subject != "" then x.subject + "\n\n" + x.body else x.body;
    prev.(
      senderEmail := Or(x.from, prev.senderEmail),
      emailContent := Or(content, prev.emailContent),
      rawHeaders := Or(x.headers, prev.rawHeaders))
  }

  /** An empty file fills nothing in. */
  lemma AutoFillEmptyFile(prev: FormData)
    ensures AutoFill(prev, "") == prev
  {
    assert NoMatch(BlankLine, "");
    assert Split(LineBreak, "") == [""];
    assert ClassifyLine("") == OtherLine;
  }

  /** Reading the same file a second time changes nothing more. */
  lemma AutoFillIdempotent(prev: FormData, text: string)
    ensures AutoFill(AutoFill(prev, text), text) == AutoFill(prev, text)
  {
  }

  /**
   * `e.target.files[0]` is `picked`. A name not ending in `.eml` is refused
   * and drops the selection; an accepted file replaces the selection and, once
   * read, pre-fills the form.
   */
  function HandleFileChange(s: Ui, picked: Option<SelectedFile>): (r: Ui)
    ensures picked.None? ==> r == s
    ensures picked.Some? && !IsEmlName(picked.value.name) ==>
      && r.error == Some(WrongFileMessage)
      && r.file.None?
      && r.form == s.form
    ensures picked.Some? && IsEmlName(picked.value.name) ==>
      && r.error.None?
      && r.file == picked
      && r.form == (match picked.value.text
                    case Some(t) => AutoFill(s.form, t)
                    case None => s.form)
    ensures picked.Some? ==> !r.pickerCleared
    ensures r.results == s.results && r.loading == s.loading
    ensures r.form.useEnhanced == s.form.useEnhanced
  {
    match picked
    case None => s
    case Some(f) =>
      if !IsEmlName(f.name) then
        s.(error := Some(WrongFileMessage), file := None, pickerCleared := false)
      else
        var form := match f.text
          case Some(t) => AutoFill(s.form, t)
          case None => s.form;
        s.(error := None, file := Some(f), form := form, pickerCleared := false)
  }

  /** A picked file is kept exactly when its name ends in `.eml`, whatever the letter case. */
  lemma FileKeptIff(s: Ui, f: SelectedFile)
    ensures HandleFileChange(s, Some(f)).file.Some? <==>
      && |f.name| >= 4
      && f.name[|f.name| - 4] == '.'
      && (f.name[|f.name| - 3] == 'e' || f.name[|f.name| - 3] == 'E')
      && (f.name[|f.name| - 2] == 'm' || f.name[|f.name| - 2] == 'M')
      && (f.name[|f.name| - 1] == 'l' || f.name[|f.name| - 1] == 'L')
  {
  }

  // ---------------------------------------------------------------------------
  // handleReset

  function HandleReset(s: Ui): (r: Ui)
    ensures r.form == EmptyForm
    ensures r.file.None? && r.results.None? && r.error.None?
    ensures r.pickerCleared
    ensures r.loading == s.loading
  {
    s.(form := EmptyForm, file := None, pickerCleared := true, results := None, error := None)
  }

  lemma ResetIdempotent(s: Ui)
    ensures HandleReset(HandleReset(s)) == HandleReset(s)
  {
  }

  /** Outside the loading flag, a reset brings the component back to its first render (picker aside). */
  lemma ResetRestoresInitial(s: Ui)
    requires !s.loading
    ensures HandleReset(s) == Initial.(pickerCleared := true)
  {
  }
}

/**
 * The selections the results panel of App.js makes. Every one reads the LIVE
 * `formData.useEnhanced`, not a flag captured when the analysis was sent, so
 * toggling the checkbox after a result is shown switches the figures shown.
 */
module ResultsView {
  import opened Options
  import opened Api
  import opened AppState
  import opened Analyze

  const FreeDomainTypeNote :=
    "Free email services (Gmail, Yahoo, Outlook) are commonly used for both legitimate and spam emails."
  const CustomDomainTypeNote :=
    "Custom domains are typically associated with businesses and organizations, which can indicate legitimacy."
  const FreeFlagNote := "This email uses a free email service, which requires more careful analysis."
  const CustomFlagNote := "This email comes from a custom domain, which is often a good sign."

  /** What the results panel shows once a result is stored. */
  datatype View = View(
    heading: string,
    active: ModelRecord,
    isSpam: bool,
    baseline: ModelRecord,
    enhancedBlock: Option<ModelRecord>,
    domainTypeNote: string,
    domainFlagNote: string,
    parsed: Option<ParsedData>)

  /**
   * The results section: a placeholder (`None`) until a result is stored. The
   * main card shows the record of the model the checkbox currently selects,
   * under that model's heading; the enhanced block appears only while the
   * checkbox is ticked; each domain note is the free-mail text or the
   * custom-domain text, by the stored metadata.
   */
  function Render(s: Ui): (v: Option<View>)
    ensures v.Some? <==> s.results.Some?
    ensures v.Some? ==>
      var d := s.results.value;
      && v.value.active == (if s.form.useEnhanced then d.enhanced else d.baseline)
      && v.value.heading == (if s.form.useEnhanced then "Enhanced Model" else "Baseline Model")
      && (v.value.enhancedBlock.Some? <==> s.form.useEnhanced)
      && (v.value.enhancedBlock.Some? ==> v.value.enhancedBlock.value == d.enhanced == v.value.active)
      && v.value.baseline == d.baseline
      && v.value.isSpam == (v.value.active.prediction == "spam")
      && v.value.domainTypeNote ==
           (if d.metadata.domainType == "Free Email" then FreeDomainTypeNote else CustomDomainTypeNote)
      && v.value.domainFlagNote == (if d.metadata.domainFlag then FreeFlagNote else CustomFlagNote)
      && v.value.parsed == d.parsed
  {
    match s.results
    case None => None
    case Some(d) =>
      var useEnhanced := s.form.useEnhanced;
      var active := if useEnhanced then d.enhanced else d.baseline;
      Some(View(
        if useEnhanced then "Enhanced Model" else "Baseline Model",
        active,
        active.prediction == "spam",
        d.baseline,
        if useEnhanced then Some(d.enhanced) else None,
        if d.metadata.domainType == "Free Email" then FreeDomainTypeNote else CustomDomainTypeNote,
        if d.metadata.domainFlag then FreeFlagNote else CustomFlagNote,
        d.parsed))
  }

  /**
   * Toggling the enhanced checkbox after a result is shown keeps the stored
   * result but switches the main card to the other model's record.
   */
  lemma ToggleSwitchesShownModel(s: Ui, checked: bool)
    requires s.results.Some?
    ensures var t := HandleInputChange(s, Target(UseEnhanced, Checkbox, "", checked));
      && t.results == s.results
      && Render(t).Some?
      && Render(t).value.active == (if checked then s.results.value.enhanced else s.results.value.baseline)
  {
  }

  /** The panel only ever shows what the last successful analysis stored. */
  lemma RenderAfterAnalyze(s: Ui, ok: bool, d: Reply)
    requires !Dispatch(s).NoRequest? && d.success
    ensures var v := Render(HandleAnalyze(s, Delivered(ok, Json(d))));
      && v.Some?
      && v.value.active == (if s.form.useEnhanced then d.enhanced else d.baseline)
      && v.value.parsed == d.parsed
  {
  }

  /** Text fields other than the checkbox do not change what the panel shows. */
  lemma TextEditKeepsView(s: Ui, t: Target)
    requires Rendered(t) && t.kind == TextInput
    ensures Render(HandleInputChange(s, t)) == Render(s)
  {
  }

  /**
   * A worked trace: the form holds a free-mail sender and some content, the
   * service answers with a spam verdict from the baseline model, and the panel
   * shows that verdict with the free-domain notes.
   */
  lemma FreeMailSpamExample(ok: bool, enhanced: ModelRecord)
    ensures
      var form := FormData("a@gmail.com", "Win money now!!!", "", false);
      var baseline := ModelRecord("SVM", "spam", 92.3);
      var reply := Reply(true, None, baseline, enhanced,
                         Metadata("gmail.com", "Free Email", true), None);
      var s := Initial.(form := form);
      var v := Render(HandleAnalyze(s, Delivered(ok, Json(reply))));
      && Dispatch(s) == TextRequest("a@gmail.com", "Win money now!!!", "", false)
      && v.Some?
      && v.value.heading == "Baseline Model"
      && v.value.isSpam
      && v.value.active.confidence == 92.3
      && v.value.enhancedBlock.None?
      && v.value.domainTypeNote == FreeDomainTypeNote
      && v.value.domainFlagNote == FreeFlagNote
  {
  }
}

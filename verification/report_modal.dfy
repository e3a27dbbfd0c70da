/** The report dialog: the fixed list of reasons, the report it submits and
    when its submit button is enabled. */
module ReportModal {
  import opened Common
  import opened Text
  import opened Types

  /** The reasons offered, in order; the last lets the user write their own. */
  const Reasons: seq<string> := [
    "Spam or unwanted content",
    "Harassment or bullying",
    "Inappropriate content",
    "Misinformation",
    "Hate speech",
    "Violence or threats",
    "Other"]

  const Other: string := "Other"

  /** Every reason is non-empty and has no whitespace at either end, and only
      the last one is `Other`. */
  lemma ReasonsFacts()
    ensures |Reasons| == 7 && Reasons[6] == Other
    ensures forall i :: 0 <= i < |Reasons| ==> Reasons[i] != "" && IsTrimmed(Reasons[i])
    ensures forall i :: 0 <= i < 6 ==> Reasons[i] != Other
  {
    assert Reasons[0][0] == 'S' && Reasons[1][0] == 'H' && Reasons[2][0] == 'I' && Reasons[3][0] == 'M';
    assert Reasons[4][0] == 'H' && Reasons[5][0] == 'V';
  }

  /** The dialog's state: whether it is open, the chosen reason (`""` for
      none) and the text typed for `Other`. */
  datatype Dialog = Dialog(open: bool, selected: string, custom: string)

  /** A dialog that was just opened for the first time. */
  const Opened: Dialog := Dialog(true, "", "")

  /** The chosen reason is nothing or one of the offered reasons. */
  predicate Valid(d: Dialog) {
    d.selected == "" || d.selected in Reasons
  }

  /** Picking the radio button of reason `i`. */
  function Select(d: Dialog, i: nat): (e: Dialog)
    requires i < |Reasons|
    ensures e.selected == Reasons[i] && e.custom == d.custom && e.open == d.open
    ensures Valid(e)
  {
    d.(selected := Reasons[i])
  }

  /** Typing into the `Other` text box. */
  function Type(d: Dialog, text: string): (e: Dialog)
    ensures e.custom == text && e.selected == d.selected && e.open == d.open
  {
    d.(custom := text)
  }

  /** Closing with the cross or Cancel keeps what was chosen for next time. */
  function Close(d: Dialog): (e: Dialog)
    ensures !e.open && e.selected == d.selected && e.custom == d.custom
  {
    d.(open := false)
  }

  /** A report that was stored closes the dialog and clears both fields. */
  function Succeeded(d: Dialog): (e: Dialog)
    ensures !e.open && e.selected == "" && e.custom == ""
  {
    Dialog(false, "", "")
  }

  /** No step leaves the chosen reason outside the list. */
  lemma ValidPreserved(d: Dialog, i: nat, text: string)
    requires Valid(d) && i < |Reasons|
    ensures Valid(Opened) && Valid(Select(d, i)) && Valid(Type(d, text))
    ensures Valid(Close(d)) && Valid(Succeeded(d))
  {
  }

  /** `handleSubmit`: nothing without a signed-in user or a chosen reason;
      otherwise the item as given, with the typed text for `Other` and the
      chosen reason for the rest, trimmed. */
  function Submit(d: Dialog, signedIn: bool, itemId: int, itemType: ItemType): (r: Option<ReportInput>)
    ensures r.Some? <==> signedIn && d.selected != ""
    ensures r.Some? ==> r.value.reportedItemId == itemId && r.value.reportedItemType == itemType
    ensures r.Some? && d.selected == Other ==> r.value.reason == Trim(d.custom)
    ensures r.Some? && d.selected != Other ==> r.value.reason == Trim(d.selected)
  {
    if !signedIn || d.selected == "" then None
    else
      var reason := if d.selected == Other then d.custom else d.selected;
      Some(ReportInput(itemId, itemType, Trim(reason)))
  }

  /** The submit button's `disabled`: the button is off while a request is
      pending, until a reason is chosen, and while `Other` is chosen with a
      typed text of whitespace alone. */
  function SubmitDisabled(d: Dialog, pending: bool): (disabled: bool)
    ensures disabled <==> pending || d.selected == "" || (d.selected == Other && IsBlank(d.custom))
  {
    TrimShape(d.custom);
    pending || d.selected == "" || (d.selected == Other && Trim(d.custom) == "")
  }

  /** Through the enabled button a signed-in user always sends a non-empty
      reason: a listed reason as it is, or the typed text trimmed. */
  lemma EnabledSendsReason(d: Dialog, itemId: int, itemType: ItemType)
    requires Valid(d) && !SubmitDisabled(d, false)
    ensures Submit(d, true, itemId, itemType).Some?
    ensures Submit(d, true, itemId, itemType).value.reason != ""
    ensures d.selected != Other ==> Submit(d, true, itemId, itemType).value.reason == d.selected
  {
    ReasonsFacts();
    if d.selected != Other {
      TrimmedIsFixpoint(d.selected);
    }
  }

  /** The handler alone does not look at the typed text: with `Other` chosen
      and a blank text it sends an empty reason, which only the disabled
      button keeps from happening. */
  lemma HandlerAcceptsBlankOther(custom: string, itemId: int, itemType: ItemType)
    requires IsBlank(custom)
    ensures SubmitDisabled(Dialog(true, Other, custom), false)
    ensures Submit(Dialog(true, Other, custom), true, itemId, itemType) == Some(ReportInput(itemId, itemType, ""))
  {
    TrimShape(custom);
  }

  /** The item preview shows only for a non-empty title. */
  predicate PreviewShown(itemTitle: Option<string>) {
    TruthyOpt(itemTitle)
  }
}

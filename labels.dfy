/** Texts and flags derived from the application state: the selected-count
    label, the send button's enablement, the response grid's layout class and
    the selected-model chips. */
module Labels {
  import opened Text
  import opened Catalog

  const NoModelsSelected := "No models selected"

  /** `updateSelectedCount`: `No models selected`, or the count followed by
      `model` or `models` and `selected`. */
  function CountLabel(count: nat): string {
    if count == 0 then NoModelsSelected
    else NatToString(count) + " model" + (if count > 1 then "s" else "") + " selected"
  }

  /** The three shapes of the count label. */
  lemma CountLabelCases(count: nat)
    ensures count == 0 ==> CountLabel(count) == "No models selected"
    ensures count == 1 ==> CountLabel(count) == "1 model selected"
    ensures count >= 2 ==> CountLabel(count) == NatToString(count) + " models selected"
  {
  }

  /** The label tells the count: different counts give different labels. */
  lemma CountLabelInjective(a: nat, b: nat)
    requires CountLabel(a) == CountLabel(b)
    ensures a == b
  {
    assert (a == 0) == (b == 0) by {
      assert a != 0 ==> CountLabel(a)[0] == NatToString(a)[0];
      assert b != 0 ==> CountLabel(b)[0] == NatToString(b)[0];
      assert !IsDigit(NoModelsSelected[0]);
    }
    if a != 0 {
      var da, db := NatToString(a), NatToString(b);
      var shown := CountLabel(a);
      assert da <= shown && db <= shown;
      assert shown[|da|] == ' ' && shown[|db|] == ' ';
      assert forall i :: 0 <= i < |da| ==> IsDigit(shown[i]);
      assert forall i :: 0 <= i < |db| ==> IsDigit(shown[i]);
      assert |da| == |db|;
      assert da == shown[..|da|] == db;
      NatToStringInjective(a, b);
    }
  }

  /** `updateSendButtonState`: the button is disabled exactly when the
      prompt is blank, nothing is selected, or a request is in flight. */
  function SendButtonDisabled(prompt: string, selectedCount: nat, isLoading: bool): (disabled: bool)
    ensures disabled <==> Blank(prompt) || selectedCount == 0 || isLoading
  {
    var hasPrompt := |Trim(prompt)| > 0;
    var hasModels := selectedCount > 0;
    !hasPrompt || !hasModels || isLoading
  }

  /** `getGridClass`: one column below two cards, otherwise as many columns
      as cards up to four. */
  function GetGridClass(count: nat): (r: string)
    ensures r == "" <==> count < 2
    ensures count >= 2 ==> r == "response-grid-" + NatToString(if count >= 4 then 4 else count)
  {
    if count >= 4 then "response-grid-4"
    else if count >= 3 then "response-grid-3"
    else if count >= 2 then "response-grid-2"
    else ""
  }

  const ChipLimit := 25

  /** A chip shows at most 25 characters of the name, followed by `...`
      when it was cut. */
  function Truncate(name: string): string {
    if |name| > ChipLimit then name[..ChipLimit] + "..." else name
  }

  /** Truncation keeps short names, cuts long ones to their first 25
      characters plus `...`, and truncating a chip label again changes
      nothing. */
  lemma TruncateProperties(name: string)
    ensures |Truncate(name)| <= ChipLimit + 3
    ensures |name| <= ChipLimit ==> Truncate(name) == name
    ensures |name| > ChipLimit ==> name[..ChipLimit] <= Truncate(name) && Truncate(name)[ChipLimit..] == "..."
    ensures Truncate(Truncate(name)) == Truncate(name)
  {
    if |name| > ChipLimit {
      var t := Truncate(name);
      assert t[..ChipLimit] == name[..ChipLimit];
    }
  }

  /** One selected-model chip: the full display name (its tooltip) and the
      shown label. */
  datatype Chip = Chip(title: string, text: string)

  /** `updateSelectedModelsDisplay`: one chip per selected id, in selection
      order. */
  function Chips(models: seq<Model>, selected: seq<string>): (chips: seq<Chip>)
    ensures |chips| == |selected|
    ensures forall k :: 0 <= k < |selected| ==> chips[k].title == DisplayNameFor(models, selected[k])
    ensures forall k :: 0 <= k < |selected| ==> chips[k].text == Truncate(chips[k].title)
  {
    seq(|selected|, k requires 0 <= k < |selected| =>
      var title := DisplayNameFor(models, selected[k]); Chip(title, Truncate(title)))
  }

  /** A selected id the catalog no longer lists shows its raw id, and every
      chip label fits in 28 characters. */
  lemma ChipsForStaleIds(models: seq<Model>, selected: seq<string>, k: nat)
    requires k < |selected|
    ensures |Chips(models, selected)[k].text| <= ChipLimit + 3
    ensures (forall j :: 0 <= j < |models| ==> models[j].id != selected[k]) ==> Chips(models, selected)[k].title == selected[k]
  {
    TruncateProperties(Chips(models, selected)[k].title);
  }
}

/**
 * The per-deal card (client/src/components/DealsList/DealCard.jsx): the
 * stage badge's class and label, and the placeholder for a missing date.
 */
module DealCard {
  import opened JsValues
  import FilterPanel
  import Formatters

  /** `colors[stage] || 'badge-new'` */
  function GetStageColor(stage: string): (r: string)
    ensures !FilterPanel.IsKnownStage(stage) ==> r == "badge-new"
    ensures FilterPanel.IsKnownStage(stage) ==> r == "badge-" + StageSlug(stage)
  {
    if stage == "new" then "badge-new"
    else if stage == "in_progress" then "badge-in-progress"
    else if stage == "negotiation" then "badge-negotiation"
    else if stage == "won" then "badge-won"
    else if stage == "lost" then "badge-lost"
    else "badge-new"
  }

  /** The stage name as it appears in a class name: underscores become
      hyphens. */
  function StageSlug(stage: string): (r: string)
    ensures |r| == |stage|
    ensures forall i :: 0 <= i < |stage| ==> r[i] == (if stage[i] == '_' then '-' else stage[i])
  {
    seq(|stage|, i requires 0 <= i < |stage| => if stage[i] == '_' then '-' else stage[i])
  }

  /** The five known stages get five different badges. */
  lemma StageColorsDistinct(a: string, b: string)
    requires FilterPanel.IsKnownStage(a) && FilterPanel.IsKnownStage(b)
    ensures GetStageColor(a) == GetStageColor(b) <==> a == b
  {
  }

  /** `labels[stage] || stage` */
  function GetStageLabel(stage: string): (r: string)
    ensures !FilterPanel.IsKnownStage(stage) ==> r == stage
  {
    if stage == "new" then "New"
    else if stage == "in_progress" then "In Progress"
    else if stage == "negotiation" then "Negotiation"
    else if stage == "won" then "Won"
    else if stage == "lost" then "Lost"
    else stage
  }

  /** `formatDate`: 'Not set' for a missing or empty date; any other date
      goes to the date library, here the parameter `render`. */
  function FormatDate(date: Option<string>, render: string -> string): (r: string)
    ensures date.None? || date.value == "" ==> r == "Not set"
    ensures date.Some? && date.value != "" ==> r == render(date.value)
  {
    if date.None? || date.value == "" then "Not set" else render(date.value)
  }

  /** The card, the shared formatter and the filter chip give the same label
      for each known stage. */
  lemma StageLabelsAgree(stage: string)
    requires FilterPanel.IsKnownStage(stage)
    ensures GetStageLabel(stage) == Formatters.FormatStageLabel(stage)
    ensures FilterPanel.StageChipLabel(stage) == Some(GetStageLabel(stage))
  {
    FilterPanel.DealStagesAreKnown();
    assert FilterPanel.DealStages[0].value == "new";
  }

  /** For an unknown stage the card and the shared formatter part ways: the
      card shows the raw value, the formatter capitalises it, and an empty
      stage is '' on the card but 'Unknown' in the formatter. */
  lemma StageLabelsDiverge()
    ensures GetStageLabel("closed") == "closed"
    ensures Formatters.FormatStageLabel("closed") == "Closed"
    ensures GetStageLabel("") == "" && Formatters.FormatStageLabel("") == "Unknown"
  {
    assert !FilterPanel.IsKnownStage("closed");
    assert Formatters.StageMapLabel("closed").None?;
    var r := Formatters.FormatStageLabel("closed");
    assert r[1..] == "losed";
  }
}

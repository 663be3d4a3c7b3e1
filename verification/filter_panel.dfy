/**
 * The filter panel (client/src/components/FilterPanel/FilterPanel.jsx): the
 * five-field filter record the page holds, the record update a control
 * makes, whether any filter is active, the removable chips, and the stage
 * options.
 */
module FilterPanel {
  import opened JsValues

  /** The filter record: one string per control, '' when unset. */
  datatype FilterState = FilterState(
    stage: string,
    minValue: string,
    maxValue: string,
    startDate: string,
    endDate: string)

  /** The record's keys, in declaration order. */
  datatype FilterKey = StageKey | MinValueKey | MaxValueKey | StartDateKey | EndDateKey

  /** The record with every filter unset. */
  const Cleared: FilterState := FilterState("", "", "", "", "")

  /** `filters[key]` */
  function Get(s: FilterState, k: FilterKey): string
  {
    match k
    case StageKey => s.stage
    case MinValueKey => s.minValue
    case MaxValueKey => s.maxValue
    case StartDateKey => s.startDate
    case EndDateKey => s.endDate
  }

  /** `Object.values(filters)`: the values in key order. */
  function Values(s: FilterState): (vs: seq<string>)
    ensures |vs| == 5
  {
    [s.stage, s.minValue, s.maxValue, s.startDate, s.endDate]
  }

  /** `{ ...filters, [key]: value }`: the record handed to the page. */
  function WithFilter(s: FilterState, k: FilterKey, v: string): (r: FilterState)
    ensures Get(r, k) == v
    ensures forall j :: j != k ==> Get(r, j) == Get(s, j)
  {
    match k
    case StageKey => s.(stage := v)
    case MinValueKey => s.(minValue := v)
    case MaxValueKey => s.(maxValue := v)
    case StartDateKey => s.(startDate := v)
    case EndDateKey => s.(endDate := v)
  }

  /** Two records that agree on every key are the same record. */
  lemma Extensional(s: FilterState, t: FilterState)
    requires forall k :: Get(s, k) == Get(t, k)
    ensures s == t
  {
    assert Get(s, StageKey) == Get(t, StageKey);
    assert Get(s, MinValueKey) == Get(t, MinValueKey);
    assert Get(s, MaxValueKey) == Get(t, MaxValueKey);
    assert Get(s, StartDateKey) == Get(t, StartDateKey);
    assert Get(s, EndDateKey) == Get(t, EndDateKey);
  }

  /** A second change of the same control overrides the first. */
  lemma WithFilterOverrides(s: FilterState, k: FilterKey, v: string, w: string)
    ensures WithFilter(WithFilter(s, k, v), k, w) == WithFilter(s, k, w)
  {
    Extensional(WithFilter(WithFilter(s, k, v), k, w), WithFilter(s, k, w));
  }

  /** Changes of two different controls do not interfere. */
  lemma WithFilterCommutes(s: FilterState, k: FilterKey, v: string, j: FilterKey, w: string)
    requires j != k
    ensures WithFilter(WithFilter(s, k, v), j, w) == WithFilter(WithFilter(s, j, w), k, v)
  {
    Extensional(WithFilter(WithFilter(s, k, v), j, w), WithFilter(WithFilter(s, j, w), k, v));
  }

  /** `vs.some(filter => filter !== '')` */
  function SomeNonEmpty(vs: seq<string>): (r: bool)
    ensures r <==> exists i :: 0 <= i < |vs| && vs[i] != ""
  {
    if vs == [] then false
    else vs[0] != "" || SomeNonEmpty(vs[1..])
  }

  /** `hasActiveFilters`: some filter value is not ''. */
  function HasActiveFilters(s: FilterState): (r: bool)
    ensures r <==> exists k :: Get(s, k) != ""
  {
    var vs := Values(s);
    assert vs[0] == Get(s, StageKey) && vs[1] == Get(s, MinValueKey) && vs[2] == Get(s, MaxValueKey)
      && vs[3] == Get(s, StartDateKey) && vs[4] == Get(s, EndDateKey);
    SomeNonEmpty(vs)
  }

  /** `filters.<key> && (chip)`: a chip is rendered for a truthy value. */
  predicate ChipVisible(s: FilterState, k: FilterKey)
  {
    Get(s, k) != ""
  }

  /** The chip's close button: `handleFilterChange(key, '')`. */
  function RemoveChip(s: FilterState, k: FilterKey): (r: FilterState)
    ensures !ChipVisible(r, k)
    ensures forall j :: j != k ==> Get(r, j) == Get(s, j)
  {
    WithFilter(s, k, "")
  }

  /** The chip row is shown exactly when at least one chip is, and removing
      every shown chip clears the panel. */
  lemma ChipsMatchActive(s: FilterState)
    ensures HasActiveFilters(s) <==> exists k :: ChipVisible(s, k)
    ensures !HasActiveFilters(Cleared)
  {
    if HasActiveFilters(s) {
      var k :| Get(s, k) != "";
      assert ChipVisible(s, k);
    }
    if exists k :: ChipVisible(s, k) {
      var k :| ChipVisible(s, k);
      assert Get(s, k) != "";
    }
    assert Get(Cleared, StageKey) == "";
  }

  /** Removing the chip of the only active filter leaves no filter active. */
  lemma RemoveLastChip(s: FilterState, k: FilterKey)
    requires forall j :: j != k ==> !ChipVisible(s, j)
    ensures RemoveChip(s, k) == Cleared
  {
    forall j
      ensures Get(RemoveChip(s, k), j) == Get(Cleared, j)
    {
      if j != k {
        assert !ChipVisible(s, j);
      }
    }
    Extensional(RemoveChip(s, k), Cleared);
  }

  /** One entry of `DEAL_STAGES`. */
  datatype StageOption = StageOption(value: string, labelText: string)

  /** `DEAL_STAGES`: the options of the stage select, in display order. */
  const DealStages: seq<StageOption> := [
    StageOption("new", "New"),
    StageOption("in_progress", "In Progress"),
    StageOption("negotiation", "Negotiation"),
    StageOption("won", "Won"),
    StageOption("lost", "Lost")
  ]

  /** The stage values the backend knows. */
  predicate IsKnownStage(stage: string)
  {
    stage == "new" || stage == "in_progress" || stage == "negotiation" || stage == "won" || stage == "lost"
  }

  /** `options.find(s => s.value === stage)?.label`: the label of the first
      option with that value, if any. */
  function FindLabel(options: seq<StageOption>, stage: string): (r: Option<string>)
    ensures r.Some? <==> exists i :: 0 <= i < |options| && options[i].value == stage
    ensures r.Some? ==> exists i :: 0 <= i < |options| && options[i].value == stage
                                   && options[i].labelText == r.value
                                   && forall j :: 0 <= j < i ==> options[j].value != stage
  {
    if options == [] then None
    else if options[0].value == stage then Some(options[0].labelText)
    else
      var r := FindLabel(options[1..], stage);
      if r.Some? then
        ghost var i :| 0 <= i < |options[1..]| && options[1..][i].value == stage
                       && options[1..][i].labelText == r.value
                       && forall j :: 0 <= j < i ==> options[1..][j].value != stage;
        assert options[i + 1].value == stage && options[i + 1].labelText == r.value;
        r
      else r
  }

  /** The stage chip's label. */
  function StageChipLabel(stage: string): Option<string>
  {
    FindLabel(DealStages, stage)
  }

  /** The stage options are exactly the five known stages, each listed once. */
  lemma DealStagesAreKnown()
    ensures |DealStages| == 5
    ensures forall i :: 0 <= i < |DealStages| ==> IsKnownStage(DealStages[i].value)
    ensures forall stage :: IsKnownStage(stage) ==> exists i :: 0 <= i < |DealStages| && DealStages[i].value == stage
    ensures forall i, j :: 0 <= i < j < |DealStages| ==> DealStages[i].value != DealStages[j].value
  {
    forall stage | IsKnownStage(stage)
      ensures exists i :: 0 <= i < |DealStages| && DealStages[i].value == stage
    {
      if stage == "new" { assert DealStages[0].value == stage; }
      else if stage == "in_progress" { assert DealStages[1].value == stage; }
      else if stage == "negotiation" { assert DealStages[2].value == stage; }
      else if stage == "won" { assert DealStages[3].value == stage; }
      else { assert DealStages[4].value == stage; }
    }
  }

  /** A stage chip has a label exactly for the five known stages; any other
      value renders an empty label. */
  lemma StageChipLabelDefined(stage: string)
    ensures StageChipLabel(stage).Some? <==> IsKnownStage(stage)
  {
    DealStagesAreKnown();
  }
}

/** The `DoctorRecommendations` card: the guard in front of the hook, the
    `hasSearched` flag, and the pure mappings the card renders with (badge
    variant and label, the specialization label, the schedule hint, and which
    panels show). */
module RecommendationsPanel {
  import opened Wrappers
  import opened Text
  import opened RecommendDoctor
  import opened RecommendationHook

  /** The badge variants `getPriorityColor` chooses from. */
  datatype BadgeVariant = Destructive | DefaultVariant | Secondary | Outline

  /** `getPriorityColor(priority)`: `switch (priority?.toLowerCase())` over "high",
      "medium" and "low"; anything else, an absent priority included, is
      `outline`. */
  function PriorityVariant(priority: Option<string>): (v: BadgeVariant)
    ensures v == Destructive <==> priority.Some? && ToLower(priority.value) == "high"
    ensures v == DefaultVariant <==> priority.Some? && ToLower(priority.value) == "medium"
    ensures v == Secondary <==> priority.Some? && ToLower(priority.value) == "low"
    ensures v == Outline <==>
              priority.None? ||
              (ToLower(priority.value) != "high" && ToLower(priority.value) != "medium" &&
               ToLower(priority.value) != "low")
  {
    if priority.None? then Outline
    else
      var p := ToLower(priority.value);
      if p == "high" then Destructive
      else if p == "medium" then DefaultVariant
      else if p == "low" then Secondary
      else Outline
  }

  /** The variant does not depend on letter case. */
  lemma PriorityVariantIgnoresCase(p: string)
    ensures PriorityVariant(Some(p)) == PriorityVariant(Some(ToLower(p)))
  {
    ToLowerIdempotent(p);
  }

  /** `doctor.priority || 'Recommended'`: the badge always has a label. */
  function BadgeLabel(priority: Option<string>): (shown: string)
    ensures shown != ""
    ensures priority.Some? && priority.value != "" ==> shown == priority.value
    ensures priority.None? || priority.value == "" ==> shown == "Recommended"
  {
    if priority.Some? && priority.value != "" then priority.value else "Recommended"
  }

  /** `s.replace(/_/g, ' ')`: every underscore becomes a space, everything else
      stays where it is. */
  function ReplaceUnderscores(s: string): (r: string)
    ensures |r| == |s|
    ensures forall i :: 0 <= i < |s| ==> r[i] == if s[i] == '_' then ' ' else s[i]
  {
    if s == [] then []
    else [if s[0] == '_' then ' ' else s[0]] + ReplaceUnderscores(s[1..])
  }

  /** On text without spaces the replacement loses nothing: two such texts with
      the same label are the same text. */
  lemma ReplaceUnderscoresInjective(a: string, b: string)
    requires ' ' !in a && ' ' !in b
    requires ReplaceUnderscores(a) == ReplaceUnderscores(b)
    ensures a == b
  {
    var ra, rb := ReplaceUnderscores(a), ReplaceUnderscores(b);
    forall i | 0 <= i < |a| ensures a[i] == b[i] {
      assert ra[i] == rb[i];
      assert a[i] != ' ' && b[i] != ' ';
    }
  }

  /** The specialization as the card shows it. */
  function SpecializationLabel(s: Specialization): (shown: string)
    ensures |shown| == |SpecializationName(s)|
    ensures '_' !in shown
  {
    ReplaceUnderscores(SpecializationName(s))
  }

  /** Distinct specializations are shown under distinct labels. */
  lemma SpecializationLabelsDistinct(x: Specialization, y: Specialization)
    requires SpecializationLabel(x) == SpecializationLabel(y)
    ensures x == y
  {
    SpecializationNameRoundTrip(x);
    SpecializationNameRoundTrip(y);
    ReplaceUnderscoresInjective(SpecializationName(x), SpecializationName(y));
  }

  /** `doctor.next_available || 'Check schedule'`. */
  function ScheduleLabel(nextAvailable: string): (shown: string)
    ensures shown != ""
    ensures nextAvailable != "" ==> shown == nextAvailable
    ensures nextAvailable == "" ==> shown == "Check schedule"
  {
    if nextAvailable != "" then nextAvailable else "Check schedule"
  }

  /** The colour of the schedule line: `is_available ? green : orange`. */
  function ScheduleColour(isAvailable: Option<bool>): (colour: string)
    ensures colour == "text-green-600" || colour == "text-orange-600"
    ensures colour == "text-green-600" <==> isAvailable == Some(true)
  {
    if isAvailable == Some(true) then "text-green-600" else "text-orange-600"
  }

  /** For every recommendation the edge function assembles, the schedule line
      reads "Available now" exactly when it is green, and "Check schedule"
      otherwise. */
  lemma ScheduleLineAgrees(doctors: seq<DoctorRow>, entries: seq<Entry>, r: Recommendation)
    requires Assemble(doctors, entries).Some? && r in Assemble(doctors, entries).value
    ensures ScheduleLabel(r.nextAvailable) == "Available now" <==> ScheduleColour(r.isAvailable) == "text-green-600"
    ensures ScheduleLabel(r.nextAvailable) == (if r.isAvailable == Some(true) then "Available now" else "Check schedule")
  {
    AssembleIsFilterThenJoin(doctors, entries);
    var kept := Seqs.Filter(entries, Resolvable(doctors));
    var j :| 0 <= j < |kept| && Joined(doctors, kept)[j] == r;
    assert r.nextAvailable == NextAvailable(r.isAvailable);
  }

  /** Letter case is ignored for all three known priorities, and an unknown or
      absent priority gets the outline badge. */
  lemma PriorityVariantExamples()
    ensures PriorityVariant(Some("LOW")) == Secondary
    ensures PriorityVariant(Some("Urgent")) == Outline
    ensures PriorityVariant(None) == Outline
  {
    assert ToLower("LOW") == "low";
    assert ToLower("Urgent") == "urgent";
  }

  /** The two priorities the fallback ranking writes, as badges. */
  lemma FallbackPriorityVariants()
    ensures PriorityVariant(Some("High")) == Destructive
    ensures PriorityVariant(Some("Medium")) == DefaultVariant
  {
    assert ToLower("High") == "high";
    assert ToLower("Medium") == "medium";
  }

  /** The fallback ranking's badges: red for the first doctor, the default
      colour for the others, each labelled with its priority. */
  lemma FallbackBadges(doctors: seq<DoctorRow>)
    ensures var recs := Assemble(doctors, Fallback(doctors)).value;
            forall i :: 0 <= i < |recs| ==>
              PriorityVariant(recs[i].priority) == (if i == 0 then Destructive else DefaultVariant) &&
              BadgeLabel(recs[i].priority) == (if i == 0 then "High" else "Medium")
  {
    FallbackAssembles(doctors);
    var recs := Assemble(doctors, Fallback(doctors)).value;
    FallbackPriorityVariants();
    forall i | 0 <= i < |recs|
      ensures PriorityVariant(recs[i].priority) == (if i == 0 then Destructive else DefaultVariant)
      ensures BadgeLabel(recs[i].priority) == (if i == 0 then "High" else "Medium")
    {
      assert recs[i].priority == Some(if i == 0 then "High" else "Medium");
    }
  }

  /** `isLoading || !patientConditions.length`. */
  function TriggerDisabled(isLoading: bool, conditions: seq<string>): (disabled: bool)
    ensures !disabled <==> !isLoading && conditions != []
  {
    isLoading || |conditions| == 0
  }

  /** A JavaScript string value that is `null` or empty tests false. */
  predicate Truthy(s: Option<string>) {
    s.Some? && s.value != ""
  }

  /** The error box: after a search, when there is an error. */
  function ErrorPanelVisible(hasSearched: bool, error: Option<string>): (visible: bool)
    ensures visible <==> hasSearched && error.Some? && error.value != ""
  {
    hasSearched && Truthy(error)
  }

  /** The "No recommendations available" box: after a search, not loading, with
      no recommendations and no error. It never shows together with the error
      box. */
  function EmptyStateVisible(hasSearched: bool, isLoading: bool, recs: seq<Recommendation>, error: Option<string>): (visible: bool)
    ensures visible <==> hasSearched && !isLoading && recs == [] && (error.None? || error.value == "")
    ensures visible ==> !ErrorPanelVisible(hasSearched, error)
  {
    hasSearched && !isLoading && |recs| == 0 && !Truthy(error)
  }

  class Panel {
    const hook: Hook
    var hasSearched: bool

    /** The card as first rendered: nothing searched, the hook in its initial
        state. */
    constructor ()
      ensures fresh(hook) && !hasSearched
      ensures hook.recommendations == [] && !hook.isLoading && hook.error.None?
    {
      hook := new Hook();
      hasSearched := false;
    }

    /** `handleGetRecommendations`: with no conditions (missing or empty) nothing
        is requested and nothing changes; otherwise the card is marked searched
        and the hook runs. When no call is in flight, a click requests exactly
        when the trigger button is enabled, so the guard and the button agree. After a request the empty-state box shows exactly when
        the function delivered no recommendations, and the error box exactly when
        the call threw, in which case the previous list stays on screen. */
    method HandleGetRecommendations(conditions: Option<seq<string>>, isRareCase: bool, outcome: Invocation)
      returns (requested: bool)
      modifies this, hook
      ensures requested <==> conditions.Some? && |conditions.value| > 0
      ensures conditions.Some? ==> (requested <==> !TriggerDisabled(false, conditions.value))
      ensures !requested ==>
                hasSearched == old(hasSearched) &&
                hook.recommendations == old(hook.recommendations) &&
                hook.isLoading == old(hook.isLoading) && hook.error == old(hook.error)
      ensures requested ==> hasSearched && !hook.isLoading
      ensures requested && outcome.Delivered? ==>
                hook.recommendations == DeliveredList(outcome.recommendations) && hook.error.None?
      ensures requested && outcome.Thrown? ==>
                hook.recommendations == old(hook.recommendations) &&
                hook.error == Some(ErrorText(outcome.message))
      ensures requested ==>
                (EmptyStateVisible(hasSearched, hook.isLoading, hook.recommendations, hook.error) <==>
                   outcome.Delivered? && DeliveredList(outcome.recommendations) == []) &&
                (ErrorPanelVisible(hasSearched, hook.error) <==> outcome.Thrown?)
    {
      if conditions.None? || |conditions.value| == 0 {
        return false;
      }
      hasSearched := true;
      var results := hook.GetRecommendations(conditions.value, isRareCase, outcome);
      requested := true;
    }
  }
}

/** The `useDoctorRecommendation` hook: three pieces of state (the last list of
    recommendations, whether a request is in flight, and the last error) and the
    `getRecommendations` call that moves them through start, success or failure,
    and the final `finally`. The call to the edge function is an input: its
    outcome is `Invocation`. Calls are taken one at a time. */
module RecommendationHook {
  import opened Wrappers
  import opened RecommendDoctor

  /** How `supabase.functions.invoke` ended, as the hook sees it: with data whose
      `recommendations` field is an array or is not, or by something being thrown
      (the returned `error`, or a `TypeError` on missing data) whose `message` may
      be absent or empty. */
  datatype Invocation =
    | Delivered(recommendations: Option<seq<Recommendation>>)
    | Thrown(message: Option<string>)

  const DefaultError := "Failed to get recommendations"

  /** `data.recommendations || []`: an array, even an empty one, is kept. */
  function DeliveredList(recs: Option<seq<Recommendation>>): (r: seq<Recommendation>)
    ensures recs.Some? ==> r == recs.value
    ensures recs.None? ==> r == []
  {
    recs.GetOr([])
  }

  /** `err.message || 'Failed to get recommendations'`: the message, unless it is
      absent or empty. The error shown is never empty. */
  function ErrorText(message: Option<string>): (t: string)
    ensures t != ""
    ensures message.Some? && message.value != "" ==> t == message.value
    ensures message.None? || message.value == "" ==> t == DefaultError
  {
    if message.Some? && message.value != "" then message.value else DefaultError
  }

  class Hook {
    var recommendations: seq<Recommendation>
    var isLoading: bool
    var error: Option<string>

    /** The initial state: no recommendations, not loading, no error. */
    constructor ()
      ensures recommendations == [] && !isLoading && error.None?
    {
      recommendations := [];
      isLoading := false;
      error := None;
    }

    /** The start of a call: loading, the error cleared, the previous list kept on
        screen. */
    method Begin()
      modifies this
      ensures isLoading && error.None?
      ensures recommendations == old(recommendations)
    {
      isLoading := true;
      error := None;
    }

    /** The `try`/`catch`/`finally` after the invocation: on data the list is
        replaced and returned; on a throw the error is set, `[]` is returned and
        the list is left as it was; in both cases loading ends. */
    method Settle(outcome: Invocation) returns (result: seq<Recommendation>)
      modifies this
      ensures !isLoading
      ensures outcome.Delivered? ==>
                recommendations == DeliveredList(outcome.recommendations) &&
                result == recommendations && error == old(error)
      ensures outcome.Thrown? ==>
                error == Some(ErrorText(outcome.message)) && result == [] &&
                recommendations == old(recommendations)
    {
      if outcome.Delivered? {
        recommendations := DeliveredList(outcome.recommendations);
        result := recommendations;
      } else {
        error := Some(ErrorText(outcome.message));
        result := [];
      }
      isLoading := false;
    }

    /** `getRecommendations(patientConditions, isRareCase)`. The arguments only go
        into the request body, so the outcome alone decides the new state. */
    method GetRecommendations(conditions: seq<string>, isRareCase: bool, outcome: Invocation)
      returns (result: seq<Recommendation>)
      modifies this
      ensures !isLoading
      ensures outcome.Delivered? ==>
                recommendations == DeliveredList(outcome.recommendations) &&
                result == recommendations && error.None?
      ensures outcome.Thrown? ==>
                error == Some(ErrorText(outcome.message)) && result == [] &&
                recommendations == old(recommendations)
      ensures error.Some? <==> outcome.Thrown?
    {
      Begin();
      result := Settle(outcome);
    }
  }
}

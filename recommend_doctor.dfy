/** The `recommend-doctor` edge function. It reads every doctor row, asks the AI
    gateway to rank them, recovers a JSON object from the reply text, and joins
    each suggestion back to `doctors[doctor_index]`. It falls back to a fixed
    ranking only when the extraction and parsing step throws: when `JSON.parse`
    rejects the text, or when the reply's content is not a string, so that
    calling `.match` on it throws inside the same `try`.

    The two network calls are inputs: the doctor query's outcome (`DoctorQuery`)
    and the gateway's answer (`Gateway`). `JSON.parse` is the uninterpreted partial
    function `parse`, which returns `None` where the real one throws. */
module RecommendDoctor {
  import opened Wrappers
  import opened Text
  import Seqs

  /** The `doctor_specialization` enum of the database. */
  datatype Specialization =
    | Cardiology | Neurology | Orthopedics | Pediatrics | Psychiatry
    | Dermatology | Oncology | GeneralMedicine | EmergencyMedicine | InternalMedicine

  /** The enum value as the database and the response spell it. */
  function SpecializationName(s: Specialization): string {
    match s
    case Cardiology => "cardiology"
    case Neurology => "neurology"
    case Orthopedics => "orthopedics"
    case Pediatrics => "pediatrics"
    case Psychiatry => "psychiatry"
    case Dermatology => "dermatology"
    case Oncology => "oncology"
    case GeneralMedicine => "general_medicine"
    case EmergencyMedicine => "emergency_medicine"
    case InternalMedicine => "internal_medicine"
  }

  /** Reading an enum value back from its spelling. */
  function ParseSpecialization(name: string): Option<Specialization> {
    if name == "cardiology" then Some(Cardiology)
    else if name == "neurology" then Some(Neurology)
    else if name == "orthopedics" then Some(Orthopedics)
    else if name == "pediatrics" then Some(Pediatrics)
    else if name == "psychiatry" then Some(Psychiatry)
    else if name == "dermatology" then Some(Dermatology)
    else if name == "oncology" then Some(Oncology)
    else if name == "general_medicine" then Some(GeneralMedicine)
    else if name == "emergency_medicine" then Some(EmergencyMedicine)
    else if name == "internal_medicine" then Some(InternalMedicine)
    else None
  }

  /** Every spelling reads back as its value, so no two values share a spelling;
      and no spelling holds a space. */
  lemma SpecializationNameRoundTrip(s: Specialization)
    ensures ParseSpecialization(SpecializationName(s)) == Some(s)
    ensures ' ' !in SpecializationName(s)
  {
  }

  /** The joined `profiles` row (`full_name`, `email`). */
  datatype Profile = Profile(fullName: string, email: string)

  /** The `profiles` field of a query row: one object (possibly missing), or an
      array of rows. */
  datatype ProfileField = ProfileObject(profile: Option<Profile>) | ProfileArray(rows: seq<Profile>)

  /** A row of the doctor query. Nullable columns are `Option`s; `rating` is the
      numeric column's value. */
  datatype DoctorRow = DoctorRow(
    id: string,
    userId: string,
    specialization: Specialization,
    experienceYears: int,
    rating: Option<real>,
    isAvailable: Option<bool>,
    rareCasesHandled: Option<int>,
    totalPatientsHandled: Option<int>,
    bio: Option<string>,
    profiles: ProfileField)

  /** The outcome of the doctor query: an error, or the rows (a `null` data field
      reads as no rows). */
  datatype DoctorQuery = QueryFailed | Rows(rows: seq<DoctorRow>)

  /** The reply body of the AI gateway, as far as the handler looks into it. */
  datatype Body =
    | Unreadable      // not JSON, or `choices[0].message` cannot be read
    | NonTextContent  // `choices[0].message.content` is not a string
    | TextContent(text: string)

  /** The AI gateway call: `fetch` rejects, or it answers with a status and a body. */
  datatype Gateway = FetchFailed(message: string) | Answered(status: nat, body: Body)

  /** One element of the parsed `recommendations` array. `Nullish` is a `null` or
      `undefined` element; any other element reads as a suggestion. Its
      `doctor_index` is the integer `doctors[rec.doctor_index]` looks up, so an
      index written as a numeric string such as "2" is `Some(2)` here (`parse`
      decides that), and `None` stands for a value that names no array position
      at all, such as an absent key. */
  datatype Entry =
    | Nullish
    | Suggestion(doctorIndex: Option<int>, matchScore: int, reason: string, priority: Option<string>)

  /** What `JSON.parse` returned, through the one property the handler reads:
      `recommendations` is an array, or it is not (absent, not an array, or the
      parsed value is not an object). */
  datatype Reply = Reply(recommendations: Option<seq<Entry>>)

  /** One assembled recommendation, the response's element type. */
  datatype Recommendation = Recommendation(
    doctorId: string,
    doctorName: string,
    specialization: Specialization,
    experienceYears: int,
    rating: real,
    isAvailable: Option<bool>,
    rareCasesHandled: Option<int>,
    matchScore: int,
    reason: string,
    priority: Option<string>,
    nextAvailable: string)

  /** Why the handler answered with status 500. */
  datatype Failure =
    | MissingApiKey
    | DoctorQueryFailed
    | MissingProfile          // TypeError reading `full_name` of a `null` profile for the prompt
    | GatewayUnreachable(message: string)
    | GatewayStatus(status: nat)
    | MalformedGatewayReply   // TypeError reading `choices[0].message.content`
    | MissingRecommendations  // TypeError calling `.map` on a non-array
    | NullSuggestion          // TypeError reading `doctor_index` of `null`

  /** The handler's answer: status 200 with a list (and an optional message), or
      status 500 with an error. */
  datatype Response =
    | Success(recommendations: seq<Recommendation>, message: Option<string>)
    | ServerError(failure: Failure)

  function StatusCode(r: Response): (code: nat)
    ensures code == 200 || code == 500
    ensures code == 200 <==> r.Success?
  {
    if r.Success? then 200 else 500
  }

  /** The `error` text of a 500 answer, where the function itself decides it;
      `None` where the runtime or the database client supplies the text. */
  function ErrorMessage(f: Failure): (m: Option<string>)
    ensures f == MissingApiKey ==> m == Some("LOVABLE_API_KEY is not configured")
    ensures f.GatewayUnreachable? ==> m == Some(f.message)
    ensures f.GatewayStatus? ==>
              m.Some? && |m.value| > 14 && m.value[..14] == "AI API error: " &&
              AllDigits(m.value[14..]) && DigitsValue(m.value[14..]) == f.status &&
              (m.value[14] == '0' ==> |m.value| == 15)
    ensures m.None? <==> !(f.MissingApiKey? || f.GatewayUnreachable? || f.GatewayStatus?)
  {
    match f
    case MissingApiKey => Some("LOVABLE_API_KEY is not configured")
    case GatewayUnreachable(m) => Some(m)
    case GatewayStatus(s) =>
      var digits := DecimalString(s);
      DecimalRoundTrip(s);
      assert ("AI API error: " + digits)[14..] == digits;
      Some("AI API error: " + digits)
    case _ => None
  }

  const NoDoctorsMessage := "No doctors available"
  const FallbackReason := "Recommended based on specialization and experience"
  const Fence := "```json"
  const Ticks := "```"

  // ---------------------------------------------------------------------------
  // Extraction of the JSON text from the model's reply

  /** A span `[from, to)` of the reply. */
  datatype Span = Span(from: nat, to: nat)

  /** A regular-expression match: the span `[start, end)` of the whole match and,
      for a pattern with a capture group, the span the group is read from. */
  datatype RegexMatch = RegexMatch(start: nat, end: nat, group: Option<Span>)

  /** The first `open` and the first `close` after it; the match spans both, and the
      group is read from the text in between. */
  function Delimited(s: string, open: string, close: string): (r: Option<RegexMatch>)
    ensures r.Some? ==> r.value.start <= r.value.end <= |s|
    ensures r.Some? ==> r.value.group.Some? &&
                        r.value.start <= r.value.group.value.from <= r.value.group.value.to <= r.value.end
  {
    match IndexFrom(s, open, 0)
    case None => None
    case Some(p) =>
      match IndexFrom(s, close, p + |open|)
      case None => None
      case Some(c) => Some(RegexMatch(p, Past(c, close), Some(Span(Past(p, open), c))))
  }

  /** The position just past `t` when `t` is found at `i`. A function of its own
      so that the solver does not unfold the sum inside the match records it
      compares, which makes the extraction proofs much cheaper. */
  function Past(i: nat, t: string): nat {
    i + |t|
  }

  /** ``/```json\s*([\s\S]*?)\s*```/``: from the first ```` ```json ```` to the first
      ```` ``` ```` after it. The lazy group with white space on both sides captures
      the text in between, trimmed (see `GroupText`). */
  function FenceMatch(s: string): (r: Option<RegexMatch>)
    ensures r.Some? ==> r.value.start <= r.value.end <= |s|
    ensures r.Some? ==> r.value.group.Some? &&
                        r.value.start <= r.value.group.value.from <= r.value.group.value.to <= r.value.end
  {
    Delimited(s, Fence, Ticks)
  }

  /** `/\{[\s\S]*\}/`: greedy, so from the first `{` to the last `}` after it. */
  function BraceMatch(s: string): (r: Option<RegexMatch>)
    ensures r.Some? ==> r.value.start <= r.value.end <= |s| && r.value.group.None?
  {
    match (IndexFrom(s, "{", 0), LastIndexOf(s, '}'))
    case (Some(i), Some(j)) => if i < j then Some(RegexMatch(i, j + 1, None)) else None
    case _ => None
  }

  /** The text of a capture group: the spaces around it belong to the `\s*` on
      either side, so the group is the span's text, trimmed. */
  function GroupText(s: string, g: Span): (t: string)
    requires g.from <= g.to <= |s|
    ensures |t| <= g.to - g.from
    ensures t == [] || (!IsSpace(t[0]) && !IsSpace(t[|t| - 1]))
  {
    TrimSpec(s[g.from..g.to]);
    Trim(s[g.from..g.to])
  }

  /** The text handed to `JSON.parse`: the fence's group (or, when the group is
      empty and so falsy, the whole fence), else the brace span, else the whole
      reply; trimmed. */
  function JsonCandidate(s: string): (r: string)
    ensures |r| <= |s|
  {
    var m := if FenceMatch(s).Some? then FenceMatch(s) else BraceMatch(s);
    var text :=
      match m
      case None => s
      case Some(RegexMatch(start, end, None)) => s[start..end]
      case Some(RegexMatch(start, end, Some(g))) =>
        if GroupText(s, g) != "" then GroupText(s, g) else s[start..end];
    Trim(text)
  }

  /** A text with no backtick has no fence in it. */
  lemma NoFenceWithoutBackticks(s: string)
    requires '`' !in s
    ensures FenceMatch(s).None?
  {
    NoOccurrence(s, Fence);
  }

  /** The first `{` of `pre + mid + post` is the first of `mid` when `pre` has none. */
  lemma FirstBraceAfter(pre: string, mid: string, post: string)
    requires '{' !in pre && mid != [] && mid[0] == '{'
    ensures IndexFrom(pre + mid + post, "{", 0) == Some(|pre|)
  {
    assert [] + pre + "{" + (mid[1..] + post) == pre + mid + post;
    FindAfter([], pre, "{", mid[1..] + post);
  }

  /** The last `}` of `pre + mid + post` is the last of `mid` when `post` has none. */
  lemma LastBraceBefore(pre: string, mid: string, post: string)
    requires '}' !in post && mid != [] && mid[|mid| - 1] == '}'
    ensures LastIndexOf(pre + mid + post, '}') == Some(|pre| + |mid| - 1)
  {
    var s := pre + mid + post;
    var k := |pre| + |mid| - 1;
    assert s[k] == '}';
    forall j | k < j < |s| ensures s[j] != '}' {
      assert s[j] == post[j - |pre| - |mid|];
    }
    LastIndexOfAt(s, '}', k);
  }

  /** A bare JSON object (braces at both ends, no backtick) is passed on unchanged. */
  lemma BareObjectUnchanged(json: string)
    requires |json| >= 2 && json[0] == '{' && json[|json| - 1] == '}'
    requires '`' !in json
    ensures JsonCandidate(json) == json
  {
    NoFenceWithoutBackticks(json);
    assert [] + json + [] == json;
    FirstBraceAfter([], json, []);
    LastBraceBefore([], json, []);
    assert json[0..|json|] == json;
    TrimUnpadded(json);
  }

  /** Wrapper invariance: prose around a JSON object, with no `{` before it, no `}`
      after it and no backtick anywhere, is stripped, so `JSON.parse` sees the bare
      object. */
  lemma ProseAroundObject(pre: string, json: string, post: string)
    requires |json| >= 2 && json[0] == '{' && json[|json| - 1] == '}'
    requires '`' !in pre && '`' !in json && '`' !in post
    requires '{' !in pre && '}' !in post
    ensures JsonCandidate(pre + json + post) == json
  {
    var s := pre + json + post;
    forall i | 0 <= i < |s| ensures s[i] != '`' {
      if i < |pre| {
        assert s[i] == pre[i];
      } else if i < |pre| + |json| {
        assert s[i] == json[i - |pre|];
      } else {
        assert s[i] == post[i - |pre| - |json|];
      }
    }
    NoFenceWithoutBackticks(s);
    FirstBraceAfter(pre, json, post);
    LastBraceBefore(pre, json, post);
    assert s[|pre|..|pre| + |json|] == json;
    TrimUnpadded(json);
  }

  /** Whatever branch is taken, the text handed to `JSON.parse` neither starts nor
      ends with white space. */
  lemma JsonCandidateTrimmed(s: string)
    ensures var r := JsonCandidate(s);
            r == [] || (!IsSpace(r[0]) && !IsSpace(r[|r| - 1]))
  {
    var m := if FenceMatch(s).Some? then FenceMatch(s) else BraceMatch(s);
    var text :=
      match m
      case None => s
      case Some(RegexMatch(start, end, None)) => s[start..end]
      case Some(RegexMatch(start, end, Some(g))) =>
        if GroupText(s, g) != "" then GroupText(s, g) else s[start..end];
    assert JsonCandidate(s) == Trim(text);
    TrimSpec(text);
  }

  /** With neither a fence nor a `{`, the whole reply is parsed, trimmed. */
  lemma WholeTextWhenUndelimited(s: string)
    requires '`' !in s && '{' !in s
    ensures JsonCandidate(s) == Trim(s)
  {
    NoFenceWithoutBackticks(s);
    NoOccurrence(s, "{");
  }

  /** With no backtick in `pre`, the fence opens right after `pre`. */
  lemma FenceOpens(pre: string, body: string, post: string)
    requires '`' !in pre
    ensures IndexFrom(pre + (Fence + body + Ticks) + post, Fence, 0) == Some(|pre|)
  {
    assert [] + pre + Fence + (body + Ticks + post) == pre + (Fence + body + Ticks) + post;
    FindAfter([], pre, Fence, body + Ticks + post);
  }

  /** With no backtick in `body`, the fence closes right after `body`. */
  lemma FenceCloses(pre: string, body: string, post: string)
    requires '`' !in body
    ensures IndexFrom(pre + (Fence + body + Ticks) + post, Ticks, Past(|pre|, Fence)) ==
            Some(Past(Past(|pre|, Fence), body))
  {
    var a := pre + Fence;
    assert a + body + Ticks + post == pre + (Fence + body + Ticks) + post;
    assert Past(|pre|, Fence) == |a| && Past(Past(|pre|, Fence), body) == |a| + |body|;
    FindAfter(a, body, Ticks, post);
  }

  /** Where the body and the whole fence sit in the reply. */
  lemma FenceSlices(pre: string, body: string, post: string)
    ensures var s := pre + (Fence + body + Ticks) + post;
            var c := Past(Past(|pre|, Fence), body);
            Past(|pre|, Fence) <= c && Past(c, Ticks) <= |s| &&
            s[Past(|pre|, Fence)..c] == body && s[|pre|..Past(c, Ticks)] == Fence + body + Ticks
  {
    var s := pre + (Fence + body + Ticks) + post;
    var c := Past(Past(|pre|, Fence), body);
    assert s[|pre|..Past(c, Ticks)] == Fence + body + Ticks;
    assert s[Past(|pre|, Fence)..c] == (Fence + body + Ticks)[|Fence|..|Fence| + |body|];
  }

  /** Congruence of `Trim`, stated once so that proofs can apply it to slices
      the solver does not otherwise identify. */
  lemma TrimOfEqual(a: string, b: string)
    requires a == b
    ensures Trim(a) == Trim(b)
  {
  }

  /** What a lazy `open ... close` pattern matches: it starts at the first
      occurrence of `open`, ends right after the first occurrence of `close` that
      follows it, and its group is the text between them. */
  lemma DelimitedMeaning(s: string, open: string, close: string)
    ensures Delimited(s, open, close).Some? ==>
              var m := Delimited(s, open, close).value;
              OccursAt(s, open, m.start) && (forall k :: 0 <= k < m.start ==> !OccursAt(s, open, k)) &&
              m.start + |open| + |close| <= m.end &&
              OccursAt(s, close, m.end - |close|) &&
              (forall k :: m.start + |open| <= k < m.end - |close| ==> !OccursAt(s, close, k)) &&
              m.group == Some(Span(m.start + |open|, m.end - |close|))
  {
  }

  /** The pattern has no match exactly when no `open` is followed by a `close`. */
  lemma DelimitedAbsent(s: string, open: string, close: string)
    ensures Delimited(s, open, close).None? <==>
              !exists p, c :: OccursAt(s, open, p) && p + |open| <= c && OccursAt(s, close, c)
  {
    match IndexFrom(s, open, 0)
    case None =>
      assert forall p :: !OccursAt(s, open, p);
    case Some(p) =>
      match IndexFrom(s, close, p + |open|)
      case None =>
        forall p', c | OccursAt(s, open, p') && p' + |open| <= c
          ensures !OccursAt(s, close, c)
        {
          assert p <= p';
        }
      case Some(c) =>
        assert OccursAt(s, open, p) && p + |open| <= c && OccursAt(s, close, c);
  }

  /** Once the searches for `open` and `close` are known, the match is fixed. */
  lemma DelimitedAt(s: string, open: string, close: string, p: nat, c: nat)
    requires IndexFrom(s, open, 0) == Some(p) && IndexFrom(s, close, p + |open|) == Some(c)
    ensures Delimited(s, open, close) == Some(RegexMatch(p, Past(c, close), Some(Span(Past(p, open), c))))
  {
  }

  /** What `JSON.parse` is given when the fence regex matches: the group's text
      when it is not blank, else the whole match. */
  lemma CandidateOfFence(s: string, start: nat, end: nat, g: Span, body: string, whole: string)
    requires FenceMatch(s) == Some(RegexMatch(start, end, Some(g)))
    requires g.from <= g.to <= |s| && s[g.from..g.to] == body
    requires start <= end <= |s| && s[start..end] == whole
    requires whole == [] || (!IsSpace(whole[0]) && !IsSpace(whole[|whole| - 1]))
    ensures JsonCandidate(s) == if Trim(body) != "" then Trim(body) else whole
  {
    TrimOfEqual(s[g.from..g.to], body);
    TrimTwice(body);
    TrimUnpadded(whole);
  }

  /** The fence found by its two searches decides what `JSON.parse` is given. */
  lemma CandidateOfSearches(s: string, p: nat, c: nat, body: string, fenced: string)
    requires IndexFrom(s, Fence, 0) == Some(p) && IndexFrom(s, Ticks, Past(p, Fence)) == Some(c)
    requires Past(p, Fence) <= c && s[Past(p, Fence)..c] == body
    requires Past(c, Ticks) <= |s| && s[p..Past(c, Ticks)] == fenced
    requires fenced == [] || (!IsSpace(fenced[0]) && !IsSpace(fenced[|fenced| - 1]))
    ensures JsonCandidate(s) == if Trim(body) != "" then Trim(body) else fenced
  {
    DelimitedAt(s, Fence, Ticks, p, c);
    CandidateOfFence(s, p, Past(c, Ticks), Span(Past(p, Fence), c), body, fenced);
  }

  /** A ```` ```json ```` fence in backtick-free prose: `JSON.parse` sees the trimmed
      body, or the whole fence when the body is blank (its group is then `""`, which
      is falsy). */
  lemma FencedBody(pre: string, body: string, post: string)
    requires '`' !in pre && '`' !in body
    ensures var fenced := Fence + body + Ticks;
            JsonCandidate(pre + fenced + post) == if Trim(body) != "" then Trim(body) else fenced
  {
    var fenced := Fence + body + Ticks;
    var s := pre + fenced + post;
    var c := Past(Past(|pre|, Fence), body);
    FenceOpens(pre, body, post);
    FenceCloses(pre, body, post);
    FenceSlices(pre, body, post);
    assert fenced[0] == '`' && fenced[|fenced| - 1] == '`';
    CandidateOfSearches(s, |pre|, c, body, fenced);
  }

  // ---------------------------------------------------------------------------
  // Fallback ranking and assembly

  /** The ranking used when `JSON.parse` throws: the first three doctors in list
      order, scored 80, 70, 60, "High" for the first and "Medium" after. */
  function Fallback(doctors: seq<DoctorRow>): (r: seq<Entry>)
    ensures |r| == if |doctors| < 3 then |doctors| else 3
    ensures forall i :: 0 <= i < |r| ==>
              ValidIndex(doctors, r[i]) && r[i].doctorIndex == Some(i) &&
              r[i].reason == FallbackReason && 60 <= r[i].matchScore <= 80 &&
              r[i].priority == Some(if i == 0 then "High" else "Medium")
    ensures forall i, j :: 0 <= i < j < |r| ==>
              r[i].Suggestion? && r[j].Suggestion? && r[i].matchScore > r[j].matchScore
  {
    var n := if |doctors| < 3 then |doctors| else 3;
    seq(n, i requires 0 <= i < n =>
      Suggestion(Some(i), 80 - 10 * i, FallbackReason, Some(if i == 0 then "High" else "Medium")))
  }

  /** `doctors[rec.doctor_index]`: the row an entry names, if its index is a valid
      position. */
  function Resolve(doctors: seq<DoctorRow>, e: Entry): (r: Option<DoctorRow>)
    ensures r.Some? <==> ValidIndex(doctors, e)
    ensures r.Some? ==> r.value in doctors && r.value == doctors[e.doctorIndex.value]
  {
    if ValidIndex(doctors, e) then Some(doctors[e.doctorIndex.value]) else None
  }

  /** The entry is a suggestion whose `doctor_index` is a position of `doctors`. */
  predicate ValidIndex(doctors: seq<DoctorRow>, e: Entry) {
    e.Suggestion? && e.doctorIndex.Some? && 0 <= e.doctorIndex.value < |doctors|
  }

  /** The entries the assembly keeps. */
  function Resolvable(doctors: seq<DoctorRow>): Entry -> bool {
    e => Resolve(doctors, e).Some?
  }

  /** `profile?.full_name || 'Unknown'`, where an array of profiles contributes its
      first element. */
  function DoctorName(p: ProfileField): (name: string)
    ensures name != ""
    ensures p.ProfileObject? && p.profile.Some? && p.profile.value.fullName != "" ==>
              name == p.profile.value.fullName
    ensures p.ProfileArray? && p.rows != [] && p.rows[0].fullName != "" ==> name == p.rows[0].fullName
    ensures ((p.ProfileObject? && (p.profile.None? || p.profile.value.fullName == "")) ||
             (p.ProfileArray? && (p.rows == [] || p.rows[0].fullName == ""))) ==> name == "Unknown"
  {
    var profile :=
      match p
      case ProfileObject(o) => o
      case ProfileArray(rows) => if rows == [] then None else Some(rows[0]);
    if profile.Some? && profile.value.fullName != "" then profile.value.fullName else "Unknown"
  }

  /** `parseFloat(doctor.rating) || 0`: a missing rating reads as 0. */
  function RatingValue(r: Option<real>): (v: real)
    ensures r.Some? ==> v == r.value
    ensures r.None? ==> v == 0.0
  {
    r.GetOr(0.0)
  }

  /** The scheduling hint: only a doctor whose `is_available` is `true` is
      "Available now". */
  function NextAvailable(isAvailable: Option<bool>): (hint: string)
    ensures hint == "Available now" || hint == "Check schedule"
    ensures hint == "Available now" <==> isAvailable == Some(true)
  {
    if isAvailable == Some(true) then "Available now" else "Check schedule"
  }

  /** The recommendation built from a suggestion and the row it names. */
  function Build(d: DoctorRow, e: Entry): (r: Recommendation)
    requires e.Suggestion?
    ensures r.doctorId == d.id && r.specialization == d.specialization &&
            r.experienceYears == d.experienceYears && r.isAvailable == d.isAvailable &&
            r.rareCasesHandled == d.rareCasesHandled
    ensures r.matchScore == e.matchScore && r.reason == e.reason && r.priority == e.priority
    ensures r.doctorName != ""
    ensures r.nextAvailable == "Available now" <==> r.isAvailable == Some(true)
  {
    Recommendation(d.id, DoctorName(d.profiles), d.specialization, d.experienceYears,
      RatingValue(d.rating), d.isAvailable, d.rareCasesHandled,
      e.matchScore, e.reason, e.priority, NextAvailable(d.isAvailable))
  }

  /** `recommendations.map(...).filter(r => r !== null)`: `None` when an element is
      `null` or `undefined` (reading its `doctor_index` throws), otherwise the
      recommendations of the resolvable entries, in order. */
  function Assemble(doctors: seq<DoctorRow>, entries: seq<Entry>): (r: Option<seq<Recommendation>>)
    ensures r.None? <==> Nullish in entries
    ensures r.Some? ==> |r.value| <= |entries|
  {
    if entries == [] then Some([])
    else
      var rest := Assemble(doctors, entries[1..]);
      if entries[0].Nullish? || rest.None? then None
      else
        match Resolve(doctors, entries[0])
        case Some(d) => Some([Build(d, entries[0])] + rest.value)
        case None => rest
  }

  /** The recommendations of entries that all resolve, one per entry, in order. */
  function Joined(doctors: seq<DoctorRow>, kept: seq<Entry>): seq<Recommendation>
    requires forall i :: 0 <= i < |kept| ==> Resolve(doctors, kept[i]).Some?
  {
    seq(|kept|, i requires 0 <= i < |kept| => Build(Resolve(doctors, kept[i]).value, kept[i]))
  }

  /** Every entry the filter keeps resolves. */
  lemma KeptResolve(doctors: seq<DoctorRow>, entries: seq<Entry>)
    ensures var kept := Seqs.Filter(entries, Resolvable(doctors));
            forall i :: 0 <= i < |kept| ==> Resolve(doctors, kept[i]).Some?
  {
    var kept := Seqs.Filter(entries, Resolvable(doctors));
    forall i | 0 <= i < |kept| ensures Resolve(doctors, kept[i]).Some? {
      assert kept[i] in kept;
    }
  }

  /** Joining a resolvable entry in front of others puts its recommendation first. */
  lemma JoinedCons(doctors: seq<DoctorRow>, e: Entry, kept: seq<Entry>)
    requires Resolve(doctors, e).Some?
    requires forall i :: 0 <= i < |kept| ==> Resolve(doctors, kept[i]).Some?
    ensures forall i :: 0 <= i < |[e] + kept| ==> Resolve(doctors, ([e] + kept)[i]).Some?
    ensures Joined(doctors, [e] + kept) == [Build(Resolve(doctors, e).value, e)] + Joined(doctors, kept)
  {
    assert forall i :: 0 <= i < |[e] + kept| ==> Resolve(doctors, ([e] + kept)[i]).Some? by {
      forall i | 0 <= i < |[e] + kept| ensures Resolve(doctors, ([e] + kept)[i]).Some? {
        if i > 0 {
          assert ([e] + kept)[i] == kept[i - 1];
        }
      }
    }
  }

  /** The assembly is the join of exactly the resolvable entries: it filters, then
      builds, and neither reorders nor removes duplicates. */
  lemma {:induction false} AssembleIsFilterThenJoin(doctors: seq<DoctorRow>, entries: seq<Entry>)
    requires Nullish !in entries
    ensures var kept := Seqs.Filter(entries, Resolvable(doctors));
            (forall i :: 0 <= i < |kept| ==> Resolve(doctors, kept[i]).Some?) &&
            Assemble(doctors, entries) == Some(Joined(doctors, kept))
  {
    KeptResolve(doctors, entries);
    if entries != [] {
      var rest := entries[1..];
      assert Nullish !in rest by {
        forall i | 0 <= i < |rest| ensures rest[i] != Nullish {
          assert rest[i] == entries[i + 1];
        }
      }
      AssembleIsFilterThenJoin(doctors, rest);
      var keptRest := Seqs.Filter(rest, Resolvable(doctors));
      if Resolve(doctors, entries[0]).Some? {
        assert Seqs.Filter(entries, Resolvable(doctors)) == [entries[0]] + keptRest;
        JoinedCons(doctors, entries[0], keptRest);
      } else {
        assert Seqs.Filter(entries, Resolvable(doctors)) == keptRest;
      }
    } else {
      assert Joined(doctors, []) == [];
    }
  }

  /** When every entry names a valid position, the output has one recommendation
      per entry, in the same order, each joined to the row its index names. */
  lemma AssembleAllResolvable(doctors: seq<DoctorRow>, entries: seq<Entry>)
    requires forall i :: 0 <= i < |entries| ==> ValidIndex(doctors, entries[i])
    ensures Assemble(doctors, entries).Some?
    ensures var recs := Assemble(doctors, entries).value;
            |recs| == |entries| &&
            forall i :: 0 <= i < |entries| ==>
              ValidIndex(doctors, entries[i]) &&
              recs[i] == Build(doctors[entries[i].doctorIndex.value], entries[i])
  {
    Seqs.FilterKeepsAll(entries, Resolvable(doctors));
    AssembleIsFilterThenJoin(doctors, entries);
  }

  /** Every recommendation carries the id of a row of the same query: no output
      refers to a doctor outside the list. */
  lemma AssembledIdsExist(doctors: seq<DoctorRow>, entries: seq<Entry>)
    requires Assemble(doctors, entries).Some?
    ensures forall r :: r in Assemble(doctors, entries).value ==>
              exists k :: 0 <= k < |doctors| && doctors[k].id == r.doctorId
  {
    AssembleIsFilterThenJoin(doctors, entries);
    var kept := Seqs.Filter(entries, Resolvable(doctors));
    forall r | r in Assemble(doctors, entries).value
      ensures exists k :: 0 <= k < |doctors| && doctors[k].id == r.doctorId
    {
      var j :| 0 <= j < |kept| && Joined(doctors, kept)[j] == r;
      var k := kept[j].doctorIndex.value;
      assert doctors[k].id == r.doctorId;
    }
  }

  /** A suggestion whose index is out of range is dropped without failing the rest:
      the output is the same as without it. */
  lemma DropsUnresolvable(doctors: seq<DoctorRow>, pre: seq<Entry>, e: Entry, post: seq<Entry>)
    requires e.Suggestion? && Resolve(doctors, e).None?
    ensures Assemble(doctors, pre + [e] + post) == Assemble(doctors, pre + post)
  {
    var withE, withoutE := pre + [e] + post, pre + post;
    assert forall i :: 0 <= i < |pre| ==> withE[i] == withoutE[i];
    assert forall i :: |pre| <= i < |withoutE| ==> withE[i + 1] == withoutE[i];
    assert (Nullish in withE) == (Nullish in withoutE);
    if Nullish !in withE {
      var keep := Resolvable(doctors);
      AssembleIsFilterThenJoin(doctors, withE);
      AssembleIsFilterThenJoin(doctors, withoutE);
      Seqs.FilterAppend(pre + [e], post, keep);
      Seqs.FilterAppend(pre, [e], keep);
      Seqs.FilterAppend(pre, post, keep);
      assert [e][1..] == [];
      assert Seqs.Filter([e], keep) == [];
      assert Seqs.Filter(withE, keep) == Seqs.Filter(withoutE, keep);
    }
  }

  /** The worked example: five doctors and suggestions for indices 2, 0 and 9 give
      two recommendations, doctor 2 then doctor 0. */
  lemma {:induction false} ExampleTwoOfThree(doctors: seq<DoctorRow>, a: Entry, b: Entry, c: Entry)
    requires |doctors| == 5
    requires a.Suggestion? && a.doctorIndex == Some(2)
    requires b.Suggestion? && b.doctorIndex == Some(0)
    requires c.Suggestion? && c.doctorIndex == Some(9)
    ensures Assemble(doctors, [a, b, c]) == Some([Build(doctors[2], a), Build(doctors[0], b)])
  {
    assert [a, b, c][1..] == [b, c];
    assert [b, c][1..] == [c];
    assert [c][1..] == [];
    assert Assemble(doctors, [c]) == Some([]);
    assert [Build(doctors[0], b)] + [] == [Build(doctors[0], b)];
    assert Assemble(doctors, [b, c]) == Some([Build(doctors[0], b)]);
    assert [Build(doctors[2], a)] + [Build(doctors[0], b)] == [Build(doctors[2], a), Build(doctors[0], b)];
  }

  /** Duplicates are not removed: the same suggestion twice gives two identical
      recommendations. */
  lemma {:induction false} KeepsDuplicates(doctors: seq<DoctorRow>, e: Entry)
    requires Resolve(doctors, e).Some?
    ensures Assemble(doctors, [e, e]) == Some([Build(Resolve(doctors, e).value, e), Build(Resolve(doctors, e).value, e)])
  {
    assert [e, e][1..] == [e];
    assert [e][1..] == [];
    var r := Build(Resolve(doctors, e).value, e);
    assert [r] + [] == [r];
    assert Assemble(doctors, [e]) == Some([r]);
    assert [r] + [r] == [r, r];
  }

  /** The suggestion's score, reason and priority are copied as they are; a score
      outside 0..100 is not clamped. */
  lemma {:induction false} CopiesSuggestion(doctors: seq<DoctorRow>, k: int, score: int, reason: string, priority: Option<string>)
    requires 0 <= k < |doctors|
    ensures var e := Suggestion(Some(k), score, reason, priority);
            var d := doctors[k];
            Assemble(doctors, [e]) == Some([Recommendation(d.id, DoctorName(d.profiles), d.specialization,
              d.experienceYears, RatingValue(d.rating), d.isAvailable, d.rareCasesHandled,
              score, reason, priority, NextAvailable(d.isAvailable))])
  {
    var e := Suggestion(Some(k), score, reason, priority);
    assert [e][1..] == [];
    assert Assemble(doctors, []) == Some([]);
    var r := Build(doctors[k], e);
    assert [r] + [] == [r];
  }

  /** The fallback ranking always assembles: `min(n, 3)` recommendations for the
      first doctors in list order, scored 80 - 10 i, "High" first and "Medium" after,
      with the fixed reason. */
  lemma FallbackAssembles(doctors: seq<DoctorRow>)
    ensures Assemble(doctors, Fallback(doctors)).Some?
    ensures var recs := Assemble(doctors, Fallback(doctors)).value;
            |recs| == (if |doctors| < 3 then |doctors| else 3) &&
            forall i :: 0 <= i < |recs| ==>
              recs[i].doctorId == doctors[i].id &&
              recs[i].matchScore == 80 - 10 * i &&
              recs[i].reason == FallbackReason &&
              recs[i].priority == Some(if i == 0 then "High" else "Medium")
  {
    var entries := Fallback(doctors);
    AssembleAllResolvable(doctors, entries);
  }

  /** The number the prompt prints before the doctor at position `i`. */
  function PromptLabel(i: nat): (printed: nat)
    ensures printed >= 1 && printed - 1 == i
  {
    i + 1
  }

  /** The prompt numbers the doctors from 1 while the assembly reads
      `doctors[doctor_index]` from 0: a suggestion that names a doctor by its
      printed number is joined to the next doctor, and the last doctor's number
      resolves to nothing. */
  lemma {:induction false} PromptLabelOffByOne(doctors: seq<DoctorRow>, i: nat, score: int, reason: string, priority: Option<string>)
    requires i < |doctors|
    ensures var e := Suggestion(Some(PromptLabel(i)), score, reason, priority);
            Assemble(doctors, [e]) == if i + 1 < |doctors| then Some([Build(doctors[i + 1], e)]) else Some([])
  {
    var e := Suggestion(Some(PromptLabel(i)), score, reason, priority);
    assert [e][1..] == [];
    assert Assemble(doctors, []) == Some([]);
    if i + 1 < |doctors| {
      var r := Build(doctors[i + 1], e);
      assert [r] + [] == [r];
    }
  }

  // ---------------------------------------------------------------------------
  // The handler

  /** `!lovableApiKey` fails for a missing key and for the empty string. */
  function KeyConfigured(apiKey: Option<string>): (configured: bool)
    ensures configured <==> apiKey != None && apiKey != Some("")
  {
    apiKey.Some? && apiKey.value != ""
  }

  /** `response.ok`: a 2xx status. */
  function StatusOk(status: nat): (ok: bool)
    ensures ok <==> status / 100 == 2
  {
    200 <= status <= 299
  }

  /** The prompt reads `d.profiles.full_name` of every row, which throws when a
      row's `profiles` is `null` or `undefined`; an array has no `full_name` and
      only prints "undefined". */
  function ProfilesReadable(doctors: seq<DoctorRow>): (readable: bool)
    ensures readable <==> forall i :: 0 <= i < |doctors| ==> doctors[i].profiles != ProfileObject(None)
  {
    forall d :: d in doctors ==> d.profiles != ProfileObject(None)
  }

  /** What `JSON.parse` makes of the reply: `None` when the content is not a string
      (`.match` throws inside the same `try`) or when parsing throws. */
  function ParsedReply(body: Body, parse: string -> Option<Reply>): (r: Option<Reply>)
    ensures !body.TextContent? ==> r.None?
    ensures r.Some? ==> body.TextContent? && r == parse(JsonCandidate(body.text))
  {
    if body.TextContent? then parse(JsonCandidate(body.text)) else None
  }

  /** The handler from reading the request to the response. `conditions` and
      `isRareCase` only enter the prompt: no outcome depends on them, and an empty
      condition list is not rejected. `fellBack` records whether the fallback
      ranking was used. */
  method Handle(conditions: seq<string>, isRareCase: bool, apiKey: Option<string>,
                query: DoctorQuery, gateway: Gateway, parse: string -> Option<Reply>)
    returns (response: Response, ghost fellBack: bool)
    ensures !KeyConfigured(apiKey) ==> response == ServerError(MissingApiKey)
    ensures KeyConfigured(apiKey) && query.QueryFailed? ==> response == ServerError(DoctorQueryFailed)
    ensures KeyConfigured(apiKey) && query == Rows([]) ==> response == Success([], Some(NoDoctorsMessage))
    ensures KeyConfigured(apiKey) && query.Rows? && query.rows != [] && !ProfilesReadable(query.rows) ==>
              response == ServerError(MissingProfile)
    ensures KeyConfigured(apiKey) && query.Rows? && query.rows != [] && ProfilesReadable(query.rows) ==>
              (gateway.FetchFailed? ==> response == ServerError(GatewayUnreachable(gateway.message))) &&
              (gateway.Answered? && !StatusOk(gateway.status) ==> response == ServerError(GatewayStatus(gateway.status))) &&
              (gateway.Answered? && StatusOk(gateway.status) && gateway.body.Unreadable? ==>
                 response == ServerError(MalformedGatewayReply))
    ensures fellBack <==>
              KeyConfigured(apiKey) && query.Rows? && query.rows != [] && ProfilesReadable(query.rows) &&
              gateway.Answered? && StatusOk(gateway.status) && !gateway.body.Unreadable? &&
              ParsedReply(gateway.body, parse).None?
    ensures fellBack ==>
              response.Success? && response.message.None? &&
              Some(response.recommendations) == Assemble(query.rows, Fallback(query.rows))
    ensures KeyConfigured(apiKey) && query.Rows? && query.rows != [] && ProfilesReadable(query.rows) &&
            gateway.Answered? && StatusOk(gateway.status) && ParsedReply(gateway.body, parse).Some? ==>
              var entries := ParsedReply(gateway.body, parse).value.recommendations;
              response == if entries.None? then ServerError(MissingRecommendations)
                          else if Nullish in entries.value then ServerError(NullSuggestion)
                          else Success(Assemble(query.rows, entries.value).value, None)
    ensures response.Success? ==>
              query.Rows? &&
              forall r :: r in response.recommendations ==>
                exists k :: 0 <= k < |query.rows| && query.rows[k].id == r.doctorId
  {
    fellBack := false;
    if !KeyConfigured(apiKey) {
      return ServerError(MissingApiKey), false;
    }
    if query.QueryFailed? {
      return ServerError(DoctorQueryFailed), false;
    }
    var doctors := query.rows;
    if |doctors| == 0 {
      return Success([], Some(NoDoctorsMessage)), false;
    }
    if !ProfilesReadable(doctors) {
      return ServerError(MissingProfile), false;
    }
    if gateway.FetchFailed? {
      return ServerError(GatewayUnreachable(gateway.message)), false;
    }
    if !StatusOk(gateway.status) {
      return ServerError(GatewayStatus(gateway.status)), false;
    }
    if gateway.body.Unreadable? {
      return ServerError(MalformedGatewayReply), false;
    }
    var reply: Reply;
    var parsed := ParsedReply(gateway.body, parse);
    if parsed.Some? {
      reply := parsed.value;
    } else {
      reply := Reply(Some(Fallback(doctors)));
      fellBack := true;
      FallbackAssembles(doctors);
    }
    if reply.recommendations.None? {
      return ServerError(MissingRecommendations), fellBack;
    }
    var recommendations := Assemble(doctors, reply.recommendations.value);
    if recommendations.None? {
      return ServerError(NullSuggestion), fellBack;
    }
    AssembledIdsExist(doctors, reply.recommendations.value);
    response := Success(recommendations.value, None);
  }
}

# vital-pulse-secure: a verified model of the recommendation path and the admin pages

vital-pulse-secure is a hospital portal. This project models, in Dafny, the
parts of it that compute something:

- the `recommend-doctor` edge function. It reads every doctor row and asks an
  AI gateway to rank the doctors. It then pulls a JSON object out of the reply
  text (a ```` ```json ```` fence, else the first `{` to the last `}`, else the
  whole text, then trimmed). It uses a fixed ranking only when that step
  throws: when `JSON.parse` rejects the text, or when the reply's content is not
  a string, so that calling `.match` on it throws inside the same `try`. Each suggestion is joined back to `doctors[doctor_index]`, and every
  error becomes a status-500 answer.
- the `useDoctorRecommendation` hook. Its state is the last list, whether a call
  is in flight, and the last error.
- the `DoctorRecommendations` card. This covers the guard in front of the hook,
  the `hasSearched` flag, and the badge, label and visibility rules it renders
  with.
- the admin Patients and Doctors pages. Each holds a list in page state, with a
  search filter, an add dialog that validates its form and numbers the new
  record from the list length, and a delete.
- the admin Vitals page (`getVitalStatus` thresholds and the search) and the
  doctor's Patients page (per-card thresholds and the search).

Layout:

- `wrappers.dfy` holds `Option`.
- `text.dfy` holds the JavaScript string operations the code relies on:
  `trim`, `toLowerCase`, `includes`, `indexOf`, `lastIndexOf`,
  `String(n).padStart`.
- `seqs.dfy` holds `Array.prototype.filter`.
- `search.dfy` holds the lower-cased substring search that every page shares.
- There is one module per source file. Page state that the source updates
  through `useState` setters is a `class` whose methods reassign its fields.
  Everything else is functions and lemmas.

The network calls are inputs to the model, not behaviour it contains:

- The doctor query and the AI gateway are datatypes passed to
  `RecommendDoctor.Handle`.
- The `supabase.functions.invoke` outcome is a datatype passed to the hook.
- `JSON.parse`, `parseInt` and today's date are parameters.

## Model

| member | source | states |
|---|---|---|
| RecommendDoctor.SpecializationNameRoundTrip | src/integrations/supabase/types.ts:380-390 | each `doctor_specialization` spelling reads back as its own value, and no spelling contains a space |
| RecommendDoctor.Delimited | supabase/functions/recommend-doctor/index.ts:143 | a delimited match lies inside the reply, and its capture group lies inside the match |
| RecommendDoctor.FenceMatch | supabase/functions/recommend-doctor/index.ts:143 | the fence match, when there is one, lies inside the reply and carries a group span inside it |
| RecommendDoctor.BraceMatch | supabase/functions/recommend-doctor/index.ts:143 | the brace match, when there is one, lies inside the reply and has no capture group |
| RecommendDoctor.NoFenceWithoutBackticks | supabase/functions/recommend-doctor/index.ts:143 | a reply with no backtick never matches the fence pattern |
| RecommendDoctor.FirstBraceAfter | supabase/functions/recommend-doctor/index.ts:143 | the brace pattern starts at the first `{` |
| RecommendDoctor.LastBraceBefore | supabase/functions/recommend-doctor/index.ts:143 | the greedy brace pattern ends at the last `}` |
| RecommendDoctor.BareObjectUnchanged | supabase/functions/recommend-doctor/index.ts:143-145 | a bare JSON object with no backtick reaches `JSON.parse` unchanged |
| RecommendDoctor.ProseAroundObject | supabase/functions/recommend-doctor/index.ts:143-145 | prose with no brace before the object, none after it and no backtick is stripped, so the parser sees the same text as for the bare object |
| RecommendDoctor.FenceOpens | supabase/functions/recommend-doctor/index.ts:143 | with no backtick before it, the first ```` ```json ```` is the fence's opening |
| RecommendDoctor.FenceCloses | supabase/functions/recommend-doctor/index.ts:143 | the lazy body ends at the first closing backticks after the opening |
| RecommendDoctor.FenceSlices | supabase/functions/recommend-doctor/index.ts:143-144 | the group's span is the fenced body, and the whole match is the whole fence |
| RecommendDoctor.DelimitedMeaning | supabase/functions/recommend-doctor/index.ts:143 | a lazy `open ... close` match starts at the first `open`, ends right after the first `close` that follows it, and its group is exactly the text between them |
| RecommendDoctor.DelimitedAbsent | supabase/functions/recommend-doctor/index.ts:143 | there is no match exactly when no `open` is followed by a `close` |
| RecommendDoctor.JsonCandidate | supabase/functions/recommend-doctor/index.ts:143-145 | the text handed to `JSON.parse` is never longer than the reply |
| RecommendDoctor.JsonCandidateTrimmed | supabase/functions/recommend-doctor/index.ts:145 | whichever branch is taken, the text handed to `JSON.parse` neither starts nor ends with white space |
| RecommendDoctor.WholeTextWhenUndelimited | supabase/functions/recommend-doctor/index.ts:144-145 | a reply with neither a backtick nor a `{` is parsed whole, trimmed |
| RecommendDoctor.GroupText | supabase/functions/recommend-doctor/index.ts:143-144 | a capture group's text is its span with the spaces the `\s*` around it absorb removed: no longer than the span, and neither starting nor ending with white space |
| RecommendDoctor.CandidateOfFence | supabase/functions/recommend-doctor/index.ts:144-145 | a fence match whose trimmed group is non-empty yields that trimmed group; a blank group (falsy) yields the whole match |
| RecommendDoctor.FencedBody | supabase/functions/recommend-doctor/index.ts:143-145 | for a ```` ```json ```` fence with no backtick before it or inside its body, the text parsed is the trimmed body, or the whole fence when the body is blank |
| RecommendDoctor.Fallback | supabase/functions/recommend-doctor/index.ts:150-157 | the fixed ranking names the first `min(n, 3)` doctors by position, scored between 60 and 80 and strictly decreasing, "High" first and "Medium" after, with the fixed reason |
| RecommendDoctor.Resolve | supabase/functions/recommend-doctor/index.ts:163-164 | `doctors[doctor_index]` is a row exactly when the index is a position of the list, and it is the row at that position |
| RecommendDoctor.DoctorName | supabase/functions/recommend-doctor/index.ts:166-170 | the name is never empty: the profile's non-empty `full_name`, from the object or the first array element, and "Unknown" when the profile is missing or its `full_name` is empty |
| RecommendDoctor.RatingValue | supabase/functions/recommend-doctor/index.ts:173 | the rating is the column's value, or 0 when it is missing |
| RecommendDoctor.NextAvailable | supabase/functions/recommend-doctor/index.ts:179 | the hint is "Available now" exactly when `is_available` is true, and "Check schedule" otherwise |
| RecommendDoctor.Build | supabase/functions/recommend-doctor/index.ts:168-180 | a recommendation copies id, specialization, experience, availability and rare cases from the row and score, reason and priority from the suggestion; its name is never empty and its hint agrees with its availability |
| RecommendDoctor.Assemble | supabase/functions/recommend-doctor/index.ts:161-182 | the assembly fails exactly when some element is `null` or `undefined`, and it never returns more recommendations than suggestions |
| RecommendDoctor.AssembleIsFilterThenJoin | supabase/functions/recommend-doctor/index.ts:161-182 | with no nullish element, the output is the join of exactly the suggestions whose index is a valid position, in input order |
| RecommendDoctor.AssembleAllResolvable | supabase/functions/recommend-doctor/index.ts:161-182 | when every index is valid, each suggestion gives one recommendation, in order, joined to `doctors[doctor_index]` |
| RecommendDoctor.AssembledIdsExist | supabase/functions/recommend-doctor/index.ts:163-169 | every recommended doctor id is the id of a row of the same query |
| RecommendDoctor.DropsUnresolvable | supabase/functions/recommend-doctor/index.ts:161-182 | a suggestion with an out-of-range index is dropped and leaves the rest of the output as it would be without it |
| RecommendDoctor.ExampleTwoOfThree | supabase/functions/recommend-doctor/index.ts:161-182 | with five doctors, suggestions for indices 2, 0 and 9 give doctor 2 then doctor 0 |
| RecommendDoctor.KeepsDuplicates | supabase/functions/recommend-doctor/index.ts:161-182 | a repeated suggestion is not de-duplicated |
| RecommendDoctor.CopiesSuggestion | supabase/functions/recommend-doctor/index.ts:166-179 | every field is taken from the indexed row: the name comes from the profile or is "Unknown", the rating is the parsed rating, or 0 when it is missing, the availability hint is derived from the row, and score, reason and priority are copied unclamped |
| RecommendDoctor.FallbackAssembles | supabase/functions/recommend-doctor/index.ts:150-182 | the fallback ranking always assembles into `min(n, 3)` recommendations for the first doctors, scored 80 - 10 i, "High" first and "Medium" after, with the fixed reason |
| RecommendDoctor.PromptLabel | supabase/functions/recommend-doctor/index.ts:78 | the prompt numbers doctors from 1: every printed number is positive, and position `i` is printed as `i + 1` |
| RecommendDoctor.PromptLabelOffByOne | supabase/functions/recommend-doctor/index.ts:163 | the prompt (line 78) numbers doctors from 1, so a suggestion that names a doctor by its printed number is joined to the next doctor, and the last doctor's number resolves to nothing |
| RecommendDoctor.KeyConfigured | supabase/functions/recommend-doctor/index.ts:36 | the key counts as configured exactly when it is present and non-empty |
| RecommendDoctor.StatusOk | supabase/functions/recommend-doctor/index.ts:128 | `response.ok` holds exactly for a 2xx status |
| RecommendDoctor.ProfilesReadable | supabase/functions/recommend-doctor/index.ts:77-78 | the prompt can be written exactly when no row has a null `profiles` |
| RecommendDoctor.ParsedReply | supabase/functions/recommend-doctor/index.ts:143-145 | a content that is not a string never parses, and a parsed reply is the parse of the extracted candidate text |
| RecommendDoctor.StatusCode | supabase/functions/recommend-doctor/index.ts:186-202 | the answer's status is 200 exactly for a success, and 500 otherwise |
| RecommendDoctor.ErrorMessage | supabase/functions/recommend-doctor/index.ts:194-196 | a missing key gives "LOVABLE_API_KEY is not configured", a gateway status `s` gives "AI API error: " followed by the digits of `s` with no leading zero, a network error keeps its message, and only these three texts are decided by the function itself |
| RecommendDoctor.Handle | supabase/functions/recommend-doctor/index.ts:36-203 | a missing or empty API key, a failed doctor query, an unreachable gateway, a non-2xx status or an unreadable reply each give status 500 with their error. No doctors gives `[]` with "No doctors available". A row with a null `profiles` gives 500 before the gateway is called, because writing the prompt throws. Only a parse failure triggers the fallback. A parsed reply with no `recommendations` array, or with a null element, gives 500. Otherwise the response is the assembly. Every returned id belongs to a queried row |
| RecommendationHook.DeliveredList | src/hooks/useDoctorRecommendation.ts:36-37 | a delivered array, even an empty one, is kept, and an absent one becomes `[]` |
| RecommendationHook.ErrorText | src/hooks/useDoctorRecommendation.ts:39 | the error shown is never empty: the thrown message when it is non-empty, else "Failed to get recommendations" |
| RecommendationHook.Hook.constructor | src/hooks/useDoctorRecommendation.ts:19-21 | the initial state has no recommendations, is not loading and has no error |
| RecommendationHook.Hook.Begin | src/hooks/useDoctorRecommendation.ts:24-25 | starting a call sets loading, clears the error and keeps the previous list |
| RecommendationHook.Hook.Settle | src/hooks/useDoctorRecommendation.ts:36-45 | on data, the list is replaced and returned; on a throw, the error is set, `[]` is returned and the list is kept; loading ends either way |
| RecommendationHook.Hook.GetRecommendations | src/hooks/useDoctorRecommendation.ts:23-46 | the whole call: after it, loading is false, and the error is set exactly when the invocation threw |
| RecommendationsPanel.PriorityVariant | src/components/DoctorRecommendations.tsx:34-45 | "high" gives the destructive badge, "medium" the default one, "low" the secondary one, and anything else, absent included, the outline one, all after lower-casing |
| RecommendationsPanel.PriorityVariantExamples | src/components/DoctorRecommendations.tsx:34-45 | "LOW" is secondary, and an unknown or absent priority is outline |
| RecommendationsPanel.PriorityVariantIgnoresCase | src/components/DoctorRecommendations.tsx:34-45 | the badge variant ignores letter case |
| RecommendationsPanel.FallbackPriorityVariants | src/components/DoctorRecommendations.tsx:34-45 | "High" maps to destructive and "Medium" to default |
| RecommendationsPanel.BadgeLabel | src/components/DoctorRecommendations.tsx:104 | the badge label is never empty: it is the priority whenever the priority is non-empty, and "Recommended" when it is absent or empty |
| RecommendationsPanel.FallbackBadges | src/components/DoctorRecommendations.tsx:103-104 | the fallback ranking shows a red "High" badge first and default "Medium" badges after it |
| RecommendationsPanel.ReplaceUnderscores | src/components/DoctorRecommendations.tsx:100 | every underscore becomes a space, and every other character stays in place |
| RecommendationsPanel.SpecializationLabel | src/components/DoctorRecommendations.tsx:100 | the label has as many characters as the specialization's name and no underscore |
| RecommendationsPanel.ReplaceUnderscoresInjective | src/components/DoctorRecommendations.tsx:100 | on text without spaces, the replacement loses no information |
| RecommendationsPanel.SpecializationLabelsDistinct | src/components/DoctorRecommendations.tsx:100 | distinct specializations are shown under distinct labels |
| RecommendationsPanel.ScheduleLabel | src/components/DoctorRecommendations.tsx:124 | the schedule line shows the hint when it is non-empty and "Check schedule" otherwise, so it is never empty |
| RecommendationsPanel.ScheduleColour | src/components/DoctorRecommendations.tsx:123 | the schedule line is green exactly when `is_available` is true, and orange otherwise |
| RecommendationsPanel.ScheduleLineAgrees | src/components/DoctorRecommendations.tsx:123-124 | for every assembled recommendation, the line reads "Available now" exactly when it is green, and "Check schedule" otherwise |
| RecommendationsPanel.TriggerDisabled | src/components/DoctorRecommendations.tsx:62 | the button is enabled exactly when no call is in flight and there is a condition |
| RecommendationsPanel.ErrorPanelVisible | src/components/DoctorRecommendations.tsx:78 | the error box shows exactly when a search was made and the error is non-empty |
| RecommendationsPanel.EmptyStateVisible | src/components/DoctorRecommendations.tsx:84 | the "no recommendations" box shows exactly after a search that is over, delivered nothing and left no non-empty error, so never together with the error box |
| RecommendationsPanel.Panel.constructor | src/components/DoctorRecommendations.tsx:15-16 | the card starts unsearched, with the hook in its initial state |
| RecommendationsPanel.Panel.HandleGetRecommendations | src/components/DoctorRecommendations.tsx:18-32 | a missing or empty condition list requests nothing and changes nothing. After a request, the empty-state box (line 84) shows exactly when nothing was delivered, and the error box (line 78) exactly when the call threw. When no call is in flight, a click requests exactly when the button (line 62) is enabled |
| Search.SearchFilter | src/pages/admin/Patients.tsx:35-38 | the search lists no more items than it is given, and only given items that match the term |
| Search.Matches | src/pages/admin/Patients.tsx:35-38 | an item matches exactly when one of its fields, lower-cased, contains the lower-cased term |
| Search.SearchFilterMembership | src/pages/admin/Patients.tsx:35-38 | an item is listed exactly when it is in the list and matches |
| Search.SearchFilterEmptyTerm | src/pages/admin/Patients.tsx:35-38 | an empty term keeps every item that has a field |
| Search.SearchFilterAppend | src/pages/admin/Patients.tsx:35-38 | the search keeps list order |
| Search.SearchFilterIgnoresCase | src/pages/admin/Patients.tsx:35-38 | the search gives the same result for a term and its lower-cased form |
| Seqs.Filter | src/pages/admin/Patients.tsx:35-38 | `filter` never lengthens the list and keeps only elements of the list that satisfy the test |
| Text.Trim | supabase/functions/recommend-doctor/index.ts:145 | `trim` never lengthens the text; `TrimSpec` gives its full meaning |
| Text.TrimSpec | supabase/functions/recommend-doctor/index.ts:145 | `trim` keeps the contiguous middle of the text, which starts and ends with a non-space, and it removes only whitespace |
| Text.TrimTwice | supabase/functions/recommend-doctor/index.ts:145 | trimming is idempotent |
| Text.ToLowerIdempotent | src/pages/admin/Patients.tsx:36-37 | lower-casing is idempotent |
| Text.ToLower | src/pages/admin/Patients.tsx:36-37 | lower-casing keeps the length and maps each character on its own, ASCII capitals to small letters |
| Text.Includes | src/pages/admin/Patients.tsx:36-37 | `includes` holds exactly when the pattern occurs at some position |
| Text.IndexFrom | supabase/functions/recommend-doctor/index.ts:143 | the found position is the first occurrence at or after the start |
| Text.LastIndexOf | supabase/functions/recommend-doctor/index.ts:143 | the found position holds the character with none after it, and nothing is found exactly when the character is absent |
| Text.PaddedSerialRoundTrip | src/pages/admin/Patients.tsx:46 | `String(n).padStart(3, '0')` has at least three characters, exactly three below 1000, and they are digits that read back as `n` |
| AdminPatients.PatientId | src/pages/admin/Patients.tsx:46 | a patient id starts with "P" and has at least four characters, exactly four below patient 1000 |
| AdminPatients.PatientIdRoundTrip | src/pages/admin/Patients.tsx:46 | a patient id is "P" followed by digits that read back as the number |
| AdminPatients.PatientIdInjective | src/pages/admin/Patients.tsx:46 | different numbers give different ids |
| AdminPatients.FilterPatients | src/pages/admin/Patients.tsx:35-38 | the search lists no more patients than the page has, and only patients of the page that match the term |
| AdminPatients.FilterPatientsKeeps | src/pages/admin/Patients.tsx:35-38 | a patient is listed exactly when the lower-cased name or id contains the lower-cased term |
| AdminPatients.FilterPatientsEmptyTerm | src/pages/admin/Patients.tsx:35-38 | an empty search lists every patient |
| AdminPatients.FilterPatientsOrder | src/pages/admin/Patients.tsx:35-38 | the search keeps list order |
| AdminPatients.FormComplete | src/pages/admin/Patients.tsx:41 | the form is rejected exactly when name, age, gender or ward is empty |
| AdminPatients.NewPatient | src/pages/admin/Patients.tsx:45-54 | the new patient is numbered after the list, is "Stable", and is admitted today; the doctor is "Unassigned" when left blank |
| AdminPatients.WithoutPatient | src/pages/admin/Patients.tsx:62 | delete keeps no more patients than there were, and none with the id |
| AdminPatients.WithoutPatientSpec | src/pages/admin/Patients.tsx:61-62 | delete removes every patient with the id and keeps all others |
| AdminPatients.WithoutPatientOrder | src/pages/admin/Patients.tsx:61-62 | delete keeps list order |
| AdminPatients.DeleteThenAddRepeatsId | src/pages/admin/Patients.tsx:46-62 | after deleting "P002" from the initial list, the next patient added is a second "P004" |
| AdminPatients.PatientsPage.constructor | src/pages/admin/Patients.tsx:25-33 | the page starts with the four initial patients, the dialog closed and the form empty |
| AdminPatients.PatientsPage.AddPatient | src/pages/admin/Patients.tsx:40-59 | an incomplete form (name, age, gender or ward empty) changes nothing; a complete one appends exactly one new patient, then empties the form and closes the dialog |
| AdminPatients.PatientsPage.DeletePatient | src/pages/admin/Patients.tsx:61-64 | the list becomes the list without that id; the form and dialog are unchanged |
| AdminDoctors.DoctorId | src/pages/admin/Doctors.tsx:45 | a doctor id starts with "D" and has at least four characters, exactly four below doctor 1000 |
| AdminDoctors.DoctorIdRoundTrip | src/pages/admin/Doctors.tsx:45 | a doctor id is "D" followed by digits that read back as the number |
| AdminDoctors.DoctorIdInjective | src/pages/admin/Doctors.tsx:45 | different numbers give different ids |
| AdminDoctors.FilterDoctors | src/pages/admin/Doctors.tsx:34-37 | the search lists no more doctors than the page has, and only doctors of the page that match the term |
| AdminDoctors.FilterDoctorsKeeps | src/pages/admin/Doctors.tsx:34-37 | a doctor is listed exactly when the lower-cased name or specialization contains the lower-cased term |
| AdminDoctors.FilterDoctorsEmptyTerm | src/pages/admin/Doctors.tsx:34-37 | an empty search lists every doctor |
| AdminDoctors.FilterDoctorsOrder | src/pages/admin/Doctors.tsx:34-37 | the search keeps list order |
| AdminDoctors.FormComplete | src/pages/admin/Doctors.tsx:40 | the form is rejected exactly when name, specialization or email is empty |
| AdminDoctors.NewDoctor | src/pages/admin/Doctors.tsx:44-52 | the new doctor is numbered after the list, has 0 patients and is "Active"; the phone is "N/A" when left blank |
| AdminDoctors.WithoutDoctor | src/pages/admin/Doctors.tsx:60 | delete keeps no more doctors than there were, and none with the id |
| AdminDoctors.WithoutDoctorSpec | src/pages/admin/Doctors.tsx:59-60 | delete removes every doctor with the id and keeps all others |
| AdminDoctors.WithoutDoctorOrder | src/pages/admin/Doctors.tsx:59-60 | delete keeps list order |
| AdminDoctors.DoctorsPage.constructor | src/pages/admin/Doctors.tsx:24-32 | the page starts with the four initial doctors, the dialog closed and the form empty |
| AdminDoctors.DoctorsPage.AddDoctor | src/pages/admin/Doctors.tsx:39-57 | an incomplete form (name, specialization or email empty) changes nothing, and the phone is optional; a complete form appends exactly one new doctor, then empties the form and closes the dialog |
| AdminDoctors.DoctorsPage.DeleteDoctor | src/pages/admin/Doctors.tsx:59-62 | the list becomes the list without that id; the form and dialog are unchanged |
| AdminVitals.FilterVitals | src/pages/admin/Vitals.tsx:20-24 | the search lists no more rows than the table has, and only rows of the table that match the term |
| AdminVitals.FilterVitalsKeeps | src/pages/admin/Vitals.tsx:20-24 | a row is listed exactly when the lower-cased name, id or ward contains the lower-cased term |
| AdminVitals.FilterVitalsEmptyTerm | src/pages/admin/Vitals.tsx:20-24 | an empty search lists every row |
| AdminVitals.FilterVitalsOrder | src/pages/admin/Vitals.tsx:20-24 | the search keeps table order |
| AdminVitals.VitalStatus | src/pages/admin/Vitals.tsx:26-44 | every reading is coloured destructive, success or foreground |
| AdminVitals.VitalStatusFollowsBands | src/pages/admin/Vitals.tsx:26-44 | a reading is a success exactly inside its vital's band, bounds included (heart rate 60-100, SpO2 at least 95, temperature 36-38, respiration 12-20); it is destructive exactly outside the band; an unknown vital is foreground |
| AdminVitals.NormalReadingsConvex | src/pages/admin/Vitals.tsx:26-44 | any reading between two normal readings of the same vital is normal |
| AdminVitals.CriticalRowsAreOutOfBand | src/pages/admin/Vitals.tsx:11-18 | in the page's table, the "Critical" rows are exactly those with a destructive reading |
| DoctorPatients.FilterCards | src/pages/doctor/Patients.tsx:18-21 | the search lists no more patients than the page has, and only patients of the page that match the term |
| DoctorPatients.FilterCardsKeeps | src/pages/doctor/Patients.tsx:18-21 | a patient is listed exactly when the lower-cased name or id contains the lower-cased term |
| DoctorPatients.FilterCardsEmptyTerm | src/pages/doctor/Patients.tsx:18-21 | an empty search lists every patient |
| DoctorPatients.FilterCardsOrder | src/pages/doctor/Patients.tsx:18-21 | the search keeps list order |
| DoctorPatients.StatusColour | src/components/VitalCard.tsx:15-19 | the vital card's icon is green (success) exactly for a normal status, amber (warning) exactly for a warning and red (destructive) exactly for a critical one |
| DoctorPatients.DestructiveBadge | src/pages/doctor/Patients.tsx:51 | a patient's badge is destructive exactly when the patient's status is "Critical" |
| DoctorPatients.HeartRateStatus | src/pages/doctor/Patients.tsx:63 | the heart-rate card is critical exactly above 100, with no lower bound |
| DoctorPatients.BloodPressureStatus | src/pages/doctor/Patients.tsx:70 | the blood-pressure card is always normal |
| DoctorPatients.Spo2Status | src/pages/doctor/Patients.tsx:77 | the SpO2 card is critical exactly below 95 |
| DoctorPatients.TemperatureStatus | src/pages/doctor/Patients.tsx:84 | the temperature card is critical exactly above 38, with no lower bound |
| DoctorPatients.Spo2AgreesWithAdmin | src/pages/doctor/Patients.tsx:77 | the SpO2 card's colour equals the admin vitals colour for every reading |
| DoctorPatients.HighReadingsAgreeWithAdmin | src/pages/doctor/Patients.tsx:63-84 | a critical heart-rate or temperature card is destructive on the admin page too, and the two pages agree at or above the admin lower bounds |
| DoctorPatients.LowReadingsDisagree | src/pages/doctor/Patients.tsx:63-84 | a heart rate of 50 or a temperature of 35 is destructive on the admin page but normal here |
| DoctorPatients.CriticalPatientsHaveCriticalCard | src/pages/doctor/Patients.tsx:51-84 | on this page's list, the "Critical" patients are exactly those with a critical card |

## Left out

- HTTP serving in the edge function is left out because it is I/O: CORS, the OPTIONS preflight, `req.json`, building the `Response` and console logging. Answers are the `Response` datatype, and `StatusCode` maps them to 200 or 500.
- The doctor query and the AI gateway `fetch` are network calls. Their outcomes are the `DoctorQuery` and `Gateway` inputs. The prompt text is free text; only its 1-based numbering is modelled (`PromptLabel`).
- The JavaScript regular-expression engine is not modelled. The two patterns are modelled as substring searches: the first ```` ```json ````, then the first closing backticks after it, with the `\s*` absorbed by trimming the group; or the first `{` and the last `}`.
- `JSON.parse` is not modelled. It is the uninterpreted parameter `parse`, so the model states which text reaches the parser, not how that text parses.
- The error text of a 500 answer is modelled only where the function itself writes it (`ErrorMessage`). Other texts are not modelled: index.ts:196 uses `error.message` for an `Error` instance and "Unknown error occurred" for any other thrown value. Whether a failed doctor query throws an `Error` or a plain error object depends on the database client library, which is not part of this model, so which of the two texts it gives is left open. The texts of `fetch` failures and of the runtime's `TypeError` are not modelled either.
- `RecommendDoctor.Handle`: JavaScript property lookup is modelled only for array positions. `doctors[rec.doctor_index]` with a numeric string such as "2" is left to `parse`, which yields the position 2. A key such as "length" names a property of the array, not a row, so `doctor.id` reads `undefined`; that case is not modelled, and the guarantee that every returned id belongs to a queried row holds for the modelled indices only.
- `RecommendDoctor.Handle`: `match_score` is an integer, and `reason` and `priority` are strings, in the model. The reply may carry any JSON value there, or none, in which case the key drops out of the serialized answer; these cases are not modelled.
- `RecommendationsPanel.PriorityVariant`: a `priority` that is a number or a boolean is not modelled. The edge function copies it through unchanged (index.ts:178), and `priority?.toLowerCase()` (DoctorRecommendations.tsx:35) then throws while the card renders, because optional chaining only stops at `null` and `undefined`. That render crash is not modelled.
- `RecommendationsPanel.BadgeLabel`: the falsy non-string priorities `0` and `false`, which `priority || 'Recommended'` (DoctorRecommendations.tsx:104) also shows as "Recommended", are not modelled, since priorities are strings in the model.
- `RecommendDoctor.Handle`: `fellBack` is a ghost witness of the fallback path, not something the function returns.
- Floating point is not modelled. `parseFloat(rating)` is the numeric column's value, or 0 when it is missing; `toFixed(1)` is display only; vital readings are reals compared with the thresholds.
- `toLowerCase` is modelled on ASCII letters only. No Unicode case mapping is modelled.
- The `supabase.functions.invoke` internals are not modelled. The hook receives its outcome as `Invocation`: delivered data, or a thrown value with an optional message.
- Overlapping `getRecommendations` calls are not modelled, because that is concurrency. Calls are sequential in the model, and the code has no guard that drops a stale answer.
- Toasts are UI and are left out. This includes the `error` read at DoctorRecommendations.tsx:29, which sees the render's old value, not the one the call just set.
- React rendering is left out apart from the visibility rules (`ErrorPanelVisible`, `EmptyStateVisible`, `TriggerDisabled`) and the label mappings.
- `RecommendationsPanel.Panel.HandleGetRecommendations`: an undefined condition list counts as "no conditions" at the guard (line 19). The same list would throw when the button renders (line 62), and that crash is not modelled.
- `AdminPatients.PatientsPage.AddPatient`: `parseInt(age)` is the parameter `parseInt`, so its `NaN` result is `None`. Today's date from `new Date()` is the parameter `today`.
- The admin pages' dialogs, form inputs and search inputs only set state from user typing. The model takes the form and the term as values.
- The Vitals table's status pill colouring (lines 96-100) and the vital cards' rendering are not modelled. Only the status each card receives, and its icon colour, are modelled.

/** The doctor's "My Patients" page: a fixed list of the doctor's patients, a
    search box over name and id, and one vital card per reading whose status is
    chosen by a threshold of its own. */
module DoctorPatients {
  import opened Text
  import opened Search
  import AdminVitals

  /** One patient card. */
  datatype PatientCard = PatientCard(
    id: string, name: string, age: nat, ward: string, condition: string,
    hr: real, bp: string, spo2: real, temp: real, status: string)

  /** The three patients the page lists. */
  function MyPatients(): seq<PatientCard> {
    [ PatientCard("P001", "John Smith", 45, "ICU", "Post-surgery recovery", 118.0, "145/92", 94.0, 38.2, "Critical"),
      PatientCard("P003", "Robert Wilson", 67, "Cardiology", "Cardiac monitoring", 88.0, "130/85", 96.0, 37.1, "Stable"),
      PatientCard("P007", "Patricia Moore", 52, "General", "Hypertension management", 75.0, "128/82", 98.0, 36.9, "Stable") ]
  }

  /** The fields the search box looks at. */
  function CardFields(p: PatientCard): seq<string> {
    [p.name, p.id]
  }

  /** `filteredPatients`. */
  function FilterCards(cards: seq<PatientCard>, term: string): (shown: seq<PatientCard>)
    ensures |shown| <= |cards|
    ensures forall p :: p in shown ==> p in cards && Matches(CardFields(p), term)
  {
    SearchFilter(cards, CardFields, term)
  }

  /** A patient is listed exactly when the lower-cased name or id contains the
      lower-cased term; the ward is not searched here. */
  lemma FilterCardsKeeps(cards: seq<PatientCard>, term: string, p: PatientCard)
    ensures p in FilterCards(cards, term) <==>
              p in cards && (Includes(ToLower(p.name), ToLower(term)) || Includes(ToLower(p.id), ToLower(term)))
  {
    SearchFilterMembership(cards, CardFields, term, p);
    var fields := CardFields(p);
    assert |fields| == 2 && fields[0] == p.name && fields[1] == p.id;
  }

  /** An empty search lists every patient. */
  lemma FilterCardsEmptyTerm(cards: seq<PatientCard>)
    ensures FilterCards(cards, "") == cards
  {
    SearchFilterEmptyTerm(cards, CardFields);
  }

  /** The search keeps the list order. */
  lemma FilterCardsOrder(a: seq<PatientCard>, b: seq<PatientCard>, term: string)
    ensures FilterCards(a + b, term) == FilterCards(a, term) + FilterCards(b, term)
  {
    SearchFilterAppend(a, b, CardFields, term);
  }

  /** The `status` a vital card accepts; this page uses only the first two. */
  datatype CardStatus = Normal | Warning | Critical

  /** The icon colour the vital card gives each status. */
  function StatusColour(s: CardStatus): (colour: string)
    ensures colour == "text-success" <==> s == Normal
    ensures colour == "text-warning" <==> s == Warning
    ensures colour == "text-destructive" <==> s == Critical
  {
    match s
    case Normal => "text-success"
    case Warning => "text-warning"
    case Critical => "text-destructive"
  }

  /** The heart-rate card: critical above 100, with no lower bound. */
  function HeartRateStatus(hr: real): (s: CardStatus)
    ensures s != Warning
    ensures s == Critical <==> hr > 100.0
  {
    if hr > 100.0 then Critical else Normal
  }

  /** The blood-pressure card: always normal, whatever the reading. */
  function BloodPressureStatus(bp: string): (s: CardStatus)
    ensures s == Normal
  {
    Normal
  }

  /** The SpO2 card: critical below 95. */
  function Spo2Status(spo2: real): (s: CardStatus)
    ensures s != Warning
    ensures s == Critical <==> spo2 < 95.0
  {
    if spo2 < 95.0 then Critical else Normal
  }

  /** The temperature card: critical above 38, with no lower bound. */
  function TemperatureStatus(temp: real): (s: CardStatus)
    ensures s != Warning
    ensures s == Critical <==> temp > 38.0
  {
    if temp > 38.0 then Critical else Normal
  }

  /** For SpO2 the card shows the same colour as the admin vitals table, on
      every reading. */
  lemma Spo2AgreesWithAdmin(spo2: real)
    ensures StatusColour(Spo2Status(spo2)) == AdminVitals.VitalStatus("spo2", spo2)
  {
  }

  /** For heart rate and temperature, a critical card is always destructive on
      the admin page too; the converse fails below the admin page's lower
      bound, where this page still shows normal. */
  lemma HighReadingsAgreeWithAdmin(hr: real, temp: real)
    ensures HeartRateStatus(hr) == Critical ==> AdminVitals.VitalStatus("hr", hr) == AdminVitals.Destructive
    ensures TemperatureStatus(temp) == Critical ==> AdminVitals.VitalStatus("temp", temp) == AdminVitals.Destructive
    ensures hr >= 60.0 ==> StatusColour(HeartRateStatus(hr)) == AdminVitals.VitalStatus("hr", hr)
    ensures temp >= 36.0 ==> StatusColour(TemperatureStatus(temp)) == AdminVitals.VitalStatus("temp", temp)
  {
  }

  /** A slow heart rate of 50 and a temperature of 35 are destructive in the
      admin vitals table but normal on this page. */
  lemma LowReadingsDisagree()
    ensures HeartRateStatus(50.0) == Normal && AdminVitals.VitalStatus("hr", 50.0) == AdminVitals.Destructive
    ensures TemperatureStatus(35.0) == Normal && AdminVitals.VitalStatus("temp", 35.0) == AdminVitals.Destructive
  {
  }

  /** The patient badge is destructive exactly for "Critical" patients. */
  function DestructiveBadge(p: PatientCard): (destructive: bool)
    ensures destructive <==> p.status == "Critical"
  {
    p.status == "Critical"
  }

  /** On this page's list, the critical patients are exactly those with a
      critical vital card. */
  lemma CriticalPatientsHaveCriticalCard()
    ensures forall i :: 0 <= i < |MyPatients()| ==>
              (DestructiveBadge(MyPatients()[i]) <==>
                 HeartRateStatus(MyPatients()[i].hr) == Critical ||
                 Spo2Status(MyPatients()[i].spo2) == Critical ||
                 TemperatureStatus(MyPatients()[i].temp) == Critical)
  {
  }
}

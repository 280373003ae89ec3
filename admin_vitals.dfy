/** The admin "Live Patient Vitals" page: a fixed table of vital signs, a search
    box over name, id and ward, and `getVitalStatus`, which colours each reading
    by comparing it with fixed thresholds. */
module AdminVitals {
  import opened Wrappers
  import opened Text
  import opened Search

  /** One row of the vitals table. Readings are JavaScript numbers, modelled as
      reals since only comparisons are made on them. */
  datatype VitalsRow = VitalsRow(
    id: string, name: string, ward: string,
    hr: real, bp: string, spo2: real, temp: real, rr: real, status: string)

  /** The six rows the page shows. */
  function VitalsData(): seq<VitalsRow> {
    [ VitalsRow("P001", "John Smith", "ICU", 118.0, "145/92", 94.0, 38.2, 22.0, "Critical"),
      VitalsRow("P002", "Emily Davis", "General", 72.0, "120/80", 98.0, 36.8, 16.0, "Stable"),
      VitalsRow("P003", "Robert Wilson", "Cardiology", 88.0, "130/85", 96.0, 37.1, 18.0, "Stable"),
      VitalsRow("P004", "Lisa Anderson", "Maternity", 76.0, "118/76", 99.0, 36.9, 15.0, "Good"),
      VitalsRow("P005", "Michael Chen", "ICU", 125.0, "150/95", 91.0, 38.8, 24.0, "Critical"),
      VitalsRow("P006", "Sarah Thompson", "Pediatrics", 95.0, "110/70", 97.0, 37.5, 20.0, "Stable") ]
  }

  /** The fields the search box looks at. */
  function VitalsFields(v: VitalsRow): seq<string> {
    [v.name, v.id, v.ward]
  }

  /** `filteredVitals`. */
  function FilterVitals(rows: seq<VitalsRow>, term: string): (shown: seq<VitalsRow>)
    ensures |shown| <= |rows|
    ensures forall v :: v in shown ==> v in rows && Matches(VitalsFields(v), term)
  {
    SearchFilter(rows, VitalsFields, term)
  }

  /** A row is listed exactly when its lower-cased name, id or ward contains the
      lower-cased term. */
  lemma FilterVitalsKeeps(rows: seq<VitalsRow>, term: string, v: VitalsRow)
    ensures v in FilterVitals(rows, term) <==>
              v in rows &&
              (Includes(ToLower(v.name), ToLower(term)) || Includes(ToLower(v.id), ToLower(term)) ||
               Includes(ToLower(v.ward), ToLower(term)))
  {
    SearchFilterMembership(rows, VitalsFields, term, v);
    var fields := VitalsFields(v);
    assert |fields| == 3 && fields[0] == v.name && fields[1] == v.id && fields[2] == v.ward;
  }

  /** An empty search lists every row. */
  lemma FilterVitalsEmptyTerm(rows: seq<VitalsRow>)
    ensures FilterVitals(rows, "") == rows
  {
    SearchFilterEmptyTerm(rows, VitalsFields);
  }

  /** The search keeps the table order. */
  lemma FilterVitalsOrder(a: seq<VitalsRow>, b: seq<VitalsRow>, term: string)
    ensures FilterVitals(a + b, term) == FilterVitals(a, term) + FilterVitals(b, term)
  {
    SearchFilterAppend(a, b, VitalsFields, term);
  }

  const Destructive := "text-destructive"
  const Success := "text-success"
  const Foreground := "text-foreground"

  /** `getVitalStatus(vital, value)`: the text colour of one reading. */
  function VitalStatus(vital: string, value: real): (colour: string)
    ensures colour == Destructive || colour == Success || colour == Foreground
  {
    if vital == "hr" then
      (if value > 100.0 || value < 60.0 then Destructive else Success)
    else if vital == "spo2" then
      (if value < 95.0 then Destructive else Success)
    else if vital == "temp" then
      (if value > 38.0 || value < 36.0 then Destructive else Success)
    else if vital == "rr" then
      (if value > 20.0 || value < 12.0 then Destructive else Success)
    else
      Foreground
  }

  /** The normal band of a vital: a closed interval, open-ended where a side has
      no bound. */
  datatype Band = Band(low: Option<real>, high: Option<real>)

  predicate Within(b: Band, x: real) {
    (b.low.None? || b.low.value <= x) && (b.high.None? || x <= b.high.value)
  }

  /** The clinical bands the page applies, one per vital it knows; the other
      names have none. */
  function NormalBand(vital: string): Option<Band> {
    if vital == "hr" then Some(Band(Some(60.0), Some(100.0)))
    else if vital == "spo2" then Some(Band(Some(95.0), None))
    else if vital == "temp" then Some(Band(Some(36.0), Some(38.0)))
    else if vital == "rr" then Some(Band(Some(12.0), Some(20.0)))
    else None
  }

  /** A reading is coloured as a success exactly when it lies in its vital's
      normal band (the bounds included), as destructive exactly when it lies
      outside it, and in the plain foreground colour exactly when the vital has
      no band. */
  lemma VitalStatusFollowsBands(vital: string, value: real)
    ensures VitalStatus(vital, value) == Success <==>
              NormalBand(vital).Some? && Within(NormalBand(vital).value, value)
    ensures VitalStatus(vital, value) == Destructive <==>
              NormalBand(vital).Some? && !Within(NormalBand(vital).value, value)
    ensures VitalStatus(vital, value) == Foreground <==> NormalBand(vital).None?
  {
  }

  /** Moving a reading towards the middle of its band never turns a success
      into a destructive colour: between two normal readings every reading is
      normal. */
  lemma NormalReadingsConvex(vital: string, x: real, y: real, z: real)
    requires x <= y <= z
    requires VitalStatus(vital, x) == Success && VitalStatus(vital, z) == Success
    ensures VitalStatus(vital, y) == Success
  {
    VitalStatusFollowsBands(vital, x);
    VitalStatusFollowsBands(vital, y);
    VitalStatusFollowsBands(vital, z);
  }

  /** Whether any of a row's four coloured readings is destructive. */
  predicate AnyDestructive(v: VitalsRow) {
    VitalStatus("hr", v.hr) == Destructive || VitalStatus("spo2", v.spo2) == Destructive ||
    VitalStatus("temp", v.temp) == Destructive || VitalStatus("rr", v.rr) == Destructive
  }

  /** In the page's table, the rows marked "Critical" are exactly those with a
      reading outside its band. */
  lemma CriticalRowsAreOutOfBand()
    ensures forall i :: 0 <= i < |VitalsData()| ==>
              (VitalsData()[i].status == "Critical" <==> AnyDestructive(VitalsData()[i]))
  {
  }
}

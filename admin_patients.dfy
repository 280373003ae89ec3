/** The admin "Patient Management" page: a list of patients held in page state,
    a search box over name and id, an "Add Patient" dialog whose form is
    validated and turned into a new record, and a delete button per row. The
    clock (`new Date()`) and `parseInt` are inputs. */
module AdminPatients {
  import opened Wrappers
  import opened Text
  import opened Search
  import Seqs

  /** A patient row; `age` is `None` where `parseInt` gave `NaN`. */
  datatype Patient = Patient(
    id: string, name: string, age: Option<int>, gender: string, ward: string,
    doctor: string, admission: string, status: string)

  /** The "Add New Patient" form, every field as typed. */
  datatype PatientForm = PatientForm(name: string, age: string, gender: string, ward: string, doctor: string)

  const EmptyForm := PatientForm("", "", "", "", "")

  /** The four patients the page starts with. */
  function InitialPatients(): seq<Patient> {
    [ Patient("P001", "John Smith", Some(45), "Male", "ICU", "Dr. Sarah Johnson", "2025-10-20", "Critical"),
      Patient("P002", "Emily Davis", Some(32), "Female", "General", "Dr. Michael Brown", "2025-10-21", "Stable"),
      Patient("P003", "Robert Wilson", Some(67), "Male", "Cardiology", "Dr. Sarah Johnson", "2025-10-19", "Stable"),
      Patient("P004", "Lisa Anderson", Some(28), "Female", "Maternity", "Dr. Jennifer Lee", "2025-10-22", "Good") ]
  }

  /** `` `P${String(n).padStart(3, '0')}` ``. */
  function PatientId(n: nat): (id: string)
    ensures |id| >= 4 && id[0] == 'P'
    ensures n < 1000 ==> |id| == 4
  {
    if n < 1000 then DecimalStringShort(n); "P" + PaddedSerial(n) else "P" + PaddedSerial(n)
  }

  /** The id is "P" followed by digits that read back as `n`, so distinct
      numbers give distinct ids. */
  lemma PatientIdRoundTrip(n: nat)
    ensures var id := PatientId(n);
            |id| >= 4 && id[0] == 'P' && AllDigits(id[1..]) && DigitsValue(id[1..]) == n
  {
    var id := PatientId(n);
    assert id[1..] == PaddedSerial(n);
    PaddedSerialRoundTrip(n);
  }

  /** Different list lengths give different ids. */
  lemma PatientIdInjective(m: nat, n: nat)
    requires PatientId(m) == PatientId(n)
    ensures m == n
  {
    PatientIdRoundTrip(m);
    PatientIdRoundTrip(n);
  }

  /** The fields the search box looks at. */
  function PatientFields(p: Patient): seq<string> {
    [p.name, p.id]
  }

  /** `filteredPatients`. */
  function FilterPatients(patients: seq<Patient>, term: string): (shown: seq<Patient>)
    ensures |shown| <= |patients|
    ensures forall p :: p in shown ==> p in patients && Matches(PatientFields(p), term)
  {
    SearchFilter(patients, PatientFields, term)
  }

  /** A patient is listed exactly when its lower-cased name or id contains the
      lower-cased term. */
  lemma FilterPatientsKeeps(patients: seq<Patient>, term: string, p: Patient)
    ensures p in FilterPatients(patients, term) <==>
              p in patients &&
              (Includes(ToLower(p.name), ToLower(term)) || Includes(ToLower(p.id), ToLower(term)))
  {
    SearchFilterMembership(patients, PatientFields, term, p);
    var fields := PatientFields(p);
    assert |fields| == 2 && fields[0] == p.name && fields[1] == p.id;
  }

  /** An empty search lists everyone. */
  lemma FilterPatientsEmptyTerm(patients: seq<Patient>)
    ensures FilterPatients(patients, "") == patients
  {
    SearchFilterEmptyTerm(patients, PatientFields);
  }

  /** The search keeps the list order. */
  lemma FilterPatientsOrder(a: seq<Patient>, b: seq<Patient>, term: string)
    ensures FilterPatients(a + b, term) == FilterPatients(a, term) + FilterPatients(b, term)
  {
    SearchFilterAppend(a, b, PatientFields, term);
  }

  /** The required fields: name, age, gender and ward must be non-empty; the
      doctor may be left blank. */
  function FormComplete(form: PatientForm): (complete: bool)
    ensures !complete <==> form.name == "" || form.age == "" || form.gender == "" || form.ward == ""
  {
    form.name != "" && form.age != "" && form.gender != "" && form.ward != ""
  }

  /** The record `handleAddPatient` builds when the list has `count` patients. */
  function NewPatient(count: nat, form: PatientForm, age: Option<int>, today: string): (p: Patient)
    ensures p.id == PatientId(count + 1)
    ensures p.status == "Stable" && p.admission == today && p.age == age
    ensures p.name == form.name && p.gender == form.gender && p.ward == form.ward
    ensures p.doctor != "" && (form.doctor != "" ==> p.doctor == form.doctor) && (form.doctor == "" ==> p.doctor == "Unassigned")
  {
    Patient(PatientId(count + 1), form.name, age, form.gender, form.ward,
      if form.doctor != "" then form.doctor else "Unassigned", today, "Stable")
  }

  /** `patients.filter(p => p.id !== id)`. */
  function WithoutPatient(patients: seq<Patient>, id: string): (rest: seq<Patient>)
    ensures |rest| <= |patients|
    ensures forall p :: p in rest ==> p in patients && p.id != id
  {
    Seqs.Filter(patients, (p: Patient) => p.id != id)
  }

  /** Deleting removes every patient with the id and keeps everyone else, in
      order. */
  lemma WithoutPatientSpec(patients: seq<Patient>, id: string, p: Patient)
    ensures p in WithoutPatient(patients, id) <==> p in patients && p.id != id
    ensures |WithoutPatient(patients, id)| <= |patients|
  {
    Seqs.FilterMembership(patients, (q: Patient) => q.id != id, p);
  }

  lemma WithoutPatientOrder(a: seq<Patient>, b: seq<Patient>, id: string)
    ensures WithoutPatient(a + b, id) == WithoutPatient(a, id) + WithoutPatient(b, id)
  {
    Seqs.FilterAppend(a, b, (p: Patient) => p.id != id);
  }

  /** The fourth serial number is "P004". */
  lemma FourthPatientId()
    ensures PatientId(4) == "P004"
  {
    assert DecimalString(4) == "4";
  }

  /** Deleting "P002" from the initial list leaves the other three in order. */
  lemma InitialWithoutSecond()
    ensures WithoutPatient(InitialPatients(), "P002") ==
            [InitialPatients()[0], InitialPatients()[2], InitialPatients()[3]]
  {
    var s := InitialPatients();
    assert s == [s[0], s[1], s[2], s[3]];
    assert s[0].id != "P002" && s[1].id == "P002" && s[2].id != "P002" && s[3].id != "P002";
    DropSecondOfFour(s[0], s[1], s[2], s[3], (q: Patient) => q.id != "P002");
  }

  /** Filtering four elements of which only the second fails the test. */
  lemma DropSecondOfFour<T>(a: T, b: T, c: T, d: T, keep: T -> bool)
    requires keep(a) && !keep(b) && keep(c) && keep(d)
    ensures Seqs.Filter([a, b, c, d], keep) == [a, c, d]
  {
    assert [a, b, c, d][1..] == [b, c, d];
    assert [b, c, d][1..] == [c, d];
    assert [c, d][1..] == [d];
    assert [d][1..] == [];
    assert Seqs.Filter([d], keep) == [d];
    assert Seqs.Filter([c, d], keep) == [c] + [d];
    assert Seqs.Filter([b, c, d], keep) == [c, d];
    assert [a] + [c, d] == [a, c, d];
  }

  /** Ids come from the list length, so deleting and then adding can hand out an
      id that is still in use: from the initial list, deleting "P002" and adding
      a patient creates a second "P004". */
  lemma DeleteThenAddRepeatsId(form: PatientForm, age: Option<int>, today: string)
    ensures var rest := WithoutPatient(InitialPatients(), "P002");
            var p := NewPatient(|rest|, form, age, today);
            p.id == "P004" && |rest| == 3 && rest[2].id == "P004"
  {
    InitialWithoutSecond();
    FourthPatientId();
  }

  class PatientsPage {
    var patients: seq<Patient>
    var isDialogOpen: bool
    var form: PatientForm

    /** The page as first shown: the four initial patients, the dialog closed,
        the form empty. */
    constructor ()
      ensures patients == InitialPatients() && !isDialogOpen && form == EmptyForm
    {
      patients := InitialPatients();
      isDialogOpen := false;
      form := EmptyForm;
    }

    /** `handleAddPatient`. An incomplete form changes nothing. A complete one
        appends exactly one patient, numbered after the current list, and then
        empties the form and closes the dialog. */
    method AddPatient(parseInt: string -> Option<int>, today: string) returns (added: bool)
      modifies this
      ensures added <==> FormComplete(old(form))
      ensures !added ==> patients == old(patients) && form == old(form) && isDialogOpen == old(isDialogOpen)
      ensures added ==>
                patients == old(patients) + [NewPatient(|old(patients)|, old(form), parseInt(old(form).age), today)] &&
                form == EmptyForm && !isDialogOpen
    {
      if !FormComplete(form) {
        return false;
      }
      var patient := NewPatient(|patients|, form, parseInt(form.age), today);
      patients := patients + [patient];
      form := EmptyForm;
      isDialogOpen := false;
      added := true;
    }

    /** `handleDeletePatient(id)`. */
    method DeletePatient(id: string)
      modifies this
      ensures patients == WithoutPatient(old(patients), id)
      ensures form == old(form) && isDialogOpen == old(isDialogOpen)
    {
      patients := WithoutPatient(patients, id);
    }
  }
}

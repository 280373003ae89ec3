/** The admin "Doctor Management" page: a list of doctors held in page state, a
    search box over name and specialization, an "Add Doctor" dialog whose form is
    validated and turned into a new record, and a delete button per row. */
module AdminDoctors {
  import opened Text
  import opened Search
  import Seqs

  /** A doctor row of this page (the page keeps its own records, with the
      specialization as free text). */
  datatype Doctor = Doctor(
    id: string, name: string, specialization: string, patients: nat,
    email: string, phone: string, status: string)

  /** The "Add New Doctor" form, every field as typed. */
  datatype DoctorForm = DoctorForm(name: string, specialization: string, email: string, phone: string)

  const EmptyForm := DoctorForm("", "", "", "")

  /** The four doctors the page starts with. */
  function InitialDoctors(): seq<Doctor> {
    [ Doctor("D001", "Dr. Sarah Johnson", "Cardiology", 12, "sarah.j@hospital.com", "+1 234-567-8901", "Active"),
      Doctor("D002", "Dr. Michael Brown", "General Medicine", 18, "michael.b@hospital.com", "+1 234-567-8902", "Active"),
      Doctor("D003", "Dr. Jennifer Lee", "Pediatrics", 15, "jennifer.l@hospital.com", "+1 234-567-8903", "Active"),
      Doctor("D004", "Dr. David Wilson", "Neurology", 8, "david.w@hospital.com", "+1 234-567-8904", "On Leave") ]
  }

  /** `` `D${String(n).padStart(3, '0')}` ``. */
  function DoctorId(n: nat): (id: string)
    ensures |id| >= 4 && id[0] == 'D'
    ensures n < 1000 ==> |id| == 4
  {
    if n < 1000 then DecimalStringShort(n); "D" + PaddedSerial(n) else "D" + PaddedSerial(n)
  }

  /** The id is "D" followed by digits that read back as `n`. */
  lemma DoctorIdRoundTrip(n: nat)
    ensures var id := DoctorId(n);
            |id| >= 4 && id[0] == 'D' && AllDigits(id[1..]) && DigitsValue(id[1..]) == n
  {
    var id := DoctorId(n);
    assert id[1..] == PaddedSerial(n);
    PaddedSerialRoundTrip(n);
  }

  /** Different list lengths give different ids. */
  lemma DoctorIdInjective(m: nat, n: nat)
    requires DoctorId(m) == DoctorId(n)
    ensures m == n
  {
    DoctorIdRoundTrip(m);
    DoctorIdRoundTrip(n);
  }

  /** The fields the search box looks at. */
  function DoctorFields(d: Doctor): seq<string> {
    [d.name, d.specialization]
  }

  /** `filteredDoctors`. */
  function FilterDoctors(doctors: seq<Doctor>, term: string): (shown: seq<Doctor>)
    ensures |shown| <= |doctors|
    ensures forall d :: d in shown ==> d in doctors && Matches(DoctorFields(d), term)
  {
    SearchFilter(doctors, DoctorFields, term)
  }

  /** A doctor is listed exactly when the lower-cased name or specialization
      contains the lower-cased term. */
  lemma FilterDoctorsKeeps(doctors: seq<Doctor>, term: string, d: Doctor)
    ensures d in FilterDoctors(doctors, term) <==>
              d in doctors &&
              (Includes(ToLower(d.name), ToLower(term)) || Includes(ToLower(d.specialization), ToLower(term)))
  {
    SearchFilterMembership(doctors, DoctorFields, term, d);
    var fields := DoctorFields(d);
    assert |fields| == 2 && fields[0] == d.name && fields[1] == d.specialization;
  }

  /** An empty search lists every doctor. */
  lemma FilterDoctorsEmptyTerm(doctors: seq<Doctor>)
    ensures FilterDoctors(doctors, "") == doctors
  {
    SearchFilterEmptyTerm(doctors, DoctorFields);
  }

  /** The search keeps the list order. */
  lemma FilterDoctorsOrder(a: seq<Doctor>, b: seq<Doctor>, term: string)
    ensures FilterDoctors(a + b, term) == FilterDoctors(a, term) + FilterDoctors(b, term)
  {
    SearchFilterAppend(a, b, DoctorFields, term);
  }

  /** The required fields: name, specialization and email; the phone is
      optional. */
  function FormComplete(form: DoctorForm): (complete: bool)
    ensures !complete <==> form.name == "" || form.specialization == "" || form.email == ""
  {
    form.name != "" && form.specialization != "" && form.email != ""
  }

  /** The record `handleAddDoctor` builds when the list has `count` doctors. */
  function NewDoctor(count: nat, form: DoctorForm): (d: Doctor)
    ensures d.id == DoctorId(count + 1)
    ensures d.patients == 0 && d.status == "Active"
    ensures d.name == form.name && d.specialization == form.specialization && d.email == form.email
    ensures d.phone != "" && (form.phone != "" ==> d.phone == form.phone) && (form.phone == "" ==> d.phone == "N/A")
  {
    Doctor(DoctorId(count + 1), form.name, form.specialization, 0, form.email,
      if form.phone != "" then form.phone else "N/A", "Active")
  }

  /** `doctors.filter(d => d.id !== id)`. */
  function WithoutDoctor(doctors: seq<Doctor>, id: string): (rest: seq<Doctor>)
    ensures |rest| <= |doctors|
    ensures forall d :: d in rest ==> d in doctors && d.id != id
  {
    Seqs.Filter(doctors, (d: Doctor) => d.id != id)
  }

  /** Deleting removes every doctor with the id and keeps the others, in
      order. */
  lemma WithoutDoctorSpec(doctors: seq<Doctor>, id: string, d: Doctor)
    ensures d in WithoutDoctor(doctors, id) <==> d in doctors && d.id != id
    ensures |WithoutDoctor(doctors, id)| <= |doctors|
  {
    Seqs.FilterMembership(doctors, (e: Doctor) => e.id != id, d);
  }

  lemma WithoutDoctorOrder(a: seq<Doctor>, b: seq<Doctor>, id: string)
    ensures WithoutDoctor(a + b, id) == WithoutDoctor(a, id) + WithoutDoctor(b, id)
  {
    Seqs.FilterAppend(a, b, (d: Doctor) => d.id != id);
  }

  class DoctorsPage {
    var doctors: seq<Doctor>
    var isDialogOpen: bool
    var form: DoctorForm

    /** The page as first shown: the four initial doctors, the dialog closed,
        the form empty. */
    constructor ()
      ensures doctors == InitialDoctors() && !isDialogOpen && form == EmptyForm
    {
      doctors := InitialDoctors();
      isDialogOpen := false;
      form := EmptyForm;
    }

    /** `handleAddDoctor`. An incomplete form changes nothing. A complete one
        appends exactly one doctor, numbered after the current list, and then
        empties the form and closes the dialog. */
    method AddDoctor() returns (added: bool)
      modifies this
      ensures added <==> FormComplete(old(form))
      ensures !added ==> doctors == old(doctors) && form == old(form) && isDialogOpen == old(isDialogOpen)
      ensures added ==>
                doctors == old(doctors) + [NewDoctor(|old(doctors)|, old(form))] &&
                form == EmptyForm && !isDialogOpen
    {
      if !FormComplete(form) {
        return false;
      }
      var doctor := NewDoctor(|doctors|, form);
      doctors := doctors + [doctor];
      form := EmptyForm;
      isDialogOpen := false;
      added := true;
    }

    /** `handleDeleteDoctor(id)`. */
    method DeleteDoctor(id: string)
      modifies this
      ensures doctors == WithoutDoctor(old(doctors), id)
      ensures form == old(form) && isDialogOpen == old(isDialogOpen)
    {
      doctors := WithoutDoctor(doctors, id);
    }
  }
}

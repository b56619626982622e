/** The lookup helpers and the multi-call updates of enhanced-services.js.
    Each lookup works on lists already fetched, which are parameters here; each update
    is a fixed list of field-scoped calls sent in order to a `Server`, stopping at the
    first rejected call. */
module EnhancedServices {
  import opened Js
  import opened Seqs
  import opened Entities
  import opened Http

  // ---------------------------------------------------------------- lookups

  /** `getPatientById`: `patients.find(patient => patient.SSN === ssn)`. */
  function PatientById(patients: seq<Patient>, ssn: nat): (r: Option<Patient>)
    ensures r.Some? ==> r.value.ssn == ssn
    ensures r.Some? ==> exists i :: 0 <= i < |patients| && patients[i] == r.value &&
                          forall j :: 0 <= j < i ==> patients[j].ssn != ssn
    ensures r.None? <==> forall i :: 0 <= i < |patients| ==> patients[i].ssn != ssn
  {
    Find(patients, (p: Patient) => p.ssn, ssn)
  }

  /** `getProcedureById`: every procedure is fetched, then
      `procedures.find(procedure => procedure.Code === procedureId)`; a rejected fetch is rethrown. */
  function ProcedureById(proceduresRes: Response<seq<Procedure>>, code: nat): (r: Response<Option<Procedure>>)
    ensures r.Ok? <==> proceduresRes.Ok?
    ensures r.Ok? && r.value.Some? ==> r.value.value.code == code
    ensures r.Ok? && r.value.Some? ==> exists i :: 0 <= i < |proceduresRes.value| && proceduresRes.value[i] == r.value.value &&
                                         forall j :: 0 <= j < i ==> proceduresRes.value[j].code != code
    ensures r.Ok? ==> (r.value.None? <==> forall i :: 0 <= i < |proceduresRes.value| ==> proceduresRes.value[i].code != code)
  {
    match proceduresRes
    case Ok(procedures) => Ok(Find(procedures, (p: Procedure) => p.code, code))
    case Fault => Fault
  }

  /** A lookup returns the patient at the first position holding that SSN, whatever follows. */
  lemma PatientByIdFirst(patients: seq<Patient>, ssn: nat, i: nat)
    requires i < |patients| && patients[i].ssn == ssn
    requires forall j :: 0 <= j < i ==> patients[j].ssn != ssn
    ensures PatientById(patients, ssn) == Some(patients[i])
  {
    FindAt(patients, (p: Patient) => p.ssn, ssn, i);
  }

  /** The search box's test: the lower-cased name contains the lower-cased term. */
  predicate NameMatches(patient: Patient, term: string) {
    Contains(Lower(patient.name), Lower(term))
  }

  /** `searchPatients`: the patients whose name matches, in their original order. */
  function SearchPatients(patients: seq<Patient>, term: string): (r: seq<Patient>)
    ensures |r| <= |patients|
    ensures forall p :: p in r <==> p in patients && NameMatches(p, term)
  {
    Filter(patients, (p: Patient) => NameMatches(p, term))
  }

  /** The search result keeps the patients' relative order and multiplicities. */
  lemma SearchPatientsKeepsOrder(patients: seq<Patient>, term: string, p: Patient)
    ensures Subsequence(SearchPatients(patients, term), patients)
    ensures multiset(SearchPatients(patients, term))[p] == if NameMatches(p, term) then multiset(patients)[p] else 0
  {
    FilterIsSubsequence(patients, (q: Patient) => NameMatches(q, term));
    FilterCounts(patients, (q: Patient) => NameMatches(q, term), p);
  }

  /** An empty search term matches every patient. */
  lemma SearchPatientsEmptyTerm(patients: seq<Patient>)
    ensures SearchPatients(patients, "") == patients
  {
    forall i | 0 <= i < |patients|
      ensures NameMatches(patients[i], "")
    {
      assert OccursAt(Lower(patients[i].name), Lower(""), 0);
    }
    FilterAll(patients, (q: Patient) => NameMatches(q, ""));
  }

  /** The case of the search term does not matter. */
  lemma SearchPatientsCaseInsensitive(patients: seq<Patient>, term: string)
    ensures SearchPatients(patients, Lower(term)) == SearchPatients(patients, term)
  {
    LowerIdempotent(term);
    FilterCongruent(patients, (q: Patient) => NameMatches(q, Lower(term)), (q: Patient) => NameMatches(q, term));
  }

  /** `patients.some(patient => patient.SSN === ssn)`. */
  function HasSsn(patients: seq<Patient>, ssn: nat): (b: bool)
    ensures b <==> exists i :: 0 <= i < |patients| && patients[i].ssn == ssn
  {
    FirstIndex(patients, (p: Patient) => p.ssn, ssn).Some?
  }

  /** `getAppointmentsByPhysician`: the physician's patients are fetched, then every
      appointment, and the appointments of those patients are kept. */
  function AppointmentsByPhysician(patientsRes: Response<seq<Patient>>, appointmentsRes: Response<seq<Appointment>>)
    : (r: Response<seq<Appointment>>)
    ensures r.Ok? <==> patientsRes.Ok? && appointmentsRes.Ok?
    ensures r.Ok? ==> |r.value| <= |appointmentsRes.value|
    ensures r.Ok? ==> forall a :: a in r.value <==>
      a in appointmentsRes.value && exists i :: 0 <= i < |patientsRes.value| && patientsRes.value[i].ssn == a.patient
  {
    match (patientsRes, appointmentsRes)
    case (Ok(patients), Ok(appointments)) =>
      Ok(Filter(appointments, (a: Appointment) => HasSsn(patients, a.patient)))
    case _ => Fault
  }

  /** The physician's appointments come in the order of the full list, each kept as often
      as it is listed. */
  lemma AppointmentsByPhysicianKeepsOrder(patients: seq<Patient>, appointments: seq<Appointment>, a: Appointment)
    ensures Subsequence(AppointmentsByPhysician(Ok(patients), Ok(appointments)).value, appointments)
    ensures multiset(AppointmentsByPhysician(Ok(patients), Ok(appointments)).value)[a] ==
      if HasSsn(patients, a.patient) then multiset(appointments)[a] else 0
  {
    FilterIsSubsequence(appointments, (b: Appointment) => HasSsn(patients, b.patient));
    FilterCounts(appointments, (b: Appointment) => HasSsn(patients, b.patient), a);
  }

  /** The record `getAppointmentsByPatient` builds for one returned date. */
  datatype PatientAppointment = PatientAppointment(patient: nat, startDateTime: JsValue)

  /** `getAppointmentsByPatient`: the patient's dates are fetched and mapped to one record
      per date, in order; a rejected fetch is rethrown. */
  function AppointmentsByPatient(patientId: nat, datesRes: Response<seq<JsValue>>): (r: Response<seq<PatientAppointment>>)
    ensures r.Ok? <==> datesRes.Ok?
    ensures r.Ok? ==> |r.value| == |datesRes.value|
    ensures r.Ok? ==> forall i :: 0 <= i < |datesRes.value| ==>
      r.value[i].patient == patientId && r.value[i].startDateTime == datesRes.value[i]
  {
    match datesRes
    case Ok(dates) => Ok(seq(|dates|, i requires 0 <= i < |dates| => PatientAppointment(patientId, dates[i])))
    case Fault => Fault
  }

  /** Projecting the records back onto their dates gives the fetched dates. */
  lemma AppointmentsByPatientDates(patientId: nat, dates: seq<JsValue>)
    ensures var r := AppointmentsByPatient(patientId, Ok(dates)).value;
      seq(|r|, i requires 0 <= i < |r| => r[i].startDateTime) == dates
  {
  }

  // ---------------------------------------------------------------- updates

  /** The calls `updatePatient` makes: the address, then the phone, both keyed by SSN. */
  function PatientPlan(patient: Patient): (plan: seq<Request>)
    ensures |plan| == 2
    ensures plan[0] == PutPatientAddress(patient.ssn, patient.address)
    ensures plan[1] == PutPatientPhone(patient.ssn, patient.phone)
  {
    [PutPatientAddress(patient.ssn, patient.address), PutPatientPhone(patient.ssn, patient.phone)]
  }

  /** No patient field other than SSN, address and phone reaches the server. */
  lemma PatientPlanSendsOnlyAddressAndPhone(p: Patient, q: Patient)
    requires p.ssn == q.ssn && p.address == q.address && p.phone == q.phone
    ensures PatientPlan(p) == PatientPlan(q)
  {
  }

  /** `updatePatient`. `ok` is its `true`; false stands for the rethrown error. */
  method UpdatePatient(server: Server, patient: Patient) returns (ok: bool)
    modifies server
    ensures server.trace == old(server.trace) + Issued(PatientPlan(patient), |old(server.trace)|, server.failing)
    ensures ok <==> Succeeds(PatientPlan(patient), |old(server.trace)|, server.failing)
  {
    ghost var plan := PatientPlan(patient);
    ghost var start := |server.trace|;
    ok := server.Send(PutPatientAddress(patient.ssn, patient.address));
    if !ok {
      assert Issued(plan, start, server.failing) == [plan[0]];
      return;
    }
    ok := server.Send(PutPatientPhone(patient.ssn, patient.phone));
    assert Issued(plan[1..][1..], start + 2, server.failing) == [];
    assert Issued(plan[1..], start + 1, server.failing) == [plan[1]];
  }

  /** The calls `updatePhysician` makes: name, then position (carried in the path), then SSN. */
  function PhysicianPlan(physician: Physician): (plan: seq<Request>)
    ensures |plan| == 3
    ensures plan[0] == PutPhysicianName(physician.employeeId, physician.name)
    ensures plan[1] == PutPhysicianPosition(physician.position, physician.employeeId)
    ensures plan[2] == PutPhysicianSsn(physician.employeeId, physician.ssn)
  {
    [PutPhysicianName(physician.employeeId, physician.name),
     PutPhysicianPosition(physician.position, physician.employeeId),
     PutPhysicianSsn(physician.employeeId, physician.ssn)]
  }

  /** `updatePhysician`. */
  method UpdatePhysician(server: Server, physician: Physician) returns (ok: bool)
    modifies server
    ensures server.trace == old(server.trace) + Issued(PhysicianPlan(physician), |old(server.trace)|, server.failing)
    ensures ok <==> Succeeds(PhysicianPlan(physician), |old(server.trace)|, server.failing)
  {
    ghost var plan := PhysicianPlan(physician);
    ghost var start := |server.trace|;
    ok := server.Send(PutPhysicianName(physician.employeeId, physician.name));
    if !ok {
      assert Issued(plan, start, server.failing) == [plan[0]];
      return;
    }
    ok := server.Send(PutPhysicianPosition(physician.position, physician.employeeId));
    if !ok {
      assert Issued(plan[1..], start + 1, server.failing) == [plan[1]];
      return;
    }
    ok := server.Send(PutPhysicianSsn(physician.employeeId, physician.ssn));
    assert Issued(plan[1..][1..][1..], start + 3, server.failing) == [];
    assert Issued(plan[1..][1..], start + 2, server.failing) == [plan[2]];
    assert Issued(plan[1..], start + 1, server.failing) == [plan[1], plan[2]];
  }

  /** A rejected name update sends nothing else; a rejected position update is followed
      by no SSN update. */
  lemma PhysicianFailureStopsLaterCalls(physician: Physician, start: nat, failing: set<nat>)
    ensures start in failing ==> Issued(PhysicianPlan(physician), start, failing) == PhysicianPlan(physician)[..1]
    ensures start !in failing && start + 1 in failing ==>
      Issued(PhysicianPlan(physician), start, failing) == PhysicianPlan(physician)[..2]
  {
    var plan := PhysicianPlan(physician);
    if start in failing {
      FailureStopsLaterCalls(plan, start, failing, 0);
    } else if start + 1 in failing {
      FailureStopsLaterCalls(plan, start, failing, 1);
    }
  }

  /** The calls `updateDepartment` makes: always the name, then the head only when `Head` is truthy. */
  function DepartmentPlan(department: Department): (plan: seq<Request>)
    ensures 1 <= |plan| <= 2
    ensures plan[0] == PutDepartmentName(department.departmentId, department.name)
    ensures |plan| == 2 <==> Truthy(department.head)
    ensures |plan| == 2 ==> plan[1] == PutDepartmentHead(department.departmentId, department.head)
  {
    [PutDepartmentName(department.departmentId, department.name)]
    + if Truthy(department.head) then [PutDepartmentHead(department.departmentId, department.head)] else []
  }

  /** `updateDepartment`. */
  method UpdateDepartment(server: Server, department: Department) returns (ok: bool)
    modifies server
    ensures server.trace == old(server.trace) + Issued(DepartmentPlan(department), |old(server.trace)|, server.failing)
    ensures ok <==> Succeeds(DepartmentPlan(department), |old(server.trace)|, server.failing)
  {
    ghost var plan := DepartmentPlan(department);
    ghost var start := |server.trace|;
    ok := server.Send(PutDepartmentName(department.departmentId, department.name));
    if !ok {
      assert Issued(plan, start, server.failing) == [plan[0]];
      return;
    }
    if Truthy(department.head) {
      ok := server.Send(PutDepartmentHead(department.departmentId, department.head));
      assert Issued(plan[1..][1..], start + 2, server.failing) == [];
      assert Issued(plan[1..], start + 1, server.failing) == [plan[1]];
    } else {
      assert plan[1..] == [];
    }
  }

  /** A falsy head is never sent, a truthy one always is once the name update is accepted. */
  lemma DepartmentHeadSent(department: Department, start: nat, failing: set<nat>)
    ensures !Truthy(department.head) ==> forall r :: r in Issued(DepartmentPlan(department), start, failing) ==> !r.PutDepartmentHead?
    ensures Truthy(department.head) && start !in failing ==>
      Issued(DepartmentPlan(department), start, failing)
        == [PutDepartmentName(department.departmentId, department.name), PutDepartmentHead(department.departmentId, department.head)]
  {
    IssuedIsPrefix(DepartmentPlan(department), start, failing);
  }
}

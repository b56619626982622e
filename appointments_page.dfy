/** The appointment page of hospital-management-appointments.js: the name lookups that
    fill each table row, the date guards, the edit form's prefill, and the submit
    dispatch between editing and creating. */
module AppointmentsPage {
  import opened Js
  import opened Seqs
  import opened Entities
  import opened Http
  import EnhancedServices

  // ---------------------------------------------------------------- name lookups

  /** Position `i` holds the first patient with that SSN. */
  predicate FirstWithSsn(patients: seq<Patient>, ssn: nat, i: int) {
    0 <= i < |patients| && patients[i].ssn == ssn && forall j :: 0 <= j < i ==> patients[j].ssn != ssn
  }

  /** `getPatientName`: the name of the first patient with that SSN, else 'Unknown'. */
  function PatientName(patients: seq<Patient>, id: nat): (name: string)
    ensures (forall i :: 0 <= i < |patients| ==> patients[i].ssn != id) ==> name == "Unknown"
    ensures forall i :: FirstWithSsn(patients, id, i) ==> name == patients[i].name
  {
    match EnhancedServices.PatientById(patients, id)
    case Some(patient) =>
      assert forall i :: FirstWithSsn(patients, id, i) ==> patients[i] == patient by {
        forall i | FirstWithSsn(patients, id, i)
          ensures patients[i] == patient
        {
          EnhancedServices.PatientByIdFirst(patients, id, i);
        }
      }
      patient.name
    case None => "Unknown"
  }

  /** Position `i` holds the first physician with that employee id. */
  predicate FirstWithEmployeeId(physicians: seq<Physician>, id: nat, i: int) {
    0 <= i < |physicians| && physicians[i].employeeId == id &&
    forall j :: 0 <= j < i ==> physicians[j].employeeId != id
  }

  /** `getPhysicianName`: the name of the first physician with that id, else 'Unknown'. */
  function PhysicianName(physicians: seq<Physician>, id: nat): (name: string)
    ensures (forall i :: 0 <= i < |physicians| ==> physicians[i].employeeId != id) ==> name == "Unknown"
    ensures forall i :: FirstWithEmployeeId(physicians, id, i) ==> name == physicians[i].name
  {
    match Find(physicians, (p: Physician) => p.employeeId, id)
    case Some(physician) =>
      assert forall i :: FirstWithEmployeeId(physicians, id, i) ==> physicians[i] == physician by {
        forall i | FirstWithEmployeeId(physicians, id, i)
          ensures physicians[i] == physician
        {
          FindAt(physicians, (p: Physician) => p.employeeId, id, i);
        }
      }
      physician.name
    case None => "Unknown"
  }

  /** Position `i` holds the first nurse whose id is strictly equal to `id`. */
  predicate FirstNurseWithId(nurses: seq<Nurse>, id: JsValue, i: int) {
    0 <= i < |nurses| && Num(nurses[i].employeeId) == id &&
    forall j :: 0 <= j < i ==> Num(nurses[j].employeeId) != id
  }

  /** `getNurseName`: 'None' when the appointment has no prep nurse, otherwise the name of
      the first nurse with that id, else 'Unknown'. */
  function NurseName(nurses: seq<Nurse>, id: JsValue): (name: string)
    ensures !Truthy(id) ==> name == "None"
    ensures Truthy(id) && (forall i :: 0 <= i < |nurses| ==> Num(nurses[i].employeeId) != id) ==> name == "Unknown"
    ensures Truthy(id) ==> forall i :: FirstNurseWithId(nurses, id, i) ==> name == nurses[i].name
  {
    if !Truthy(id) then "None"
    else
      match Find(nurses, (n: Nurse) => Num(n.employeeId), id)
      case Some(nurse) =>
        assert forall i :: FirstNurseWithId(nurses, id, i) ==> nurses[i] == nurse by {
          forall i | FirstNurseWithId(nurses, id, i)
            ensures nurses[i] == nurse
          {
            FindAt(nurses, (n: Nurse) => Num(n.employeeId), id, i);
          }
        }
        nurse.name
      case None => "Unknown"
  }

  /** The three columns never come out empty when the stored names are not empty. */
  lemma {:induction false} RowNamesNonEmpty(patients: seq<Patient>, physicians: seq<Physician>, nurses: seq<Nurse>, a: Appointment)
    requires forall i :: 0 <= i < |patients| ==> patients[i].name != ""
    requires forall i :: 0 <= i < |physicians| ==> physicians[i].name != ""
    requires forall i :: 0 <= i < |nurses| ==> nurses[i].name != ""
    ensures PatientName(patients, a.patient) != ""
    ensures PhysicianName(physicians, a.physician) != ""
    ensures NurseName(nurses, a.prepNurse) != ""
  {
    if PatientName(patients, a.patient) != "Unknown" {
      var first := FirstIndex(patients, (p: Patient) => p.ssn, a.patient).value;
      assert FirstWithSsn(patients, a.patient, first);
    }
    if PhysicianName(physicians, a.physician) != "Unknown" {
      var first := FirstIndex(physicians, (p: Physician) => p.employeeId, a.physician).value;
      assert FirstWithEmployeeId(physicians, a.physician, first);
    }
    if Truthy(a.prepNurse) && NurseName(nurses, a.prepNurse) != "Unknown" {
      var first := FirstIndex(nurses, (n: Nurse) => Num(n.employeeId), a.prepNurse).value;
      assert FirstNurseWithId(nurses, a.prepNurse, first);
    }
  }

  // ---------------------------------------------------------------- dates

  /** `formatDateTime`: '' for a missing date, otherwise the browser's rendering of it
      (`toLocaleString`, the parameter `render`). */
  function FormatDateTime(value: JsValue, render: JsValue -> string): (s: string)
    ensures !Truthy(value) ==> s == ""
    ensures Truthy(value) ==> s == render(value)
  {
    if !Truthy(value) then "" else render(value)
  }

  /** `formatDateForInput`: '' for a missing date; otherwise the first 16 characters
      (`YYYY-MM-DDTHH:mm`) of the ISO text `iso` gives for it. An unparsable date makes
      `toISOString` throw, which is a `Fault`. */
  function FormatDateForInput(value: JsValue, iso: JsValue -> Option<string>): (r: Response<string>)
    ensures !Truthy(value) ==> r == Ok("")
    ensures Truthy(value) && iso(value).None? ==> r.Fault?
    ensures Truthy(value) && iso(value).Some? ==>
      r.Ok? && |r.value| == (if |iso(value).value| < 16 then |iso(value).value| else 16) && r.value <= iso(value).value
  {
    if !Truthy(value) then Ok("")
    else match iso(value)
      case None => Fault
      case Some(text) => Ok(if |text| < 16 then text else text[..16])
  }

  // ---------------------------------------------------------------- edit form

  /** `handleShowModal(appointment)`: the form prefilled from the appointment, with an empty
      prep nurse when it has none; a date that cannot be formatted throws before the form is set. */
  function EditForm(a: Appointment, iso: JsValue -> Option<string>): (r: Response<Object>)
    ensures r.Ok? <==> FormatDateForInput(a.start, iso).Ok? && FormatDateForInput(a.end, iso).Ok?
    ensures r.Ok? ==> r.value.Keys == {"AppointmentID", "Patient", "PrepNurse", "Physician", "Starto", "Endo", "ExaminationRoom"}
    ensures r.Ok? ==> r.value["PrepNurse"] == (if Truthy(a.prepNurse) then a.prepNurse else Str(""))
    ensures r.Ok? ==> r.value["AppointmentID"] == Num(a.appointmentId) && r.value["ExaminationRoom"] == a.examinationRoom
    ensures r.Ok? ==> r.value["Patient"] == Num(a.patient) && r.value["Physician"] == Num(a.physician)
    ensures r.Ok? ==> r.value["Starto"] == Str(FormatDateForInput(a.start, iso).value)
    ensures r.Ok? ==> r.value["Endo"] == Str(FormatDateForInput(a.end, iso).value)
  {
    match (FormatDateForInput(a.start, iso), FormatDateForInput(a.end, iso))
    case (Ok(start), Ok(end)) =>
      Ok(map[
        "AppointmentID" := Num(a.appointmentId),
        "Patient" := Num(a.patient),
        "PrepNurse" := if Truthy(a.prepNurse) then a.prepNurse else Str(""),
        "Physician" := Num(a.physician),
        "Starto" := Str(start),
        "Endo" := Str(end),
        "ExaminationRoom" := a.examinationRoom])
    case _ => Fault
  }

  // ---------------------------------------------------------------- submit

  /** The one call `handleSubmit` makes: the room update when editing, the whole form otherwise. */
  function SubmitRequest(form: Object, editing: bool): (r: Request)
    ensures editing ==> r == PutAppointmentRoom(Get(form, "AppointmentID"), Get(form, "ExaminationRoom"))
    ensures !editing ==> r == PostAppointment(form)
  {
    if editing then PutAppointmentRoom(Get(form, "AppointmentID"), Get(form, "ExaminationRoom"))
    else PostAppointment(form)
  }

  /** The message shown when that call fails. */
  function SubmitError(editing: bool): (message: string)
    ensures editing ==> message == "Failed to update appointment"
    ensures !editing ==> message == "Failed to add appointment"
  {
    if editing then "Failed to update appointment" else "Failed to add appointment"
  }

  /** `handleSubmit`: exactly one call; `error` is what the page shows when it fails.
      `editing` is the truthiness of `selectedAppointment`. */
  method HandleSubmit(server: Server, form: Object, editing: bool) returns (error: Option<string>)
    modifies server
    ensures server.trace == old(server.trace) + [SubmitRequest(form, editing)]
    ensures error.None? <==> |old(server.trace)| !in server.failing
    ensures error.Some? ==> error.value == SubmitError(editing)
  {
    var ok;
    if editing {
      ok := server.Send(PutAppointmentRoom(Get(form, "AppointmentID"), Get(form, "ExaminationRoom")));
    } else {
      ok := server.Send(PostAppointment(form));
    }
    error := if ok then None else Some(if editing then "Failed to update appointment" else "Failed to add appointment");
  }

  /** Editing sends only the id and the room: no other field of the form reaches the server. */
  lemma EditSendsOnlyRoom(form: Object, other: Object)
    requires Get(form, "AppointmentID") == Get(other, "AppointmentID")
    requires Get(form, "ExaminationRoom") == Get(other, "ExaminationRoom")
    ensures SubmitRequest(form, true) == SubmitRequest(other, true)
  {
  }
}

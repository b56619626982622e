/** The hospital records as the REST API returns them. Identifiers are numbers;
    fields whose JavaScript type varies between call sites (a department's head,
    a nurse's registration flag, an appointment's optional prep nurse and its
    date strings) are kept as `JsValue`, so that truthiness can be modelled. */
module Entities {
  import opened Js
  import opened Dates

  datatype Patient = Patient(ssn: nat, name: string, address: string, phone: string, insuranceId: nat, pcp: nat)

  datatype Physician = Physician(employeeId: nat, name: string, position: string, ssn: nat)

  datatype Department = Department(departmentId: nat, name: string, head: JsValue)

  datatype Nurse = Nurse(employeeId: nat, name: string, position: string, registered: JsValue, ssn: nat)

  datatype Procedure = Procedure(code: nat, name: string, cost: real)

  /** The raw date values of an appointment, date strings or null: `start` and `end` are the
      `Starto` and `Endo` properties the appointments page reads, `startDateTime` is the
      `StartDateTime` property the dashboard reads. They are kept apart because the two
      pages read different property names; nothing here assumes the server fills both. */
  datatype Appointment = Appointment(
    appointmentId: nat, patient: nat, prepNurse: JsValue, physician: nat,
    start: JsValue, end: JsValue, startDateTime: JsValue, examinationRoom: JsValue)

  /** A TrainedIn row: the physician is certified for the procedure `treatment`. */
  datatype Certification = Certification(
    physician: nat, treatment: nat, certificationDate: Instant, certificationExpires: Instant)

  /** The status badge shown beside a certification. */
  datatype Badge = Expired | ExpiringSoon | Valid
}

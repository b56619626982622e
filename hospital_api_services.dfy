/** The dashboard statistics of hospital-api-services.js and its nurse update.
    Every `await` on a service becomes a parameter: a `Response` for a list fetched
    once, a function from id to `Response` for a per-record fetch. A rejected fetch
    is rethrown, so the whole statistic is a `Fault`. */
module HospitalApiServices {
  import opened Js
  import opened Seqs
  import opened Dates
  import opened Tallies
  import opened Entities
  import opened Http

  /** `{ totalPhysicians, departmentDistribution }`. */
  datatype PhysicianStats = PhysicianStats(totalPhysicians: nat, departmentDistribution: map<string, nat>)

  /** `{ totalPatients, appointmentsDistribution }`; the average is left out (floating point). */
  datatype PatientStats = PatientStats(totalPatients: nat, appointmentsDistribution: map<nat, nat>)

  /** One element of the array `getDepartmentStats` pushes to. */
  datatype DepartmentStat = DepartmentStat(department: string, id: nat, physicianCount: nat, head: string)

  /** `{ totalAppointments, todayAppointments, appointmentsByMonth }`. */
  datatype AppointmentStats = AppointmentStats(totalAppointments: nat, todayAppointments: nat, appointmentsByMonth: map<int, nat>)

  // ---------------------------------------------------------------- physicians

  /** The names of a list of departments, in order. */
  function Names(departments: seq<Department>): (names: seq<string>)
    ensures |names| == |departments|
    ensures forall i :: 0 <= i < |departments| ==> names[i] == departments[i].name
  {
    seq(|departments|, i requires 0 <= i < |departments| => departments[i].name)
  }

  /** The department name of every (physician, affiliated department) pair, physician by
      physician, or a fault when one of the per-physician fetches rejects. */
  function AffiliatedNames(physicians: seq<Physician>, departmentsOf: nat -> Response<seq<Department>>): (r: Response<seq<string>>)
    ensures r.Ok? <==> forall i :: 0 <= i < |physicians| ==> departmentsOf(physicians[i].employeeId).Ok?
    decreases |physicians|
  {
    if |physicians| == 0 then Ok([])
    else
      var n := |physicians| - 1;
      assert forall i :: 0 <= i < n ==> physicians[..n][i] == physicians[i];
      match AffiliatedNames(physicians[..n], departmentsOf)
      case Fault => Fault
      case Ok(prev) =>
        match departmentsOf(physicians[n].employeeId)
        case Fault => Fault
        case Ok(departments) => Ok(prev + Names(departments))
  }

  /** Reading one more department of the same physician appends its name. */
  lemma NamesSnoc(before: seq<string>, departments: seq<Department>, j: nat)
    requires j < |departments|
    ensures before + Names(departments[..j + 1]) == (before + Names(departments[..j])) + [departments[j].name]
  {
    assert Names(departments[..j + 1]) == Names(departments[..j]) + [departments[j].name];
  }

  /** One more physician whose fetch resolves appends the names of its departments. */
  lemma AffiliatedNamesSnoc(physicians: seq<Physician>, departmentsOf: nat -> Response<seq<Department>>, i: nat)
    requires i < |physicians|
    requires AffiliatedNames(physicians[..i], departmentsOf).Ok? && departmentsOf(physicians[i].employeeId).Ok?
    ensures AffiliatedNames(physicians[..i + 1], departmentsOf)
         == Ok(AffiliatedNames(physicians[..i], departmentsOf).value + Names(departmentsOf(physicians[i].employeeId).value))
  {
    assert physicians[..i + 1][..i] == physicians[..i];
  }

  /** `getPhysicianStats`: for every physician, every affiliated department's name bumps
      its counter. Departments sharing a name share a counter. */
  method GetPhysicianStats(physiciansRes: Response<seq<Physician>>, departmentsOf: nat -> Response<seq<Department>>)
    returns (r: Response<PhysicianStats>)
    ensures r.Ok? <==> physiciansRes.Ok? && AffiliatedNames(physiciansRes.value, departmentsOf).Ok?
    ensures r.Ok? ==> r.value.totalPhysicians == |physiciansRes.value|
    ensures r.Ok? ==> r.value.departmentDistribution == Tally(AffiliatedNames(physiciansRes.value, departmentsOf).value)
  {
    if physiciansRes.Fault? {
      return Fault;
    }
    var physicians := physiciansRes.value;
    var counts: map<string, nat> := map[];
    var i := 0;
    while i < |physicians|
      invariant 0 <= i <= |physicians|
      invariant AffiliatedNames(physicians[..i], departmentsOf).Ok?
      invariant counts == Tally(AffiliatedNames(physicians[..i], departmentsOf).value)
    {
      var fetched := departmentsOf(physicians[i].employeeId);
      if fetched.Fault? {
        return Fault;
      }
      var departments := fetched.value;
      ghost var before := AffiliatedNames(physicians[..i], departmentsOf).value;
      ghost var seen := before;
      var j := 0;
      while j < |departments|
        invariant 0 <= j <= |departments|
        invariant seen == before + Names(departments[..j])
        invariant counts == Tally(seen)
      {
        var name := departments[j].name;
        BumpTally(counts, seen, name);
        NamesSnoc(before, departments, j);
        if name in counts && counts[name] != 0 {
          counts := counts[name := counts[name] + 1];
        } else {
          counts := counts[name := 1];
        }
        seen := seen + [name];
        j := j + 1;
      }
      assert departments[..j] == departments;
      AffiliatedNamesSnoc(physicians, departmentsOf, i);
      i := i + 1;
    }
    assert physicians[..i] == physicians;
    return Ok(PhysicianStats(|physicians|, counts));
  }

  /** Each name's counter is the number of pairs with that name, and the counters add up
      to the number of pairs. */
  lemma PhysicianDistributionCounts(names: seq<string>)
    ensures forall name :: name in Tally(names) <==> multiset(names)[name] > 0
    ensures forall name :: name in Tally(names) ==> Tally(names)[name] == multiset(names)[name]
    ensures Total(Tally(names)) == |names|
  {
    forall name
      ensures Count(names, name) == multiset(names)[name]
    {
      CountIsMultiplicity(names, name);
    }
    TotalTally(names);
  }

  // ---------------------------------------------------------------- patients

  /** The `Patient` field of every appointment, in order. */
  function PatientsOf(appointments: seq<Appointment>): (ps: seq<nat>)
    ensures |ps| == |appointments|
    ensures forall i :: 0 <= i < |appointments| ==> ps[i] == appointments[i].patient
  {
    seq(|appointments|, i requires 0 <= i < |appointments| => appointments[i].patient)
  }

  /** `getPatientStats`: the patients are fetched, then the appointments, and every
      appointment bumps the counter of its patient. */
  method GetPatientStats(patientsRes: Response<seq<Patient>>, appointmentsRes: Response<seq<Appointment>>)
    returns (r: Response<PatientStats>)
    ensures r.Ok? <==> patientsRes.Ok? && appointmentsRes.Ok?
    ensures r.Ok? ==> r.value.totalPatients == |patientsRes.value|
    ensures r.Ok? ==> r.value.appointmentsDistribution == Tally(PatientsOf(appointmentsRes.value))
  {
    if patientsRes.Fault? || appointmentsRes.Fault? {
      return Fault;
    }
    var appointments := appointmentsRes.value;
    var counts: map<nat, nat> := map[];
    var i := 0;
    while i < |appointments|
      invariant 0 <= i <= |appointments|
      invariant counts == Tally(PatientsOf(appointments[..i]))
    {
      var p := appointments[i].patient;
      BumpTally(counts, PatientsOf(appointments[..i]), p);
      assert PatientsOf(appointments[..i + 1]) == PatientsOf(appointments[..i]) + [p];
      if p in counts && counts[p] != 0 {
        counts := counts[p := counts[p] + 1];
      } else {
        counts := counts[p := 1];
      }
      i := i + 1;
    }
    assert appointments[..i] == appointments;
    return Ok(PatientStats(|patientsRes.value|, counts));
  }

  /** A patient's counter is the number of appointments naming that patient, only patients
      with an appointment have one, and the counters add up to the number of appointments. */
  lemma {:induction false} PatientDistributionCounts(appointments: seq<Appointment>)
    ensures forall p :: p in Tally(PatientsOf(appointments)) <==> exists i :: 0 <= i < |appointments| && appointments[i].patient == p
    ensures forall p :: p in Tally(PatientsOf(appointments)) ==> Tally(PatientsOf(appointments))[p] == multiset(PatientsOf(appointments))[p]
    ensures Total(Tally(PatientsOf(appointments))) == |appointments|
  {
    var ps := PatientsOf(appointments);
    forall p
      ensures Count(ps, p) == multiset(ps)[p]
    {
      CountIsMultiplicity(ps, p);
    }
    forall p | p in ps
      ensures exists i :: 0 <= i < |appointments| && appointments[i].patient == p
    {
      var i :| 0 <= i < |ps| && ps[i] == p;
      assert appointments[i].patient == p;
    }
    forall p | exists i :: 0 <= i < |appointments| && appointments[i].patient == p
      ensures p in ps
    {
      var i :| 0 <= i < |appointments| && appointments[i].patient == p;
      assert ps[i] == p;
    }
    TotalTally(ps);
  }

  // ---------------------------------------------------------------- departments

  /** `head ? head.Name : 'No head assigned'`: a head record is an object, hence truthy;
      no head comes back as `null`. */
  function HeadName(head: Option<Physician>): (s: string)
    ensures head.None? ==> s == "No head assigned"
    ensures head.Some? ==> s == head.value.name
  {
    match head
    case None => "No head assigned"
    case Some(h) => h.name
  }

  /** The entry for one department, given its two fetched values. */
  function StatFor(d: Department, physicianCount: nat, head: Option<Physician>): DepartmentStat {
    DepartmentStat(d.name, d.departmentId, physicianCount, HeadName(head))
  }

  /** `getDepartmentStats`: for every department in turn, its physician count and then its
      head are fetched, and one entry is pushed. */
  method GetDepartmentStats(departmentsRes: Response<seq<Department>>,
                            physicianCountOf: nat -> Response<nat>,
                            headOf: nat -> Response<Option<Physician>>)
    returns (r: Response<seq<DepartmentStat>>)
    ensures r.Ok? <==> (departmentsRes.Ok? &&
      forall i :: 0 <= i < |departmentsRes.value| ==>
        physicianCountOf(departmentsRes.value[i].departmentId).Ok? && headOf(departmentsRes.value[i].departmentId).Ok?)
    ensures r.Ok? ==> |r.value| == |departmentsRes.value|
    ensures r.Ok? ==> forall i :: 0 <= i < |r.value| ==>
      var d := departmentsRes.value[i];
      r.value[i] == StatFor(d, physicianCountOf(d.departmentId).value, headOf(d.departmentId).value)
  {
    if departmentsRes.Fault? {
      return Fault;
    }
    var departments := departmentsRes.value;
    var stats: seq<DepartmentStat> := [];
    var i := 0;
    while i < |departments|
      invariant 0 <= i <= |departments|
      invariant |stats| == i
      invariant forall k :: 0 <= k < i ==>
        physicianCountOf(departments[k].departmentId).Ok? && headOf(departments[k].departmentId).Ok?
      invariant forall k :: 0 <= k < i ==>
        stats[k] == StatFor(departments[k], physicianCountOf(departments[k].departmentId).value, headOf(departments[k].departmentId).value)
    {
      var dept := departments[i];
      var physicianCount := physicianCountOf(dept.departmentId);
      if physicianCount.Fault? {
        return Fault;
      }
      var head := headOf(dept.departmentId);
      if head.Fault? {
        return Fault;
      }
      stats := stats + [DepartmentStat(dept.name, dept.departmentId, physicianCount.value,
                                       if head.value.Some? then head.value.value.name else "No head assigned")];
      i := i + 1;
    }
    return Ok(stats);
  }

  // ---------------------------------------------------------------- appointments

  /** `new Date(appointment.StartDateTime)` falls in `year`; an unparsable date never does. */
  predicate InYear(parse: JsValue -> Option<Instant>, year: int, a: Appointment) {
    parse(a.startDateTime).Some? && parse(a.startDateTime).value.year == year
  }

  /** The 0-based months of the appointments that fall in `year`, in list order. */
  function MonthsInYear(appointments: seq<Appointment>, parse: JsValue -> Option<Instant>, year: int): (months: seq<int>)
    ensures |months| <= |appointments|
    ensures forall m :: m in months <==>
      exists i :: 0 <= i < |appointments| && InYear(parse, year, appointments[i]) && parse(appointments[i].startDateTime).value.month == m
    decreases |appointments|
  {
    if |appointments| == 0 then []
    else
      var n := |appointments| - 1;
      var prev := MonthsInYear(appointments[..n], parse, year);
      assert forall i :: 0 <= i < n ==> appointments[..n][i] == appointments[i];
      var a := appointments[n];
      if InYear(parse, year, a) then prev + [parse(a.startDateTime).value.month] else prev
  }

  /** One more appointment appends its month when it falls in `year`, and nothing otherwise. */
  lemma MonthsInYearSnoc(appointments: seq<Appointment>, parse: JsValue -> Option<Instant>, year: int, i: nat)
    requires i < |appointments|
    ensures InYear(parse, year, appointments[i]) ==>
      MonthsInYear(appointments[..i + 1], parse, year)
        == MonthsInYear(appointments[..i], parse, year) + [parse(appointments[i].startDateTime).value.month]
    ensures !InYear(parse, year, appointments[i]) ==>
      MonthsInYear(appointments[..i + 1], parse, year) == MonthsInYear(appointments[..i], parse, year)
  {
    assert appointments[..i + 1][..i] == appointments[..i];
  }

  /** `getAppointmentStats`: all appointments are fetched, then today's, and every
      appointment dated in the current year bumps the counter of its month. `today` is
      the clock, `parse` is `new Date(...)` on the stored start value. */
  method GetAppointmentStats(appointmentsRes: Response<seq<Appointment>>, today: Instant,
                             todaysRes: Response<seq<Appointment>>, parse: JsValue -> Option<Instant>)
    returns (r: Response<AppointmentStats>)
    ensures r.Ok? <==> appointmentsRes.Ok? && todaysRes.Ok?
    ensures r.Ok? ==> r.value.totalAppointments == |appointmentsRes.value|
    ensures r.Ok? ==> r.value.todayAppointments == |todaysRes.value|
    ensures r.Ok? ==> r.value.appointmentsByMonth == Tally(MonthsInYear(appointmentsRes.value, parse, today.year))
  {
    if appointmentsRes.Fault? || todaysRes.Fault? {
      return Fault;
    }
    var appointments := appointmentsRes.value;
    var byMonth: map<int, nat> := map[];
    var i := 0;
    while i < |appointments|
      invariant 0 <= i <= |appointments|
      invariant byMonth == Tally(MonthsInYear(appointments[..i], parse, today.year))
    {
      var a := appointments[i];
      ghost var counted := MonthsInYear(appointments[..i], parse, today.year);
      MonthsInYearSnoc(appointments, parse, today.year, i);
      var date := parse(a.startDateTime);
      if date.Some? && date.value.year == today.year {
        var month := date.value.month;
        BumpTally(byMonth, counted, month);
        if month in byMonth && byMonth[month] != 0 {
          byMonth := byMonth[month := byMonth[month] + 1];
        } else {
          byMonth := byMonth[month := 1];
        }
      }
      i := i + 1;
    }
    assert appointments[..i] == appointments;
    return Ok(AppointmentStats(|appointments|, |todaysRes.value|, byMonth));
  }

  /** The test `date.getFullYear() === year` as a filter predicate. */
  function ThisYear(parse: JsValue -> Option<Instant>, year: int): Appointment -> bool {
    a => InYear(parse, year, a)
  }

  /** The test "in `year`, and in month `m` of it" as a filter predicate. */
  function InMonth(parse: JsValue -> Option<Instant>, year: int, m: int): Appointment -> bool {
    a => InYear(parse, year, a) && parse(a.startDateTime).value.month == m
  }

  /** The months listed are one per appointment of the year, and a month is listed as
      often as appointments of the year start in it. */
  lemma {:induction false} MonthsInYearCounts(appointments: seq<Appointment>, parse: JsValue -> Option<Instant>, year: int, m: int)
    ensures |MonthsInYear(appointments, parse, year)| == |Filter(appointments, ThisYear(parse, year))|
    ensures Count(MonthsInYear(appointments, parse, year), m) == |Filter(appointments, InMonth(parse, year, m))|
    decreases |appointments|
  {
    if |appointments| > 0 {
      var n := |appointments| - 1;
      var a := appointments[n];
      MonthsInYearCounts(appointments[..n], parse, year, m);
      MonthsInYearSnoc(appointments, parse, year, n);
      assert appointments[..n + 1] == appointments;
      assert appointments[..n] + [a] == appointments;
      FilterSnoc(appointments[..n], a, ThisYear(parse, year));
      FilterSnoc(appointments[..n], a, InMonth(parse, year, m));
      var prev := MonthsInYear(appointments[..n], parse, year);
      if InYear(parse, year, a) {
        var month := parse(a.startDateTime).value.month;
        assert (prev + [month])[..|prev|] == prev;
      }
    }
  }

  /** Only appointments of the current year are counted: the month counters add up to the
      number of those appointments, and with well-formed dates every key is a month 0..11. */
  lemma AppointmentMonthCounts(appointments: seq<Appointment>, parse: JsValue -> Option<Instant>, year: int)
    ensures Total(Tally(MonthsInYear(appointments, parse, year))) == |Filter(appointments, ThisYear(parse, year))| <= |appointments|
    ensures (forall i :: 0 <= i < |appointments| && parse(appointments[i].startDateTime).Some? ==> WellFormed(parse(appointments[i].startDateTime).value))
      ==> forall m :: m in Tally(MonthsInYear(appointments, parse, year)) ==> 0 <= m < 12
  {
    TotalTally(MonthsInYear(appointments, parse, year));
    MonthsInYearCounts(appointments, parse, year, 0);
  }

  /** The counter of month `m` is the number of the year's appointments that start in `m`,
      and the month has no counter when there are none. */
  lemma AppointmentMonthCounter(appointments: seq<Appointment>, parse: JsValue -> Option<Instant>, year: int, m: int)
    ensures var byMonth := Tally(MonthsInYear(appointments, parse, year));
      (m in byMonth <==> |Filter(appointments, InMonth(parse, year, m))| > 0) &&
      (m in byMonth ==> byMonth[m] == |Filter(appointments, InMonth(parse, year, m))|)
  {
    var months := MonthsInYear(appointments, parse, year);
    MonthsInYearCounts(appointments, parse, year, m);
    if m !in months {
      CountAbsent(months, m);
    }
  }

  // ---------------------------------------------------------------- nurses

  /** The calls `updateNurse` makes, in order: the registration flag sent as 1 or 0, then the SSN. */
  function NursePlan(nurse: Nurse): (plan: seq<Request>)
    ensures |plan| == 2
    ensures plan[0].PutNurseRegistered? && plan[0].employeeId == nurse.employeeId
    ensures plan[0].status == 1 <==> Truthy(nurse.registered)
    ensures plan[0].status == 0 <==> !Truthy(nurse.registered)
    ensures plan[1] == PutNurseSsn(nurse.employeeId, nurse.ssn)
  {
    [PutNurseRegistered(nurse.employeeId, Bit(nurse.registered)), PutNurseSsn(nurse.employeeId, nurse.ssn)]
  }

  /** `nurseService.updateNurse`: `ok` is the `true` it returns; false stands for the
      rethrown error, after which the SSN call is not made. */
  method UpdateNurse(server: Server, nurse: Nurse) returns (ok: bool)
    modifies server
    ensures server.trace == old(server.trace) + Issued(NursePlan(nurse), |old(server.trace)|, server.failing)
    ensures ok <==> Succeeds(NursePlan(nurse), |old(server.trace)|, server.failing)
  {
    ghost var plan := NursePlan(nurse);
    ghost var start := |server.trace|;
    ok := server.Send(PutNurseRegistered(nurse.employeeId, if Truthy(nurse.registered) then 1 else 0));
    if !ok {
      assert Issued(plan, start, server.failing) == [plan[0]];
      return;
    }
    ok := server.Send(PutNurseSsn(nurse.employeeId, nurse.ssn));
    assert Issued(plan[1..][1..], start + 2, server.failing) == [];
    assert Issued(plan[1..], start + 1, server.failing) == [plan[1]];
  }

  /** Both calls are made, registration first, exactly when the first one is accepted. */
  lemma NurseCallOrder(nurse: Nurse, start: nat, failing: set<nat>)
    ensures Issued(NursePlan(nurse), start, failing)[0] == NursePlan(nurse)[0]
    ensures start !in failing <==> Issued(NursePlan(nurse), start, failing) == NursePlan(nurse)[..2]
    ensures Succeeds(NursePlan(nurse), start, failing) <==> start !in failing && start + 1 !in failing
  {
    IssuedIsPrefix(NursePlan(nurse), start, failing);
  }
}

/** The certification component of trained-in-component.js: the status rules, the
    Extend action, the enrichment of fetched certifications with display names, and the
    component's loading on mount and on a change of the selected physician.
    The current time `now` is a parameter. */
module TrainedIn {
  import opened Js
  import opened Seqs
  import opened Dates
  import opened Entities
  import opened Http
  import TrainedInPage

  // ---------------------------------------------------------------- status

  /** `isCertificationExpired`: the expiry lies strictly before now. */
  predicate IsCertificationExpired(expiry: Instant, now: Instant) {
    Before(expiry, now)
  }

  /** `isCertificationExpiringSoon`: strictly after now and strictly before the moment
      three months on (`setMonth(getMonth() + 3)`). */
  predicate IsCertificationExpiringSoon(expiry: Instant, now: Instant)
    requires WellFormed(now)
  {
    Before(now, expiry) && Before(expiry, AddMonths(now, 3))
  }

  /** `getCertificationStatus`: expired first, then expiring soon, otherwise valid. */
  function CertificationStatus(expiry: Instant, now: Instant): (b: Badge)
    requires WellFormed(now)
    ensures b == Expired <==> IsCertificationExpired(expiry, now)
    ensures b == ExpiringSoon <==> IsCertificationExpiringSoon(expiry, now)
    ensures b == Valid <==> !IsCertificationExpired(expiry, now) && !IsCertificationExpiringSoon(expiry, now)
  {
    BeforeTrichotomy(expiry, now);
    if IsCertificationExpired(expiry, now) then Expired
    else if IsCertificationExpiringSoon(expiry, now) then ExpiringSoon
    else Valid
  }

  /** What this component calls expiring soon, the certifications page does too. */
  lemma {:induction false} ExpiringSoonAgreesWithPage(expiry: Instant, now: Instant)
    requires WellFormed(now) && WellFormed(expiry)
    requires IsCertificationExpiringSoon(expiry, now)
    ensures TrainedInPage.IsExpiringSoon(expiry, now)
  {
    BeforeMonthIndex(expiry, AddMonths(now, 3));
  }

  /** The converse fails: the page counts whole calendar months and ignores the day,
      so an expiry three months and five days ahead is expiring soon there but valid here. */
  lemma ExpiringSoonDiffersFromPage()
    ensures var now := Instant(2024, 0, 15, 0);
            var expiry := Instant(2024, 3, 20, 0);
            WellFormed(now) && TrainedInPage.IsExpiringSoon(expiry, now) &&
            !IsCertificationExpiringSoon(expiry, now) && CertificationStatus(expiry, now) == Valid
  {
  }

  // ---------------------------------------------------------------- extend

  /** The Extend button: the same physician and treatment, the expiry date two years on. */
  function Extend(cert: Certification): (r: Request)
    ensures r.PutCertificationExpiry? && r.physician == cert.physician && r.treatment == cert.treatment
    ensures r.expiry.year == cert.certificationExpires.year + 2
    ensures r.expiry.month == cert.certificationExpires.month && r.expiry.day == cert.certificationExpires.day
  {
    PutCertificationExpiry(cert.physician, cert.treatment, AddYearsToDate(cert.certificationExpires, 2))
  }

  /** Extending a certification that has not expired makes it valid for more than three months. */
  lemma {:induction false} ExtendMakesValid(cert: Certification, now: Instant)
    requires WellFormed(now) && WellFormed(cert.certificationExpires)
    requires !IsCertificationExpired(cert.certificationExpires, now)
    ensures CertificationStatus(Extend(cert).expiry, now) == Valid
  {
    var expires := cert.certificationExpires;
    var extended := Extend(cert).expiry;
    if MonthIndex(expires) < MonthIndex(now) {
      MonthIndexBefore(expires, now);
    }
    MonthIndexBefore(AddMonths(now, 3), extended);
    MonthIndexBefore(now, extended);
    BeforeTrichotomy(extended, now);
    BeforeTrichotomy(extended, AddMonths(now, 3));
  }

  // ---------------------------------------------------------------- enrichment

  /** A fetched certification with the two display names the component adds. */
  datatype EnrichedCertification = EnrichedCertification(cert: Certification, procedureName: string, physicianName: string)

  /** `procedure ? procedure.Name : 'Unknown Procedure'` for the first procedure with that code. */
  function ProcedureLabel(procedures: seq<Procedure>, code: nat): (name: string)
    ensures (forall i :: 0 <= i < |procedures| ==> procedures[i].code != code) ==> name == "Unknown Procedure"
    ensures forall i :: TrainedInPage.FirstWithCode(procedures, code, i) ==> name == procedures[i].name
  {
    match Find(procedures, (p: Procedure) => p.code, code)
    case Some(procedure) =>
      assert forall i :: TrainedInPage.FirstWithCode(procedures, code, i) ==> procedures[i] == procedure by {
        forall i | TrainedInPage.FirstWithCode(procedures, code, i)
          ensures procedures[i] == procedure
        {
          FindAt(procedures, (p: Procedure) => p.code, code, i);
        }
      }
      procedure.name
    case None => "Unknown Procedure"
  }

  /** Position `i` holds the first physician whose id is strictly equal to `id`. */
  predicate FirstWithId(physicians: seq<Physician>, id: JsValue, i: int) {
    0 <= i < |physicians| && Num(physicians[i].employeeId) == id &&
    forall j :: 0 <= j < i ==> Num(physicians[j].employeeId) != id
  }

  /** `physicians.find(p => p.EmployeeID === id)?.Name || 'Unknown'`: an empty name also
      reads as 'Unknown'. */
  function PhysicianLabel(physicians: seq<Physician>, id: JsValue): (name: string)
    ensures (forall i :: 0 <= i < |physicians| ==> Num(physicians[i].employeeId) != id) ==> name == "Unknown"
    ensures forall i :: FirstWithId(physicians, id, i) ==>
      name == if physicians[i].name != "" then physicians[i].name else "Unknown"
  {
    match Find(physicians, (p: Physician) => Num(p.employeeId), id)
    case Some(physician) =>
      assert forall i :: FirstWithId(physicians, id, i) ==> physicians[i] == physician by {
        forall i | FirstWithId(physicians, id, i)
          ensures physicians[i] == physician
        {
          FindAt(physicians, (p: Physician) => Num(p.employeeId), id, i);
        }
      }
      if physician.name != "" then physician.name else "Unknown"
    case None => "Unknown"
  }

  /** Under strict equality a textual id never equals a numeric one. */
  lemma TextualIdMatchesNoPhysician(physicians: seq<Physician>, value: string)
    ensures PhysicianLabel(physicians, Str(value)) == "Unknown"
  {
  }

  /** The `response.data.map(cert => ({ ...cert, ProcedureName, PhysicianName }))` step, with the
      lists the enclosing closure sees. */
  function Enrich(certs: seq<Certification>, procedures: seq<Procedure>, physicians: seq<Physician>, physicianId: JsValue)
    : (r: seq<EnrichedCertification>)
    ensures |r| == |certs|
    ensures forall i :: 0 <= i < |certs| ==>
      && r[i].cert == certs[i]
      && r[i].procedureName == ProcedureLabel(procedures, certs[i].treatment)
      && r[i].physicianName == PhysicianLabel(physicians, physicianId)
  {
    seq(|certs|, i requires 0 <= i < |certs| =>
      EnrichedCertification(certs[i], ProcedureLabel(procedures, certs[i].treatment), PhysicianLabel(physicians, physicianId)))
  }

  // ---------------------------------------------------------------- component state

  /** The component's state after each handler has run to completion. */
  datatype View = View(
    physicians: seq<Physician>,
    procedures: seq<Procedure>,
    selectedPhysician: JsValue,
    certifications: seq<EnrichedCertification>,
    loading: bool,
    loadingCertifications: bool,
    error: Option<string>)

  /** The state of the first render. */
  const Initial := View([], [], Null, [], true, false, None)

  /** `fetchCertificationsByPhysician(id)` run from a closure that sees the lists
      `seenPhysicians` and `seenProcedures`, once the fetch has answered `response`. */
  function LoadCertifications(seenPhysicians: seq<Physician>, seenProcedures: seq<Procedure>,
                              id: JsValue, response: Response<seq<Certification>>, v: View): (w: View)
    ensures !w.loading && !w.loadingCertifications
    ensures w.physicians == v.physicians && w.procedures == v.procedures && w.selectedPhysician == v.selectedPhysician
    ensures response.Ok? ==> w.certifications == Enrich(response.value, seenProcedures, seenPhysicians, id) && w.error == v.error
    ensures response.Fault? ==> w.certifications == v.certifications && w.error == Some("Failed to fetch certifications")
  {
    match response
    case Ok(certs) =>
      v.(certifications := Enrich(certs, seenProcedures, seenPhysicians, id), loadingCertifications := false, loading := false)
    case Fault =>
      v.(error := Some("Failed to fetch certifications"), loadingCertifications := false, loading := false)
  }

  /** `fetchPhysiciansAndProcedures` as written: the certifications of the first physician are
      loaded by the function of the first render, which still sees the empty lists. */
  function MountAsWritten(physiciansRes: Response<seq<Physician>>, proceduresRes: Response<seq<Procedure>>,
                          certificationsRes: Response<seq<Certification>>): (w: View)
    ensures !w.loading
    ensures (physiciansRes.Fault? || proceduresRes.Fault?) ==> w == Initial.(error := Some("Failed to fetch data"), loading := false)
    ensures physiciansRes.Ok? && proceduresRes.Ok? ==> w.physicians == physiciansRes.value && w.procedures == proceduresRes.value
    ensures physiciansRes.Ok? && proceduresRes.Ok? && |physiciansRes.value| == 0 ==>
      w == Initial.(physicians := [], procedures := proceduresRes.value, loading := false)
    ensures physiciansRes.Ok? && proceduresRes.Ok? && |physiciansRes.value| > 0 ==>
      w.selectedPhysician == Num(physiciansRes.value[0].employeeId)
    ensures physiciansRes.Ok? && proceduresRes.Ok? && |physiciansRes.value| > 0 && certificationsRes.Ok? ==>
      w.certifications == Enrich(certificationsRes.value, [], [], Num(physiciansRes.value[0].employeeId)) && w.error == None
    ensures physiciansRes.Ok? && proceduresRes.Ok? && |physiciansRes.value| > 0 && certificationsRes.Fault? ==>
      w.certifications == [] && w.error == Some("Failed to fetch certifications")
  {
    match (physiciansRes, proceduresRes)
    case (Ok(physicians), Ok(procedures)) =>
      var v := Initial.(physicians := physicians, procedures := procedures);
      if |physicians| > 0 then
        var id := Num(physicians[0].employeeId);
        LoadCertifications(Initial.physicians, Initial.procedures, id, certificationsRes, v.(selectedPhysician := id))
      else v.(loading := false)
    case _ => Initial.(error := Some("Failed to fetch data"), loading := false)
  }

  /** On the first load every certification shows 'Unknown Procedure' and 'Unknown',
      whatever the fetched lists hold. */
  lemma {:induction false} MountAsWrittenLosesNames(physicians: seq<Physician>, procedures: seq<Procedure>,
                                                    certs: seq<Certification>)
    requires |physicians| > 0
    ensures var w := MountAsWritten(Ok(physicians), Ok(procedures), Ok(certs));
      |w.certifications| == |certs| &&
      forall i :: 0 <= i < |certs| ==>
        w.certifications[i].procedureName == "Unknown Procedure" && w.certifications[i].physicianName == "Unknown"
  {
    var w := MountAsWritten(Ok(physicians), Ok(procedures), Ok(certs));
    assert w.certifications == Enrich(certs, [], [], Num(physicians[0].employeeId));
  }

  /** A concrete first load that shows the wrong names. */
  lemma MountAsWrittenExample()
    ensures var ada := Physician(1, "Ada", "Surgeon", 100);
            var cert := Certification(1, 7, Instant(2024, 0, 1, 0), Instant(2026, 0, 1, 0));
            var w := MountAsWritten(Ok([ada]), Ok([Procedure(7, "Bypass", 1.0)]), Ok([cert]));
            w.certifications == [EnrichedCertification(cert, "Unknown Procedure", "Unknown")]
  {
    var ada := Physician(1, "Ada", "Surgeon", 100);
    var cert := Certification(1, 7, Instant(2024, 0, 1, 0), Instant(2026, 0, 1, 0));
    MountAsWrittenLosesNames([ada], [Procedure(7, "Bypass", 1.0)], [cert]);
  }

  /** The intended first load: the certifications are enriched with the lists just fetched.
      With no physician nothing is fetched and only the loading flag is cleared. */
  function Mount(physiciansRes: Response<seq<Physician>>, proceduresRes: Response<seq<Procedure>>,
                 certificationsRes: Response<seq<Certification>>): (w: View)
    ensures !w.loading
    ensures (physiciansRes.Fault? || proceduresRes.Fault?) ==> w == Initial.(error := Some("Failed to fetch data"), loading := false)
    ensures physiciansRes.Ok? && proceduresRes.Ok? && |physiciansRes.value| == 0 ==>
      w == Initial.(physicians := [], procedures := proceduresRes.value, loading := false)
    ensures physiciansRes.Ok? && proceduresRes.Ok? && |physiciansRes.value| > 0 ==>
      && w.physicians == physiciansRes.value && w.procedures == proceduresRes.value
      && w.selectedPhysician == Num(physiciansRes.value[0].employeeId)
      && w == LoadCertifications(physiciansRes.value, proceduresRes.value, Num(physiciansRes.value[0].employeeId),
                                 certificationsRes, Initial.(physicians := physiciansRes.value, procedures := proceduresRes.value,
                                                             selectedPhysician := Num(physiciansRes.value[0].employeeId)))
  {
    match (physiciansRes, proceduresRes)
    case (Ok(physicians), Ok(procedures)) =>
      var v := Initial.(physicians := physicians, procedures := procedures);
      if |physicians| > 0 then
        var id := Num(physicians[0].employeeId);
        LoadCertifications(physicians, procedures, id, certificationsRes, v.(selectedPhysician := id))
      else v.(loading := false)
    case _ => Initial.(error := Some("Failed to fetch data"), loading := false)
  }

  /** With the intended load, the first physician's certifications carry its name (unless
      empty) and each procedure's name as looked up in the fetched list. */
  lemma {:induction false} MountShowsNames(physicians: seq<Physician>, procedures: seq<Procedure>, certs: seq<Certification>)
    requires |physicians| > 0
    ensures var w := Mount(Ok(physicians), Ok(procedures), Ok(certs));
      |w.certifications| == |certs| &&
      forall i :: 0 <= i < |certs| ==>
        && w.certifications[i].cert == certs[i]
        && w.certifications[i].procedureName == ProcedureLabel(procedures, certs[i].treatment)
        && w.certifications[i].physicianName == (if physicians[0].name != "" then physicians[0].name else "Unknown")
  {
    assert FirstWithId(physicians, Num(physicians[0].employeeId), 0);
  }

  /** `handlePhysicianChange` as written: the `<select>` hands back the id as text, and the
      text is passed on unchanged. */
  function PhysicianChangeAsWritten(v: View, value: string, response: Response<seq<Certification>>): (w: View)
    ensures w.selectedPhysician == Str(value)
    ensures response.Ok? ==> w.certifications == Enrich(response.value, v.procedures, v.physicians, Str(value))
  {
    LoadCertifications(v.physicians, v.procedures, Str(value), response, v.(selectedPhysician := Str(value)))
  }

  /** After a change of physician every certification shows 'Unknown' as physician name. */
  lemma PhysicianChangeAsWrittenLosesName(v: View, value: string, certs: seq<Certification>)
    ensures var w := PhysicianChangeAsWritten(v, value, Ok(certs));
      forall i :: 0 <= i < |w.certifications| ==> w.certifications[i].physicianName == "Unknown"
  {
    TextualIdMatchesNoPhysician(v.physicians, value);
  }

  /** The intended `handlePhysicianChange`: the selected text is read back as the numeric id. */
  function PhysicianChange(v: View, value: string, response: Response<seq<Certification>>): (w: View)
    ensures w.selectedPhysician == SelectedId(value)
    ensures w == LoadCertifications(v.physicians, v.procedures, SelectedId(value), response, v.(selectedPhysician := SelectedId(value)))
  {
    var id := SelectedId(value);
    LoadCertifications(v.physicians, v.procedures, id, response, v.(selectedPhysician := id))
  }

  /** Choosing the option of the physician at position `i` shows that physician's name. */
  lemma {:induction false} PhysicianChangeShowsName(v: View, i: nat, certs: seq<Certification>)
    requires i < |v.physicians| && FirstWithId(v.physicians, Num(v.physicians[i].employeeId), i)
    requires v.physicians[i].name != ""
    ensures var w := PhysicianChange(v, Decimal(v.physicians[i].employeeId), Ok(certs));
      w.selectedPhysician == Num(v.physicians[i].employeeId) &&
      |w.certifications| == |certs| &&
      forall k :: 0 <= k < |certs| ==> w.certifications[k].physicianName == v.physicians[i].name
  {
    SelectedIdRoundTrip(v.physicians[i].employeeId);
  }
}

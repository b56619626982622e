/** The certifications page of trained-in-page.js: the expiry badge rules, the procedure
    name lookup, and the loading of every physician's certifications into a dictionary
    keyed by employee id. The current time `today` is a parameter. */
module TrainedInPage {
  import opened Js
  import opened Seqs
  import opened Dates
  import opened Entities

  /** `isExpired`: the expiry lies strictly before now. */
  predicate IsExpired(expiry: Instant, today: Instant) {
    Before(expiry, today)
  }

  /** `monthsDiff`: whole calendar months from now to the expiry, ignoring the day. */
  function MonthsDiff(expiry: Instant, today: Instant): (d: int)
    ensures d == (expiry.year - today.year) * 12 + (expiry.month - today.month)
  {
    MonthIndex(expiry) - MonthIndex(today)
  }

  /** `isExpiringSoon`: at most three calendar months ahead, and strictly after now. */
  predicate IsExpiringSoon(expiry: Instant, today: Instant) {
    MonthsDiff(expiry, today) <= 3 && Before(today, expiry)
  }

  /** An expired certification is never expiring soon, and conversely. */
  lemma ExpiredExcludesExpiringSoon(expiry: Instant, today: Instant)
    ensures !(IsExpired(expiry, today) && IsExpiringSoon(expiry, today))
  {
    BeforeTrichotomy(expiry, today);
  }

  /** The status column: expired is tested first, then expiring soon, otherwise valid. */
  function BadgeFor(expiry: Instant, today: Instant): (b: Badge)
    ensures b == Expired <==> IsExpired(expiry, today)
    ensures b == ExpiringSoon <==> IsExpiringSoon(expiry, today)
    ensures b == Valid <==> !IsExpired(expiry, today) && !IsExpiringSoon(expiry, today)
  {
    ExpiredExcludesExpiringSoon(expiry, today);
    if IsExpired(expiry, today) then Expired
    else if IsExpiringSoon(expiry, today) then ExpiringSoon
    else Valid
  }

  /** A certification shows as valid exactly when it expires right now, or later than
      three calendar months ahead. */
  lemma {:induction false} ValidBadgeMeansFarAway(expiry: Instant, today: Instant)
    ensures BadgeFor(expiry, today) == Valid <==>
      expiry == today || (Before(today, expiry) && MonthsDiff(expiry, today) > 3)
  {
    BeforeTrichotomy(expiry, today);
  }

  /** Position `i` holds the first procedure with that code. */
  predicate FirstWithCode(procedures: seq<Procedure>, code: nat, i: int) {
    0 <= i < |procedures| && procedures[i].code == code &&
    forall j :: 0 <= j < i ==> procedures[j].code != code
  }

  /** `getProcedureName`: the name of the first procedure with that code, else 'Unknown'. */
  function ProcedureName(procedures: seq<Procedure>, code: nat): (name: string)
    ensures (forall i :: 0 <= i < |procedures| ==> procedures[i].code != code) ==> name == "Unknown"
    ensures forall i :: FirstWithCode(procedures, code, i) ==> name == procedures[i].name
  {
    match Find(procedures, (p: Procedure) => p.code, code)
    case Some(procedure) =>
      assert forall i :: FirstWithCode(procedures, code, i) ==> procedures[i] == procedure by {
        forall i | FirstWithCode(procedures, code, i)
          ensures procedures[i] == procedure
        {
          FindAt(procedures, (p: Procedure) => p.code, code, i);
        }
      }
      procedure.name
    case None => "Unknown"
  }

  /** The component state `fetchData` writes. */
  datatype PageState = PageState(
    physicians: seq<Physician>,
    procedures: seq<Procedure>,
    loading: bool,
    error: Option<string>,
    certificationsByPhysician: map<nat, seq<Certification>>)

  /** What one physician's entry holds: the fetched list, or `[]` when that fetch rejects. */
  function CertificationsOrEmpty(fetched: Response<seq<Certification>>): (cs: seq<Certification>)
    ensures fetched.Ok? ==> cs == fetched.value
    ensures fetched.Fault? ==> cs == []
  {
    match fetched
    case Ok(cs) => cs
    case Fault => []
  }

  /** `fetchData`: physicians and procedures are fetched together; when either rejects the
      page shows its error. Otherwise each physician's certifications are fetched and stored
      under the physician's id, a failed fetch storing an empty list for that physician only. */
  method FetchData(before: PageState, physiciansRes: Response<seq<Physician>>,
                   proceduresRes: Response<seq<Procedure>>,
                   certificationsOf: nat -> Response<seq<Certification>>)
    returns (after: PageState)
    ensures !after.loading
    ensures (physiciansRes.Fault? || proceduresRes.Fault?) ==>
      after == before.(loading := false, error := Some("Failed to fetch data"))
    ensures physiciansRes.Ok? && proceduresRes.Ok? ==>
      && after.physicians == physiciansRes.value
      && after.procedures == proceduresRes.value
      && after.error == before.error
      && (forall id :: id in after.certificationsByPhysician <==>
            exists i :: 0 <= i < |physiciansRes.value| && physiciansRes.value[i].employeeId == id)
      && (forall id :: id in after.certificationsByPhysician ==>
            after.certificationsByPhysician[id] == CertificationsOrEmpty(certificationsOf(id)))
  {
    if physiciansRes.Fault? || proceduresRes.Fault? {
      return before.(loading := false, error := Some("Failed to fetch data"));
    }
    var physicians := physiciansRes.value;
    var certificationsData: map<nat, seq<Certification>> := map[];
    var i := 0;
    while i < |physicians|
      invariant 0 <= i <= |physicians|
      invariant forall id :: id in certificationsData <==> exists k :: 0 <= k < i && physicians[k].employeeId == id
      invariant forall id :: id in certificationsData ==> certificationsData[id] == CertificationsOrEmpty(certificationsOf(id))
    {
      var id := physicians[i].employeeId;
      var response := certificationsOf(id);
      if response.Ok? {
        certificationsData := certificationsData[id := response.value];
      } else {
        certificationsData := certificationsData[id := []];
      }
      i := i + 1;
    }
    after := before.(physicians := physicians, procedures := proceduresRes.value,
                     certificationsByPhysician := certificationsData, loading := false);
  }
}

/** The calls the front-end makes against the REST API, and a recording server.
    A logical update is a list of field-scoped calls issued one after another;
    the first call that fails throws, and nothing after it is sent. */
module Http {
  import opened Js
  import opened Dates

  /** One HTTP call, by endpoint, with the values its path and body carry. */
  datatype Request =
    | PutPatientAddress(ssn: nat, address: string)          // PUT /patient/address/{ssn}
    | PutPatientPhone(ssn: nat, phone: string)              // PUT /patient/phone/{ssn}
    | PutPhysicianName(employeeId: nat, name: string)       // PUT /physician/update/name/{id}
    | PutPhysicianPosition(position: string, employeeId: nat) // PUT /update/position/{position}/{id}
    | PutPhysicianSsn(employeeId: nat, ssn: nat)            // PUT /physician/update/ssn/{id}
    | PutDepartmentName(departmentId: nat, name: string)    // PUT /department/update/deptname/{id}
    | PutDepartmentHead(departmentId: nat, headId: JsValue) // PUT /department/update/headid/{id}
    | PutNurseRegistered(employeeId: nat, status: int)      // PUT /nurse/registered/{id}
    | PutNurseSsn(employeeId: nat, ssn: nat)                // PUT /nurse/ssn/{id}
    | PutAppointmentRoom(appointmentId: JsValue, room: JsValue) // PUT /appointment/room/{id}
    | PostAppointment(body: Object)                         // POST /appointment/
    | PostAffiliation(body: Object)                         // POST /affiliated_with/post
    | PutCertificationExpiry(physician: nat, treatment: nat, expiry: Instant) // PUT /trained_in/certificationexpiry/{p}&{t}

  /** The network as the client sees it: every call sent is recorded in `trace`,
      and the server rejects exactly the calls whose position in the trace is in `failing`. */
  class Server {
    var trace: seq<Request>
    const failing: set<nat>

    constructor (failing: set<nat>)
      ensures trace == [] && this.failing == failing
    {
      trace := [];
      this.failing := failing;
    }

    /** `await axios.put(...)` / `axios.post(...)`: sends the call; `ok` is false when it rejects. */
    method Send(r: Request) returns (ok: bool)
      modifies this
      ensures trace == old(trace) + [r]
      ensures ok <==> |old(trace)| !in failing
    {
      ok := |trace| !in failing;
      trace := trace + [r];
    }
  }

  /** The position within `plan` of the first call the server rejects, or `|plan|` if none is. */
  function FirstFailure(plan: seq<Request>, start: nat, failing: set<nat>): (k: nat)
    ensures k <= |plan|
    ensures k < |plan| ==> start + k in failing
    ensures forall p :: start <= p < start + k ==> p !in failing
    decreases |plan|
  {
    if |plan| == 0 || start in failing then 0
    else 1 + FirstFailure(plan[1..], start + 1, failing)
  }

  /** Whether a sequence of calls starting at trace position `start` runs to the end. */
  predicate Succeeds(plan: seq<Request>, start: nat, failing: set<nat>) {
    forall p :: start <= p < start + |plan| ==> p !in failing
  }

  /** The calls a sequence actually sends: up to and including the first rejected one. */
  function Issued(plan: seq<Request>, start: nat, failing: set<nat>): (sent: seq<Request>)
    decreases |plan|
  {
    if |plan| == 0 then []
    else if start in failing then [plan[0]]
    else [plan[0]] + Issued(plan[1..], start + 1, failing)
  }

  /** What is sent is the plan cut just after its first failure; it succeeds iff none fails. */
  lemma {:induction false} IssuedIsPrefix(plan: seq<Request>, start: nat, failing: set<nat>)
    ensures var k := FirstFailure(plan, start, failing);
            Issued(plan, start, failing) == plan[..if k < |plan| then k + 1 else k]
    ensures Succeeds(plan, start, failing) <==> FirstFailure(plan, start, failing) == |plan|
    decreases |plan|
  {
    if |plan| > 0 && start !in failing {
      IssuedIsPrefix(plan[1..], start + 1, failing);
      var k := FirstFailure(plan[1..], start + 1, failing);
      var cut := if k < |plan| - 1 then k + 1 else k;
      assert cut <= |plan| - 1;
      assert plan[1..][..cut] == plan[1..cut + 1] by {
        forall j | 0 <= j < cut
          ensures plan[1..][..cut][j] == plan[1..cut + 1][j]
        {
        }
      }
      assert [plan[0]] + plan[1..cut + 1] == plan[..cut + 1];
    }
  }

  /** When every call succeeds, the whole plan is sent in order. */
  lemma AllIssuedOnSuccess(plan: seq<Request>, start: nat, failing: set<nat>)
    requires Succeeds(plan, start, failing)
    ensures Issued(plan, start, failing) == plan
  {
    IssuedIsPrefix(plan, start, failing);
  }

  /** A rejected call is the last one sent: the calls after it are never issued. */
  lemma FailureStopsLaterCalls(plan: seq<Request>, start: nat, failing: set<nat>, k: nat)
    requires k < |plan| && start + k in failing
    requires forall p :: start <= p < start + k ==> p !in failing
    ensures Issued(plan, start, failing) == plan[..k + 1]
    ensures !Succeeds(plan, start, failing)
  {
    IssuedIsPrefix(plan, start, failing);
    var f := FirstFailure(plan, start, failing);
    assert !(f < k) by { assert start + f in failing ==> f >= k; }
  }
}

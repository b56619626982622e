/** The affiliation component of affiliated-with-component.js: one display row per
    physician id the department query returns, the component's loading on mount and on
    a change of the selected department, the form's change handler and the submit
    payload with its 0/1 flag. */
module AffiliatedWith {
  import opened Js
  import opened Seqs
  import opened Entities
  import opened Http
  import AppointmentsPage

  /** One row of the affiliation table. */
  datatype AffiliationRow = AffiliationRow(
    physician: nat, physicianName: string, department: JsValue, departmentName: string, primaryAffiliation: bool)

  /** Position `i` holds the first department whose id is strictly equal to `id`. */
  predicate FirstDepartmentWithId(departments: seq<Department>, id: JsValue, i: int) {
    0 <= i < |departments| && Num(departments[i].departmentId) == id &&
    forall j :: 0 <= j < i ==> Num(departments[j].departmentId) != id
  }

  /** `departments.find(d => d.DepartmentID === deptId)?.Name || 'Unknown'`. */
  function DepartmentLabel(departments: seq<Department>, id: JsValue): (name: string)
    ensures (forall i :: 0 <= i < |departments| ==> Num(departments[i].departmentId) != id) ==> name == "Unknown"
    ensures forall i :: FirstDepartmentWithId(departments, id, i) ==>
      name == if departments[i].name != "" then departments[i].name else "Unknown"
  {
    match Find(departments, (d: Department) => Num(d.departmentId), id)
    case Some(department) =>
      assert forall i :: FirstDepartmentWithId(departments, id, i) ==> departments[i] == department by {
        forall i | FirstDepartmentWithId(departments, id, i)
          ensures departments[i] == department
        {
          FindAt(departments, (d: Department) => Num(d.departmentId), id, i);
        }
      }
      if department.name != "" then department.name else "Unknown"
    case None => "Unknown"
  }

  /** The `response.data.map(physicianId => ({ ... }))` step of `fetchPhysiciansByDepartment`,
      with the lists the enclosing closure sees. */
  function BuildRows(ids: seq<nat>, physicians: seq<Physician>, departments: seq<Department>, deptId: JsValue)
    : (rows: seq<AffiliationRow>)
    ensures |rows| == |ids|
    ensures forall i :: 0 <= i < |ids| ==>
      && rows[i].physician == ids[i]
      && rows[i].physicianName == AppointmentsPage.PhysicianName(physicians, ids[i])
      && rows[i].department == deptId
      && rows[i].departmentName == DepartmentLabel(departments, deptId)
      && !rows[i].primaryAffiliation
  {
    seq(|ids|, i requires 0 <= i < |ids| =>
      AffiliationRow(ids[i], AppointmentsPage.PhysicianName(physicians, ids[i]), deptId,
                     DepartmentLabel(departments, deptId), false))
  }

  // ---------------------------------------------------------------- component state

  /** The component's state after each handler has run to completion. */
  datatype View = View(
    departments: seq<Department>,
    physicians: seq<Physician>,
    selectedDeptId: JsValue,
    affiliations: seq<AffiliationRow>,
    loading: bool,
    loadingDeptPhysicians: bool,
    error: Option<string>)

  /** The state of the first render. */
  const Initial := View([], [], Str(""), [], true, false, None)

  /** `fetchPhysiciansByDepartment(deptId)` run from a closure that sees `seenPhysicians`
      and `seenDepartments`, once the query has answered `response`. */
  function LoadAffiliations(seenPhysicians: seq<Physician>, seenDepartments: seq<Department>,
                            deptId: JsValue, response: Response<seq<nat>>, v: View): (w: View)
    ensures !w.loading && !w.loadingDeptPhysicians
    ensures w.departments == v.departments && w.physicians == v.physicians && w.selectedDeptId == v.selectedDeptId
    ensures response.Ok? ==> w.affiliations == BuildRows(response.value, seenPhysicians, seenDepartments, deptId) && w.error == v.error
    ensures response.Fault? ==> w.affiliations == v.affiliations && w.error == Some("Failed to fetch physicians for department")
  {
    match response
    case Ok(ids) =>
      v.(affiliations := BuildRows(ids, seenPhysicians, seenDepartments, deptId), loadingDeptPhysicians := false, loading := false)
    case Fault =>
      v.(error := Some("Failed to fetch physicians for department"), loadingDeptPhysicians := false, loading := false)
  }

  /** `fetchDepartmentsAndPhysicians` as written: the first department's rows are built by
      the function of the first render, which still sees the empty lists. */
  function MountAsWritten(departmentsRes: Response<seq<Department>>, physiciansRes: Response<seq<Physician>>,
                          idsRes: Response<seq<nat>>): (w: View)
    ensures !w.loading
    ensures (departmentsRes.Fault? || physiciansRes.Fault?) ==> w == Initial.(error := Some("Failed to fetch data"), loading := false)
    ensures departmentsRes.Ok? && physiciansRes.Ok? ==> w.departments == departmentsRes.value && w.physicians == physiciansRes.value
    ensures departmentsRes.Ok? && physiciansRes.Ok? && |departmentsRes.value| == 0 ==>
      w == Initial.(departments := [], physicians := physiciansRes.value, loading := false)
    ensures departmentsRes.Ok? && physiciansRes.Ok? && |departmentsRes.value| > 0 ==>
      w.selectedDeptId == Num(departmentsRes.value[0].departmentId)
    ensures departmentsRes.Ok? && physiciansRes.Ok? && |departmentsRes.value| > 0 && idsRes.Ok? ==>
      w.affiliations == BuildRows(idsRes.value, [], [], Num(departmentsRes.value[0].departmentId)) && w.error == None
    ensures departmentsRes.Ok? && physiciansRes.Ok? && |departmentsRes.value| > 0 && idsRes.Fault? ==>
      w.affiliations == [] && w.error == Some("Failed to fetch physicians for department")
  {
    match (departmentsRes, physiciansRes)
    case (Ok(departments), Ok(physicians)) =>
      var v := Initial.(departments := departments, physicians := physicians);
      if |departments| > 0 then
        var id := Num(departments[0].departmentId);
        LoadAffiliations(Initial.physicians, Initial.departments, id, idsRes, v.(selectedDeptId := id))
      else v.(loading := false)
    case _ => Initial.(error := Some("Failed to fetch data"), loading := false)
  }

  /** On the first load every row shows 'Unknown' for both names, whatever was fetched. */
  lemma {:induction false} MountAsWrittenLosesNames(departments: seq<Department>, physicians: seq<Physician>, ids: seq<nat>)
    requires |departments| > 0
    ensures var w := MountAsWritten(Ok(departments), Ok(physicians), Ok(ids));
      |w.affiliations| == |ids| &&
      forall i :: 0 <= i < |ids| ==>
        w.affiliations[i].physicianName == "Unknown" && w.affiliations[i].departmentName == "Unknown"
  {
    var w := MountAsWritten(Ok(departments), Ok(physicians), Ok(ids));
    assert w.affiliations == BuildRows(ids, [], [], Num(departments[0].departmentId));
  }

  /** A concrete first load that shows the wrong names. */
  lemma MountAsWrittenExample()
    ensures var w := MountAsWritten(Ok([Department(4, "Surgery", Num(1))]), Ok([Physician(1, "Ada", "Surgeon", 100)]), Ok([1]));
            w.affiliations == [AffiliationRow(1, "Unknown", Num(4), "Unknown", false)]
  {
    MountAsWrittenLosesNames([Department(4, "Surgery", Num(1))], [Physician(1, "Ada", "Surgeon", 100)], [1]);
  }

  /** The intended first load: rows are built with the lists just fetched. With no
      department nothing is queried and only the loading flag is cleared. */
  function Mount(departmentsRes: Response<seq<Department>>, physiciansRes: Response<seq<Physician>>,
                 idsRes: Response<seq<nat>>): (w: View)
    ensures !w.loading
    ensures (departmentsRes.Fault? || physiciansRes.Fault?) ==> w == Initial.(error := Some("Failed to fetch data"), loading := false)
    ensures departmentsRes.Ok? && physiciansRes.Ok? && |departmentsRes.value| == 0 ==>
      w == Initial.(departments := [], physicians := physiciansRes.value, loading := false)
    ensures departmentsRes.Ok? && physiciansRes.Ok? && |departmentsRes.value| > 0 ==>
      && w.departments == departmentsRes.value && w.physicians == physiciansRes.value
      && w.selectedDeptId == Num(departmentsRes.value[0].departmentId)
      && w == LoadAffiliations(physiciansRes.value, departmentsRes.value, Num(departmentsRes.value[0].departmentId), idsRes,
                               Initial.(departments := departmentsRes.value, physicians := physiciansRes.value,
                                        selectedDeptId := Num(departmentsRes.value[0].departmentId)))
  {
    match (departmentsRes, physiciansRes)
    case (Ok(departments), Ok(physicians)) =>
      var v := Initial.(departments := departments, physicians := physicians);
      if |departments| > 0 then
        var id := Num(departments[0].departmentId);
        LoadAffiliations(physicians, departments, id, idsRes, v.(selectedDeptId := id))
      else v.(loading := false)
    case _ => Initial.(error := Some("Failed to fetch data"), loading := false)
  }

  /** With the intended load, every row of the first department carries that department's
      name (unless empty) and the name of its physician as looked up in the fetched list. */
  lemma {:induction false} MountShowsNames(departments: seq<Department>, physicians: seq<Physician>, ids: seq<nat>)
    requires |departments| > 0
    ensures var w := Mount(Ok(departments), Ok(physicians), Ok(ids));
      |w.affiliations| == |ids| &&
      forall i :: 0 <= i < |ids| ==>
        && w.affiliations[i].department == Num(departments[0].departmentId)
        && w.affiliations[i].physicianName == AppointmentsPage.PhysicianName(physicians, ids[i])
        && w.affiliations[i].departmentName == (if departments[0].name != "" then departments[0].name else "Unknown")
  {
    assert FirstDepartmentWithId(departments, Num(departments[0].departmentId), 0);
  }

  /** `handleDepartmentChange` as written: the `<select>` hands back the id as text. */
  function DepartmentChangeAsWritten(v: View, value: string, response: Response<seq<nat>>): (w: View)
    ensures w.selectedDeptId == Str(value)
    ensures response.Ok? ==> w.affiliations == BuildRows(response.value, v.physicians, v.departments, Str(value))
  {
    LoadAffiliations(v.physicians, v.departments, Str(value), response, v.(selectedDeptId := Str(value)))
  }

  /** After a change of department every row shows 'Unknown' as department name. */
  lemma DepartmentChangeAsWrittenLosesName(v: View, value: string, ids: seq<nat>)
    ensures var w := DepartmentChangeAsWritten(v, value, Ok(ids));
      forall i :: 0 <= i < |w.affiliations| ==> w.affiliations[i].departmentName == "Unknown"
  {
  }

  /** The intended `handleDepartmentChange`: the selected text is read back as the numeric id. */
  function DepartmentChange(v: View, value: string, response: Response<seq<nat>>): (w: View)
    ensures w.selectedDeptId == SelectedId(value)
    ensures w == LoadAffiliations(v.physicians, v.departments, SelectedId(value), response, v.(selectedDeptId := SelectedId(value)))
  {
    var id := SelectedId(value);
    LoadAffiliations(v.physicians, v.departments, id, response, v.(selectedDeptId := id))
  }

  /** Choosing the option of the department at position `i` shows that department's name. */
  lemma {:induction false} DepartmentChangeShowsName(v: View, i: nat, ids: seq<nat>)
    requires i < |v.departments| && FirstDepartmentWithId(v.departments, Num(v.departments[i].departmentId), i)
    requires v.departments[i].name != ""
    ensures var w := DepartmentChange(v, Decimal(v.departments[i].departmentId), Ok(ids));
      w.selectedDeptId == Num(v.departments[i].departmentId) &&
      |w.affiliations| == |ids| &&
      forall k :: 0 <= k < |ids| ==> w.affiliations[k].departmentName == v.departments[i].name
  {
    SelectedIdRoundTrip(v.departments[i].departmentId);
  }

  // ---------------------------------------------------------------- form

  /** `handleInputChange`: the named field takes `checked` for a checkbox and `value`
      otherwise; every other field is kept. */
  function HandleInputChange(form: Object, name: string, inputType: string, value: string, checked: bool): (r: Object)
    ensures r.Keys == form.Keys + {name}
    ensures r[name] == if inputType == "checkbox" then Bool(checked) else Str(value)
    ensures forall k :: k != name ==> Get(r, k) == Get(form, k)
  {
    form[name := if inputType == "checkbox" then Bool(checked) else Str(value)]
  }

  /** The body `handleSubmit` posts: the form with `PrimaryAffiliation` sent as 1 or 0. */
  function SubmitPayload(form: Object): (body: Object)
    ensures body.Keys == form.Keys + {"PrimaryAffiliation"}
    ensures body["PrimaryAffiliation"] == Num(1) <==> Truthy(Get(form, "PrimaryAffiliation"))
    ensures body["PrimaryAffiliation"] == Num(0) <==> !Truthy(Get(form, "PrimaryAffiliation"))
    ensures forall k :: k != "PrimaryAffiliation" ==> Get(body, k) == Get(form, k)
  {
    form["PrimaryAffiliation" := Num(Bit(Get(form, "PrimaryAffiliation")))]
  }

  /** The checkbox handler and the payload together: ticking the box posts 1, clearing it posts 0. */
  lemma {:induction false} CheckboxReachesPayload(form: Object, checked: bool)
    ensures var body := SubmitPayload(HandleInputChange(form, "PrimaryAffiliation", "checkbox", "", checked));
      body["PrimaryAffiliation"] == Num(if checked then 1 else 0)
  {
    var changed := HandleInputChange(form, "PrimaryAffiliation", "checkbox", "", checked);
    assert Get(changed, "PrimaryAffiliation") == Bool(checked);
  }

  /** `handleSubmit`: one POST of the payload; `error` is what the page shows when it fails. */
  method HandleSubmit(server: Server, form: Object) returns (error: Option<string>)
    modifies server
    ensures server.trace == old(server.trace) + [PostAffiliation(SubmitPayload(form))]
    ensures error.None? <==> |old(server.trace)| !in server.failing
    ensures error.Some? ==> error.value == "Failed to add affiliation"
  {
    var ok := server.Send(PostAffiliation(form["PrimaryAffiliation" := Num(if Truthy(Get(form, "PrimaryAffiliation")) then 1 else 0)]));
    error := if ok then None else Some("Failed to add affiliation");
  }
}

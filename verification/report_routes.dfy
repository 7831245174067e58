/** The two report handlers: submitting an inspection report and changing a
    report's status. Each is one atomic transition of the store that keeps a
    vehicle's status, its defect flag and its `failed_inspection` alerts in
    step with the report. */
module ReportRoutes {
  import opened Wrappers
  import opened Fleet
  import opened Db
  import opened Http
  import opened Seqs

  /** The body of `POST /api/reports`. An absent string field is "", an absent
      odometer is 0, and an absent checklist, photo list or video list is `None`. */
  datatype ReportRequest = ReportRequest(
    vehicleId: string,
    inspectorName: string,
    date: string,
    odometerReading: int,
    checks: Option<Checks>,
    defectDescription: Option<string>,
    photos: Option<seq<SerializedFile>>,
    videos: Option<seq<SerializedFile>>,
    status: string)

  /** Some required field is falsy; an odometer reading of 0 counts as missing. */
  predicate MissingRequired(req: ReportRequest) {
    || req.vehicleId == ""
    || req.inspectorName == ""
    || req.date == ""
    || req.odometerReading == 0
    || req.checks.None?
    || req.status == ""
  }

  /** `["pass", "fail"].includes(status)`: a submission cannot be `pending`. */
  function SubmittedStatus(name: string): (r: Option<VehicleStatus>)
    ensures r.Some? <==> name == "pass" || name == "fail"
    ensures r.Some? ==> StatusName(r.value) == name && r.value != Pending
  {
    match ParseStatus(name)
    case Some(Pending) => None
    case other => other
  }

  predicate ValidSubmission(req: ReportRequest) {
    !MissingRequired(req) && SubmittedStatus(req.status).Some?
  }

  /** The text of the alert a failed submission raises. */
  function FailureMessage(inspector: string, defect: Option<string>): string {
    "Failed inspection by " + inspector + " - "
      + (if defect.Some? && defect.value != "" then defect.value else "Multiple issues detected")
  }

  /** The text of the alert a change to `fail` raises. */
  function StatusChangeMessage(inspector: string): string {
    "Failed inspection by " + inspector + " - Status changed to FAIL"
  }

  /** Raises a high-severity `failed_inspection` alert for the vehicle, copying
      its bus number, provided the vehicle exists; otherwise changes nothing. */
  function RaiseFailedAlert(st: Store, vehicleId: string, message: string, date: string): (r: Store)
    ensures r.vehicles == st.vehicles && r.reports == st.reports && r.files == st.files
    ensures GetVehicleById(st, vehicleId).None? ==> r.alerts == st.alerts
    ensures GetVehicleById(st, vehicleId).Some? ==>
      && |r.alerts| == |st.alerts| + 1
      && r.alerts[..|st.alerts|] == st.alerts
      && r.alerts[|st.alerts|].alert.id !in AlertIds(st.alerts)
      && r.alerts[|st.alerts|] == AlertRow(MaintenanceAlert(r.alerts[|st.alerts|].alert.id, vehicleId,
           GetVehicleById(st, vehicleId).value.busNumber, FailedInspection, High, message, date), false)
  {
    match GetVehicleById(st, vehicleId)
    case Some(v) => AddMaintenanceAlert(st, NewAlert(vehicleId, v.busNumber, FailedInspection, High, message, date)).0
    case None => st
  }

  /** The report stored for a valid submission. */
  function Submission(req: ReportRequest, status: VehicleStatus): NewReport
    requires req.checks.Some?
  {
    NewReport(req.vehicleId, req.inspectorName, req.date, req.odometerReading, req.checks.value,
      req.defectDescription, req.photos.GetOr([]), req.videos.GetOr([]), status)
  }

  /** What a valid submission does once its report is stored: the vehicle
      takes the report's status, date, odometer reading and defect flag, a
      failure raises an alert dated with the report, and a pass resolves the
      vehicle's `failed_inspection` alerts. */
  function SubmissionEffects(st1: Store, req: ReportRequest, status: VehicleStatus): (r: Store)
    ensures r.reports == st1.reports && r.files == st1.files
    ensures r.vehicles == UpdateVehicle(st1, req.vehicleId, VehicleUpdate(Some(status), Some(req.date),
      Some(req.odometerReading), Some(status == Fail))).0.vehicles
    ensures status == Pending ==> r.alerts == st1.alerts
    ensures status == Pass ==> r.alerts == RemoveAlertsForVehicle(st1, req.vehicleId, FailedInspection).alerts
    ensures status == Fail ==>
      r.alerts == RaiseFailedAlert(st1, req.vehicleId, FailureMessage(req.inspectorName, req.defectDescription), req.date).alerts
  {
    var st2 := UpdateVehicle(st1, req.vehicleId, VehicleUpdate(Some(status), Some(req.date),
      Some(req.odometerReading), Some(status == Fail))).0;
    assert GetVehicleById(st2, req.vehicleId).Some? ==>
      GetVehicleById(st2, req.vehicleId).value.busNumber == GetVehicleById(st1, req.vehicleId).value.busNumber;
    if status == Fail then RaiseFailedAlert(st2, req.vehicleId, FailureMessage(req.inspectorName, req.defectDescription), req.date)
    else if status == Pass then RemoveAlertsForVehicle(st2, req.vehicleId, FailedInspection)
    else st2
  }

  /** `POST /api/reports`. Missing fields and a status other than `pass` or
      `fail` are rejected with 400 and change nothing. Otherwise the report is
      stored, the vehicle takes the report's status, date, odometer reading and
      defect flag, and a failure raises an alert while a pass resolves the
      vehicle's `failed_inspection` alerts. */
  function CreateReport(st: Store, req: ReportRequest): (r: (Store, Response))
    ensures MissingRequired(req) ==> r == (st, Response(BadRequest, ErrorBody("Missing required fields")))
    ensures !MissingRequired(req) && SubmittedStatus(req.status).None? ==>
      r == (st, Response(BadRequest, ErrorBody("Invalid status. Must be pass or fail")))
    ensures ValidSubmission(req) ==>
      && r.1.code == Created
      && r.1.body.CreatedBody?
      && r.1.body.message == "Inspection report created successfully"
      && r.1.body.id !in ReportIds(st.reports)
      && r.0.reports == st.reports + [ReportRow(r.1.body.id, req.vehicleId, req.inspectorName, req.date,
           req.odometerReading, req.checks.value, StoredDefect(req.defectDescription), SubmittedStatus(req.status).value)]
  {
    if MissingRequired(req) then
      (st, Response(BadRequest, ErrorBody("Missing required fields")))
    else
      match SubmittedStatus(req.status)
      case None => (st, Response(BadRequest, ErrorBody("Invalid status. Must be pass or fail")))
      case Some(status) =>
        var (st1, reportId) := AddInspectionReport(st, Submission(req, status));
        (SubmissionEffects(st1, req, status), Response(Created, CreatedBody(reportId, "Inspection report created successfully")))
  }

  /** Position `i` holds the first listed report with that id. */
  ghost predicate FirstWithId(reports: seq<InspectionReport>, id: string, i: int) {
    0 <= i < |reports| && reports[i].id == id && forall j :: 0 <= j < i ==> reports[j].id != id
  }

  /** `reports.find(r => r.id === id)`: the first listed report with that id. */
  function FindReport(reports: seq<InspectionReport>, id: string): (r: Option<InspectionReport>)
    ensures r.Some? <==> exists i :: 0 <= i < |reports| && reports[i].id == id
    ensures r.Some? ==> r.value.id == id && r.value in reports
    ensures forall i {:trigger FirstWithId(reports, id, i)} :: FirstWithId(reports, id, i) ==> r == Some(reports[i])
  {
    var r := FindFirst(reports, (rep: InspectionReport) => rep.id == id);
    assert forall i :: FirstWithId(reports, id, i) ==> r == Some(reports[i]) by {
      forall i | FirstWithId(reports, id, i) ensures r == Some(reports[i]) {
        var k :| 0 <= k < |reports| && reports[k] == r.value && reports[k].id == id
          && forall j :: 0 <= j < k ==> reports[j].id != id;
        assert k == i;
      }
    }
    r
  }

  /** The report the status endpoint acts on, looked up in the listing. */
  function StatusTarget(st: Store, id: string): Option<InspectionReport> {
    FindReport(GetInspectionReports(st), id)
  }

  /** The listing finds a report exactly when a row has the id, and the report
      found carries that row's vehicle and inspector. */
  lemma StatusTargetIsRow(st: Store, id: string)
    ensures StatusTarget(st, id).Some? <==> exists i :: 0 <= i < |st.reports| && st.reports[i].id == id
    ensures StatusTarget(st, id).Some? ==>
      (exists i :: 0 <= i < |st.reports| && st.reports[i].id == id
        && st.reports[i].vehicleId == StatusTarget(st, id).value.vehicleId
        && st.reports[i].inspectorName == StatusTarget(st, id).value.inspectorName)
  {
    if exists i :: 0 <= i < |st.reports| && st.reports[i].id == id {
      var i :| 0 <= i < |st.reports| && st.reports[i].id == id;
      InGetInspectionReports(st, ReportOf(st.reports[i], st.files));
    }
    if StatusTarget(st, id).Some? {
      InGetInspectionReports(st, StatusTarget(st, id).value);
    }
  }

  /** What a status change does once the report row carries the new status:
      the report's vehicle takes the status and the matching defect flag, a
      failure raises an alert dated `today`, a pass resolves the vehicle's
      `failed_inspection` alerts and `pending` leaves the alerts alone. */
  function StatusEffects(st1: Store, report: InspectionReport, status: VehicleStatus, today: string): (r: Store)
    ensures r.reports == st1.reports && r.files == st1.files
    ensures r.vehicles == UpdateVehicle(st1, report.vehicleId, VehicleUpdate(Some(status), None, None, Some(status == Fail))).0.vehicles
    ensures status == Pending ==> r.alerts == st1.alerts
    ensures status == Pass ==> r.alerts == RemoveAlertsForVehicle(st1, report.vehicleId, FailedInspection).alerts
    ensures status == Fail ==>
      r.alerts == RaiseFailedAlert(st1, report.vehicleId, StatusChangeMessage(report.inspectorName), today).alerts
  {
    var st2 := UpdateVehicle(st1, report.vehicleId, VehicleUpdate(Some(status), None, None, Some(status == Fail))).0;
    assert GetVehicleById(st2, report.vehicleId).Some? ==>
      GetVehicleById(st2, report.vehicleId).value.busNumber == GetVehicleById(st1, report.vehicleId).value.busNumber;
    if status == Fail then RaiseFailedAlert(st2, report.vehicleId, StatusChangeMessage(report.inspectorName), today)
    else if status == Pass then RemoveAlertsForVehicle(st2, report.vehicleId, FailedInspection)
    else st2
  }

  /** `PUT /api/reports/:id/status`. A status outside pass/fail/pending gives
      400 and an unknown report 404, both changing nothing. Otherwise the
      report and its vehicle take the new status and the vehicle's defect flag
      becomes `status == fail`; `fail` raises another alert dated `today`,
      `pass` resolves the vehicle's `failed_inspection` alerts, and `pending`
      leaves the alerts alone. */
  function UpdateReportStatus(st: Store, id: string, statusName: string, today: string): (r: (Store, Response))
    ensures ParseStatus(statusName).None? ==> r == (st, Response(BadRequest, ErrorBody("Invalid status")))
    ensures ParseStatus(statusName).Some? && !(exists i :: 0 <= i < |st.reports| && st.reports[i].id == id) ==>
      r == (st, Response(NotFound, ErrorBody("Inspection report not found")))
    ensures ParseStatus(statusName).Some? && (exists i :: 0 <= i < |st.reports| && st.reports[i].id == id) ==>
      r.1 == Response(Ok, MessageBody("Report status updated successfully"))
  {
    match ParseStatus(statusName)
    case None => (st, Response(BadRequest, ErrorBody("Invalid status")))
    case Some(status) =>
      StatusTargetIsRow(st, id);
      match StatusTarget(st, id)
      case None => (st, Response(NotFound, ErrorBody("Inspection report not found")))
      case Some(report) =>
        var (st1, updated) := UpdateInspectionStatus(st, id, status);
        if !updated then (st1, Response(NotFound, ErrorBody("Failed to update inspection status")))
        else (StatusEffects(st1, report, status, today), Response(Ok, MessageBody("Report status updated successfully")))
  }

  /** A status change on a listed report is the row update followed by its
      effects on the vehicle and the alerts. */
  lemma StatusChangeIsEffects(st: Store, id: string, statusName: string, today: string)
    requires ParseStatus(statusName).Some? && StatusTarget(st, id).Some?
    ensures var status := ParseStatus(statusName).value;
      UpdateReportStatus(st, id, statusName, today).0
        == StatusEffects(UpdateInspectionStatus(st, id, status).0, StatusTarget(st, id).value, status, today)
  {
    StatusTargetIsRow(st, id);
  }

  /** A valid submission is the report insert followed by its effects on the
      vehicle and the alerts, under the id the insert chose. */
  lemma SubmissionIsEffects(st: Store, req: ReportRequest)
    requires ValidSubmission(req)
    ensures var status := SubmittedStatus(req.status).value;
      var (st1, rid) := AddInspectionReport(st, Submission(req, status));
      CreateReport(st, req) == (SubmissionEffects(st1, req, status),
        Response(Created, CreatedBody(rid, "Inspection report created successfully")))
  {
  }
}

/** What the two report handlers guarantee about vehicles and alerts: the
    consistency rules of the inspection tracker, stated per handler call and
    over short sequences of calls. */
module Engine {
  import opened Wrappers
  import opened Fleet
  import opened Db
  import opened Http
  import opened ReportRoutes

  /** The vehicle's defect flag agrees with its status (vacuous for an
      unknown vehicle). The handlers establish this for the vehicle they touch;
      a direct vehicle update can break it. */
  ghost predicate VehicleConsistent(st: Store, vehicleId: string) {
    GetVehicleById(st, vehicleId).Some? ==>
      GetVehicleById(st, vehicleId).value.hasDefects == (GetVehicleById(st, vehicleId).value.status == Fail)
  }

  /** Some unresolved `failed_inspection` alert names the vehicle. */
  ghost predicate HasOpenFailure(st: Store, vehicleId: string) {
    exists i :: 0 <= i < |st.alerts| && Matches(st.alerts[i], vehicleId, FailedInspection) && !st.alerts[i].resolved
  }

  // ---------------------------------------------------------------- submitting a report

  /** A valid submission for a known vehicle sets its status, inspection
      date, odometer reading and defect flag from the report and leaves its
      other fields and every other vehicle as they were. */
  lemma SubmitSetsVehicle(st: Store, req: ReportRequest)
    requires ValidSubmission(req)
    requires GetVehicleById(st, req.vehicleId).Some?
    ensures var st' := CreateReport(st, req).0;
      var status := SubmittedStatus(req.status).value;
      && GetVehicleById(st', req.vehicleId) == Some(GetVehicleById(st, req.vehicleId).value.(
           status := status, lastInspectionDate := req.date,
           odometerReading := req.odometerReading, hasDefects := status == Fail))
      && VehicleConsistent(st', req.vehicleId)
      && (forall k :: k != req.vehicleId ==> GetVehicleById(st', k) == GetVehicleById(st, k))
  {
    SubmissionIsEffects(st, req);
  }

  /** A valid `fail` submission for a known vehicle appends exactly one
      unresolved high-severity `failed_inspection` alert, with the vehicle's bus
      number, the report date and the submission's message; no existing alert
      changes. */
  lemma SubmitFailRaisesOneAlert(st: Store, req: ReportRequest)
    requires ValidSubmission(req) && SubmittedStatus(req.status) == Some(Fail)
    requires GetVehicleById(st, req.vehicleId).Some?
    ensures var st' := CreateReport(st, req).0;
      && |st'.alerts| == |st.alerts| + 1
      && st'.alerts[..|st.alerts|] == st.alerts
      && st'.alerts[|st.alerts|].alert.id !in AlertIds(st.alerts)
      && st'.alerts[|st.alerts|] == AlertRow(MaintenanceAlert(st'.alerts[|st.alerts|].alert.id, req.vehicleId,
           GetVehicleById(st, req.vehicleId).value.busNumber, FailedInspection, High,
           FailureMessage(req.inspectorName, req.defectDescription), req.date), false)
  {
    SubmissionIsEffects(st, req);
  }

  /** A valid `pass` submission resolves, and never deletes, every
      `failed_inspection` alert of the vehicle; alerts of other vehicles or
      other types are untouched. */
  lemma SubmitPassResolves(st: Store, req: ReportRequest)
    requires ValidSubmission(req) && SubmittedStatus(req.status) == Some(Pass)
    ensures var st' := CreateReport(st, req).0;
      && |st'.alerts| == |st.alerts|
      && (forall i :: 0 <= i < |st.alerts| ==> st'.alerts[i].alert == st.alerts[i].alert)
      && (forall i :: 0 <= i < |st.alerts| && !Matches(st.alerts[i], req.vehicleId, FailedInspection) ==>
            st'.alerts[i] == st.alerts[i])
      && !HasOpenFailure(st', req.vehicleId)
  {
    SubmissionIsEffects(st, req);
  }

  /** A submission naming an unknown vehicle is still stored, but changes no
      vehicle and raises no alert. */
  lemma SubmitUnknownVehicle(st: Store, req: ReportRequest)
    requires ValidSubmission(req)
    requires GetVehicleById(st, req.vehicleId).None?
    ensures var (st', resp) := CreateReport(st, req);
      && resp.code == Created
      && |st'.reports| == |st.reports| + 1
      && st'.vehicles == st.vehicles
      && |st'.alerts| == |st.alerts|
      && (forall i :: 0 <= i < |st.alerts| ==> st'.alerts[i].alert == st.alerts[i].alert)
  {
    SubmissionIsEffects(st, req);
  }

  // ---------------------------------------------------------------- changing a report's status

  /** A successful status change sets only the status and defect flag of the
      report's vehicle: its inspection date and odometer reading keep the values
      of the original submission. The report rows with that id take the new
      status and nothing else about them changes. */
  lemma StatusChangeSetsVehicle(st: Store, id: string, statusName: string, today: string)
    requires ParseStatus(statusName).Some?
    requires StatusTarget(st, id).Some?
    requires GetVehicleById(st, StatusTarget(st, id).value.vehicleId).Some?
    ensures var st' := UpdateReportStatus(st, id, statusName, today).0;
      var status := ParseStatus(statusName).value;
      var vid := StatusTarget(st, id).value.vehicleId;
      && GetVehicleById(st', vid) == Some(GetVehicleById(st, vid).value.(status := status, hasDefects := status == Fail))
      && VehicleConsistent(st', vid)
      && (forall k :: k != vid ==> GetVehicleById(st', k) == GetVehicleById(st, k))
      && |st'.reports| == |st.reports|
      && (forall i :: 0 <= i < |st.reports| ==>
            st'.reports[i] == if st.reports[i].id == id then st.reports[i].(status := status) else st.reports[i])
  {
    StatusChangeIsEffects(st, id, statusName, today);
  }

  /** Changing a status to `fail` always raises another alert, dated `today`,
      even when the vehicle already has open ones. */
  lemma StatusChangeToFailRaisesAlert(st: Store, id: string, today: string)
    requires StatusTarget(st, id).Some?
    requires GetVehicleById(st, StatusTarget(st, id).value.vehicleId).Some?
    ensures var st' := UpdateReportStatus(st, id, "fail", today).0;
      var rep := StatusTarget(st, id).value;
      && |st'.alerts| == |st.alerts| + 1
      && st'.alerts[..|st.alerts|] == st.alerts
      && st'.alerts[|st.alerts|] == AlertRow(MaintenanceAlert(st'.alerts[|st.alerts|].alert.id, rep.vehicleId,
           GetVehicleById(st, rep.vehicleId).value.busNumber, FailedInspection, High,
           StatusChangeMessage(rep.inspectorName), today), false)
  {
    StatusChangeIsEffects(st, id, "fail", today);
  }

  /** Changing a status to `pass` resolves the vehicle's `failed_inspection`
      alerts and deletes none. */
  lemma StatusChangeToPassResolves(st: Store, id: string, today: string)
    requires StatusTarget(st, id).Some?
    ensures var st' := UpdateReportStatus(st, id, "pass", today).0;
      var vid := StatusTarget(st, id).value.vehicleId;
      && |st'.alerts| == |st.alerts|
      && (forall i :: 0 <= i < |st.alerts| ==> st'.alerts[i].alert == st.alerts[i].alert)
      && (forall i :: 0 <= i < |st.alerts| && !Matches(st.alerts[i], vid, FailedInspection) ==>
            st'.alerts[i] == st.alerts[i])
      && !HasOpenFailure(st', vid)
  {
    StatusChangeIsEffects(st, id, "pass", today);
  }

  /** Changing a status to `pending` leaves every alert as it was. */
  lemma StatusChangeToPendingKeepsAlerts(st: Store, id: string, today: string)
    ensures UpdateReportStatus(st, id, "pending", today).0.alerts == st.alerts
  {
    assert ParseStatus("pending") == Some(Pending);
    if StatusTarget(st, id).Some? {
      StatusChangeIsEffects(st, id, "pending", today);
    } else {
      StatusTargetIsRow(st, id);
    }
  }

  // ---------------------------------------------------------------- sequences of calls

  /** The status endpoint finds a freshly submitted report by the id the
      submission returned, and acts on the submitted vehicle. */
  lemma NewReportIsStatusTarget(st: Store, req: ReportRequest)
    requires ValidSubmission(req)
    ensures var (st1, resp) := CreateReport(st, req);
      StatusTarget(st1, resp.body.id).Some? && StatusTarget(st1, resp.body.id).value.vehicleId == req.vehicleId
      && StatusTarget(st1, resp.body.id).value.inspectorName == req.inspectorName
  {
    var (st1, resp) := CreateReport(st, req);
    AppendedRowIsTarget(st1, st.reports, st1.reports[|st.reports|]);
  }

  /** A row appended under an id no earlier row has is the one the status
      endpoint finds by that id. */
  lemma AppendedRowIsTarget(st: Store, rows: seq<ReportRow>, row: ReportRow)
    requires st.reports == rows + [row]
    requires row.id !in ReportIds(rows)
    ensures StatusTarget(st, row.id).Some?
    ensures StatusTarget(st, row.id).value.vehicleId == row.vehicleId
    ensures StatusTarget(st, row.id).value.inspectorName == row.inspectorName
  {
    FreshIdOwnsNoRow(rows, row.id);
    StatusTargetIsRow(st, row.id);
    assert st.reports[|rows|] == row;
    var i :| 0 <= i < |st.reports| && st.reports[i].id == row.id
      && st.reports[i].vehicleId == StatusTarget(st, row.id).value.vehicleId
      && st.reports[i].inspectorName == StatusTarget(st, row.id).value.inspectorName;
    assert i == |rows|;
  }

  /** An id outside the report ids names no report row. */
  lemma FreshIdOwnsNoRow(rows: seq<ReportRow>, id: string)
    requires id !in ReportIds(rows)
    ensures forall i :: 0 <= i < |rows| ==> rows[i].id != id
  {
    assert forall i :: 0 <= i < |rows| ==> ReportIds(rows)[i] == rows[i].id;
  }

  /** The documented gap: failing a report and then setting it to `pending`
      clears the vehicle's defect flag while the failure alert stays open. */
  lemma FailThenPendingLeavesAlertOpen(st: Store, req: ReportRequest, today: string)
    requires ValidSubmission(req) && SubmittedStatus(req.status) == Some(Fail)
    requires GetVehicleById(st, req.vehicleId).Some?
    ensures var (st1, resp) := CreateReport(st, req);
      var st2 := UpdateReportStatus(st1, resp.body.id, "pending", today).0;
      && GetVehicleById(st2, req.vehicleId).Some?
      && GetVehicleById(st2, req.vehicleId).value.status == Pending
      && !GetVehicleById(st2, req.vehicleId).value.hasDefects
      && HasOpenFailure(st2, req.vehicleId)
  {
    var (st1, resp) := CreateReport(st, req);
    SubmitSetsVehicle(st, req);
    SubmitFailRaisesOneAlert(st, req);
    assert Matches(st1.alerts[|st.alerts|], req.vehicleId, FailedInspection) && !st1.alerts[|st.alerts|].resolved;
    NewReportIsStatusTarget(st, req);
    PendingKeepsOpenFailure(st1, resp.body.id, today);
  }

  /** Setting a report to `pending` clears its vehicle's defect flag but
      leaves an open failure alert of that vehicle open. */
  lemma PendingKeepsOpenFailure(st: Store, id: string, today: string)
    requires StatusTarget(st, id).Some?
    requires GetVehicleById(st, StatusTarget(st, id).value.vehicleId).Some?
    requires HasOpenFailure(st, StatusTarget(st, id).value.vehicleId)
    ensures var st' := UpdateReportStatus(st, id, "pending", today).0;
      var vid := StatusTarget(st, id).value.vehicleId;
      && GetVehicleById(st', vid).Some?
      && GetVehicleById(st', vid).value.status == Pending
      && !GetVehicleById(st', vid).value.hasDefects
      && HasOpenFailure(st', vid)
  {
    StatusChangeSetsVehicle(st, id, "pending", today);
    StatusChangeToPendingKeepsAlerts(st, id, today);
  }

  /** Failing a report and then passing it returns the vehicle to `pass`
      without defects and leaves no open failure alert, while the alert raised
      by the failure is kept, resolved. */
  lemma FailThenPassResolves(st: Store, req: ReportRequest, today: string)
    requires ValidSubmission(req) && SubmittedStatus(req.status) == Some(Fail)
    requires GetVehicleById(st, req.vehicleId).Some?
    ensures var (st1, resp) := CreateReport(st, req);
      var st2 := UpdateReportStatus(st1, resp.body.id, "pass", today).0;
      && GetVehicleById(st2, req.vehicleId).Some?
      && GetVehicleById(st2, req.vehicleId).value.status == Pass
      && !GetVehicleById(st2, req.vehicleId).value.hasDefects
      && !HasOpenFailure(st2, req.vehicleId)
      && |st2.alerts| == |st.alerts| + 1
  {
    var (st1, resp) := CreateReport(st, req);
    SubmitSetsVehicle(st, req);
    SubmitFailRaisesOneAlert(st, req);
    NewReportIsStatusTarget(st, req);
    StatusChangeSetsVehicle(st1, resp.body.id, "pass", today);
    StatusChangeToPassResolves(st1, resp.body.id, today);
  }

  // ---------------------------------------------------------------- key uniqueness

  lemma StatusOnlyKeepsReportIds(rows: seq<ReportRow>, rows': seq<ReportRow>)
    requires |rows'| == |rows|
    requires forall i :: 0 <= i < |rows| ==> rows'[i].(status := rows[i].status) == rows[i]
    ensures ReportIds(rows') == ReportIds(rows)
  {
    assert forall i :: 0 <= i < |rows| ==> rows'[i].id == rows[i].id by {
      forall i | 0 <= i < |rows| ensures rows'[i].id == rows[i].id {
        assert rows'[i].(status := rows[i].status).id == rows'[i].id;
      }
    }
  }

  lemma ResolveKeepsAlertIds(st: Store, vehicleId: string, alertType: AlertType)
    ensures AlertIds(RemoveAlertsForVehicle(st, vehicleId, alertType).alerts) == AlertIds(st.alerts)
  {
  }

  lemma RaiseKeepsDistinct(st: Store, vehicleId: string, message: string, date: string)
    requires Distinct(AlertIds(st.alerts))
    ensures Distinct(AlertIds(RaiseFailedAlert(st, vehicleId, message, date).alerts))
  {
    var r := RaiseFailedAlert(st, vehicleId, message, date);
    if GetVehicleById(st, vehicleId).Some? {
      var newId := r.alerts[|st.alerts|].alert.id;
      assert AlertIds(r.alerts) == AlertIds(st.alerts) + [newId];
      DistinctAppend(AlertIds(st.alerts), newId);
    }
  }

  /** Storing a report under its fresh id keeps every primary key unique. */
  lemma AddReportKeepsWf(st: Store, nr: NewReport)
    requires Wf(st)
    ensures Wf(AddInspectionReport(st, nr).0)
  {
    var (st1, rid) := AddInspectionReport(st, nr);
    assert ReportIds(st1.reports) == ReportIds(st.reports) + [rid];
    DistinctAppend(ReportIds(st.reports), rid);
  }

  /** The vehicle update and alert bookkeeping of a submission keep every
      primary key unique. */
  lemma SubmissionEffectsKeepWf(st1: Store, req: ReportRequest, status: VehicleStatus)
    requires Wf(st1)
    ensures Wf(SubmissionEffects(st1, req, status))
  {
    if status == Fail {
      RaiseKeepsDistinct(st1, req.vehicleId, FailureMessage(req.inspectorName, req.defectDescription), req.date);
    } else if status == Pass {
      ResolveKeepsAlertIds(st1, req.vehicleId, FailedInspection);
    }
  }

  /** Submitting a report keeps every primary key unique. */
  lemma SubmitKeepsWf(st: Store, req: ReportRequest)
    requires Wf(st)
    ensures Wf(CreateReport(st, req).0)
  {
    if ValidSubmission(req) {
      var status := SubmittedStatus(req.status).value;
      SubmissionIsEffects(st, req);
      AddReportKeepsWf(st, Submission(req, status));
      SubmissionEffectsKeepWf(AddInspectionReport(st, Submission(req, status)).0, req, status);
    }
  }

  /** Changing a report's status keeps every primary key unique. */
  lemma StatusChangeKeepsWf(st: Store, id: string, statusName: string, today: string)
    requires Wf(st)
    ensures Wf(UpdateReportStatus(st, id, statusName, today).0)
  {
    StatusTargetIsRow(st, id);
    if ParseStatus(statusName).Some? && StatusTarget(st, id).Some? {
      var status := ParseStatus(statusName).value;
      var rep := StatusTarget(st, id).value;
      var (st1, _) := UpdateInspectionStatus(st, id, status);
      StatusChangeIsEffects(st, id, statusName, today);
      StatusOnlyKeepsReportIds(st.reports, st1.reports);
      if status == Fail {
        RaiseKeepsDistinct(st1, rep.vehicleId, StatusChangeMessage(rep.inspectorName), today);
      } else if status == Pass {
        ResolveKeepsAlertIds(st1, rep.vehicleId, FailedInspection);
      }
    }
  }
}

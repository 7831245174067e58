/** `POST /api/alerts`: validates a manually created maintenance alert and
    stores it. */
module AlertRoutes {
  import opened Wrappers
  import opened Fleet
  import opened Db
  import opened Http

  /** The request body; an absent field is "". */
  datatype AlertRequest = AlertRequest(
    vehicleId: string,
    busNumber: string,
    alertType: string,
    severity: string,
    message: string,
    date: string)

  predicate MissingField(req: AlertRequest) {
    req.vehicleId == "" || req.busNumber == "" || req.alertType == ""
    || req.severity == "" || req.message == "" || req.date == ""
  }

  /** The checks run in order: missing fields, then the alert type, then the
      severity. Each rejection is a 400 that stores nothing; a valid request
      stores exactly one new unresolved alert with the given fields under a
      fresh id and answers 201 with that id. */
  function CreateAlert(st: Store, req: AlertRequest): (r: (Store, Response))
    ensures MissingField(req) ==> r == (st, Response(BadRequest, ErrorBody("Missing required fields")))
    ensures !MissingField(req) && ParseAlertType(req.alertType).None? ==>
      r == (st, Response(BadRequest, ErrorBody("Invalid alert type")))
    ensures !MissingField(req) && ParseAlertType(req.alertType).Some? && ParseSeverity(req.severity).None? ==>
      r == (st, Response(BadRequest, ErrorBody("Invalid severity level")))
    ensures !MissingField(req) && ParseAlertType(req.alertType).Some? && ParseSeverity(req.severity).Some? ==>
      && r.1.code == Created
      && r.1.body.CreatedBody?
      && r.1.body.message == "Maintenance alert created successfully"
      && r.1.body.id !in AlertIds(st.alerts)
      && r.0.alerts == st.alerts + [AlertRow(MaintenanceAlert(r.1.body.id, req.vehicleId, req.busNumber,
           ParseAlertType(req.alertType).value, ParseSeverity(req.severity).value, req.message, req.date), false)]
      && AlertTypeName(r.0.alerts[|st.alerts|].alert.alertType) == req.alertType
      && SeverityName(r.0.alerts[|st.alerts|].alert.severity) == req.severity
      && r.0.vehicles == st.vehicles && r.0.reports == st.reports && r.0.files == st.files
  {
    if MissingField(req) then
      (st, Response(BadRequest, ErrorBody("Missing required fields")))
    else
      match ParseAlertType(req.alertType)
      case None => (st, Response(BadRequest, ErrorBody("Invalid alert type")))
      case Some(alertType) =>
        match ParseSeverity(req.severity)
        case None => (st, Response(BadRequest, ErrorBody("Invalid severity level")))
        case Some(severity) =>
          var (st', id) := AddMaintenanceAlert(st, NewAlert(req.vehicleId, req.busNumber, alertType, severity, req.message, req.date));
          (st', Response(Created, CreatedBody(id, "Maintenance alert created successfully")))
  }

  /** A request naming an alert type, severity and other fields by their wire
      names is accepted, and the stored alert carries exactly those values. */
  lemma CreateAlertAcceptsEveryType(st: Store, vehicleId: string, busNumber: string, t: AlertType, s: Severity,
                                    message: string, date: string)
    requires vehicleId != "" && busNumber != "" && message != "" && date != ""
    ensures var (st', resp) := CreateAlert(st, AlertRequest(vehicleId, busNumber, AlertTypeName(t), SeverityName(s), message, date));
      && resp.code == Created
      && st'.alerts[|st.alerts|].alert == MaintenanceAlert(resp.body.id, vehicleId, busNumber, t, s, message, date)
      && !st'.alerts[|st.alerts|].resolved
  {
    ParseAlertTypeName(t);
    ParseSeverityName(s);
  }
}

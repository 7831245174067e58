/** The shared record types of the fleet tracker and their enumerations. */
module Fleet {
  import opened Wrappers

  /** A vehicle's inspection status. A report's status uses the same three
      values: a report is created `pass` or `fail`, and the status endpoint can
      later set it to `pending`. */
  datatype VehicleStatus = Pass | Fail | Pending

  function StatusName(s: VehicleStatus): string {
    match s
    case Pass => "pass"
    case Fail => "fail"
    case Pending => "pending"
  }

  /** Reads a status from its wire name; anything else is rejected. */
  function ParseStatus(name: string): (r: Option<VehicleStatus>)
    ensures r.Some? ==> StatusName(r.value) == name
  {
    if name == "pass" then Some(Pass)
    else if name == "fail" then Some(Fail)
    else if name == "pending" then Some(Pending)
    else None
  }

  /** Every status is read back from its own name, and names are distinct. */
  lemma ParseStatusName(s: VehicleStatus)
    ensures ParseStatus(StatusName(s)) == Some(s)
  {
  }

  datatype AlertType = FailedInspection | PendingMaintenance | OverdueInspection

  function AlertTypeName(t: AlertType): string {
    match t
    case FailedInspection => "failed_inspection"
    case PendingMaintenance => "pending_maintenance"
    case OverdueInspection => "overdue_inspection"
  }

  function ParseAlertType(name: string): (r: Option<AlertType>)
    ensures r.Some? ==> AlertTypeName(r.value) == name
  {
    if name == "failed_inspection" then Some(FailedInspection)
    else if name == "pending_maintenance" then Some(PendingMaintenance)
    else if name == "overdue_inspection" then Some(OverdueInspection)
    else None
  }

  lemma ParseAlertTypeName(t: AlertType)
    ensures ParseAlertType(AlertTypeName(t)) == Some(t)
  {
  }

  datatype Severity = High | Medium | Low

  function SeverityName(s: Severity): string {
    match s
    case High => "high"
    case Medium => "medium"
    case Low => "low"
  }

  function ParseSeverity(name: string): (r: Option<Severity>)
    ensures r.Some? ==> SeverityName(r.value) == name
  {
    if name == "high" then Some(High)
    else if name == "medium" then Some(Medium)
    else if name == "low" then Some(Low)
    else None
  }

  lemma ParseSeverityName(s: Severity)
    ensures ParseSeverity(SeverityName(s)) == Some(s)
  {
  }

  datatype Vehicle = Vehicle(
    id: string,
    busNumber: string,
    status: VehicleStatus,
    lastInspectionDate: string,
    odometerReading: int,
    model: string,
    year: int,
    hasDefects: bool)

  /** An evidence attachment: `dataUrl` is the base64 data URL of the file. */
  datatype SerializedFile = SerializedFile(name: string, size: nat, mimeType: string, dataUrl: string)

  /** The four-item checklist. */
  datatype Checks = Checks(tires: bool, brakes: bool, lights: bool, fluids: bool)

  datatype CheckName = Tires | Brakes | Lights | Fluids

  function CheckValue(c: Checks, name: CheckName): bool {
    match name
    case Tires => c.tires
    case Brakes => c.brakes
    case Lights => c.lights
    case Fluids => c.fluids
  }

  /** `Object.values(checks).every(check => check)`. */
  predicate AllChecksPass(c: Checks) {
    c.tires && c.brakes && c.lights && c.fluids
  }

  datatype InspectionReport = InspectionReport(
    id: string,
    vehicleId: string,
    inspectorName: string,
    date: string,
    odometerReading: int,
    checks: Checks,
    defectDescription: Option<string>,
    photos: seq<SerializedFile>,
    videos: seq<SerializedFile>,
    status: VehicleStatus)

  datatype MaintenanceAlert = MaintenanceAlert(
    id: string,
    vehicleId: string,
    busNumber: string,
    alertType: AlertType,
    severity: Severity,
    message: string,
    date: string)
}

/** The server's store: the vehicles, inspection-report, inspection-file and
    maintenance-alert tables, each as a sequence of rows in insertion order,
    and the queries and updates the request handlers issue against them. */
module Db {
  import opened Wrappers
  import opened Strings
  import opened Seqs
  import opened Sorting
  import opened Fleet

  /** A row of `inspection_reports`; the attachments live in `inspection_files`.
      A missing defect description is stored as NULL (`None`). */
  datatype ReportRow = ReportRow(
    id: string,
    vehicleId: string,
    inspectorName: string,
    date: string,
    odometerReading: int,
    checks: Checks,
    defectDescription: Option<string>,
    status: VehicleStatus)

  /** A row of `inspection_files`, owned by the report `inspectionId`. */
  datatype FileRow = FileRow(inspectionId: string, file: SerializedFile)

  /** A row of `maintenance_alerts`; a new row starts unresolved. */
  datatype AlertRow = AlertRow(alert: MaintenanceAlert, resolved: bool)

  datatype Store = Store(
    vehicles: seq<Vehicle>,
    reports: seq<ReportRow>,
    files: seq<FileRow>,
    alerts: seq<AlertRow>)

  // ---------------------------------------------------------------- identifiers

  function MaxLength(ids: seq<string>): (n: nat)
    ensures forall i :: 0 <= i < |ids| ==> |ids[i]| <= n
    decreases |ids|
  {
    if |ids| == 0 then 0
    else
      var m := MaxLength(ids[1..]);
      assert forall i :: 1 <= i < |ids| ==> ids[i] == ids[1..][i - 1];
      if |ids[0]| > m then |ids[0]| else m
  }

  /** The identifier generator: a string that no taken identifier equals.
      (The source combines the clock with a random suffix for the same end.) */
  function FreshId(taken: seq<string>): (r: string)
    ensures r !in taken
  {
    seq(MaxLength(taken) + 1, _ => '0')
  }

  function VehicleIds(vs: seq<Vehicle>): (ids: seq<string>)
    ensures |ids| == |vs| && forall i :: 0 <= i < |vs| ==> ids[i] == vs[i].id
  {
    seq(|vs|, i requires 0 <= i < |vs| => vs[i].id)
  }

  function ReportIds(rows: seq<ReportRow>): (ids: seq<string>)
    ensures |ids| == |rows| && forall i :: 0 <= i < |rows| ==> ids[i] == rows[i].id
  {
    seq(|rows|, i requires 0 <= i < |rows| => rows[i].id)
  }

  function FileOwners(rows: seq<FileRow>): (ids: seq<string>)
    ensures |ids| == |rows| && forall i :: 0 <= i < |rows| ==> ids[i] == rows[i].inspectionId
  {
    seq(|rows|, i requires 0 <= i < |rows| => rows[i].inspectionId)
  }

  function AlertIds(rows: seq<AlertRow>): (ids: seq<string>)
    ensures |ids| == |rows| && forall i :: 0 <= i < |rows| ==> ids[i] == rows[i].alert.id
  {
    seq(|rows|, i requires 0 <= i < |rows| => rows[i].alert.id)
  }

  ghost predicate Distinct(ids: seq<string>) {
    forall i, j :: 0 <= i < j < |ids| ==> ids[i] != ids[j]
  }

  /** Primary keys are unique in every table that has one. */
  ghost predicate Wf(st: Store) {
    && Distinct(VehicleIds(st.vehicles))
    && Distinct(ReportIds(st.reports))
    && Distinct(AlertIds(st.alerts))
  }

  lemma DistinctAppend(ids: seq<string>, x: string)
    requires Distinct(ids) && x !in ids
    ensures Distinct(ids + [x])
  {
  }

  // ---------------------------------------------------------------- vehicles

  /** `SELECT ... FROM vehicles WHERE id = ?`: the first row with that id. */
  function VehicleById(vs: seq<Vehicle>, id: string): (r: Option<Vehicle>)
    ensures r.Some? <==> exists i :: 0 <= i < |vs| && vs[i].id == id
    ensures r.Some? ==> r.value.id == id && r.value in vs
    decreases |vs|
  {
    if |vs| == 0 then None
    else if vs[0].id == id then Some(vs[0])
    else
      assert forall i :: 1 <= i < |vs| ==> vs[i] == vs[1..][i - 1];
      VehicleById(vs[1..], id)
  }

  /** The vehicle found is the first row with that id. */
  lemma {:induction false} VehicleByIdFirst(vs: seq<Vehicle>, id: string)
    ensures VehicleById(vs, id).Some? ==>
      exists i :: (0 <= i < |vs| && vs[i] == VehicleById(vs, id).value
        && forall j :: 0 <= j < i ==> vs[j].id != id)
    decreases |vs|
  {
    if |vs| > 0 && vs[0].id != id {
      VehicleByIdFirst(vs[1..], id);
      if VehicleById(vs, id).Some? {
        var i :| 0 <= i < |vs[1..]| && vs[1..][i] == VehicleById(vs, id).value
          && forall j :: 0 <= j < i ==> vs[1..][j].id != id;
        assert vs[i + 1] == vs[1..][i];
        assert forall j :: 1 <= j < i + 1 ==> vs[j] == vs[1..][j - 1];
      }
    }
  }

  /** `getVehicleById`: null exactly when no vehicle has that id. */
  function GetVehicleById(st: Store, id: string): (r: Option<Vehicle>)
    ensures r.Some? <==> exists i :: 0 <= i < |st.vehicles| && st.vehicles[i].id == id
    ensures r.Some? ==> r.value.id == id && r.value in st.vehicles
  {
    VehicleById(st.vehicles, id)
  }

  function BusNumber(v: Vehicle): string {
    v.busNumber
  }

  /** `getVehicles`: every vehicle once, ordered by bus number. */
  function GetVehicles(st: Store): (r: seq<Vehicle>)
    ensures multiset(r) == multiset(st.vehicles)
    ensures SortedBy(r, BusNumber, false)
  {
    Sort(st.vehicles, BusNumber, false)
  }

  /** The fields `updateVehicle` can write; `None` is an absent key. */
  datatype VehicleUpdate = VehicleUpdate(
    status: Option<VehicleStatus>,
    lastInspectionDate: Option<string>,
    odometerReading: Option<int>,
    hasDefects: Option<bool>)

  /** Status and date are written only when truthy: every status name is a
      non-empty string, a date only when it is not "". The odometer and the
      defect flag are written whenever they are present. */
  predicate WritesStatus(u: VehicleUpdate) {
    u.status.Some?
  }

  predicate WritesDate(u: VehicleUpdate) {
    u.lastInspectionDate.Some? && u.lastInspectionDate.value != ""
  }

  predicate WritesOdometer(u: VehicleUpdate) {
    u.odometerReading.Some?
  }

  predicate WritesDefects(u: VehicleUpdate) {
    u.hasDefects.Some?
  }

  predicate HasWritableField(u: VehicleUpdate) {
    WritesStatus(u) || WritesDate(u) || WritesOdometer(u) || WritesDefects(u)
  }

  /** The row after `UPDATE vehicles SET ...`: the written fields take the new
      values and every other field keeps its old one. */
  function ApplyUpdate(v: Vehicle, u: VehicleUpdate): (r: Vehicle)
    ensures r.(status := v.status, lastInspectionDate := v.lastInspectionDate,
               odometerReading := v.odometerReading, hasDefects := v.hasDefects) == v
    ensures r.status == (if WritesStatus(u) then u.status.value else v.status)
    ensures r.lastInspectionDate == (if WritesDate(u) then u.lastInspectionDate.value else v.lastInspectionDate)
    ensures r.odometerReading == u.odometerReading.GetOr(v.odometerReading)
    ensures r.hasDefects == u.hasDefects.GetOr(v.hasDefects)
    ensures !HasWritableField(u) ==> r == v
  {
    v.(status := if WritesStatus(u) then u.status.value else v.status,
       lastInspectionDate := if WritesDate(u) then u.lastInspectionDate.value else v.lastInspectionDate,
       odometerReading := u.odometerReading.GetOr(v.odometerReading),
       hasDefects := u.hasDefects.GetOr(v.hasDefects))
  }

  function ApplyUpdateOpt(v: Option<Vehicle>, u: VehicleUpdate): Option<Vehicle> {
    match v
    case Some(x) => Some(ApplyUpdate(x, u))
    case None => None
  }

  /** The vehicle rows with every row whose id matches updated. */
  function UpdateRows(vs: seq<Vehicle>, id: string, u: VehicleUpdate): (r: seq<Vehicle>)
    ensures |r| == |vs|
    ensures forall i :: 0 <= i < |vs| && vs[i].id != id ==> r[i] == vs[i]
    ensures forall i :: 0 <= i < |vs| && vs[i].id == id ==> r[i] == ApplyUpdate(vs[i], u)
    ensures VehicleIds(r) == VehicleIds(vs)
    ensures forall k :: VehicleById(r, k) == if k == id then ApplyUpdateOpt(VehicleById(vs, k), u) else VehicleById(vs, k)
    decreases |vs|
  {
    if |vs| == 0 then []
    else
      var rest := UpdateRows(vs[1..], id, u);
      var r := [if vs[0].id == id then ApplyUpdate(vs[0], u) else vs[0]] + rest;
      assert r[1..] == rest;
      r
  }

  /** `updateVehicle(id, updates)`. With nothing to write it reports success
      without looking at the table, even for an id no vehicle has; otherwise it
      rewrites the matching rows and reports whether there were any. */
  function UpdateVehicle(st: Store, id: string, u: VehicleUpdate): (r: (Store, bool))
    ensures !HasWritableField(u) ==> r == (st, true)
    ensures HasWritableField(u) ==> (r.1 <==> exists i :: 0 <= i < |st.vehicles| && st.vehicles[i].id == id)
    ensures r.0.reports == st.reports && r.0.files == st.files && r.0.alerts == st.alerts
    ensures |r.0.vehicles| == |st.vehicles|
    ensures VehicleIds(r.0.vehicles) == VehicleIds(st.vehicles)
    ensures forall i :: 0 <= i < |st.vehicles| && st.vehicles[i].id != id ==> r.0.vehicles[i] == st.vehicles[i]
    ensures forall i :: 0 <= i < |st.vehicles| && st.vehicles[i].id == id ==> r.0.vehicles[i] == ApplyUpdate(st.vehicles[i], u)
    ensures forall k :: k != id ==> VehicleById(r.0.vehicles, k) == VehicleById(st.vehicles, k)
    ensures VehicleById(r.0.vehicles, id) == ApplyUpdateOpt(VehicleById(st.vehicles, id), u)
  {
    if !HasWritableField(u) then
      assert forall i :: 0 <= i < |st.vehicles| ==> ApplyUpdate(st.vehicles[i], u) == st.vehicles[i];
      assert ApplyUpdateOpt(VehicleById(st.vehicles, id), u) == VehicleById(st.vehicles, id);
      (st, true)
    else
      var vs := UpdateRows(st.vehicles, id, u);
      (st.(vehicles := vs), VehicleById(st.vehicles, id).Some?)
  }

  // ---------------------------------------------------------------- inspection reports

  /** A report as submitted: `Omit<InspectionReport, "id">`. */
  datatype NewReport = NewReport(
    vehicleId: string,
    inspectorName: string,
    date: string,
    odometerReading: int,
    checks: Checks,
    defectDescription: Option<string>,
    photos: seq<SerializedFile>,
    videos: seq<SerializedFile>,
    status: VehicleStatus)

  /** `defectDescription || null`: an absent or empty description is stored as NULL. */
  function StoredDefect(d: Option<string>): (r: Option<string>)
    ensures r.Some? <==> d.Some? && d.value != ""
    ensures r.Some? ==> r == d
  {
    if d.Some? && d.value != "" then d else None
  }

  /** The `inspection_files` rows that attach `fs` to report `id`. */
  function AttachAll(id: string, fs: seq<SerializedFile>): (r: seq<FileRow>)
    ensures |r| == |fs|
    ensures forall i :: 0 <= i < |fs| ==> r[i] == FileRow(id, fs[i])
  {
    seq(|fs|, i requires 0 <= i < |fs| => FileRow(id, fs[i]))
  }

  /** `addInspectionReport`: inserts the report under a fresh id and attaches
      its photos and then its videos to that id. */
  function AddInspectionReport(st: Store, nr: NewReport): (r: (Store, string))
    ensures r.1 !in ReportIds(st.reports) && r.1 !in FileOwners(st.files)
    ensures r.0.reports == st.reports + [ReportRow(r.1, nr.vehicleId, nr.inspectorName, nr.date,
      nr.odometerReading, nr.checks, StoredDefect(nr.defectDescription), nr.status)]
    ensures r.0.files == st.files + AttachAll(r.1, nr.photos + nr.videos)
    ensures r.0.vehicles == st.vehicles && r.0.alerts == st.alerts
  {
    var id := FreshId(ReportIds(st.reports) + FileOwners(st.files));
    var row := ReportRow(id, nr.vehicleId, nr.inspectorName, nr.date, nr.odometerReading,
      nr.checks, StoredDefect(nr.defectDescription), nr.status);
    (st.(reports := st.reports + [row], files := st.files + AttachAll(id, nr.photos + nr.videos)), id)
  }

  /** Whether a file row belongs to report `id` and its MIME type starts
      with `prefix`. */
  function OwnedWith(id: string, prefix: string): FileRow -> bool {
    (f: FileRow) => f.inspectionId == id && StartsWith(f.file.mimeType, prefix)
  }

  function FileOf(row: FileRow): SerializedFile {
    row.file
  }

  /** The files attached to report `id` whose MIME type starts with `prefix`,
      in table order. */
  function AttachedFiles(files: seq<FileRow>, id: string, prefix: string): (r: seq<SerializedFile>)
    ensures r == Map(Filter(files, OwnedWith(id, prefix)), FileOf)
    ensures |r| <= |files|
    ensures forall i :: 0 <= i < |r| ==> StartsWith(r[i].mimeType, prefix)
    ensures forall i :: 0 <= i < |files| ==>
      (files[i].inspectionId == id && StartsWith(files[i].file.mimeType, prefix) ==> files[i].file in r)
    decreases |files|
  {
    if |files| == 0 then []
    else
      var rest := AttachedFiles(files[1..], id, prefix);
      assert forall i :: 1 <= i < |files| ==> files[i] == files[1..][i - 1];
      FilterStep(files, OwnedWith(id, prefix));
      if files[0].inspectionId == id && StartsWith(files[0].file.mimeType, prefix) then
        MapCons(files[0], Filter(files[1..], OwnedWith(id, prefix)), FileOf);
        [files[0].file] + rest
      else rest
  }

  lemma {:induction false} AttachedFilesAppend(a: seq<FileRow>, b: seq<FileRow>, id: string, prefix: string)
    ensures AttachedFiles(a + b, id, prefix) == AttachedFiles(a, id, prefix) + AttachedFiles(b, id, prefix)
    decreases |a|
  {
    if |a| == 0 {
      assert a + b == b;
    } else {
      assert (a + b)[1..] == a[1..] + b;
      AttachedFilesAppend(a[1..], b, id, prefix);
    }
  }

  lemma {:induction false} AttachedFilesNone(files: seq<FileRow>, id: string, prefix: string)
    requires id !in FileOwners(files)
    ensures AttachedFiles(files, id, prefix) == []
    decreases |files|
  {
    if |files| > 0 {
      assert FileOwners(files)[0] == files[0].inspectionId;
      assert FileOwners(files[1..]) == FileOwners(files)[1..];
      AttachedFilesNone(files[1..], id, prefix);
    }
  }

  /** Attached files whose types all carry the prefix read back unchanged. */
  lemma AttachedFilesAllMatch(id: string, fs: seq<SerializedFile>, prefix: string)
    requires forall i :: 0 <= i < |fs| ==> StartsWith(fs[i].mimeType, prefix)
    ensures AttachedFiles(AttachAll(id, fs), id, prefix) == fs
  {
    var rows := AttachAll(id, fs);
    FilterAll(rows, OwnedWith(id, prefix));
    assert Map(rows, FileOf) == fs;
  }

  /** Attached files whose types all lack the prefix are not read back. */
  lemma {:induction false} AttachedFilesNoneMatch(id: string, fs: seq<SerializedFile>, prefix: string)
    requires forall i :: 0 <= i < |fs| ==> !StartsWith(fs[i].mimeType, prefix)
    ensures AttachedFiles(AttachAll(id, fs), id, prefix) == []
    decreases |fs|
  {
    if |fs| > 0 {
      assert AttachAll(id, fs)[1..] == AttachAll(id, fs[1..]);
      AttachedFilesNoneMatch(id, fs[1..], prefix);
    }
  }

  lemma ImageIsNotVideo(t: string)
    ensures !(StartsWith(t, "image/") && StartsWith(t, "video/"))
  {
  }

  /** The report a row reads back as: photos are its `image/` files and videos
      its `video/` files; files of any other type appear in neither list. */
  function ReportOf(row: ReportRow, files: seq<FileRow>): (r: InspectionReport) {
    InspectionReport(row.id, row.vehicleId, row.inspectorName, row.date, row.odometerReading,
      row.checks, row.defectDescription,
      AttachedFiles(files, row.id, "image/"), AttachedFiles(files, row.id, "video/"),
      row.status)
  }

  function ReportsOf(rows: seq<ReportRow>, files: seq<FileRow>): (r: seq<InspectionReport>)
    ensures |r| == |rows|
    ensures forall i :: 0 <= i < |rows| ==> r[i] == ReportOf(rows[i], files)
  {
    seq(|rows|, i requires 0 <= i < |rows| => ReportOf(rows[i], files))
  }

  function ReportDate(r: InspectionReport): string {
    r.date
  }

  /** `getInspectionReports`: every stored report once, newest date first. */
  function GetInspectionReports(st: Store): (r: seq<InspectionReport>)
    ensures multiset(r) == multiset(ReportsOf(st.reports, st.files))
    ensures SortedBy(r, ReportDate, true)
  {
    Sort(ReportsOf(st.reports, st.files), ReportDate, true)
  }

  /** A report is listed exactly when a row reads back as it. */
  lemma InGetInspectionReports(st: Store, rep: InspectionReport)
    ensures rep in GetInspectionReports(st) <==>
      exists i :: 0 <= i < |st.reports| && ReportOf(st.reports[i], st.files) == rep
  {
    var all := ReportsOf(st.reports, st.files);
    assert rep in GetInspectionReports(st) <==> rep in multiset(all);
    if rep in all {
      var i :| 0 <= i < |all| && all[i] == rep;
      assert ReportOf(st.reports[i], st.files) == rep;
    }
  }

  /** The files of a freshly added report, read back by type prefix. */
  lemma FreshAttachments(st: Store, id: string, photos: seq<SerializedFile>, videos: seq<SerializedFile>)
    requires id !in FileOwners(st.files)
    requires forall i :: 0 <= i < |photos| ==> StartsWith(photos[i].mimeType, "image/")
    requires forall i :: 0 <= i < |videos| ==> StartsWith(videos[i].mimeType, "video/")
    ensures AttachedFiles(st.files + AttachAll(id, photos + videos), id, "image/") == photos
    ensures AttachedFiles(st.files + AttachAll(id, photos + videos), id, "video/") == videos
  {
    forall t ensures !(StartsWith(t, "image/") && StartsWith(t, "video/")) {
      ImageIsNotVideo(t);
    }
    assert AttachAll(id, photos + videos) == AttachAll(id, photos) + AttachAll(id, videos);
    AttachedFilesNone(st.files, id, "image/");
    AttachedFilesNone(st.files, id, "video/");
    AttachedFilesAppend(st.files, AttachAll(id, photos + videos), id, "image/");
    AttachedFilesAppend(st.files, AttachAll(id, photos + videos), id, "video/");
    AttachedFilesAppend(AttachAll(id, photos), AttachAll(id, videos), id, "image/");
    AttachedFilesAppend(AttachAll(id, photos), AttachAll(id, videos), id, "video/");
    AttachedFilesAllMatch(id, photos, "image/");
    AttachedFilesAllMatch(id, videos, "video/");
    AttachedFilesNoneMatch(id, videos, "image/");
    AttachedFilesNoneMatch(id, photos, "video/");
  }

  /** Adding a report and listing the reports returns it, with the stored
      defect description, and with its photos and videos intact when every
      photo is an `image/` and every video a `video/` file. */
  lemma AddThenList(st: Store, nr: NewReport)
    requires forall i :: 0 <= i < |nr.photos| ==> StartsWith(nr.photos[i].mimeType, "image/")
    requires forall i :: 0 <= i < |nr.videos| ==> StartsWith(nr.videos[i].mimeType, "video/")
    ensures var (st', id) := AddInspectionReport(st, nr);
      InspectionReport(id, nr.vehicleId, nr.inspectorName, nr.date, nr.odometerReading, nr.checks,
        StoredDefect(nr.defectDescription), nr.photos, nr.videos, nr.status) in GetInspectionReports(st')
  {
    var (st', id) := AddInspectionReport(st, nr);
    FreshAttachments(st, id, nr.photos, nr.videos);
    var row := st'.reports[|st.reports|];
    InGetInspectionReports(st', ReportOf(row, st'.files));
  }

  /** `updateInspectionStatus`: sets the status of the rows with that id and
      reports whether there were any; nothing else changes. */
  function UpdateInspectionStatus(st: Store, id: string, status: VehicleStatus): (r: (Store, bool))
    ensures r.1 <==> exists i :: 0 <= i < |st.reports| && st.reports[i].id == id
    ensures |r.0.reports| == |st.reports|
    ensures forall i :: 0 <= i < |st.reports| ==> r.0.reports[i].(status := st.reports[i].status) == st.reports[i]
    ensures forall i :: 0 <= i < |st.reports| && st.reports[i].id == id ==> r.0.reports[i].status == status
    ensures forall i :: 0 <= i < |st.reports| && st.reports[i].id != id ==> r.0.reports[i] == st.reports[i]
    ensures r.0.vehicles == st.vehicles && r.0.files == st.files && r.0.alerts == st.alerts
  {
    var rows := seq(|st.reports|, i requires 0 <= i < |st.reports| =>
      if st.reports[i].id == id then st.reports[i].(status := status) else st.reports[i]);
    (st.(reports := rows), exists i :: 0 <= i < |st.reports| && st.reports[i].id == id)
  }

  // ---------------------------------------------------------------- maintenance alerts

  /** An alert as created: `Omit<MaintenanceAlert, "id">`. */
  datatype NewAlert = NewAlert(
    vehicleId: string,
    busNumber: string,
    alertType: AlertType,
    severity: Severity,
    message: string,
    date: string)

  function AlertFrom(id: string, na: NewAlert): MaintenanceAlert {
    MaintenanceAlert(id, na.vehicleId, na.busNumber, na.alertType, na.severity, na.message, na.date)
  }

  /** `addMaintenanceAlert`: appends one unresolved alert under a fresh id. */
  function AddMaintenanceAlert(st: Store, na: NewAlert): (r: (Store, string))
    ensures r.1 !in AlertIds(st.alerts)
    ensures r.0.alerts == st.alerts + [AlertRow(AlertFrom(r.1, na), false)]
    ensures r.0.vehicles == st.vehicles && r.0.reports == st.reports && r.0.files == st.files
  {
    var id := FreshId(AlertIds(st.alerts));
    (st.(alerts := st.alerts + [AlertRow(AlertFrom(id, na), false)]), id)
  }

  predicate Matches(row: AlertRow, vehicleId: string, alertType: AlertType) {
    row.alert.vehicleId == vehicleId && row.alert.alertType == alertType
  }

  /** `removeAlertsForVehicle`: marks every matching alert resolved. No row is
      deleted and no row's alert changes. */
  function RemoveAlertsForVehicle(st: Store, vehicleId: string, alertType: AlertType): (r: Store)
    ensures |r.alerts| == |st.alerts|
    ensures forall i :: 0 <= i < |st.alerts| ==> r.alerts[i].alert == st.alerts[i].alert
    ensures forall i :: 0 <= i < |st.alerts| ==>
      r.alerts[i].resolved == (st.alerts[i].resolved || Matches(st.alerts[i], vehicleId, alertType))
    ensures r.vehicles == st.vehicles && r.reports == st.reports && r.files == st.files
  {
    var rows := seq(|st.alerts|, i requires 0 <= i < |st.alerts| =>
      if Matches(st.alerts[i], vehicleId, alertType) then st.alerts[i].(resolved := true) else st.alerts[i]);
    st.(alerts := rows)
  }

  /** Resolving twice is resolving once. */
  lemma RemoveAlertsIdempotent(st: Store, vehicleId: string, alertType: AlertType)
    ensures RemoveAlertsForVehicle(RemoveAlertsForVehicle(st, vehicleId, alertType), vehicleId, alertType)
         == RemoveAlertsForVehicle(st, vehicleId, alertType)
  {
    var once := RemoveAlertsForVehicle(st, vehicleId, alertType);
    var twice := RemoveAlertsForVehicle(once, vehicleId, alertType);
    assert forall i :: 0 <= i < |once.alerts| ==> twice.alerts[i] == once.alerts[i];
  }

  predicate IsOpen(row: AlertRow) {
    !row.resolved
  }

  function AlertOf(row: AlertRow): MaintenanceAlert {
    row.alert
  }

  /** The alerts of the unresolved rows, in table order: one entry per
      unresolved row and nothing else. */
  function UnresolvedAlerts(rows: seq<AlertRow>): (r: seq<MaintenanceAlert>)
    ensures r == Map(Filter(rows, IsOpen), AlertOf)
    ensures forall i :: 0 <= i < |rows| && !rows[i].resolved ==> rows[i].alert in r
    ensures forall a :: a in r ==> exists i :: 0 <= i < |rows| && rows[i].alert == a && !rows[i].resolved
    decreases |rows|
  {
    if |rows| == 0 then []
    else
      var rest := UnresolvedAlerts(rows[1..]);
      assert forall i :: 1 <= i < |rows| ==> rows[i] == rows[1..][i - 1];
      FilterStep(rows, IsOpen);
      if rows[0].resolved then rest
      else
        MapCons(rows[0], Filter(rows[1..], IsOpen), AlertOf);
        [rows[0].alert] + rest
  }

  function AlertDate(a: MaintenanceAlert): string {
    a.date
  }

  /** `getMaintenanceAlerts`: exactly the unresolved alerts, newest date first. */
  function GetMaintenanceAlerts(st: Store): (r: seq<MaintenanceAlert>)
    ensures forall i :: 0 <= i < |st.alerts| && !st.alerts[i].resolved ==> st.alerts[i].alert in r
    ensures forall a :: a in r ==> exists i :: 0 <= i < |st.alerts| && st.alerts[i].alert == a && !st.alerts[i].resolved
    ensures SortedBy(r, AlertDate, true)
    ensures multiset(r) == multiset(Map(Filter(st.alerts, IsOpen), AlertOf))
  {
    var u := UnresolvedAlerts(st.alerts);
    var r := Sort(u, AlertDate, true);
    assert forall a :: a in r <==> a in u by {
      forall a ensures a in r <==> a in u {
        SortMembers(u, AlertDate, true, a);
      }
    }
    r
  }
}

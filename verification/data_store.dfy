/** The browser-side store: the vehicle, report and alert lists kept under
    three localStorage keys, with demo-data fallbacks on read and a cascade of
    smaller writes when a write exceeds the storage quota. */
module DataStore {
  import opened Wrappers
  import opened Fleet

  /** localStorage: the three fleet keys (`None` when the key is absent) and
      every other key the page keeps. */
  datatype Storage = Storage(
    vehicles: Option<seq<Vehicle>>,
    reports: Option<seq<InspectionReport>>,
    alerts: Option<seq<MaintenanceAlert>>,
    others: map<string, string>)

  /** One `setItem` of a fleet key. */
  datatype Write =
    | WriteVehicles(vehicles: seq<Vehicle>)
    | WriteReports(reports: seq<InspectionReport>)
    | WriteAlerts(alerts: seq<MaintenanceAlert>)

  datatype WriteOutcome = Written | QuotaExceeded | OtherFailure

  /** What the browser decides and the bundle supplies: whether a write
      succeeds in a given storage state, how many characters the storage holds,
      and the demo lists read when a key is absent. */
  datatype Env = Env(
    setItem: (Storage, Write) -> WriteOutcome,
    used: Storage -> nat,
    mockVehicles: seq<Vehicle>,
    mockAlerts: seq<MaintenanceAlert>)

  /** The assumed quota: 5 MiB. */
  const QuotaEstimate: nat := 5 * 1024 * 1024

  /** `usagePercent > 80`, as an integer comparison. */
  predicate OverCleanupThreshold(used: nat) {
    used * 100 > 80 * QuotaEstimate
  }

  /** `usagePercent < 90`, the `canSave` flag of the storage summary. */
  predicate CanSave(used: nat) {
    used * 100 < 90 * QuotaEstimate
  }

  /** The effect of a successful write. */
  function Apply(ls: Storage, w: Write): (r: Storage)
    ensures r.others == ls.others
  {
    match w
    case WriteVehicles(vs) => ls.(vehicles := Some(vs))
    case WriteReports(rs) => ls.(reports := Some(rs))
    case WriteAlerts(as_) => ls.(alerts := Some(as_))
  }

  /** Attempts a write; a failed write leaves storage as it was. */
  function Attempt(ls: Storage, w: Write, env: Env): (r: Storage)
    ensures env.setItem(ls, w) == Written ==> r == Apply(ls, w)
    ensures env.setItem(ls, w) != Written ==> r == ls
  {
    if env.setItem(ls, w) == Written then Apply(ls, w) else ls
  }

  // ---------------------------------------------------------------- reads

  /** The stored vehicles, or the demo vehicles when the key is absent. */
  function GetVehicles(ls: Storage, env: Env): (r: seq<Vehicle>)
    ensures ls.vehicles.None? ==> r == env.mockVehicles
    ensures ls.vehicles.Some? ==> r == ls.vehicles.value
  {
    ls.vehicles.GetOr(env.mockVehicles)
  }

  /** The stored reports, or no reports when the key is absent. */
  function GetReports(ls: Storage): (r: seq<InspectionReport>)
    ensures ls.reports.None? ==> r == []
    ensures ls.reports.Some? ==> r == ls.reports.value
  {
    ls.reports.GetOr([])
  }

  /** The stored alerts, or the demo alerts when the key is absent. */
  function GetAlerts(ls: Storage, env: Env): (r: seq<MaintenanceAlert>)
    ensures ls.alerts.None? ==> r == env.mockAlerts
    ensures ls.alerts.Some? ==> r == ls.alerts.value
  {
    ls.alerts.GetOr(env.mockAlerts)
  }

  // ---------------------------------------------------------------- quota handling

  /** `manageStorage`: above 80% usage and with more than 5 reports stored,
      keeps only the 5 newest reports (the list is kept newest first). Touches
      no other key. */
  function ManageStorage(ls: Storage, env: Env): (r: Storage)
    ensures r.vehicles == ls.vehicles && r.alerts == ls.alerts && r.others == ls.others
    ensures r != ls ==>
      (OverCleanupThreshold(env.used(ls)) && |GetReports(ls)| > 5 && r.reports == Some(GetReports(ls)[..5]))
    ensures (OverCleanupThreshold(env.used(ls)) && |GetReports(ls)| > 5
      && env.setItem(ls, WriteReports(GetReports(ls)[..5])) == Written) ==> r.reports == Some(GetReports(ls)[..5])
  {
    if OverCleanupThreshold(env.used(ls)) then
      var reports := GetReports(ls);
      if |reports| > 5 then Attempt(ls, WriteReports(reports[..5]), env) else ls
    else ls
  }

  /** Every report with its photos and videos emptied. */
  function StripFiles(reports: seq<InspectionReport>): (r: seq<InspectionReport>)
    ensures |r| == |reports|
    ensures forall i :: 0 <= i < |r| ==> r[i].photos == [] && r[i].videos == []
    ensures forall i :: 0 <= i < |r| ==> r[i].(photos := reports[i].photos, videos := reports[i].videos) == reports[i]
  {
    seq(|reports|, i requires 0 <= i < |reports| => reports[i].(photos := [], videos := []))
  }

  lemma StripFilesIdempotent(reports: seq<InspectionReport>)
    ensures StripFiles(StripFiles(reports)) == StripFiles(reports)
  {
  }

  /** `saveReportsWithoutFiles`: the full list, attachments dropped. */
  function SaveReportsWithoutFiles(ls: Storage, reports: seq<InspectionReport>, env: Env): (r: Storage)
    ensures r.vehicles == ls.vehicles && r.alerts == ls.alerts && r.others == ls.others
    ensures env.setItem(ls, WriteReports(StripFiles(reports))) == Written ==> r == Apply(ls, WriteReports(StripFiles(reports)))
    ensures env.setItem(ls, WriteReports(StripFiles(reports))) != Written ==> r == ls
  {
    Attempt(ls, WriteReports(StripFiles(reports)), env)
  }

  /** `reports.slice(0, 10)`. */
  function FirstTen(reports: seq<InspectionReport>): (r: seq<InspectionReport>)
    ensures |r| <= 10 && |r| <= |reports| && r == reports[..|r|]
    ensures |reports| >= 10 ==> |r| == 10
    ensures |reports| < 10 ==> r == reports
  {
    if |reports| < 10 then reports else reports[..10]
  }

  /** `saveReports`: a plain write; on a quota failure, clean up, then try
      the 10 newest reports, and if that fails too, every report without its
      attachments. Any other failure is logged and changes nothing. Only the
      reports key is ever written. */
  function SaveReports(ls: Storage, reports: seq<InspectionReport>, env: Env): (r: Storage)
    ensures r.vehicles == ls.vehicles && r.alerts == ls.alerts && r.others == ls.others
    ensures env.setItem(ls, WriteReports(reports)) == Written ==> r.reports == Some(reports)
    ensures env.setItem(ls, WriteReports(reports)) == OtherFailure ==> r == ls
    ensures env.setItem(ls, WriteReports(reports)) == QuotaExceeded ==>
      r.reports in {ManageStorage(ls, env).reports, Some(FirstTen(reports)), Some(StripFiles(reports))}
    ensures var cleaned := ManageStorage(ls, env);
      (env.setItem(ls, WriteReports(reports)) == QuotaExceeded
        && env.setItem(cleaned, WriteReports(FirstTen(reports))) == Written) ==>
      r == Apply(cleaned, WriteReports(FirstTen(reports)))
    ensures var cleaned := ManageStorage(ls, env);
      (env.setItem(ls, WriteReports(reports)) == QuotaExceeded
        && env.setItem(cleaned, WriteReports(FirstTen(reports))) != Written
        && env.setItem(cleaned, WriteReports(StripFiles(reports))) == Written) ==>
      r == Apply(cleaned, WriteReports(StripFiles(reports)))
    ensures var cleaned := ManageStorage(ls, env);
      (env.setItem(ls, WriteReports(reports)) == QuotaExceeded
        && env.setItem(cleaned, WriteReports(FirstTen(reports))) != Written
        && env.setItem(cleaned, WriteReports(StripFiles(reports))) != Written) ==>
      r == cleaned
  {
    match env.setItem(ls, WriteReports(reports))
    case Written => Apply(ls, WriteReports(reports))
    case OtherFailure => ls
    case QuotaExceeded =>
      var cleaned := ManageStorage(ls, env);
      var limited := FirstTen(reports);
      if env.setItem(cleaned, WriteReports(limited)) == Written then Apply(cleaned, WriteReports(limited))
      else SaveReportsWithoutFiles(cleaned, reports, env)
  }

  /** Attachments are dropped only as the last resort: a quota failure that
      ends with the stripped list stored (when that differs from the first
      ten) means the write of the first ten failed after clean-up. */
  lemma StripOnlyAfterFirstTenFails(ls: Storage, reports: seq<InspectionReport>, env: Env)
    requires env.setItem(ls, WriteReports(reports)) == QuotaExceeded
    requires SaveReports(ls, reports, env).reports == Some(StripFiles(reports))
    requires StripFiles(reports) != FirstTen(reports)
    ensures env.setItem(ManageStorage(ls, env), WriteReports(FirstTen(reports))) != Written
  {
  }

  /** `saveVehicles` and `saveAlerts`: a write, retried once after clean-up on
      a quota failure. */
  function SaveWithRetry(ls: Storage, w: Write, env: Env): (r: Storage)
    requires !w.WriteReports?
    ensures env.setItem(ls, w) == Written ==> r == Apply(ls, w)
    ensures env.setItem(ls, w) == OtherFailure ==> r == ls
    ensures env.setItem(ls, w) == QuotaExceeded ==>
      r == Attempt(ManageStorage(ls, env), w, env)
    ensures r.others == ls.others
    ensures r.reports == ls.reports || (|GetReports(ls)| > 5 && r.reports == Some(GetReports(ls)[..5]))
    ensures w.WriteAlerts? ==> r.vehicles == ls.vehicles
    ensures w.WriteVehicles? ==> r.alerts == ls.alerts
  {
    match env.setItem(ls, w)
    case Written => Apply(ls, w)
    case OtherFailure => ls
    case QuotaExceeded => Attempt(ManageStorage(ls, env), w, env)
  }

  /** At or below 80% usage the clean-up does nothing, so a vehicle or alert
      write that hit the quota is retried on the same storage and fails the
      same way: nothing is saved, although the storage summary still reports
      `canSave`. */
  lemma QuotaFailureBelowCleanupIsFinal(ls: Storage, w: Write, env: Env)
    requires !w.WriteReports?
    requires !OverCleanupThreshold(env.used(ls))
    requires env.setItem(ls, w) == QuotaExceeded
    ensures ManageStorage(ls, env) == ls
    ensures SaveWithRetry(ls, w, env) == ls
    ensures CanSave(env.used(ls))
  {
  }

  // ---------------------------------------------------------------- updates

  /** `addReport`: the new report goes first, ahead of the stored ones. */
  function AddReport(ls: Storage, report: InspectionReport, env: Env): (r: Storage)
    ensures env.setItem(ls, WriteReports([report] + GetReports(ls))) == Written ==>
      |GetReports(r)| == |GetReports(ls)| + 1 && GetReports(r)[0] == report && GetReports(r)[1..] == GetReports(ls)
    ensures r.vehicles == ls.vehicles && r.alerts == ls.alerts && r.others == ls.others
  {
    SaveReports(ls, [report] + GetReports(ls), env)
  }

  /** `addAlert`: the new alert goes first, ahead of the stored (or demo) ones. */
  function AddAlert(ls: Storage, alert: MaintenanceAlert, env: Env): (r: Storage)
    ensures env.setItem(ls, WriteAlerts([alert] + GetAlerts(ls, env))) == Written ==>
      |GetAlerts(r, env)| == |GetAlerts(ls, env)| + 1
      && GetAlerts(r, env)[0] == alert && GetAlerts(r, env)[1..] == GetAlerts(ls, env)
    ensures r.vehicles == ls.vehicles && r.others == ls.others
    ensures r.reports == ls.reports || (|GetReports(ls)| > 5 && r.reports == Some(GetReports(ls)[..5]))
  {
    SaveWithRetry(ls, WriteAlerts([alert] + GetAlerts(ls, env)), env)
  }

  /** `Partial<Vehicle>`: the keys present in an update. */
  datatype VehiclePatch = VehiclePatch(
    id: Option<string>,
    busNumber: Option<string>,
    status: Option<VehicleStatus>,
    lastInspectionDate: Option<string>,
    odometerReading: Option<int>,
    model: Option<string>,
    year: Option<int>,
    hasDefects: Option<bool>)

  /** `{ ...v, ...updates }`: a present key overrides, an absent one keeps. */
  function Merge(v: Vehicle, p: VehiclePatch): (r: Vehicle)
    ensures p == VehiclePatch(None, None, None, None, None, None, None, None) ==> r == v
    ensures p.id.Some? ==> r.id == p.id.value
    ensures p.id.None? ==> r.id == v.id
    ensures p.busNumber.Some? ==> r.busNumber == p.busNumber.value
    ensures p.busNumber.None? ==> r.busNumber == v.busNumber
    ensures p.status.Some? ==> r.status == p.status.value
    ensures p.status.None? ==> r.status == v.status
    ensures p.lastInspectionDate.Some? ==> r.lastInspectionDate == p.lastInspectionDate.value
    ensures p.lastInspectionDate.None? ==> r.lastInspectionDate == v.lastInspectionDate
    ensures p.odometerReading.Some? ==> r.odometerReading == p.odometerReading.value
    ensures p.odometerReading.None? ==> r.odometerReading == v.odometerReading
    ensures p.model.Some? ==> r.model == p.model.value
    ensures p.model.None? ==> r.model == v.model
    ensures p.year.Some? ==> r.year == p.year.value
    ensures p.year.None? ==> r.year == v.year
    ensures p.hasDefects.Some? ==> r.hasDefects == p.hasDefects.value
    ensures p.hasDefects.None? ==> r.hasDefects == v.hasDefects
  {
    Vehicle(p.id.GetOr(v.id), p.busNumber.GetOr(v.busNumber), p.status.GetOr(v.status),
      p.lastInspectionDate.GetOr(v.lastInspectionDate), p.odometerReading.GetOr(v.odometerReading),
      p.model.GetOr(v.model), p.year.GetOr(v.year), p.hasDefects.GetOr(v.hasDefects))
  }

  /** `{ ...p, ...q }` on two updates: a key of `q` wins over the same key
      of `p`. */
  function Combine(p: VehiclePatch, q: VehiclePatch): VehiclePatch {
    VehiclePatch(
      if q.id.Some? then q.id else p.id,
      if q.busNumber.Some? then q.busNumber else p.busNumber,
      if q.status.Some? then q.status else p.status,
      if q.lastInspectionDate.Some? then q.lastInspectionDate else p.lastInspectionDate,
      if q.odometerReading.Some? then q.odometerReading else p.odometerReading,
      if q.model.Some? then q.model else p.model,
      if q.year.Some? then q.year else p.year,
      if q.hasDefects.Some? then q.hasDefects else p.hasDefects)
  }

  /** Two updates in a row are one update with the later keys winning, so
      applying the same update twice is applying it once. */
  lemma MergeTwice(v: Vehicle, p: VehiclePatch, q: VehiclePatch)
    ensures Merge(Merge(v, p), q) == Merge(v, Combine(p, q))
    ensures Merge(Merge(v, p), p) == Merge(v, p)
  {
  }

  /** `vehicles.map(v => v.id === id ? { ...v, ...updates } : v)`. */
  function MergeById(vs: seq<Vehicle>, id: string, p: VehiclePatch): (r: seq<Vehicle>)
    ensures |r| == |vs|
    ensures forall i :: 0 <= i < |vs| && vs[i].id != id ==> r[i] == vs[i]
    ensures forall i :: 0 <= i < |vs| && vs[i].id == id ==> r[i] == Merge(vs[i], p)
    decreases |vs|
  {
    if |vs| == 0 then []
    else [if vs[0].id == id then Merge(vs[0], p) else vs[0]] + MergeById(vs[1..], id, p)
  }

  /** `updateVehicle`: merges the update into the vehicles with that id; the
      list keeps its length and every other vehicle. */
  function UpdateVehicle(ls: Storage, id: string, p: VehiclePatch, env: Env): (r: Storage)
    ensures env.setItem(ls, WriteVehicles(MergeById(GetVehicles(ls, env), id, p))) == Written ==>
      r.vehicles == Some(MergeById(GetVehicles(ls, env), id, p))
    ensures r.alerts == ls.alerts && r.others == ls.others
    ensures r.reports == ls.reports || (|GetReports(ls)| > 5 && r.reports == Some(GetReports(ls)[..5]))
  {
    SaveWithRetry(ls, WriteVehicles(MergeById(GetVehicles(ls, env), id, p)), env)
  }

  /** `reports.map(r => r.id === id ? { ...r, status } : r)`. */
  function SetReportStatus(reports: seq<InspectionReport>, id: string, status: VehicleStatus): (r: seq<InspectionReport>)
    ensures |r| == |reports|
    ensures forall i :: 0 <= i < |r| ==> r[i].(status := reports[i].status) == reports[i]
    ensures forall i :: 0 <= i < |r| ==> r[i].status == if reports[i].id == id then status else reports[i].status
    decreases |reports|
  {
    if |reports| == 0 then []
    else
      var rest := SetReportStatus(reports[1..], id, status);
      assert forall i :: 1 <= i < |reports| ==> reports[i] == reports[1..][i - 1];
      [if reports[0].id == id then reports[0].(status := status) else reports[0]] + rest
  }

  /** `updateReportStatus`: only the status of the reports with that id changes. */
  function UpdateReportStatus(ls: Storage, id: string, status: VehicleStatus, env: Env): (r: Storage)
    ensures env.setItem(ls, WriteReports(SetReportStatus(GetReports(ls), id, status))) == Written ==>
      r.reports == Some(SetReportStatus(GetReports(ls), id, status))
    ensures r.vehicles == ls.vehicles && r.alerts == ls.alerts && r.others == ls.others
  {
    SaveReports(ls, SetReportStatus(GetReports(ls), id, status), env)
  }

  /** `clearAll`: removes the three fleet keys and nothing else. */
  function ClearAll(ls: Storage): (r: Storage)
    ensures r.vehicles.None? && r.reports.None? && r.alerts.None?
    ensures r.others == ls.others
  {
    ls.(vehicles := None, reports := None, alerts := None)
  }

  /** After clearing, reads fall back to the demo vehicles and alerts and to
      an empty report list. */
  lemma ClearAllThenRead(ls: Storage, env: Env)
    ensures GetVehicles(ClearAll(ls), env) == env.mockVehicles
    ensures GetReports(ClearAll(ls)) == []
    ensures GetAlerts(ClearAll(ls), env) == env.mockAlerts
  {
  }
}

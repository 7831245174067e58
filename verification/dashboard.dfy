/** The dashboard: the vehicle list with its search and status buttons, the
    status counters and the maintenance alert panel. */
module Dashboard {
  import opened Strings
  import opened Seqs
  import opened Fleet
  import opened ReportsPage

  /** The search matches the bus number ignoring case, or the last
      inspection date exactly as typed; the status buttons include
      `pending` here. */
  predicate VehicleShown(v: Vehicle, term: string, filter: StatusFilter) {
    (Contains(Lower(v.busNumber), Lower(term)) || Contains(v.lastInspectionDate, term))
      && MatchesStatus(filter, v.status)
  }

  /** `filteredVehicles`. A driver is shown the same list as anyone else:
      the driver branch recomputes the same list. */
  function FilteredVehicles(vehicles: seq<Vehicle>, term: string, filter: StatusFilter, isDriver: bool): (r: seq<Vehicle>)
    ensures IsSubsequence(r, vehicles)
    ensures forall i :: 0 <= i < |r| ==> VehicleShown(r[i], term, filter)
    ensures forall i :: 0 <= i < |vehicles| && VehicleShown(vehicles[i], term, filter) ==> vehicles[i] in r
    ensures forall x :: multiset(r)[x] == if VehicleShown(x, term, filter) then multiset(vehicles)[x] else 0
  {
    FilterMultiplicity(vehicles, (v: Vehicle) => VehicleShown(v, term, filter));
    Filter(vehicles, (v: Vehicle) => VehicleShown(v, term, filter))
  }

  lemma DriverSeesSameVehicles(vehicles: seq<Vehicle>, term: string, filter: StatusFilter)
    ensures FilteredVehicles(vehicles, term, filter, true) == FilteredVehicles(vehicles, term, filter, false)
  {
  }

  function HasStatus(status: VehicleStatus): Vehicle -> bool {
    (v: Vehicle) => v.status == status
  }

  /** How many vehicles have a status: the counters, over the whole list,
      `vehicles.filter(v => v.status === status).length`. */
  function StatusCount(vehicles: seq<Vehicle>, status: VehicleStatus): (n: nat)
    ensures n <= |vehicles|
    ensures n == |Filter(vehicles, HasStatus(status))|
    decreases |vehicles|
  {
    if |vehicles| == 0 then 0
    else
      FilterStep(vehicles, HasStatus(status));
      (if vehicles[0].status == status then 1 else 0) + StatusCount(vehicles[1..], status)
  }

  /** Every vehicle is counted once among pass, fail and pending. */
  lemma {:induction false} CountsCoverFleet(vehicles: seq<Vehicle>)
    ensures StatusCount(vehicles, Pass) + StatusCount(vehicles, Fail) + StatusCount(vehicles, Pending) == |vehicles|
    decreases |vehicles|
  {
    if |vehicles| > 0 {
      CountsCoverFleet(vehicles[1..]);
    }
  }

  /** A counter equals the length of the list its status button shows when
      the search box is empty. */
  lemma CounterMatchesButton(vehicles: seq<Vehicle>, status: VehicleStatus, isDriver: bool)
    ensures StatusCount(vehicles, status) == |FilteredVehicles(vehicles, "", Only(status), isDriver)|
  {
    assert Lower("") == "";
    forall i | 0 <= i < |vehicles|
      ensures VehicleShown(vehicles[i], "", Only(status)) == HasStatus(status)(vehicles[i])
    {
      ContainsEmpty(Lower(vehicles[i].busNumber));
    }
    FilterCongruent(vehicles, (v: Vehicle) => VehicleShown(v, "", Only(status)), HasStatus(status));
  }

  /** The alert's vehicle appears in one of the user's reports. */
  predicate RelatedToUser(alert: MaintenanceAlert, userReports: seq<InspectionReport>) {
    exists j :: 0 <= j < |userReports| && userReports[j].vehicleId == alert.vehicleId
  }

  /** The alert panel appears when there is an alert and the user is an
      admin or some alert concerns a vehicle of the user's reports. */
  predicate AlertsSectionVisible(alerts: seq<MaintenanceAlert>, userReports: seq<InspectionReport>, isAdmin: bool) {
    |alerts| > 0 && (isAdmin || exists i :: 0 <= i < |alerts| && RelatedToUser(alerts[i], userReports))
  }

  /** The first five alerts. */
  function AlertWindow(alerts: seq<MaintenanceAlert>): (r: seq<MaintenanceAlert>)
    ensures |r| <= 5 && |r| <= |alerts| && r == alerts[..|r|]
    ensures |alerts| <= 5 ==> r == alerts
    ensures |alerts| > 5 ==> |r| == 5
  {
    if |alerts| <= 5 then alerts else alerts[..5]
  }

  /** The alerts drawn in the panel: the first five, of which a driver sees
      only those about vehicles in the driver's reports. */
  function DisplayedAlerts(alerts: seq<MaintenanceAlert>, userReports: seq<InspectionReport>, isDriver: bool): (r: seq<MaintenanceAlert>)
    ensures |r| <= 5
    ensures IsSubsequence(r, AlertWindow(alerts))
    ensures isDriver ==> forall i :: 0 <= i < |r| ==> RelatedToUser(r[i], userReports)
    ensures isDriver ==> forall i :: 0 <= i < |AlertWindow(alerts)| && RelatedToUser(AlertWindow(alerts)[i], userReports) ==> AlertWindow(alerts)[i] in r
    ensures isDriver ==> forall x :: multiset(r)[x] == if RelatedToUser(x, userReports) then multiset(AlertWindow(alerts))[x] else 0
    ensures !isDriver ==> r == AlertWindow(alerts)
  {
    var window := AlertWindow(alerts);
    if isDriver then
      FilterMultiplicity(window, (a: MaintenanceAlert) => RelatedToUser(a, userReports));
      Filter(window, (a: MaintenanceAlert) => RelatedToUser(a, userReports))
    else
      SubsequenceRefl(window);
      window
  }

  /** "View All Alerts" sits inside the alert panel and appears there when
      there are more than five alerts. */
  predicate ViewAllVisible(alerts: seq<MaintenanceAlert>, userReports: seq<InspectionReport>, isAdmin: bool) {
    AlertsSectionVisible(alerts, userReports, isAdmin) && |alerts| > 5
  }

  /** An admin sees the button exactly when the panel leaves some alert out. */
  lemma ViewAllIffTruncated(alerts: seq<MaintenanceAlert>, userReports: seq<InspectionReport>)
    ensures ViewAllVisible(alerts, userReports, true) <==> |DisplayedAlerts(alerts, userReports, false)| < |alerts|
  {
  }

  /** A user who is not an admin and has no report on any alerted vehicle
      sees neither the panel nor its button, however many alerts there are. */
  lemma NoViewAllWithoutRelatedAlert(alerts: seq<MaintenanceAlert>, userReports: seq<InspectionReport>)
    requires forall i :: 0 <= i < |alerts| ==> !RelatedToUser(alerts[i], userReports)
    ensures !AlertsSectionVisible(alerts, userReports, false)
    ensures !ViewAllVisible(alerts, userReports, false)
  {
  }

  /** The panel's visibility looks at every alert but a driver is drawn only
      the first five: a driver whose related alerts all come after the fifth
      sees the panel with no alert in it. */
  lemma PanelCanBeEmptyForDriver(alerts: seq<MaintenanceAlert>, userReports: seq<InspectionReport>, k: int)
    requires 5 <= k < |alerts| && RelatedToUser(alerts[k], userReports)
    requires forall i :: 0 <= i < 5 ==> !RelatedToUser(alerts[i], userReports)
    ensures AlertsSectionVisible(alerts, userReports, false)
    ensures DisplayedAlerts(alerts, userReports, true) == []
  {
  }
}

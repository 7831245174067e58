/** The search box and status buttons of the reports page. */
module ReportsPage {
  import opened Wrappers
  import opened Strings
  import opened Seqs
  import opened Fleet
  import Db

  /** A status button: every status, or just one. */
  datatype StatusFilter = All | Only(status: VehicleStatus)

  /** The reports page offers only `all`, `pass` and `fail`. */
  type ReportFilter = f: StatusFilter | f.All? || f.status != Pending witness All

  predicate MatchesStatus(f: StatusFilter, s: VehicleStatus) {
    f.All? || f.status == s
  }

  /** `vehicle?.busNumber || ""` for the first vehicle with that id. */
  function VehicleName(vehicles: seq<Vehicle>, vehicleId: string): (r: string)
    ensures (forall i :: 0 <= i < |vehicles| ==> vehicles[i].id != vehicleId) ==> r == ""
    ensures r != "" ==> exists i :: 0 <= i < |vehicles| && vehicles[i].id == vehicleId && vehicles[i].busNumber == r
    ensures forall i :: (0 <= i < |vehicles| && vehicles[i].id == vehicleId
      && (forall j :: 0 <= j < i ==> vehicles[j].id != vehicleId)) ==> r == vehicles[i].busNumber
  {
    Db.VehicleByIdFirst(vehicles, vehicleId);
    match Db.VehicleById(vehicles, vehicleId)
    case None => ""
    case Some(v) => v.busNumber
  }

  /** The search matches the bus number or inspector name ignoring case, or
      the date exactly as typed. */
  predicate MatchesSearch(report: InspectionReport, vehicles: seq<Vehicle>, term: string) {
    Contains(Lower(VehicleName(vehicles, report.vehicleId)), Lower(term))
      || Contains(Lower(report.inspectorName), Lower(term))
      || Contains(report.date, term)
  }

  predicate ReportShown(report: InspectionReport, vehicles: seq<Vehicle>, term: string, filter: ReportFilter) {
    MatchesSearch(report, vehicles, term) && MatchesStatus(filter, report.status)
  }

  /** `filteredReports`: the reports both tests keep, in their order. */
  function FilteredReports(userReports: seq<InspectionReport>, vehicles: seq<Vehicle>, term: string, filter: ReportFilter): (r: seq<InspectionReport>)
    ensures IsSubsequence(r, userReports)
    ensures forall i :: 0 <= i < |r| ==> ReportShown(r[i], vehicles, term, filter)
    ensures forall i :: 0 <= i < |userReports| && ReportShown(userReports[i], vehicles, term, filter) ==> userReports[i] in r
    ensures forall x :: multiset(r)[x] == if ReportShown(x, vehicles, term, filter) then multiset(userReports)[x] else 0
  {
    FilterMultiplicity(userReports, (report: InspectionReport) => ReportShown(report, vehicles, term, filter));
    Filter(userReports, (report: InspectionReport) => ReportShown(report, vehicles, term, filter))
  }

  /** With no search text and the `all` button, every report is listed. */
  lemma EmptySearchKeepsAll(userReports: seq<InspectionReport>, vehicles: seq<Vehicle>)
    ensures FilteredReports(userReports, vehicles, "", All) == userReports
  {
    forall i | 0 <= i < |userReports|
      ensures ReportShown(userReports[i], vehicles, "", All)
    {
      ContainsEmpty(userReports[i].date);
    }
    FilterAll(userReports, (report: InspectionReport) => ReportShown(report, vehicles, "", All));
  }

  /** A report on a vehicle no longer in the list is searched with an empty
      bus number: a non-empty term finds it only by inspector or date. */
  lemma UnknownVehicleSearch(report: InspectionReport, vehicles: seq<Vehicle>, term: string)
    requires forall i :: 0 <= i < |vehicles| ==> vehicles[i].id != report.vehicleId
    requires term != ""
    ensures MatchesSearch(report, vehicles, term) <==>
      Contains(Lower(report.inspectorName), Lower(term)) || Contains(report.date, term)
  {
    assert Lower("") == "";
    assert !StartsWith("", Lower(term));
  }
}

/** The role filter the client applies to the report list. */
module InspectionContext {
  import opened Wrappers
  import opened Strings
  import opened Seqs
  import opened Fleet
  import opened Auth

  /** A driver sees a report when its inspector name, lower-cased, contains
      the driver's lower-cased id or the word "driver". */
  predicate DriverMatches(report: InspectionReport, userId: string) {
    Contains(Lower(report.inspectorName), Lower(userId))
      || Contains(Lower(report.inspectorName), "driver")
  }

  /** `userRole === "driver" && userId`: a driver with a non-empty id. */
  predicate FiltersForDriver(userId: Option<string>, role: Option<Role>) {
    role == Some(Driver) && userId.Some? && userId.value != ""
  }

  /** `getFilteredReports`. */
  function GetFilteredReports(reports: seq<InspectionReport>, userId: Option<string>, role: Option<Role>): (r: seq<InspectionReport>)
    ensures IsSubsequence(r, reports)
    ensures !FiltersForDriver(userId, role) ==> r == reports
    ensures FiltersForDriver(userId, role) ==>
      (forall i :: 0 <= i < |r| ==> DriverMatches(r[i], userId.value))
      && (forall i :: 0 <= i < |reports| && DriverMatches(reports[i], userId.value) ==> reports[i] in r)
    ensures FiltersForDriver(userId, role) ==>
      forall x :: multiset(r)[x] == if DriverMatches(x, userId.value) then multiset(reports)[x] else 0
  {
    if role == Some(Admin) then
      SubsequenceRefl(reports);
      reports
    else if role == Some(Driver) && userId.Some? && userId.value != "" then
      var id := userId.value;
      FilterMultiplicity(reports, (report: InspectionReport) => DriverMatches(report, id));
      Filter(reports, (report: InspectionReport) => DriverMatches(report, id))
    else
      SubsequenceRefl(reports);
      reports
  }

  /** Any report by an inspector whose name contains "driver" in any ASCII
      case is shown to every driver, whatever the driver's id. */
  lemma DriverNamedReportsSharedByAllDrivers(reports: seq<InspectionReport>, i: int, id1: string, id2: string)
    requires 0 <= i < |reports| && Contains(Lower(reports[i].inspectorName), "driver")
    requires id1 != "" && id2 != ""
    ensures reports[i] in GetFilteredReports(reports, Some(id1), Some(Driver))
    ensures reports[i] in GetFilteredReports(reports, Some(id2), Some(Driver))
  {
  }

  /** A driver's list is never longer than the admin's. */
  lemma DriverSeesNoMoreThanAdmin(reports: seq<InspectionReport>, userId: Option<string>)
    ensures |GetFilteredReports(reports, userId, Some(Driver))| <= |GetFilteredReports(reports, userId, Some(Admin))|
  {
    SubsequenceShorter(GetFilteredReports(reports, userId, Some(Driver)), reports);
  }
}

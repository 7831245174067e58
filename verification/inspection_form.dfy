/** The inspection form: its initial state, the checklist and attachment
    edits, and the validation and pass/fail derivation on submit. */
module InspectionForm {
  import opened Wrappers
  import opened Strings
  import opened Fleet
  import opened FileUtils

  /** The form fields; every input is kept as the text typed. */
  datatype FormData = FormData(
    vehicleId: string,
    inspectorName: string,
    date: string,
    odometerReading: string,
    checks: Checks,
    defectDescription: string)

  /** The files chosen for upload, one list per kind. */
  datatype Uploads = Uploads(photos: seq<File>, videos: seq<File>)

  datatype FileKind = Photos | Videos

  function FilesOf(u: Uploads, kind: FileKind): seq<File> {
    match kind
    case Photos => u.photos
    case Videos => u.videos
  }

  /** The form as first shown: the vehicle chosen on the dashboard, the
      signed-in user's name, today's date, no reading, every check unticked
      and no defect text. */
  function InitialForm(preselected: Option<string>, userName: Option<string>, today: string): (r: FormData)
    ensures r.checks == Checks(false, false, false, false)
    ensures r.odometerReading == "" && r.defectDescription == "" && r.date == today
    ensures preselected.None? ==> r.vehicleId == ""
    ensures preselected.Some? ==> r.vehicleId == preselected.value
    ensures userName.Some? ==> r.inspectorName == userName.value
    ensures userName.None? ==> r.inspectorName == ""
  {
    FormData(preselected.GetOr(""), userName.GetOr(""), today, "", Checks(false, false, false, false), "")
  }

  /** The status an inspection is submitted with. */
  function DeriveStatus(checks: Checks, defectDescription: string): (r: VehicleStatus)
    ensures r != Pending
    ensures r == Pass <==> AllChecksPass(checks) && IsBlank(defectDescription)
  {
    TrimEmptyIffBlank(defectDescription);
    if AllChecksPass(checks) && |Trim(defectDescription)| == 0 then Pass else Fail
  }

  /** `handleSubmit`: `None` is the validation error (a required field is
      empty); otherwise the derived status. */
  function HandleSubmit(f: FormData): (r: Option<VehicleStatus>)
    ensures r.None? <==> f.vehicleId == "" || f.inspectorName == "" || f.odometerReading == ""
    ensures r.Some? ==> (r.value == Pass <==> AllChecksPass(f.checks) && IsBlank(f.defectDescription))
    ensures r.Some? ==> r.value != Pending
  {
    if f.vehicleId == "" || f.inspectorName == "" || f.odometerReading == "" then None
    else Some(DeriveStatus(f.checks, f.defectDescription))
  }

  /** An untouched checklist always submits as a failure. */
  lemma UntouchedChecklistFails(preselected: Option<string>, userName: Option<string>, today: string, f: FormData)
    requires f.checks == InitialForm(preselected, userName, today).checks
    ensures HandleSubmit(f) == None || HandleSubmit(f) == Some(Fail)
  {
  }

  /** Defect text made only of white space does not by itself fail the
      inspection. */
  lemma WhitespaceDefectStillPasses(f: FormData)
    requires f.vehicleId != "" && f.inspectorName != "" && f.odometerReading != ""
    requires AllChecksPass(f.checks) && forall i :: 0 <= i < |f.defectDescription| ==> IsWhitespace(f.defectDescription[i])
    ensures HandleSubmit(f) == Some(Pass)
  {
  }

  /** `handleCheckChange`: sets one check and nothing else. */
  function HandleCheckChange(f: FormData, name: CheckName, checked: bool): (r: FormData)
    ensures CheckValue(r.checks, name) == checked
    ensures forall n: CheckName :: n != name ==> CheckValue(r.checks, n) == CheckValue(f.checks, n)
    ensures r.(checks := f.checks) == f
  {
    match name
    case Tires => f.(checks := f.checks.(tires := checked))
    case Brakes => f.(checks := f.checks.(brakes := checked))
    case Lights => f.(checks := f.checks.(lights := checked))
    case Fluids => f.(checks := f.checks.(fluids := checked))
  }

  /** Ticking all four checks, in any order, lets a form with no defect text
      pass. */
  lemma TickAllThenPass(f: FormData)
    requires f.vehicleId != "" && f.inspectorName != "" && f.odometerReading != "" && f.defectDescription == ""
    ensures HandleSubmit(HandleCheckChange(HandleCheckChange(HandleCheckChange(HandleCheckChange(f,
      Fluids, true), Lights, true), Brakes, true), Tires, true)) == Some(Pass)
  {
  }

  /** `handleFileUpload`: appends the chosen files to one list; no file list
      changes nothing. */
  function HandleFileUpload(u: Uploads, files: Option<seq<File>>, kind: FileKind): (r: Uploads)
    ensures files.None? ==> r == u
    ensures files.Some? ==> FilesOf(r, kind) == FilesOf(u, kind) + files.value
    ensures forall k: FileKind :: k != kind ==> FilesOf(r, k) == FilesOf(u, k)
  {
    match files
    case None => u
    case Some(fs) =>
      match kind
      case Photos => u.(photos := u.photos + fs)
      case Videos => u.(videos := u.videos + fs)
  }

  /** `list.filter((_, i) => i !== index)`, element by element. */
  function RemoveAt(s: seq<File>, index: int): (r: seq<File>)
    ensures 0 <= index < |s| ==> r == s[..index] + s[index + 1..]
    ensures !(0 <= index < |s|) ==> r == s
    decreases |s|
  {
    if |s| == 0 then []
    else (if index == 0 then [] else [s[0]]) + RemoveAt(s[1..], index - 1)
  }

  /** `removeFile`: drops the element at that index from one list. */
  function RemoveFile(u: Uploads, index: int, kind: FileKind): (r: Uploads)
    ensures 0 <= index < |FilesOf(u, kind)| ==>
      |FilesOf(r, kind)| == |FilesOf(u, kind)| - 1
      && FilesOf(r, kind) == FilesOf(u, kind)[..index] + FilesOf(u, kind)[index + 1..]
    ensures !(0 <= index < |FilesOf(u, kind)|) ==> r == u
    ensures forall k: FileKind :: k != kind ==> FilesOf(r, k) == FilesOf(u, k)
  {
    match kind
    case Photos => u.(photos := RemoveAt(u.photos, index))
    case Videos => u.(videos := RemoveAt(u.videos, index))
  }

  /** Removing what was just uploaded, when it was one file, restores the
      list. */
  lemma UploadThenRemove(u: Uploads, file: File, kind: FileKind)
    ensures RemoveFile(HandleFileUpload(u, Some([file]), kind), |FilesOf(u, kind)|, kind) == u
  {
    var s := FilesOf(u, kind);
    assert (s + [file])[..|s|] == s;
  }
}

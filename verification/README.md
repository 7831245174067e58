# Fleet inspection tracker — a Dafny model

This project models the core of a school-bus fleet inspection tracker.

- **Server.** An Express server keeps three SQLite tables: vehicles, inspection reports with their attached files, and maintenance alerts. Two report handlers keep each vehicle's status, its defect flag and its `failed_inspection` alerts in step with the reports filed against it.
- **Client.** A React client keeps its own copy of the lists in `localStorage`. It gates attachments by size, derives a pass/fail status from the inspection checklist, and filters lists by role, search text and status.

## How it is modelled

- **Tables.** Every table is an immutable sequence of rows in insertion order (`Db.Store`). Every store operation and request handler is a pure function from a state and an input to a new state and a response.
- **Ordering.** `ORDER BY` is a functional insertion sort (`Sorting.Sort`). It is proved sorted and a permutation of its input. Strings compare by code point, as SQLite's binary collation does.
- **Ids.** `generateId` (clock plus randomness) is replaced by `Db.FreshId`. It is deterministic and returns an id that differs from every id already used.
- **The current date** used by the status handler is a parameter.
- **Browser behaviour** is held in oracle functions passed in as parameters:
  - `DataStore.Env`: whether a `localStorage` write succeeds, storage usage, and the bundled demo lists;
  - `FileUtils.FileEnv`: image recompression, the data URL a file reads as, and the size a stored attachment decodes to.
- **Module layout.** The modules follow the source files:
  - `Fleet` (shared/fleet.ts), `Db` (server/database/db.ts), `ReportRoutes` and `Engine` (server/routes/reports.ts), `AlertRoutes` (server/routes/alerts.ts), `VehicleRoutes` (server/routes/vehicles.ts);
  - `DataStore` (client/lib/dataStore.ts), `FileUtils` (client/lib/fileUtils.ts), `Auth` (client/context/AuthContext.tsx), `InspectionContext` (client/context/InspectionContext.tsx);
  - `InspectionForm`, `ReportsPage` and `Dashboard` (the three client pages);
  - `Wrappers`, `Strings`, `Seqs`, `Sorting` and `Http` are helpers. They hold the ECMAScript string operations, `Array.prototype.filter` and the response shape.

## Model

| member | source | states |
|---|---|---|
| Fleet.ParseStatusName | shared/fleet.ts:4 | every vehicle status round-trips through its wire name, so a status is exactly one of `pass`, `fail`, `pending` |
| Fleet.ParseAlertTypeName | shared/fleet.ts:41 | every alert type round-trips through its wire name (`failed_inspection`, `pending_maintenance`, `overdue_inspection`) |
| Fleet.ParseSeverityName | shared/fleet.ts:42 | every severity round-trips through its wire name (`high`, `medium`, `low`) |
| Db.VehicleByIdFirst | server/database/db.ts:80-103 | the vehicle found is the first row with that id |
| Db.GetVehicleById | server/database/db.ts:80-103 | a vehicle is returned iff some row has that id, and the result is such a row |
| Db.GetVehicles | server/database/db.ts:58-78 | the vehicle list is a permutation of the table, sorted by bus number ascending |
| Db.ApplyUpdate | server/database/db.ts:105-125 | status and inspection date are written only when truthy; odometer and defect flag whenever present; no other field changes; an update with nothing writable is the identity |
| Db.UpdateRows | server/database/db.ts:135-142 | the UPDATE touches exactly the rows with that id, keeps length and ids, and the lookup of every other id is unchanged |
| Db.UpdateVehicle | server/database/db.ts:105-145 | with nothing writable, the answer is true and the state is unchanged even for an unknown id; otherwise the answer is true iff a vehicle has that id; other tables are unchanged |
| Db.StoredDefect | server/database/db.ts:216 | an absent or empty defect description is stored as null, any other is stored as given |
| Db.AddInspectionReport | server/database/db.ts:192-237 | the report is appended under an id no report or file uses, with every photo and video attached to that id; vehicles and alerts unchanged |
| Db.AttachedFiles | server/database/db.ts:166-168 | exactly the files of the rows owned by that report whose type starts with the prefix, one per row, in table order |
| Db.AttachedFilesAppend | server/database/db.ts:166-168 | attachment lookup distributes over appending file rows |
| Db.AttachedFilesNone | server/database/db.ts:166-168 | an id owning no file row has no attachments |
| Db.AttachedFilesAllMatch | server/database/db.ts:166-168 | files attached under one id that all carry the prefix are read back exactly, in order |
| Db.AttachedFilesNoneMatch | server/database/db.ts:166-168 | files of another type are in neither list |
| Db.ImageIsNotVideo | server/database/db.ts:167-168 | no file type is both `image/` and `video/`, so no file is listed twice |
| Db.GetInspectionReports | server/database/db.ts:148-190 | the report list is a permutation of the stored rows joined with their files, sorted by date descending |
| Db.InGetInspectionReports | server/database/db.ts:148-190 | a report is listed iff it is the join of some stored row |
| Db.FreshAttachments | server/database/db.ts:192-237 | after adding files under a fresh id, photos and videos read back exactly as given when their types match |
| Db.AddThenList | server/database/db.ts:192-237 | a report added and then listed comes back with its fields, its null-for-empty defect and its photos and videos intact |
| Db.UpdateInspectionStatus | server/database/db.ts:239-254 | only the status of reports with that id changes; the answer is true iff such a report exists |
| Db.AddMaintenanceAlert | server/database/db.ts:275-304 | one unresolved alert is appended under a fresh id; other tables unchanged |
| Db.RemoveAlertsForVehicle | server/database/db.ts:306-321 | alerts matching vehicle and type become resolved; nothing is deleted and no other alert changes |
| Db.RemoveAlertsIdempotent | server/database/db.ts:306-321 | resolving twice is resolving once |
| Db.UnresolvedAlerts | server/database/db.ts:259-263 | exactly the alerts of the unresolved rows, one per row, in table order |
| Db.GetMaintenanceAlerts | server/database/db.ts:257-273 | a permutation of the unresolved rows' alerts (each listed as often as its rows), sorted by date descending |
| ReportRoutes.SubmittedStatus | server/routes/reports.ts:43-47 | a submission status is accepted iff it is `pass` or `fail` |
| ReportRoutes.RaiseFailedAlert | server/routes/reports.ts:72-83 | for an existing vehicle, exactly one unresolved high `failed_inspection` alert with its bus number is appended; for an unknown vehicle nothing changes |
| ReportRoutes.SubmissionEffects | server/routes/reports.ts:63-87 | after a report is stored, the vehicle takes its status, date and odometer, and hasDefects iff fail, while reports and files are unchanged; fail raises an alert with the submission's message, pass resolves the vehicle's `failed_inspection` alerts |
| ReportRoutes.CreateReport | server/routes/reports.ts:16-99 | a falsy field (odometer 0 included) gives 400 "Missing required fields" with no change; a status outside pass/fail gives 400 with no change; otherwise 201 with a fresh id and the report row appended |
| ReportRoutes.SubmissionIsEffects | server/routes/reports.ts:61-95 | a valid submission is the report insert, then its effects on vehicle and alerts, answered with 201 and the inserted id |
| ReportRoutes.FindReport | server/routes/reports.ts:112-113 | present iff a listed report has that id, and then it is the first such report |
| ReportRoutes.StatusTargetIsRow | server/routes/reports.ts:112-117 | the report the status handler finds exists iff a stored row has that id, and carries that row's vehicle and inspector |
| ReportRoutes.StatusEffects | server/routes/reports.ts:126-149 | after a status change, the vehicle takes the status and hasDefects iff fail, and reports are unchanged; fail raises an alert, pass resolves the vehicle's `failed_inspection` alerts, pending leaves alerts alone |
| ReportRoutes.StatusChangeIsEffects | server/routes/reports.ts:112-149 | a status change on a listed report is the row update followed by its effects on the vehicle and alerts |
| ReportRoutes.UpdateReportStatus | server/routes/reports.ts:102-157 | a status outside pass/fail/pending gives 400 and an unknown id gives 404, neither changing state; otherwise 200 |
| Engine.SubmitSetsVehicle | server/routes/reports.ts:61-69 | after a valid submission, the vehicle has the report's status, date and odometer, and hasDefects iff fail; other vehicles unchanged |
| Engine.SubmitFailRaisesOneAlert | server/routes/reports.ts:72-83 | a `fail` submission adds exactly one unresolved high `failed_inspection` alert with the bus number, date and "Failed inspection by …" message |
| Engine.SubmitPassResolves | server/routes/reports.ts:84-87 | after a `pass` submission, no open `failed_inspection` alert remains for the vehicle; none is deleted; others are unchanged |
| Engine.SubmitUnknownVehicle | server/routes/reports.ts:61-64 | a submission for an unknown vehicle is stored but changes no vehicle and adds no alert |
| Engine.StatusChangeSetsVehicle | server/routes/reports.ts:127-130 | a status change sets only the vehicle's status and hasDefects iff fail; date and odometer stay; only the report's status changes |
| Engine.StatusChangeToFailRaisesAlert | server/routes/reports.ts:133-145 | a change to `fail` always appends another alert dated with the given day |
| Engine.StatusChangeToPassResolves | server/routes/reports.ts:146-149 | a change to `pass` resolves the vehicle's `failed_inspection` alerts and deletes none |
| Engine.StatusChangeToPendingKeepsAlerts | server/routes/reports.ts:132-149 | a change to `pending` leaves every alert as it was |
| Engine.NewReportIsStatusTarget | server/routes/reports.ts:89-94 | the id a submission returns is found by the status handler and names the submitted vehicle |
| Engine.AppendedRowIsTarget | server/routes/reports.ts:112-117 | a row appended under an id no earlier row has is the report the status endpoint finds, with its vehicle and inspector |
| Engine.PendingKeepsOpenFailure | server/routes/reports.ts:126-149 | setting a report to pending clears its vehicle's defect flag and sets it pending, but an open failure alert stays open |
| Engine.FailThenPendingLeavesAlertOpen | server/routes/reports.ts:127-149 | fail then pending clears the defect flag while the failure alert stays open |
| Engine.FailThenPassResolves | server/routes/reports.ts:127-149 | fail then pass leaves the vehicle passing, without defects and with no open failure alert, the alert kept as resolved |
| Engine.StatusOnlyKeepsReportIds | server/database/db.ts:239-254 | a status-only update keeps every report id |
| Engine.ResolveKeepsAlertIds | server/database/db.ts:306-321 | resolving alerts keeps every alert id |
| Engine.RaiseKeepsDistinct | server/database/db.ts:275-304 | raising an alert keeps alert ids distinct |
| Engine.AddReportKeepsWf | server/database/db.ts:192-237 | storing a report under its fresh id keeps every primary key unique |
| Engine.SubmissionEffectsKeepWf | server/routes/reports.ts:63-87 | the vehicle update and alert bookkeeping of a submission keep every primary key unique |
| Engine.SubmitKeepsWf | server/routes/reports.ts:16-99 | a submission keeps every table's ids distinct |
| Engine.StatusChangeKeepsWf | server/routes/reports.ts:102-157 | a status change keeps every table's ids distinct |
| AlertRoutes.CreateAlert | server/routes/alerts.ts:16-67 | checks apply in order: a falsy field, then an unknown type, then an unknown severity, each a 400 with no change; otherwise 201 with a fresh id and one alert appended with the given fields |
| AlertRoutes.CreateAlertAcceptsEveryType | server/routes/alerts.ts:34-47 | every alert type and severity, given by its wire name with the other fields non-empty, is accepted |
| VehicleRoutes.GetVehicle | server/routes/vehicles.ts:16-30 | 404 iff no vehicle has that id, otherwise 200 with that vehicle |
| VehicleRoutes.UpdateVehicleRoute | server/routes/vehicles.ts:33-50 | 404 iff the update writes something and the vehicle is unknown, with no change; otherwise 200 with the re-read vehicle, which is null for an empty update on an unknown id |
| VehicleRoutes.DirectUpdateCanBreakConsistency | server/routes/vehicles.ts:33-45 | a direct update can leave a vehicle passing with defects |
| DataStore.QuotaFailureBelowCleanupIsFinal | client/lib/dataStore.ts:38-47 | at or below 80% usage the clean-up changes nothing, so a vehicle or alert write that hit the quota saves nothing on its retry, although the summary still reports `canSave` |
| DataStore.GetVehicles | client/lib/dataStore.ts:65-72 | an absent key reads as the demo vehicles |
| DataStore.GetReports | client/lib/dataStore.ts:74-83 | an absent key reads as no reports |
| DataStore.GetAlerts | client/lib/dataStore.ts:85-92 | an absent key reads as the demo alerts |
| DataStore.ManageStorage | client/lib/dataStore.ts:38-62 | storage changes only above 80% usage with more than five reports, and then keeps the first five; no other key is touched |
| DataStore.StripFiles | client/lib/dataStore.ts:152-156 | every report keeps every field except photos and videos, which become empty |
| DataStore.StripFilesIdempotent | client/lib/dataStore.ts:152-156 | stripping twice is stripping once |
| DataStore.SaveReportsWithoutFiles | client/lib/dataStore.ts:150-177 | a successful write stores every report with its attachments emptied; a failed one changes nothing |
| DataStore.FirstTen | client/lib/dataStore.ts:132 | the first ten reports, or all of them when fewer |
| DataStore.SaveReports | client/lib/dataStore.ts:118-147 | a successful write stores the list; another failure changes nothing; on a quota failure, after clean-up, the first ten are stored if that write succeeds, otherwise the stripped list if that succeeds, otherwise only the clean-up remains |
| DataStore.StripOnlyAfterFirstTenFails | client/lib/dataStore.ts:130-142 | when a quota failure ends with the attachment-free list stored, the write of the first ten had failed after clean-up |
| DataStore.SaveWithRetry | client/lib/dataStore.ts:95-116 | a write is retried once after clean-up on a quota failure; reports are at most cut to five and no other key changes |
| DataStore.AddReport | client/lib/dataStore.ts:201-205 | when the write succeeds, the new report is first and the previous reports follow in order |
| DataStore.AddAlert | client/lib/dataStore.ts:217-221 | when the write succeeds, the new alert is first and the previous alerts follow in order |
| DataStore.Merge | client/lib/dataStore.ts:211 | each of the eight keys takes the update's value when present and keeps the vehicle's when absent |
| DataStore.MergeTwice | client/lib/dataStore.ts:211 | two spreads in a row equal one spread of the combined update with the later keys winning; repeating an update changes nothing more |
| DataStore.MergeById | client/lib/dataStore.ts:210-212 | only vehicles with that id are merged; length and all other vehicles are unchanged |
| DataStore.UpdateVehicle | client/lib/dataStore.ts:208-214 | a successful write stores the merged list; alerts and other keys are unchanged |
| DataStore.SetReportStatus | client/lib/dataStore.ts:229-231 | only the status of reports with that id changes |
| DataStore.UpdateReportStatus | client/lib/dataStore.ts:224-233 | a successful write stores the re-statused list; no other key changes |
| DataStore.ClearAll | client/lib/dataStore.ts:236-240 | exactly the three fleet keys are removed |
| DataStore.ClearAllThenRead | client/lib/dataStore.ts:65-92 | after clearing, reads give the demo vehicles, no reports and the demo alerts |
| FileUtils.Compress | client/lib/fileUtils.ts:32-49 | a recompressed image keeps its name and becomes JPEG; on failure the original is kept |
| Seqs.FilterMultiplicity | client/pages/Index.tsx:75-92 | `filter` keeps every copy of a kept element and none of a dropped one |
| FileUtils.Processed | client/lib/fileUtils.ts:67-75 | an image over the limit is replaced by its compressed version; every other file passes unchanged |
| FileUtils.FileToSerializedFile | client/lib/fileUtils.ts:60-102 | an attachment results iff the processed file is at most 2 MiB, so none is ever over the limit |
| FileUtils.FilesToSerializedFiles | client/lib/fileUtils.ts:124-159 | the loop computes the budgeted reference result, and the warning is raised iff fewer results than inputs |
| FileUtils.BudgetedIsPrefix | client/lib/fileUtils.ts:131-143 | the result is a prefix of all serialisable inputs in order, so it is never longer than the input |
| FileUtils.BudgetedOvershoot | client/lib/fileUtils.ts:129-142 | before the last accepted file, the running total was within 8 MiB, so the overshoot is at most one data URL |
| FileUtils.BudgetedStopsOnlyOverBudget | client/lib/fileUtils.ts:133-136 | a serialisable file is left out only after the running total has passed 8 MiB |
| FileUtils.SmallBatchKeepsEverySerialisable | client/lib/fileUtils.ts:129-143 | a batch within the budget keeps every file that serialises |
| FileUtils.SerializedFilesToFiles | client/lib/fileUtils.ts:162-168 | decoded files are kept in order iff their size is positive, each with as many copies as among the decoded files, and no empty one; nothing is lost iff all decode non-empty |
| Auth.Login | client/context/AuthContext.tsx:56-70 | sign-in succeeds iff the name is in the credential table with that password; on success the account's user becomes current, otherwise it is unchanged |
| Auth.Logout | client/context/AuthContext.tsx:72-75 | nobody is signed in afterwards |
| Auth.RoleFlagsExclusive | client/context/AuthContext.tsx:81-82 | the driver and admin flags are never both true, and both are false when signed out |
| Auth.LoginRoles | client/context/AuthContext.tsx:30-43 | signing in as `admin` gives the admin role and as `driver1`/`driver2` the driver role; a wrong password fails |
| Auth.LoginThenLogout | client/context/AuthContext.tsx:56-75 | after any sign-in attempt followed by sign-out, neither role flag holds |
| InspectionContext.GetFilteredReports | client/context/InspectionContext.tsx:171-207 | an admin, or anyone but a driver with an id, gets the full list; a driver with an id gets exactly the reports whose lower-cased inspector contains the id or "driver", in order, each as often as it is listed |
| InspectionContext.DriverNamedReportsSharedByAllDrivers | client/context/InspectionContext.tsx:188-196 | a report by an inspector named "…driver…" is shown to every driver |
| InspectionContext.DriverSeesNoMoreThanAdmin | client/context/InspectionContext.tsx:180-201 | a driver's list is never longer than the admin's |
| InspectionForm.InitialForm | client/pages/InspectionForm.tsx:44-58 | the form starts with the preselected vehicle (or none), the user's name (or empty), today's date, every check unticked, no reading and no defect text |
| InspectionForm.DeriveStatus | client/pages/InspectionForm.tsx:131-135 | pass iff all four checks hold and the defect text trims to empty; never pending |
| InspectionForm.HandleSubmit | client/pages/InspectionForm.tsx:110-135 | rejected iff vehicle, inspector or reading is empty; otherwise the derived status |
| InspectionForm.UntouchedChecklistFails | client/pages/InspectionForm.tsx:51-56 | an unticked checklist never submits as pass |
| InspectionForm.WhitespaceDefectStillPasses | client/pages/InspectionForm.tsx:134 | white-space defect text with all checks ticked still passes |
| InspectionForm.HandleCheckChange | client/pages/InspectionForm.tsx:77-88 | exactly the named check takes the new value |
| InspectionForm.TickAllThenPass | client/pages/InspectionForm.tsx:77-135 | ticking all four checks on a complete form with no defect text gives pass |
| InspectionForm.HandleFileUpload | client/pages/InspectionForm.tsx:90-101 | files are appended to the chosen list only; no file list changes nothing |
| InspectionForm.RemoveAt | client/pages/InspectionForm.tsx:106 | filtering out one index is the slice around it, and an out-of-range index changes nothing |
| InspectionForm.RemoveFile | client/pages/InspectionForm.tsx:103-108 | exactly the element at that index is removed from the chosen list |
| InspectionForm.UploadThenRemove | client/pages/InspectionForm.tsx:90-108 | removing a just-uploaded single file restores the lists |
| ReportsPage.VehicleName | client/pages/InspectionReports.tsx:61-62 | the bus number of the first vehicle with the report's vehicle id, or empty when no vehicle has that id |
| ReportsPage.FilteredReports | client/pages/InspectionReports.tsx:59-72 | an order-preserving subsequence holding exactly the reports matching the search and the status button, each as often as in the input |
| ReportsPage.EmptySearchKeepsAll | client/pages/InspectionReports.tsx:64-70 | an empty search with `all` keeps every report |
| ReportsPage.UnknownVehicleSearch | client/pages/InspectionReports.tsx:61-67 | a report on an unknown vehicle matches a non-empty term only by inspector or date |
| Dashboard.FilteredVehicles | client/pages/Index.tsx:75-92 | an order-preserving subsequence holding exactly the vehicles matching the search and the status button, each as often as in the input |
| Dashboard.DriverSeesSameVehicles | client/pages/Index.tsx:79-82 | the driver branch does not change the vehicle list |
| Dashboard.CountsCoverFleet | client/pages/Index.tsx:227-245 | the pass, fail and pending counts sum to the fleet size |
| Dashboard.CounterMatchesButton | client/pages/Index.tsx:227-245 | a counter equals the length of its status button's list with an empty search |
| Dashboard.AlertWindow | client/pages/Index.tsx:294 | the first five alerts |
| Dashboard.StatusCount | client/pages/Index.tsx:227 | a counter is the length of the vehicle list filtered by that status |
| Dashboard.DisplayedAlerts | client/pages/Index.tsx:294-303 | at most the first five alerts are drawn; a driver sees exactly those about vehicles in the driver's reports, each as often as in the window |
| Dashboard.ViewAllVisible | client/pages/Index.tsx:275-321 | the "View All" button shows only inside the visible alert panel, and there only with more than five alerts |
| Dashboard.ViewAllIffTruncated | client/pages/Index.tsx:275-321 | for an admin (the only signed-in role that is not a driver), "View All" appears iff the panel leaves some alert out |
| Dashboard.NoViewAllWithoutRelatedAlert | client/pages/Index.tsx:275-321 | a non-admin with no report on any alerted vehicle sees neither the panel nor the button, however many alerts exist |
| Dashboard.PanelCanBeEmptyForDriver | client/pages/Index.tsx:276-303 | whenever a driver's related alerts all lie past the fifth, the panel shows (its visibility test looks at every alert) yet draws no alert |

## Left out

- The SQLite plumbing (callbacks, promises, schema loading) and database errors are not modelled, so neither are the 500 responses they lead to. A newly inserted alert is taken to be unresolved, because the schema file is not part of this model.
- `generateId` (clock plus randomness) is replaced by a deterministic fresh id, and the current date in the status handler by a parameter.
- Request bodies are typed. An absent string is "", an absent odometer is 0, and absent lists are `None`. JSON values of other types (numbers as strings, `null` inside arrays, non-string statuses) are not modelled. Nor is `parseInt` of a non-integer odometer.
- Db.UpdateVehicle: the update is typed, so an untyped body with an invalid status string cannot be expressed.
- Concurrency between requests is not modelled. Each handler is one atomic transition, while the source performs several unsynchronised writes.
- Strings.Lower: only ASCII letters are lower-cased; Unicode case mapping of `toLowerCase` is not modelled.
- The `localStorage` and `QuotaExceededError` mechanics, and JSON serialisation, are reduced to a write that succeeds, exceeds the quota or fails otherwise, decided by an oracle. `console`, toasts, `alert()` and `setTimeout` are left out.
- DataStore.QuotaFailureBelowCleanupIsFinal: the 80% and 90% thresholds are integer comparisons. The floating-point percentage and its formatting are not modelled. The write oracle is a function of the storage state, so an identical retry on unchanged storage fails again.
- DataStore.Merge: a `Partial<Vehicle>` key that is present but `undefined` overwrites the field in the spread; an update is modelled with an optional value per key, so a key is either absent or carries a value, and that case is not expressed.
- Db.AttachedFiles: the order of attachments assumes SQLite returns file rows in insertion order. The SELECT in `getInspectionFiles` (server/database/db.ts:328-331) has no ORDER BY, and `saveInspectionFiles` (server/database/db.ts:361-378) issues its INSERTs from a loop without awaiting each one. The order claimed by Db.AttachedFilesAllMatch, Db.FreshAttachments and Db.AddThenList rests on the same assumption.
- DataStore.GetVehicles: a stored value that fails to parse, and so falls back to the demo data, is not modelled. The demo lists themselves are a parameter, because the mock data file is not part of this model.
- Image recompression (canvas, `toBlob`), `FileReader`, base64 decoding and `URL.createObjectURL` are oracles. A `FileReader` error, which rejects the whole batch, is not modelled.
- `formatFileSize` is left out because it is floating-point and logarithm arithmetic.
- The network client in apiService.ts and the context's submit and refresh orchestration are left out. So are Express and router wiring, the demo route, and the rendering-only components and JSX.
- Auth.Login: names that are not own keys of the credential table (prototype properties such as `constructor`) are treated as absent. In the source they also fail, because their `password` is undefined. The `localStorage` copy of the signed-in user is not modelled.
- `handleInputChange` is not modelled: it is a generic one-field assignment.

/** `GET /api/vehicles/:id` and `PUT /api/vehicles/:id`: the vehicle handlers
    that map the store's answers to HTTP responses. */
module VehicleRoutes {
  import opened Wrappers
  import opened Fleet
  import opened Db
  import opened Http

  /** 404 exactly when no vehicle has the id; otherwise 200 with that vehicle. */
  function GetVehicle(st: Store, id: string): (r: Response)
    ensures r.code == NotFound <==> !exists i :: 0 <= i < |st.vehicles| && st.vehicles[i].id == id
    ensures r.code != NotFound ==>
      (r.code == Ok && r.body.VehicleBody? && r.body.vehicle.Some?
       && r.body.vehicle.value.id == id && r.body.vehicle.value in st.vehicles)
  {
    match GetVehicleById(st, id)
    case None => Response(NotFound, ErrorBody("Vehicle not found"))
    case Some(v) => Response(Ok, VehicleBody(Some(v)))
  }

  /** Applies an arbitrary partial update and answers with the re-read vehicle.
      The answer is 404 exactly when the store reports failure, which is when
      there is something to write and no vehicle has the id. An update with
      nothing to write on an unknown id is a 200 whose body is null. */
  function UpdateVehicleRoute(st: Store, id: string, u: VehicleUpdate): (r: (Store, Response))
    ensures r.1.code == NotFound <==> HasWritableField(u) && GetVehicleById(st, id).None?
    ensures r.1.code == NotFound ==> r.0 == st
    ensures r.1.code != NotFound ==> r.1 == Response(Ok, VehicleBody(GetVehicleById(r.0, id)))
    ensures GetVehicleById(st, id).Some? ==>
      r.1 == Response(Ok, VehicleBody(Some(ApplyUpdate(GetVehicleById(st, id).value, u))))
    ensures !HasWritableField(u) && GetVehicleById(st, id).None? ==> r == (st, Response(Ok, VehicleBody(None)))
  {
    var (st', success) := UpdateVehicle(st, id, u);
    if !success then
      (st', Response(NotFound, ErrorBody("Vehicle not found")))
    else
      (st', Response(Ok, VehicleBody(GetVehicleById(st', id))))
  }

  /** A direct update can leave a vehicle's defect flag disagreeing with its
      status: the consistency rule is kept by the report handlers only. */
  lemma DirectUpdateCanBreakConsistency(st: Store, id: string)
    requires GetVehicleById(st, id).Some?
    ensures var v := GetVehicleById(UpdateVehicleRoute(st, id, VehicleUpdate(Some(Pass), None, None, Some(true))).0, id);
      v.Some? && v.value.status == Pass && v.value.hasDefects
  {
  }
}

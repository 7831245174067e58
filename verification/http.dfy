/** The JSON responses the request handlers send. */
module Http {
  import opened Wrappers
  import opened Fleet

  datatype Body =
    | ErrorBody(error: string)
    | CreatedBody(id: string, message: string)
    | MessageBody(message: string)
    | VehicleBody(vehicle: Option<Vehicle>)

  /** `res.status(code).json(body)`. */
  datatype Response = Response(code: int, body: Body)

  const BadRequest := 400
  const NotFound := 404
  const Ok := 200
  const Created := 201
}

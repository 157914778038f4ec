/** The parts of an HTTP exchange the views look at. */
module Http {
  import Schema

  /** Response statuses the modelled endpoints produce: 201, 204, 400, 401
      and 404. */
  datatype Status = Created | NoContent | BadRequest | Unauthorized | NotFound

  /** `request.user`: the anonymous user or a logged-in account. */
  datatype Requester = Anonymous | Authenticated(id: Schema.UserId)
}

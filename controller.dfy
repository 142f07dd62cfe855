/** The HTTP endpoint's translation of a booking outcome into a response. */
module Controller {
  import opened Reservations
  import opened Booking

  /** An HTTP response: status code and text body. */
  datatype Response = Response(status: int, body: string)

  const Ok: int := 200
  const Conflict: int := 409
  const BookedMessage: string := "Room booked successfully"

  /** Success becomes 200 with a fixed body; every failure becomes 409 with
      the failure's message as body. The returned boolean is ignored. */
  function ToResponse(r: BookingResult): (resp: Response)
    ensures resp.status == Ok <==> r.Success?
    ensures resp.status == Conflict <==> r.Failure?
    ensures r.Success? ==> resp.body == BookedMessage
    ensures r.Failure? ==> resp.body == Message(r.error)
  {
    match r
    case Success(_) => Response(Ok, BookedMessage)
    case Failure(e) => Response(Conflict, Message(e))
  }

  /** The response tells every outcome the operation can produce apart. */
  lemma ResponseIdentifiesOutcome(a: BookingResult, b: BookingResult)
    requires a.Success? ==> a.value
    requires b.Success? ==> b.value
    requires ToResponse(a) == ToResponse(b)
    ensures a == b
  {
  }

  /** The controller over one booking service. */
  class BookingController {
    const service: BookingService

    constructor (service: BookingService)
      ensures this.service == service
    {
      this.service := service;
    }

    /** Handle one booking request. */
    method BookRoom(roomId: RoomId, checkIn: Day, checkOut: Day) returns (resp: Response)
      requires service.Valid()
      modifies service
      ensures service.Valid()
      ensures resp == ToResponse(Decide(old(service.Snapshot()), roomId, checkIn, checkOut))
      ensures service.Snapshot() == Book(old(service.Snapshot()), roomId, checkIn, checkOut)
    {
      var r := service.BookRoom(roomId, checkIn, checkOut);
      resp := ToResponse(r);
    }
  }
}

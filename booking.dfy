/** The booking operation: look the room up, run the check-in query, and
    either reject the request or append one new reservation row. */
module Booking {
  import opened Reservations

  /** The two failures the operation raises, each with its own message. */
  datatype BookingError = RoomNotFound | AlreadyBooked

  /** The message carried by the exception of each failure. */
  function Message(e: BookingError): string
  {
    match e
    case RoomNotFound => "Room not found"
    case AlreadyBooked => "Room already booked for selected dates"
  }

  /** The outcome of one booking attempt: the boolean the operation returns,
      or the failure it raises. */
  datatype BookingResult = Success(value: bool) | Failure(error: BookingError)

  /** The persistent state the operation sees: the room table's keys, the
      reservation table in insertion order, and the next identity value. */
  datatype Store = Store(rooms: set<RoomId>, reservations: seq<Reservation>, nextId: int)

  /** Identity-generated ids grow with insertion order. */
  predicate IdsIncreasing(rs: seq<Reservation>)
  {
    forall i, j :: 0 <= i < j < |rs| ==> rs[i].id < rs[j].id
  }

  /** Every stored id is below the next identity value. */
  predicate IdsBelow(rs: seq<Reservation>, nextId: int)
  {
    forall i :: 0 <= i < |rs| ==> rs[i].id < nextId
  }

  /** The identity column's invariant. */
  predicate IdentityOk(s: Store)
  {
    IdsIncreasing(s.reservations) && IdsBelow(s.reservations, s.nextId)
  }

  /** The invariant successful bookings keep: no row of a room has its
      check-in inside the inclusive [checkIn, checkOut] of a later row of
      the same room. */
  predicate NoCheckInClash(rs: seq<Reservation>)
  {
    forall i, j :: 0 <= i < j < |rs| ==> !CheckInBetween(rs[i], rs[j].roomId, rs[j].checkIn, rs[j].checkOut)
  }

  /** No two stays of one room share a day under half-open [checkIn, checkOut). */
  predicate NoOverlappingStays(rs: seq<Reservation>)
  {
    forall i, j :: 0 <= i < j < |rs| && rs[i].roomId == rs[j].roomId ==>
      !Overlaps(rs[i].checkIn, rs[i].checkOut, rs[j].checkIn, rs[j].checkOut)
  }

  /** No two rows share an id: the table's primary key is unique. */
  predicate KeysUnique(rs: seq<Reservation>)
  {
    forall i, j :: 0 <= i < |rs| && 0 <= j < |rs| && i != j ==> rs[i].id != rs[j].id
  }

  /** Increasing ids are pairwise distinct. */
  lemma IdsDistinct(rs: seq<Reservation>)
    requires IdsIncreasing(rs)
    ensures KeysUnique(rs)
  {
  }

  /** What a booking attempt returns or raises against state s. */
  function Decide(s: Store, roomId: RoomId, checkIn: Day, checkOut: Day): (r: BookingResult)
    ensures r == Failure(RoomNotFound) <==> roomId !in s.rooms
    ensures r == Failure(AlreadyBooked) <==>
              roomId in s.rooms
              && exists i :: 0 <= i < |s.reservations| && CheckInBetween(s.reservations[i], roomId, checkIn, checkOut)
    ensures r.Success? <==>
              roomId in s.rooms
              && forall i :: 0 <= i < |s.reservations| ==> !CheckInBetween(s.reservations[i], roomId, checkIn, checkOut)
    ensures r.Success? ==> r.value
  {
    if roomId !in s.rooms then Failure(RoomNotFound)
    else if ExistsByRoomAndCheckInDateBetween(s.reservations, roomId, checkIn, checkOut) then Failure(AlreadyBooked)
    else Success(true)
  }

  /** The state after a booking attempt against s. */
  function Book(s: Store, roomId: RoomId, checkIn: Day, checkOut: Day): (s': Store)
    ensures s'.rooms == s.rooms
    ensures Decide(s, roomId, checkIn, checkOut).Failure? ==> s' == s
    ensures Decide(s, roomId, checkIn, checkOut).Success? ==>
              |s'.reservations| == |s.reservations| + 1
              && s'.reservations[..|s.reservations|] == s.reservations
              && s'.reservations[|s.reservations|].roomId == roomId
              && s'.reservations[|s.reservations|].checkIn == checkIn
              && s'.reservations[|s.reservations|].checkOut == checkOut
    ensures IdentityOk(s) ==> IdentityOk(s') && KeysUnique(s'.reservations)
    ensures IdentityOk(s) && Decide(s, roomId, checkIn, checkOut).Success? ==>
              forall i :: 0 <= i < |s.reservations| ==> s.reservations[i].id != s'.reservations[|s.reservations|].id
    ensures NoCheckInClash(s.reservations) ==> NoCheckInClash(s'.reservations)
  {
    if Decide(s, roomId, checkIn, checkOut).Success? then
      s.(reservations := s.reservations + [Reservation(s.nextId, roomId, checkIn, checkOut)],
         nextId := s.nextId + 1)
    else
      s
  }

  /** A booking of one room never changes the decision for another room. */
  lemma BookingOtherRoomKeepsDecision(s: Store, a: RoomId, inA: Day, outA: Day, b: RoomId, inB: Day, outB: Day)
    requires a != b
    ensures Decide(Book(s, a, inA, outA), b, inB, outB) == Decide(s, b, inB, outB)
  {
  }

  /** Once a non-reversed range is booked, the same request is rejected. */
  lemma RepeatedRequestIsRejected(s: Store, roomId: RoomId, checkIn: Day, checkOut: Day)
    requires Decide(s, roomId, checkIn, checkOut).Success?
    requires checkIn <= checkOut
    ensures Decide(Book(s, roomId, checkIn, checkOut), roomId, checkIn, checkOut) == Failure(AlreadyBooked)
  {
  }

  /** A reversed range is accepted for every known room, however often it is
      repeated, since the query can never match it. */
  lemma ReversedRangeIsAlwaysBooked(s: Store, roomId: RoomId, checkIn: Day, checkOut: Day)
    requires roomId in s.rooms
    requires checkOut < checkIn
    ensures Decide(s, roomId, checkIn, checkOut) == Success(true)
  {
  }

  /** Two stays of one room that overlap can both be booked: the request
      [3, 5) starts inside the stored stay [1, 10), whose check-in the query
      does not find in [3, 5]. The check-in invariant still holds afterwards,
      so it does not imply that no two stays of a room overlap. */
  lemma OverlappingStaysCanBothBeBooked()
    ensures var s0 := Store({7}, [], 1);
            var s1 := Book(s0, 7, 1, 10);
            var s2 := Book(s1, 7, 3, 5);
            && Decide(s0, 7, 1, 10) == Success(true)
            && Decide(s1, 7, 3, 5) == Success(true)
            && |s2.reservations| == 2
            && s2.reservations[0].roomId == 7 && s2.reservations[1].roomId == 7
            && Overlaps(s2.reservations[0].checkIn, s2.reservations[0].checkOut,
                        s2.reservations[1].checkIn, s2.reservations[1].checkOut)
            && NoCheckInClash(s2.reservations)
            && !NoOverlappingStays(s2.reservations)
  {
  }

  /** The converse fails too: a table holding [5, 8) and then the back-to-back
      stay [1, 5) of the same room has no overlapping stays, yet the earlier
      check-in 5 lies in the later stay's inclusive [1, 5], so the check-in
      invariant does not hold. The two invariants are incomparable. */
  lemma BackToBackTableBreaksCheckInInvariant()
    ensures var rs := [Reservation(1, 7, 5, 8), Reservation(2, 7, 1, 5)];
            NoOverlappingStays(rs) && !NoCheckInClash(rs)
  {
    var rs := [Reservation(1, 7, 5, 8), Reservation(2, 7, 1, 5)];
    assert CheckInBetween(rs[0], rs[1].roomId, rs[1].checkIn, rs[1].checkOut);
  }

  /** One booking request. */
  datatype Request = Request(roomId: RoomId, checkIn: Day, checkOut: Day)

  /** The state after a sequence of requests, processed one after another. */
  function Replay(s: Store, reqs: seq<Request>): Store
    decreases |reqs|
  {
    if reqs == [] then s
    else Replay(Book(s, reqs[0].roomId, reqs[0].checkIn, reqs[0].checkOut), reqs[1..])
  }

  /** Any sequence of bookings keeps the room table and every earlier row
      where it was; it keeps the identity invariant and the check-in
      invariant whenever the starting table has them. */
  lemma {:induction false} ReplayKeepsTableInvariants(s: Store, reqs: seq<Request>)
    ensures Replay(s, reqs).rooms == s.rooms
    ensures s.reservations <= Replay(s, reqs).reservations
    ensures IdentityOk(s) ==> IdentityOk(Replay(s, reqs)) && KeysUnique(Replay(s, reqs).reservations)
    ensures NoCheckInClash(s.reservations) ==> NoCheckInClash(Replay(s, reqs).reservations)
    decreases |reqs|
  {
    if reqs != [] {
      var t := Book(s, reqs[0].roomId, reqs[0].checkIn, reqs[0].checkOut);
      ReplayKeepsTableInvariants(t, reqs[1..]);
    }
  }

  /** The booking service over an in-memory room table and reservation table. */
  class BookingService {
    /** The room table's keys; the booking operation only reads them. */
    const rooms: set<RoomId>
    /** The reservation table, in insertion order. */
    var reservations: seq<Reservation>
    /** The value the identity column hands out next. */
    var nextId: int

    /** The state as a value. */
    function Snapshot(): Store
      reads this
    {
      Store(rooms, reservations, nextId)
    }

    ghost predicate Valid()
      reads this
    {
      IdentityOk(Snapshot())
    }

    /** A service over the given room keys and whatever the reservation
        table already holds; its identity column is consistent. */
    constructor (rooms: set<RoomId>, reservations: seq<Reservation>, nextId: int)
      requires IdentityOk(Store(rooms, reservations, nextId))
      ensures Valid()
      ensures Snapshot() == Store(rooms, reservations, nextId)
    {
      this.rooms := rooms;
      this.reservations := reservations;
      this.nextId := nextId;
    }

    /** Book roomId from checkIn to checkOut. Every failure is raised before
        anything is written, so the table is unchanged on failure. */
    method BookRoom(roomId: RoomId, checkIn: Day, checkOut: Day) returns (r: BookingResult)
      requires Valid()
      modifies this
      ensures Valid()
      ensures r == Decide(old(Snapshot()), roomId, checkIn, checkOut)
      ensures Snapshot() == Book(old(Snapshot()), roomId, checkIn, checkOut)
      ensures NoCheckInClash(old(reservations)) ==> NoCheckInClash(reservations)
    {
      if roomId !in rooms {
        return Failure(RoomNotFound);
      }
      var isBooked := ExistsByRoomAndCheckInDateBetween(reservations, roomId, checkIn, checkOut);
      if isBooked {
        return Failure(AlreadyBooked);
      }
      var reservation := Reservation(nextId, roomId, checkIn, checkOut);
      reservations := reservations + [reservation];
      nextId := nextId + 1;
      return Success(true);
    }
  }
}

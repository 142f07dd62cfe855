/** The reservation table's rows and the derived repository query that the
    booking operation uses to decide whether a room is already booked. */
module Reservations {

  /** A room's primary key. */
  type RoomId = int

  /** A calendar date as a day number: the booking logic only compares dates. */
  type Day = int

  /** One row of the reservation table: its generated id, the room it
      references, and the stay's check-in and check-out dates. */
  datatype Reservation = Reservation(id: int, roomId: RoomId, checkIn: Day, checkOut: Day)

  /** The row condition of the derived query existsByRoomAndCheckInDateBetween:
      the row belongs to the room and its CHECK-IN date lies in [start, end],
      both ends included. The row's check-out date is never consulted. */
  predicate CheckInBetween(r: Reservation, roomId: RoomId, start: Day, end: Day)
  {
    r.roomId == roomId && start <= r.checkIn <= end
  }

  /** The derived query: does some row of the table satisfy CheckInBetween? */
  function ExistsByRoomAndCheckInDateBetween(rs: seq<Reservation>, roomId: RoomId, start: Day, end: Day): (b: bool)
    ensures b <==> exists i :: 0 <= i < |rs| && CheckInBetween(rs[i], roomId, start, end)
  {
    if rs == [] then false
    else
      var last := |rs| - 1;
      var b' := ExistsByRoomAndCheckInDateBetween(rs[..last], roomId, start, end);
      assert forall i :: 0 <= i < last ==> rs[..last][i] == rs[i];
      CheckInBetween(rs[last], roomId, start, end) || b'
  }

  /** The rows of one room, in table order. */
  function OfRoom(rs: seq<Reservation>, roomId: RoomId): (o: seq<Reservation>)
    ensures |o| <= |rs|
    ensures forall i :: 0 <= i < |o| ==> o[i].roomId == roomId && o[i] in rs
    ensures forall i :: 0 <= i < |rs| && rs[i].roomId == roomId ==> rs[i] in o
  {
    if rs == [] then []
    else
      var last := |rs| - 1;
      var o' := OfRoom(rs[..last], roomId);
      assert forall i :: 0 <= i < last ==> rs[..last][i] == rs[i];
      if rs[last].roomId == roomId then o' + [rs[last]] else o'
  }

  /** The query's answer depends only on the rows of the queried room:
      rows of other rooms never make it true. */
  lemma QueryReadsOnlyItsRoom(rs: seq<Reservation>, roomId: RoomId, start: Day, end: Day)
    ensures ExistsByRoomAndCheckInDateBetween(rs, roomId, start, end)
        == ExistsByRoomAndCheckInDateBetween(OfRoom(rs, roomId), roomId, start, end)
  {
  }

  /** No range validation exists: a reversed range (end before start) makes
      BETWEEN empty, so the query is false whatever the table holds. */
  lemma ReversedRangeNeverMatches(rs: seq<Reservation>, roomId: RoomId, start: Day, end: Day)
    requires end < start
    ensures !ExistsByRoomAndCheckInDateBetween(rs, roomId, start, end)
  {
  }

  // ---------------------------------------------------------------------------
  // The general half-open interval test, which the code does NOT use, and
  // facts that relate it to the code's query.
  // ---------------------------------------------------------------------------

  /** The stays [a, b) and [c, d) share a day. */
  predicate Overlaps(a: Day, b: Day, c: Day, d: Day)
  {
    a < d && c < b
  }

  /** A true overlap whose existing stay starts no earlier than the new
      check-in is always caught by the query. */
  lemma OverlapStartingInsideIsFlagged(r: Reservation, start: Day, end: Day)
    requires start <= r.checkIn
    requires Overlaps(r.checkIn, r.checkOut, start, end)
    ensures CheckInBetween(r, r.roomId, start, end)
  {
  }

  /** A flagged, non-empty stay that starts strictly before the new check-out
      is a true overlap; the only other flagged case is a stay that starts on
      the new check-out day. */
  lemma FlaggedIsOverlapOrStartsAtCheckOut(r: Reservation, roomId: RoomId, start: Day, end: Day)
    requires CheckInBetween(r, roomId, start, end)
    requires r.checkIn < r.checkOut
    ensures Overlaps(r.checkIn, r.checkOut, start, end) || r.checkIn == end
  {
  }

  /** An existing stay [1, 10) and a new request [3, 5) overlap, yet the query
      does not flag the existing row: only its check-in is compared. */
  lemma EarlierStayRunningIntoRequestIsMissed()
    ensures Overlaps(1, 10, 3, 5)
    ensures !ExistsByRoomAndCheckInDateBetween([Reservation(1, 7, 1, 10)], 7, 3, 5)
  {
  }

  /** A request [1, 5) whose check-out equals an existing check-in 5 is
      back-to-back and does not overlap, yet the inclusive BETWEEN flags it. */
  lemma BackToBackRequestIsFlagged()
    ensures !Overlaps(5, 8, 1, 5)
    ensures ExistsByRoomAndCheckInDateBetween([Reservation(1, 7, 5, 8)], 7, 1, 5)
  {
  }
}

# Hotel room booking — a Dafny model

This project models the room-booking core of a small Spring Boot hotel
application. A room is looked up by id, and a repository query checks whether
the room is already booked. The request is then either rejected or recorded as
one new reservation row. An HTTP endpoint turns the outcome into a status and
a body.

The model holds both tables in memory. A `BookingService` class has the room
table's keys (read only), the reservation table as a growing sequence, and the
identity column's next value. Its `BookRoom` method updates that state in
place. The method is proved against pure specification functions (`Decide`
for the outcome, `Book` for the new state). The lemmas about those functions
state what the operation promises.

Dates are day numbers (`int`): the code only compares them. Ids are unbounded
integers handed out by a counter that grows by one per inserted row, as an
identity column does.

## What the conflict check actually tests

The repository method `existsByRoomAndCheckInDateBetween(room, checkIn, checkOut)`
is true when some existing reservation of the same room has its check-in date
in `[checkIn, checkOut]`, inclusive at both ends. The model keeps exactly this
test (`Reservations.ExistsByRoomAndCheckInDateBetween`). It differs from the
general half-open test "[a, b) and [c, d) intersect iff a < d and c < b"
(`Reservations.Overlaps`), and the model relates the two only through lemmas:

- an existing stay that starts before the new check-in and runs into it is not
  detected (`[1,10)` against a request `[3,5)`);
- a request whose check-out equals an existing check-in is rejected although
  the stays are back to back;
- any true overlap with a stay starting on or after the new check-in is
  detected;
- nothing validates `checkIn < checkOut`: a reversed range makes the BETWEEN
  empty, so it never conflicts and is booked for any known room.

The code has no general overlap test, no range validation, no retry on write
conflicts and no separate not-found status; the model follows the code.

The invariant that successful bookings preserve is that no stay of a room has
its check-in inside the inclusive range of a later stay of that room. This is
neither weaker nor stronger than "no two stays of a room overlap"
(`Booking.NoOverlappingStays`). Starting from an empty table, `[1,10)` and then
`[3,5)` for the same room are both booked, and the two stored stays overlap
(`Booking.OverlappingStaysCanBothBeBooked`). Conversely, a table holding `[5,8)`
and then `[1,5)` for one room has no overlapping stays but breaks the check-in
invariant (`Booking.BackToBackTableBreaksCheckInInvariant`). So the
documentation's promise of safe booking, with a 409 whenever the room is
already booked, does not hold even for one request after another.

## Model

| member | source | states |
|---|---|---|
| `Reservations.ExistsByRoomAndCheckInDateBetween` | Set1.java:58 | true exactly when some row of the given room has its check-in date in `[start, end]`, both ends inclusive |
| `Reservations.QueryReadsOnlyItsRoom` | Set1.java:58 | the query gives the same answer on the room's own rows alone, so rows of other rooms never make it true |
| `Reservations.ReversedRangeNeverMatches` | Set1.java:58 | with `end < start` the query is false for every table |
| `Reservations.OverlapStartingInsideIsFlagged` | Set1.java:58 | a half-open overlap with an existing stay that starts no earlier than the new check-in is always caught |
| `Reservations.FlaggedIsOverlapOrStartsAtCheckOut` | Set1.java:58 | a flagged non-empty stay either truly overlaps the request or starts on the request's check-out day |
| `Reservations.EarlierStayRunningIntoRequestIsMissed` | Set1.java:58 | `[1,10)` overlaps `[3,5)`, yet the query does not flag the existing row |
| `Reservations.BackToBackRequestIsFlagged` | Set1.java:58 | `[1,5)` does not overlap `[5,8)`, yet the query flags it |
| `Booking.IdsDistinct` | Set1.java:37-39 | increasing identity ids are pairwise distinct, so the table's primary key is unique |
| `Booking.Decide` | Set1.java:75-90 | "Room not found" exactly when the room id is unknown; "already booked" exactly when the room is known and some row of that room has its check-in in `[checkIn, checkOut]`; success otherwise, and success always carries `true` |
| `Booking.Book` | Set1.java:74-91 | the room table never changes; on failure the state is unchanged; on success exactly one row is appended with the given room and dates, all earlier rows stay as they were, and its id differs from every stored id; the identity invariant and the check-in invariant are preserved, and the new table's ids are pairwise distinct |
| `Booking.BookingOtherRoomKeepsDecision` | Set1.java:79-88 | booking one room never changes the outcome of a later request for another room |
| `Booking.RepeatedRequestIsRejected` | Set1.java:79-88 | after a successful booking with `checkIn <= checkOut`, the identical request fails as already booked |
| `Booking.OverlappingStaysCanBothBeBooked` | Set1.java:79-88 | from an empty table for room 7, `[1,10)` and then `[3,5)` both succeed, the two stored stays of room 7 overlap, and the check-in invariant still holds |
| `Booking.BackToBackTableBreaksCheckInInvariant` | Set1.java:79-88 | a table holding `[5,8)` and then `[1,5)` for one room has no overlapping stays yet breaks the check-in invariant |
| `Booking.ReversedRangeIsAlwaysBooked` | Set1.java:75-90 | for a known room, a request with `checkOut < checkIn` always succeeds |
| `Booking.ReplayKeepsTableInvariants` | Set1.java:74-91 | any sequence of booking requests keeps the room table and every earlier row in place; from a table with a consistent identity column it keeps ids increasing and unique, and from a clash-free table it keeps the check-in invariant |
| `Booking.BookingService.constructor` | Set1.java:66-72 | a service over the given room keys and an existing reservation table whose identity column is consistent holds exactly that state |
| `Booking.BookingService.BookRoom` | Set1.java:74-91 | returns `Decide` and leaves the state `Book` describes, computed from the state before the call, and keeps the identity and check-in invariants |
| `Controller.ToResponse` | Set1.java:109-114 | status 200 exactly on success, with body "Room booked successfully"; status 409 exactly on failure, with the failure's message as body |
| `Controller.ResponseIdentifiesOutcome` | Set1.java:109-114 | two outcomes the operation can produce that give the same response are the same outcome |
| `Controller.BookingController.constructor` | Set1.java:101-103 | the controller is wired to the given service |
| `Controller.BookingController.BookRoom` | Set1.java:105-115 | the response is the mapping of the service's outcome, and the service's state is the one `Book` describes |

## Left out

- Optimistic locking (`@Version`) and concurrent transactions: the model is sequential; one call runs to completion before the next, so the claim that concurrent bookings fail with a concurrency exception is not modelled.
- Transaction rollback mechanics: every failure is raised before the row is saved, so the model simply writes nothing on failure.
- Dependency injection and the JPA repositories: both tables are fields of one in-memory class; the room table is a set of keys.
- `Room.roomNumber` and `Room.available`: the booking logic never reads them.
- HTTP routing, request-parameter parsing and ISO date parsing: the endpoint starts from an already parsed room id and two day numbers.
- Other runtime exceptions (a database failure, a null room id): they would also be turned into 409 with their message, but they come from code that is not part of this model.
- 64-bit `Long` ids: ids are unbounded, so identity overflow is not modelled.
- Build and run instructions, the tech-stack list and the curl example: not behaviour.

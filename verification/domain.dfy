/**
 The records held by `RideDataHandler`: users, rides and the participation
 entries embedded in each ride, plus the replies its operations give.
 Python's dictionaries become typed records; seats and spaces are natural
 numbers.
 */
module Domain {
  import opened Options

  /** A registered user; `alias` is the key. */
  datatype User = User(alias: string, name: string, carPlate: Option<string>)

  /** Ride status: 'ready', 'inprogress', 'done'. */
  datatype RideStatus = Ready | InProgress | Done

  /** The driver's decision on a join request; `Pending` is the source's None. */
  datatype Confirmation = Pending | Confirmed | Rejected

  /** Presence of a participant: 'waiting', 'missing', 'inprogress',
      'notmarked', 'completed', 'rejected'. */
  datatype EntryStatus = Waiting | Missing | InProgress | NotMarked | Completed | Rejected

  /** One rider's request on one ride and its outcome. */
  datatype Participation = Participation(
    participant: string,
    destination: string,
    occupiedSpaces: nat,
    status: EntryStatus,
    confirmation: Confirmation)

  datatype Ride = Ride(
    id: int,
    dateTime: string,
    finalAddress: string,
    driver: string,
    status: RideStatus,
    availableSeats: nat,
    participants: seq<Participation>)

  /** The whole in-memory state of the handler. */
  datatype Store = Store(users: seq<User>, rides: seq<Ride>)

  /** The named error strings the ride operations return instead of 'ok'. */
  datatype Failure =
    | RideNotFound
    | RideAlreadyStarted
    | AlreadyRequested
    | ParticipantNotFound
    | AlreadyDecided
    | NoSeatsAvailable
    | NotInTrip

  datatype Outcome = Ok | Err(failure: Failure)

  /** A state transition: the store afterwards and what the caller is told. */
  datatype Reply<+T> = Reply(store: Store, value: T)

  /** The exact string the source returns for each failure. */
  function Message(f: Failure): string
  {
    match f
    case RideNotFound => "Ride no encontrado"
    case RideAlreadyStarted => "Ride ya ha iniciado"
    case AlreadyRequested => "Ya solicitó unirse"
    case ParticipantNotFound => "Participante no encontrado"
    case AlreadyDecided => "Ya fue aceptado o rechazado"
    case NoSeatsAvailable => "No hay asientos disponibles"
    case NotInTrip => "No estás en viaje"
  }

  /** Every failure has its own message, so a caller can tell them apart. */
  lemma MessagesDistinct(f: Failure, g: Failure)
    ensures Message(f) == Message(g) <==> f == g
  {
  }
}

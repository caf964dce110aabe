/** Reservation requests: ordered, fail-fast validation against the catalog,
    one write to the document store, and the HTTP answer that results. The
    store itself is not modelled: what it returns is an input. */
module Reservations {
  import opened Catalog

  datatype Option<T> = None | Some(value: T)

  /** The request body of a reservation; `message` may be absent. */
  datatype ReservationIn = ReservationIn(
    name: string,
    color: string,
    hammockType: string,
    phone: string,
    message: Option<string>
  )

  /** The record handed to the store. */
  datatype ReservationRecord = ReservationRecord(
    name: string,
    color: string,
    hammockType: string,
    phone: string,
    message: Option<string>
  )

  /** The one write the service issues: a record under a category. */
  datatype StoreWrite = StoreWrite(category: string, record: ReservationRecord)

  /** What the store answers to a write: the id it assigned, or the text of
      the error it raised. */
  datatype StoreResult = Stored(id: string) | StoreFailed(cause: string)

  /** The outcome of a reservation request. */
  datatype Outcome = InvalidType | InvalidColor | PersistFailed(cause: string) | Ok(reservationId: string)

  /** What validation decides: a record to store, or the error that stops
      the request before the store is reached. */
  datatype Check = Accept(record: ReservationRecord) | Reject(error: Outcome)

  /** The HTTP answer: `{"status": "ok", "reservation_id": id}` with status
      200, or an error status with its `detail` text. */
  datatype Response = Success(status: string, reservationId: string) | HttpError(code: nat, detail: string)

  /** The category reservations are stored under. */
  const ReservationCategory: string := "reservation"

  const InvalidTypeDetail: string := "Invalid hammock type"
  const InvalidColorDetail: string := "Invalid color for selected product"
  const DatabaseErrorPrefix: string := "Database error: "

  /** `t` is the id of some catalog product. */
  ghost predicate KnownType(t: string)
  {
    exists p :: p in BuildProducts() && p.id == t
  }

  /** Some catalog product with id `t` is offered in colour `c`. */
  ghost predicate Offered(t: string, c: string)
  {
    exists p :: p in BuildProducts() && p.id == t && c in p.colors
  }

  /** The known hammock types are exactly the seven catalog ids, and every
      one of them is offered in exactly the four palette colours. */
  lemma OfferedIffPalette(t: string, c: string)
    ensures KnownType(t) <==> t in CatalogIds
    ensures Offered(t, c) <==> t in CatalogIds && c in ColorPalette
  {
    var ps := BuildProducts();
    CatalogWellFormed();
    if t in CatalogIds {
      var i :| 0 <= i < |CatalogIds| && CatalogIds[i] == t;
      assert ps[i] in ps && ps[i].id == t;
    }
    if KnownType(t) {
      var p :| p in ps && p.id == t;
      var i :| 0 <= i < |ps| && ps[i] == p;
      assert CatalogIds[i] == t;
    }
  }

  /** The record copies every field of the request unchanged. */
  function ToRecord(p: ReservationIn): ReservationRecord
  {
    ReservationRecord(p.name, p.color, p.hammockType, p.phone, p.message)
  }

  /** The two checks, in order, over the catalog indexed by id: the type
      first, then the colour of the product found. */
  function Validate(p: ReservationIn): (c: Check)
    ensures c == Reject(InvalidType) <==> !KnownType(p.hammockType)
    ensures c == Reject(InvalidColor) <==> KnownType(p.hammockType) && !Offered(p.hammockType, p.color)
    ensures c.Accept? <==> Offered(p.hammockType, p.color)
    ensures c.Accept? ==> c.record == ToRecord(p)
  {
    var products := IndexById(BuildProducts());
    CatalogWellFormed();
    if p.hammockType !in products then Reject(InvalidType)
    else if p.color !in products[p.hammockType].colors then Reject(InvalidColor)
    else Accept(ToRecord(p))
  }

  /** The write issued to the store for request `p`, if any. */
  function StoreCall(p: ReservationIn): (w: Option<StoreWrite>)
    ensures w.Some? <==> Offered(p.hammockType, p.color)
    ensures w.Some? ==> w.value == StoreWrite(ReservationCategory, ToRecord(p))
  {
    match Validate(p)
    case Reject(_) => None
    case Accept(record) => Some(StoreWrite(ReservationCategory, record))
  }

  /** The outcome of request `p` when the store, if called, answers `stored`. */
  function CreateReservation(p: ReservationIn, stored: StoreResult): (o: Outcome)
    ensures !KnownType(p.hammockType) ==> o == InvalidType
    ensures KnownType(p.hammockType) && !Offered(p.hammockType, p.color) ==> o == InvalidColor
    ensures Offered(p.hammockType, p.color) ==>
      o == match stored
           case Stored(id) => Ok(id)
           case StoreFailed(cause) => PersistFailed(cause)
  {
    match Validate(p)
    case Reject(error) => error
    case Accept(_) =>
      match stored
      case Stored(id) => Ok(id)
      case StoreFailed(cause) => PersistFailed(cause)
  }

  /** The HTTP answer for an outcome. */
  function Respond(o: Outcome): Response
  {
    match o
    case InvalidType => HttpError(400, InvalidTypeDetail)
    case InvalidColor => HttpError(400, InvalidColorDetail)
    case PersistFailed(cause) => HttpError(500, DatabaseErrorPrefix + cause)
    case Ok(id) => Success("ok", id)
  }

  /** The endpoint: validation, the store's answer, and the HTTP answer. */
  function HandleCreateReservation(p: ReservationIn, stored: StoreResult): (r: Response)
    ensures !KnownType(p.hammockType) ==> r == HttpError(400, "Invalid hammock type")
    ensures KnownType(p.hammockType) && !Offered(p.hammockType, p.color) ==>
      r == HttpError(400, "Invalid color for selected product")
    ensures Offered(p.hammockType, p.color) && stored.StoreFailed? ==>
      r == HttpError(500, "Database error: " + stored.cause)
    ensures Offered(p.hammockType, p.color) && stored.Stored? ==> r == Success("ok", stored.id)
    ensures r.Success? <==> Offered(p.hammockType, p.color) && stored.Stored?
  {
    Respond(CreateReservation(p, stored))
  }

  /** A rejected request does not depend on the store: whatever it would
      have answered, the outcome is the same. */
  lemma RejectionIgnoresStore(p: ReservationIn, s1: StoreResult, s2: StoreResult)
    requires !Offered(p.hammockType, p.color)
    ensures CreateReservation(p, s1) == CreateReservation(p, s2)
    ensures CreateReservation(p, s1) in {InvalidType, InvalidColor}
  {
  }

  /** A store failure is a hard error: it is never reported as success, and
      its detail ends with the store's own error text. */
  lemma StoreFailureIsError(p: ReservationIn, cause: string)
    ensures !HandleCreateReservation(p, StoreFailed(cause)).Success?
    ensures Offered(p.hammockType, p.color) ==>
      var r := HandleCreateReservation(p, StoreFailed(cause));
      r.code == 500 && r.detail[|DatabaseErrorPrefix|..] == cause
  {
  }

  /** Distinct outcomes give distinct answers, so the HTTP answer loses
      nothing of the outcome (in particular not the store's error text). */
  lemma {:induction false} RespondInjective(o1: Outcome, o2: Outcome)
    requires Respond(o1) == Respond(o2)
    ensures o1 == o2
  {
    if o1.PersistFailed? && o2.PersistFailed? {
      assert o1.cause == Respond(o1).detail[|DatabaseErrorPrefix|..];
      assert o2.cause == Respond(o2).detail[|DatabaseErrorPrefix|..];
    }
  }

  /** A reservation of a single hammock in black, without a message: the
      store is asked to keep the record with its message absent, and the
      id it assigns is returned. */
  lemma ExampleReservation(id: string)
    ensures
      var p := ReservationIn("Ana", "negro", "unipersonal", "555-1234", None);
      && StoreCall(p) == Some(StoreWrite("reservation",
           ReservationRecord("Ana", "negro", "unipersonal", "555-1234", None)))
      && HandleCreateReservation(p, Stored(id)) == Success("ok", id)
  {
  }
}

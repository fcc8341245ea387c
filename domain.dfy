/** The entities of the car-sharing engine, the errors its services raise and
    the notifications they send. Entities are values: a JPA entity whose
    setters are called one after another is modelled as a record update. */
module Domain {

  datatype Option<T> = None | Some(value: T)

  /** A day number (LocalDate); the number of days from a to b is b - a. */
  type Date = int

  datatype CarType = SEDAN | SUV | HATCHBACK | UNIVERSAL

  /** A car of the fleet. `inventory` is the number of units available for
      rent and `isDeleted` the soft-delete flag of the cars table. */
  datatype Car = Car(
    id: int,
    model: string,
    brand: string,
    carType: CarType,
    inventory: int,
    dailyFee: real,
    isDeleted: bool)

  datatype RoleName = ROLE_MANAGER | ROLE_CUSTOMER

  /** The part of a user record the engine reads. */
  datatype User = User(
    id: int,
    username: string,
    telegramChatId: Option<int>,
    roles: set<RoleName>)

  /** A rental; `actualReturnDate == None` means the rental is open. */
  datatype Rental = Rental(
    id: int,
    rentalDate: Date,
    returnDate: Date,
    actualReturnDate: Option<Date>,
    user: User,
    carId: int)

  predicate IsOpen(r: Rental) {
    r.actualReturnDate.None?
  }

  datatype PaymentStatus = PENDING | PAID
  datatype PaymentType = PAYMENT | FINE

  datatype Payment = Payment(
    id: int,
    status: PaymentStatus,
    paymentType: PaymentType,
    rentalId: int,
    sessionUrl: Option<string>,
    sessionId: Option<string>,
    amountToPay: real)

  /** What the external payment provider returns for a created session. */
  datatype Session = Session(id: string, url: string)

  /** The exception classes the services throw. */
  datatype ExceptionClass =
    | RentalException
    | CarAvailableException
    | EntityNotFoundException
    | PaidPaymentException
    | RuntimeException
    | CreateSessionException
    | CustomerAccessException
    | IllegalArgumentException
    | IncorrectResultSizeDataAccessException
    | NullPointerException

  /** The failures of the engine, one per throw site. */
  datatype Error =
    | OpenRentalExists
    | CarNotFoundForRental(carId: int)
    | RentalNotFound(rentalId: int)
    | RentalIsClosed
    | CarUnavailable(carId: int)
    | RentalToPayNotFound(rentalId: int)
    | NotRentalOwner
    | RentalNotClosed
    | AlreadyPaid(rentalId: int)
    | NonUniquePayment(rentalId: int)
    | SessionCreationFailed
    | AccessDenied(userId: int)
    | PaymentNotFound(paymentId: int)
    | InvalidCarType(carType: string)
    | CarNotFound(carId: int)
    | NoEnumConstant(name: string)
    | ChatIdMissing

  function Thrown(e: Error): ExceptionClass {
    match e
    case OpenRentalExists => RentalException
    case CarNotFoundForRental(_) => RentalException
    case RentalNotFound(_) => RentalException
    case RentalIsClosed => RentalException
    case CarUnavailable(_) => CarAvailableException
    case RentalToPayNotFound(_) => EntityNotFoundException
    case NotRentalOwner => PaidPaymentException
    case RentalNotClosed => RuntimeException
    case AlreadyPaid(_) => PaidPaymentException
    case NonUniquePayment(_) => IncorrectResultSizeDataAccessException
    case SessionCreationFailed => CreateSessionException
    case AccessDenied(_) => CustomerAccessException
    case PaymentNotFound(_) => EntityNotFoundException
    case InvalidCarType(_) => IllegalArgumentException
    case CarNotFound(_) => EntityNotFoundException
    case NoEnumConstant(_) => IllegalArgumentException
    case ChatIdMissing => NullPointerException
  }

  datatype Result<T> = Ok(value: T) | Err(error: Error)

  /** The result of a check that only passes or throws. */
  datatype Outcome = Pass | Fail(error: Error)

  /** The messages the services send; each stands for one fixed text, with
      the username or id written into it. */
  datatype Message =
    | NewRentalCreated(username: string)   // a new rental for the user
    | RentalReturned                       // the user has returned the rental
    | NoRentalsOverdue                     // the sweep found nothing overdue
    | OverdueRental(rentalId: int)         // one overdue rental, by id
    | RentalPaid(rentalId: int)            // the rental's payment was created

  /** One call of the notifier: a chat id and a message. The notifier
      dereferences the chat id before it sends, so a missing one is an
      error (ChatIdMissing) of the operation that notifies. */
  datatype Notification = Notification(chatId: Option<int>, message: Message)

  /** No car has a negative number of available units. */
  ghost predicate InventoryNonNegative(cars: map<int, Car>) {
    forall k :: k in cars ==> cars[k].inventory >= 0
  }

  /** Every rental names a stored car (soft-deleted cars stay stored). */
  ghost predicate RentalsReferToCars(rentals: map<int, Rental>, cars: map<int, Car>) {
    forall k :: k in rentals ==> rentals[k].carId in cars
  }

  /** Every payment names a stored rental. */
  ghost predicate PaymentsReferToRentals(payments: map<int, Payment>, rentals: map<int, Rental>) {
    forall k :: k in payments ==> payments[k].rentalId in rentals
  }

  /** Every stored row sits under its own id. */
  ghost predicate CarsKeyed(rows: map<int, Car>) {
    forall k :: k in rows ==> rows[k].id == k
  }

  ghost predicate RentalsKeyed(rows: map<int, Rental>) {
    forall k :: k in rows ==> rows[k].id == k
  }

  ghost predicate PaymentsKeyed(rows: map<int, Payment>) {
    forall k :: k in rows ==> rows[k].id == k
  }
}

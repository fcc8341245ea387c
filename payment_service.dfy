/** PaymentServiceImpl: the amount owed for a closed rental, the ordered
    checks before a payment is created, settlement and the access rule. */
module PaymentService {
  import opened Domain
  import opened Seqs
  import opened Repository

  /** FINE_MULTIPLIER: each overdue day costs this many daily fees on top. */
  const FINE_MULTIPLIER: real := 1.5

  /** ChronoUnit.DAYS.between(from, to). */
  function DaysBetween(from: Date, to: Date): int {
    to - from
  }

  function Max(a: int, b: int): int {
    if a >= b then a else b
  }

  /** isRentalClosedLate: strictly after the planned return date. */
  function IsRentalClosedLate(rental: Rental): (late: bool)
    requires rental.actualReturnDate.Some?
    ensures late <==> DaysBetween(rental.returnDate, rental.actualReturnDate.value) > 0
  {
    rental.actualReturnDate.value > rental.returnDate
  }

  /** calculateAmountToPay: the daily fee for every rental day (at least one
      when on time) plus, when late, 1.5 daily fees per overdue day. */
  function CalculateAmountToPay(rental: Rental, dailyFee: real): (amount: real)
    requires rental.actualReturnDate.Some?
    // a car returned no earlier than it was taken costs at least one day
    ensures dailyFee >= 0.0 && rental.rentalDate <= rental.actualReturnDate.value ==> amount >= dailyFee
  {
    var rentalDuration := DaysBetween(rental.rentalDate, rental.actualReturnDate.value);
    if IsRentalClosedLate(rental) then
      var overdueDays := DaysBetween(rental.returnDate, rental.actualReturnDate.value);
      dailyFee * (rentalDuration as real) + dailyFee * FINE_MULTIPLIER * (overdueDays as real)
    else
      dailyFee * (Max(1, rentalDuration) as real)
  }

  /** The amount if the rental were closed on the given day. */
  function AmountIfReturnedOn(rental: Rental, dailyFee: real, day: Date): real {
    CalculateAmountToPay(rental.(actualReturnDate := Some(day)), dailyFee)
  }

  /** On time or early: the daily fee times the days rented, at least one. */
  lemma OnTimeAmount(rental: Rental, dailyFee: real)
    requires rental.actualReturnDate.Some? && rental.actualReturnDate.value <= rental.returnDate
    ensures !IsRentalClosedLate(rental)
    ensures CalculateAmountToPay(rental, dailyFee)
            == dailyFee * (Max(1, rental.actualReturnDate.value - rental.rentalDate) as real)
  {
  }

  /** Late: the daily fee for every day rented plus 1.5 daily fees for every
      day past the planned return date. */
  lemma LateAmount(rental: Rental, dailyFee: real)
    requires rental.actualReturnDate.Some? && rental.actualReturnDate.value > rental.returnDate
    ensures IsRentalClosedLate(rental)
    ensures CalculateAmountToPay(rental, dailyFee)
            == dailyFee * ((rental.actualReturnDate.value - rental.rentalDate) as real)
               + dailyFee * 1.5 * ((rental.actualReturnDate.value - rental.returnDate) as real)
  {
  }

  /** Returning on the planned day is on time, and a same-day return costs
      one day. */
  lemma ReturnOnPlannedDayIsOnTime(rental: Rental, dailyFee: real)
    requires rental.actualReturnDate == Some(rental.returnDate)
    ensures !IsRentalClosedLate(rental)
    ensures rental.rentalDate == rental.returnDate ==> CalculateAmountToPay(rental, dailyFee) == dailyFee
  {
  }

  /** For a rental planned to end on or after it starts, the charge is never
      less than one day. */
  lemma {:induction false} AmountCoversOneDay(rental: Rental, dailyFee: real)
    requires rental.actualReturnDate.Some? && rental.rentalDate <= rental.returnDate
    requires dailyFee >= 0.0
    ensures CalculateAmountToPay(rental, dailyFee) >= dailyFee
  {
    var actual := rental.actualReturnDate.value;
    if IsRentalClosedLate(rental) {
      var d := (actual - rental.rentalDate) as real;
      var o := (actual - rental.returnDate) as real;
      assert d >= 1.0 && o >= 1.0;
      MulMonotone(dailyFee, 1.0, d);
      MulMonotone(dailyFee * 1.5, 0.0, o);
    } else {
      MulMonotone(dailyFee, 1.0, Max(1, actual - rental.rentalDate) as real);
    }
  }

  lemma MulMonotone(a: real, x: real, y: real)
    requires a >= 0.0 && x <= y
    ensures a * x <= a * y
  {
    assert a * y - a * x == a * (y - x);
  }

  /** Every day of lateness adds the daily fee plus the 1.5-fee fine. */
  lemma {:induction false} EachLateDayCostsTwoAndAHalfFees(rental: Rental, dailyFee: real, day: Date)
    requires day > rental.returnDate
    ensures AmountIfReturnedOn(rental, dailyFee, day + 1)
            == AmountIfReturnedOn(rental, dailyFee, day) + dailyFee * 2.5
  {
    var d := (day - rental.rentalDate) as real;
    var o := (day - rental.returnDate) as real;
    assert AmountIfReturnedOn(rental, dailyFee, day) == dailyFee * d + dailyFee * 1.5 * o;
    assert AmountIfReturnedOn(rental, dailyFee, day + 1)
           == dailyFee * (d + 1.0) + dailyFee * 1.5 * (o + 1.0);
  }

  /** Returning late costs more than returning on the planned day. */
  lemma {:induction false} LateCostsMoreThanOnTime(rental: Rental, dailyFee: real, day: Date)
    requires rental.rentalDate <= rental.returnDate < day
    requires dailyFee > 0.0
    ensures AmountIfReturnedOn(rental, dailyFee, day) > AmountIfReturnedOn(rental, dailyFee, rental.returnDate)
  {
    var d := (day - rental.rentalDate) as real;
    var o := (day - rental.returnDate) as real;
    var charged := Max(1, rental.returnDate - rental.rentalDate) as real;
    var late := AmountIfReturnedOn(rental, dailyFee, day);
    var onTime := AmountIfReturnedOn(rental, dailyFee, rental.returnDate);
    assert late == dailyFee * d + dailyFee * 1.5 * o;
    assert onTime == dailyFee * charged;
    assert charged <= d;
    MulMonotone(dailyFee, charged, d);
    MulMonotone(dailyFee * 1.5, 1.0, o);
    assert dailyFee * 1.5 * o >= dailyFee * 1.5;
    assert dailyFee * d >= onTime && dailyFee * 1.5 > 0.0;
  }

  /** The late branch does not clamp a negative rental duration: a rental
      whose planned return date lies before its start, returned between the
      two, is charged a negative amount. */
  lemma LateBranchDoesNotClampDuration()
    ensures var rental := Rental(1, 10, 0, Some(1), User(1, "u", None, {}), 1);
            IsRentalClosedLate(rental) && CalculateAmountToPay(rental, 100.0) == -750.0
  {
  }

  /** Three worked examples: early, same-day and late returns. */
  lemma FeeExamples()
    ensures CalculateAmountToPay(Rental(1, 0, 5, Some(4), User(1, "u", None, {}), 1), 100.0) == 400.0
    ensures CalculateAmountToPay(Rental(1, 0, 5, Some(0), User(1, "u", None, {}), 1), 100.0) == 100.0
    ensures CalculateAmountToPay(Rental(1, 0, 5, Some(8), User(1, "u", None, {}), 1), 100.0) == 1250.0
  {
  }

  // ---------------------------------------------------------------------
  // The checks before a payment is created.

  /** The rows findByRentalId matches. */
  function PaymentsOfRental(all: seq<Payment>, rentalId: int): (r: seq<Payment>)
    ensures forall p :: p in r ==> p in all && p.rentalId == rentalId
  {
    Filter(all, (p: Payment) => p.rentalId == rentalId)
  }

  /** PaymentRepository.findByRentalId, an Optional query: no row, one row,
      or more than one row, which the repository refuses. */
  function FindByRentalId(all: seq<Payment>, rentalId: int): (r: Result<Option<Payment>>)
    ensures r.Ok? && r.value.None? <==> forall p :: p in all ==> p.rentalId != rentalId
    ensures r.Ok? && r.value.Some? ==>
              r.value.value in all && r.value.value.rentalId == rentalId
              && forall p :: p in all && p.rentalId == rentalId ==> p == r.value.value
    ensures r.Err? <==> |PaymentsOfRental(all, rentalId)| > 1
    ensures r.Err? ==> r.error == NonUniquePayment(rentalId)
  {
    var found := PaymentsOfRental(all, rentalId);
    FilterEmpty(all, rentalId);
    if |found| == 0 then Ok(None)
    else if |found| == 1 then
      var p := found[0];
      FilterSingle(all, rentalId);
      Ok(Some(p))
    else Err(NonUniquePayment(rentalId))
  }

  lemma FilterEmpty(all: seq<Payment>, rentalId: int)
    ensures PaymentsOfRental(all, rentalId) == [] <==> forall p :: p in all ==> p.rentalId != rentalId
  {
    var q := (p: Payment) => p.rentalId == rentalId;
    if PaymentsOfRental(all, rentalId) != [] {
      FilterMembership(all, q, PaymentsOfRental(all, rentalId)[0]);
    } else {
      forall p | p in all ensures p.rentalId != rentalId {
        FilterMembership(all, q, p);
      }
    }
  }

  lemma FilterSingle(all: seq<Payment>, rentalId: int)
    requires |PaymentsOfRental(all, rentalId)| == 1
    ensures PaymentsOfRental(all, rentalId)[0] in all
    ensures forall p :: p in all && p.rentalId == rentalId ==> p == PaymentsOfRental(all, rentalId)[0]
  {
    var q := (p: Payment) => p.rentalId == rentalId;
    var found := PaymentsOfRental(all, rentalId);
    FilterMembership(all, q, found[0]);
    forall p | p in all && p.rentalId == rentalId ensures p == found[0] {
      FilterMembership(all, q, p);
    }
  }

  /** checkPaymentIsDone: only a PAID payment for the rental blocks a new
      one; a PENDING one does not. */
  function CheckPaymentIsDone(all: seq<Payment>, rentalId: int): (o: Outcome)
    ensures o.Pass? ==> forall p :: p in all && p.rentalId == rentalId ==> p.status != PAID
    ensures |PaymentsOfRental(all, rentalId)| <= 1 ==>
              (o.Fail? <==> exists p :: p in all && p.rentalId == rentalId && p.status == PAID)
    ensures |PaymentsOfRental(all, rentalId)| > 1 ==> o == Fail(NonUniquePayment(rentalId))
    ensures o.Fail? ==> o.error == AlreadyPaid(rentalId) || o.error == NonUniquePayment(rentalId)
    ensures o.Fail? && o.error == AlreadyPaid(rentalId) ==> Thrown(o.error) == PaidPaymentException
  {
    match FindByRentalId(all, rentalId)
    case Err(e) => Fail(e)
    case Ok(None) => Pass
    case Ok(Some(p)) => if p.status == PAID then Fail(AlreadyPaid(rentalId)) else Pass
  }

  /** checkUserIsRentalOwner */
  function CheckUserIsRentalOwner(rental: Rental, currentUser: User): (o: Outcome)
    ensures o.Pass? <==> rental.user.id == currentUser.id
    ensures o.Fail? ==> o.error == NotRentalOwner && Thrown(o.error) == PaidPaymentException
  {
    if rental.user.id != currentUser.id then Fail(NotRentalOwner) else Pass
  }

  /** checkRentalIsClosed (payment side): an open rental cannot be paid. */
  function CheckRentalIsClosed(rental: Rental): (o: Outcome)
    ensures o.Pass? <==> rental.actualReturnDate.Some?
    ensures o.Fail? ==> o.error == RentalNotClosed && Thrown(o.error) == RuntimeException
  {
    if rental.actualReturnDate.None? then Fail(RentalNotClosed) else Pass
  }

  /** validateAndRetrieveRental: not found, then not the owner, then still
      open, then already paid, in that order. */
  function ValidateAndRetrieveRental(rentals: map<int, Rental>, payments: seq<Payment>,
                                     rentalId: int, currentUser: User): (r: Result<Rental>)
    ensures rentalId !in rentals ==> r == Err(RentalToPayNotFound(rentalId))
    ensures rentalId in rentals && rentals[rentalId].user.id != currentUser.id
            ==> r == Err(NotRentalOwner)
    ensures rentalId in rentals && rentals[rentalId].user.id == currentUser.id
            && rentals[rentalId].actualReturnDate.None?
            ==> r == Err(RentalNotClosed)
    ensures rentalId in rentals && rentals[rentalId].user.id == currentUser.id
            && rentals[rentalId].actualReturnDate.Some?
            ==> r == (match CheckPaymentIsDone(payments, rentalId)
                      case Pass => Ok(rentals[rentalId])
                      case Fail(e) => Err(e))
    ensures r.Ok? ==> && rentalId in rentals && r.value == rentals[rentalId]
                      && r.value.user.id == currentUser.id
                      && r.value.actualReturnDate.Some?
                      && forall p :: p in payments && p.rentalId == rentalId ==> p.status != PAID
  {
    if rentalId !in rentals then Err(RentalToPayNotFound(rentalId))
    else
      var rental := rentals[rentalId];
      match CheckUserIsRentalOwner(rental, currentUser)
      case Fail(e) => Err(e)
      case Pass =>
        match CheckRentalIsClosed(rental)
        case Fail(e) => Err(e)
        case Pass =>
          match CheckPaymentIsDone(payments, rentalId)
          case Fail(e) => Err(e)
          case Pass => Ok(rental)
  }

  /** Only a PAID payment blocks: with one PENDING payment for the rental the
      checks still pass. */
  lemma PendingPaymentDoesNotBlock(rentals: map<int, Rental>, pending: Payment, rentalId: int, currentUser: User)
    requires rentalId in rentals && rentals[rentalId].user.id == currentUser.id
    requires rentals[rentalId].actualReturnDate.Some?
    requires pending.rentalId == rentalId && pending.status == PENDING
    ensures ValidateAndRetrieveRental(rentals, [pending], rentalId, currentUser) == Ok(rentals[rentalId])
  {
    assert PaymentsOfRental([pending], rentalId) == [pending];
  }

  /** initializePayment: a PENDING regular payment for the rental, amount 0,
      no session yet. */
  function InitializePayment(id: int, rental: Rental): (p: Payment)
    ensures p.status == PENDING && p.paymentType == PAYMENT && p.rentalId == rental.id
    ensures p.amountToPay == 0.0 && p.sessionId.None? && p.sessionUrl.None?
  {
    Payment(id, PENDING, PAYMENT, rental.id, None, None, 0.0)
  }

  /** updatePayment: records the session and the amount. */
  function UpdatePayment(payment: Payment, session: Session, amountToPay: real): (p: Payment)
    ensures p.status == PENDING && p.amountToPay == amountToPay
    ensures p.sessionId == Some(session.id) && p.sessionUrl == Some(session.url)
    ensures p.id == payment.id && p.rentalId == payment.rentalId && p.paymentType == payment.paymentType
  {
    payment.(status := PENDING, sessionId := Some(session.id),
             sessionUrl := Some(session.url), amountToPay := amountToPay)
  }

  /** validateUserAccess: a customer may only ask about their own id;
      every other caller may ask about any id. */
  function ValidateUserAccess(currentUser: User, userId: int): (o: Outcome)
    ensures o.Fail? ==> o.error == AccessDenied(userId) && Thrown(o.error) == CustomerAccessException
  {
    if ROLE_CUSTOMER in currentUser.roles && currentUser.id != userId then Fail(AccessDenied(userId))
    else Pass
  }

  lemma AccessRule(currentUser: User, userId: int)
    ensures ROLE_CUSTOMER !in currentUser.roles ==> ValidateUserAccess(currentUser, userId).Pass?
    ensures ROLE_CUSTOMER in currentUser.roles ==>
              (ValidateUserAccess(currentUser, userId).Pass? <==> userId == currentUser.id)
    ensures ValidateUserAccess(currentUser, currentUser.id).Pass?
  {
  }

  /** The status change of verifySuccessfulPayment. */
  function MarkPaid(p: Payment): (q: Payment)
    ensures q.status == PAID && q.(status := p.status) == p
  {
    p.(status := PAID)
  }

  /** Marking paid changes the status only, and twice is the same as once. */
  lemma MarkPaidIsIdempotent(p: Payment)
    ensures MarkPaid(MarkPaid(p)) == MarkPaid(p)
    ensures MarkPaid(p).status == PAID
    ensures MarkPaid(p).(status := p.status) == p
  {
  }

  /** findPaymentById */
  function FindPaymentById(payments: map<int, Payment>, paymentId: int): (r: Result<Payment>)
    ensures r.Ok? <==> paymentId in payments
    ensures r.Ok? ==> r.value == payments[paymentId]
    ensures r.Err? ==> r.error == PaymentNotFound(paymentId) && Thrown(r.error) == EntityNotFoundException
  {
    if paymentId in payments then Ok(payments[paymentId]) else Err(PaymentNotFound(paymentId))
  }

  /** PaymentRepository.findAllByUserId: the payments whose rental belongs
      to the user. */
  function PaymentsOfUser(all: seq<Payment>, rentals: map<int, Rental>, userId: int): (r: seq<Payment>)
    ensures forall p :: p in r ==> p in all && p.rentalId in rentals && rentals[p.rentalId].user.id == userId
  {
    Filter(all, (p: Payment) => p.rentalId in rentals && rentals[p.rentalId].user.id == userId)
  }

  /** A rental has at most one PAID payment. */
  ghost predicate AtMostOnePaidPaymentPerRental(payments: map<int, Payment>) {
    forall a, b ::
      (a in payments && b in payments && payments[a].status == PAID && payments[b].status == PAID
       && payments[a].rentalId == payments[b].rentalId) ==> a == b
  }

  /** The rule does not survive verifySuccessfulPayment: creating a payment
      while the first is still PENDING is allowed, and both can be marked
      PAID afterwards. */
  lemma {:induction false} TwoPendingPaymentsCanBothBecomePaid()
    ensures var first := Payment(1, PENDING, PAYMENT, 7, Some("url1"), Some("s1"), 100.0);
            var second := Payment(2, PENDING, PAYMENT, 7, Some("url2"), Some("s2"), 100.0);
            && CheckPaymentIsDone([], 7).Pass?
            && CheckPaymentIsDone([first], 7).Pass?
            && AtMostOnePaidPaymentPerRental(map[1 := first, 2 := second])
            && !AtMostOnePaidPaymentPerRental(map[1 := MarkPaid(first), 2 := MarkPaid(second)])
  {
    var first := Payment(1, PENDING, PAYMENT, 7, Some("url1"), Some("s1"), 100.0);
    var second := Payment(2, PENDING, PAYMENT, 7, Some("url2"), Some("s2"), 100.0);
    assert PaymentsOfRental([first], 7) == [first];
    var paid := map[1 := MarkPaid(first), 2 := MarkPaid(second)];
    assert paid[1].status == PAID && paid[2].status == PAID && paid[1].rentalId == paid[2].rentalId;
  }

  /** Some payment other than `paymentId` of the same rental is already PAID. */
  predicate AnotherPaymentPaid(payments: map<int, Payment>, paymentId: int)
    requires paymentId in payments
  {
    exists k :: k in payments && k != paymentId && payments[k].rentalId == payments[paymentId].rentalId
                && payments[k].status == PAID
  }

  class PaymentServiceImpl {
    /** Read through the rental's car association (no soft-delete filter). */
    const carRepository: Table<Car>
    const rentalRepository: Table<Rental>
    const paymentRepository: Table<Payment>

    ghost predicate Valid()
      reads this, carRepository, rentalRepository, paymentRepository
    {
      && carRepository.Valid() && rentalRepository.Valid() && paymentRepository.Valid()
      && CarsKeyed(carRepository.rows) && RentalsKeyed(rentalRepository.rows)
      && PaymentsKeyed(paymentRepository.rows)
      && RentalsReferToCars(rentalRepository.rows, carRepository.rows)
      && PaymentsReferToRentals(paymentRepository.rows, rentalRepository.rows)
    }

    constructor (cars: Table<Car>, rentals: Table<Rental>, payments: Table<Payment>)
      requires cars.Valid() && rentals.Valid() && payments.Valid()
      requires CarsKeyed(cars.rows) && RentalsKeyed(rentals.rows) && PaymentsKeyed(payments.rows)
      requires RentalsReferToCars(rentals.rows, cars.rows) && PaymentsReferToRentals(payments.rows, rentals.rows)
      ensures carRepository == cars && rentalRepository == rentals && paymentRepository == payments
      ensures Valid()
    {
      carRepository := cars;
      rentalRepository := rentals;
      paymentRepository := payments;
    }

    /** createPayment: the checks, the amount, the external session (`session`
        is None when the provider fails), then one PENDING payment saved. */
    method CreatePayment(rentalId: int, currentUser: User, session: Option<Session>)
      returns (result: Result<Payment>, sent: seq<Notification>)
      requires Valid()
      modifies paymentRepository
      ensures Valid()
      ensures var checked := ValidateAndRetrieveRental(rentalRepository.rows, old(paymentRepository.FindAll()),
                                                       rentalId, currentUser);
        && (checked.Err? ==> result == Err(checked.error))
        && (checked.Ok? && session.None? ==> result == Err(SessionCreationFailed))
        && (checked.Ok? && session.Some? && currentUser.telegramChatId.None? ==> result == Err(ChatIdMissing))
        && (result.Ok? <==> checked.Ok? && session.Some? && currentUser.telegramChatId.Some?)
      ensures result.Err? ==> unchanged(paymentRepository) && sent == []
      ensures result.Ok? ==>
        var rental := rentalRepository.rows[rentalId];
        && result.value.id == old(paymentRepository.nextId)
        && result.value.status == PENDING && result.value.paymentType == PAYMENT
        && result.value.rentalId == rentalId
        && result.value.amountToPay == CalculateAmountToPay(rental, carRepository.rows[rental.carId].dailyFee)
        && result.value.sessionId == Some(session.value.id)
        && result.value.sessionUrl == Some(session.value.url)
        && paymentRepository.rows == old(paymentRepository.rows)[result.value.id := result.value]
        && paymentRepository.order == old(paymentRepository.order) + [result.value.id]
        && paymentRepository.nextId == old(paymentRepository.nextId) + 1
        && sent == [Notification(currentUser.telegramChatId, RentalPaid(rentalId))]
      ensures old(AtMostOnePaidPaymentPerRental(paymentRepository.rows))
              ==> AtMostOnePaidPaymentPerRental(paymentRepository.rows)
    {
      var checked := ValidateAndRetrieveRental(rentalRepository.rows, paymentRepository.FindAll(),
                                               rentalId, currentUser);
      if checked.Err? {
        return Err(checked.error), [];
      }
      var rental := checked.value;
      var payment := InitializePayment(paymentRepository.nextId, rental);
      var amountToPay := CalculateAmountToPay(rental, carRepository.rows[rental.carId].dailyFee);
      if session.None? {
        return Err(SessionCreationFailed), [];
      }
      // The Java service notifies after the save; a missing chat id throws there
      // and the transaction rolls the save back, as failing here does.
      if currentUser.telegramChatId.None? {
        return Err(ChatIdMissing), [];
      }
      payment := UpdatePayment(payment, session.value, amountToPay);
      var id := paymentRepository.Insert(payment);
      result := Ok(payment);
      sent := [Notification(currentUser.telegramChatId, RentalPaid(rental.id))];
    }

    /** getPaymentsByUserId: the access rule, then the user's payments. */
    function GetPaymentsByUserId(userId: int, currentUser: User): (r: Result<seq<Payment>>)
      reads this, carRepository, rentalRepository, paymentRepository
      requires Valid()
      ensures r.Err? <==> ROLE_CUSTOMER in currentUser.roles && currentUser.id != userId
      ensures r.Err? ==> r.error == AccessDenied(userId)
      ensures r.Ok? ==>
        forall k :: k in paymentRepository.rows ==>
          (paymentRepository.rows[k] in r.value
           <==> rentalRepository.rows[paymentRepository.rows[k].rentalId].user.id == userId)
      ensures r.Ok? ==>
        forall x :: x in r.value ==>
          && x in paymentRepository.rows.Values && x.rentalId in rentalRepository.rows
          && rentalRepository.rows[x.rentalId].user.id == userId
    {
      match ValidateUserAccess(currentUser, userId)
      case Fail(e) => Err(e)
      case Pass =>
        UserPaymentsSpec(userId);
        Ok(PaymentsOfUser(paymentRepository.FindAll(), rentalRepository.rows, userId))
    }

    lemma UserPaymentsSpec(userId: int)
      requires Valid()
      ensures forall k :: k in paymentRepository.rows ==>
                (paymentRepository.rows[k] in PaymentsOfUser(paymentRepository.FindAll(), rentalRepository.rows, userId)
                 <==> rentalRepository.rows[paymentRepository.rows[k].rentalId].user.id == userId)
      ensures forall x :: x in PaymentsOfUser(paymentRepository.FindAll(), rentalRepository.rows, userId) ==>
                && x in paymentRepository.rows.Values && x.rentalId in rentalRepository.rows
                && rentalRepository.rows[x.rentalId].user.id == userId
    {
      var rentals := rentalRepository.rows;
      var q := (p: Payment) => p.rentalId in rentals && rentals[p.rentalId].user.id == userId;
      forall k | k in paymentRepository.rows
        ensures paymentRepository.rows[k] in PaymentsOfUser(paymentRepository.FindAll(), rentalRepository.rows, userId)
                <==> rentalRepository.rows[paymentRepository.rows[k].rentalId].user.id == userId
      {
        paymentRepository.ListedByFindAll(k);
        FilterMembership(paymentRepository.FindAll(), q, paymentRepository.rows[k]);
      }
      forall x | x in PaymentsOfUser(paymentRepository.FindAll(), rentalRepository.rows, userId)
        ensures && x in paymentRepository.rows.Values && x.rentalId in rentalRepository.rows
                && rentalRepository.rows[x.rentalId].user.id == userId
      {
        FilterMembership(paymentRepository.FindAll(), q, x);
        paymentRepository.FindAllIsStored(x);
      }
    }

    /** verifySuccessfulPayment: the payment exists and the caller may act for
        its rental's owner; then its status becomes PAID, whatever it was. */
    method VerifySuccessfulPayment(paymentId: int, currentUser: User) returns (result: Outcome)
      requires Valid()
      modifies paymentRepository
      ensures Valid()
      ensures paymentId !in old(paymentRepository.rows) ==> result == Fail(PaymentNotFound(paymentId))
      ensures paymentId in old(paymentRepository.rows) ==>
        var owner := rentalRepository.rows[old(paymentRepository.rows[paymentId].rentalId)].user.id;
        result == ValidateUserAccess(currentUser, owner)
      ensures result.Fail? ==> unchanged(paymentRepository)
      ensures result.Pass? ==>
        && paymentRepository.rows
           == old(paymentRepository.rows)[paymentId := MarkPaid(old(paymentRepository.rows[paymentId]))]
        && paymentRepository.order == old(paymentRepository.order)
        && paymentRepository.nextId == old(paymentRepository.nextId)
    {
      var found := FindPaymentById(paymentRepository.rows, paymentId);
      if found.Err? {
        return Fail(found.error);
      }
      var payment := found.value;
      result := ValidateUserAccess(currentUser, rentalRepository.rows[payment.rentalId].user.id);
      if result.Fail? {
        return;
      }
      paymentRepository.Update(paymentId, MarkPaid(payment));
    }

    /** verifySuccessfulPayment as evidently intended: a payment is not
        marked PAID when another payment of the same rental already is, so a
        rental is never paid twice. A payment already PAID stays PAID. */
    method VerifySuccessfulPaymentOnce(paymentId: int, currentUser: User) returns (result: Outcome)
      requires Valid()
      modifies paymentRepository
      ensures Valid()
      ensures paymentId !in old(paymentRepository.rows) ==> result == Fail(PaymentNotFound(paymentId))
      // the access rule is checked before the rule against paying twice
      ensures paymentId in old(paymentRepository.rows) ==>
        var rentalOf := old(paymentRepository.rows[paymentId].rentalId);
        var access := ValidateUserAccess(currentUser, rentalRepository.rows[rentalOf].user.id);
        && (access.Fail? ==> result == access)
        && (access.Pass? && old(AnotherPaymentPaid(paymentRepository.rows, paymentId))
            ==> result == Fail(AlreadyPaid(rentalOf)))
        && (result.Pass? <==> access.Pass? && !old(AnotherPaymentPaid(paymentRepository.rows, paymentId)))
      ensures result.Fail? ==> unchanged(paymentRepository)
      ensures result.Pass? ==>
        && paymentId in old(paymentRepository.rows)
        && ValidateUserAccess(currentUser,
             rentalRepository.rows[old(paymentRepository.rows[paymentId].rentalId)].user.id).Pass?
        && paymentRepository.rows
           == old(paymentRepository.rows)[paymentId := MarkPaid(old(paymentRepository.rows[paymentId]))]
        && paymentRepository.order == old(paymentRepository.order)
        && paymentRepository.nextId == old(paymentRepository.nextId)
      ensures paymentId in old(paymentRepository.rows) && result.Fail? && result.error.AlreadyPaid? ==>
        exists k :: k in old(paymentRepository.rows) && k != paymentId
                    && old(paymentRepository.rows[k]).rentalId == old(paymentRepository.rows[paymentId]).rentalId
                    && old(paymentRepository.rows[k]).status == PAID
      ensures AtMostOnePaidPaymentPerRental(old(paymentRepository.rows))
              ==> AtMostOnePaidPaymentPerRental(paymentRepository.rows)
    {
      var found := FindPaymentById(paymentRepository.rows, paymentId);
      if found.Err? {
        return Fail(found.error);
      }
      var payment := found.value;
      result := ValidateUserAccess(currentUser, rentalRepository.rows[payment.rentalId].user.id);
      if result.Fail? {
        return;
      }
      if AnotherPaymentPaid(paymentRepository.rows, paymentId) {
        return Fail(AlreadyPaid(payment.rentalId));
      }
      paymentRepository.Update(paymentId, MarkPaid(payment));
    }
  }
}

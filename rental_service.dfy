/** RentalServiceImpl: booking and closing rentals against the car inventory,
    listing rentals and the daily overdue sweep. */
module RentalService {
  import opened Domain
  import opened Seqs
  import opened Repository

  /** A booking request; the user it names is passed already resolved. */
  datatype RentalRequest = RentalRequest(rentalDate: Date, returnDate: Date, carId: int)

  /** No user has two open rentals. */
  ghost predicate AtMostOneOpenRentalPerUser(rentals: map<int, Rental>) {
    forall a, b ::
      (a in rentals && b in rentals && IsOpen(rentals[a]) && IsOpen(rentals[b])
       && rentals[a].user.id == rentals[b].user.id) ==> a == b
  }

  // ---------------------------------------------------------------------
  // The inventory ledger: one unit taken on booking, one given back on return.

  function ReserveUnit(cars: map<int, Car>, carId: int): (r: map<int, Car>)
    requires carId in cars
    ensures r.Keys == cars.Keys
    ensures r[carId].inventory == cars[carId].inventory - 1
    ensures r[carId].(inventory := cars[carId].inventory) == cars[carId]
    ensures forall k :: k in cars && k != carId ==> r[k] == cars[k]
  {
    cars[carId := cars[carId].(inventory := cars[carId].inventory - 1)]
  }

  function ReleaseUnit(cars: map<int, Car>, carId: int): (r: map<int, Car>)
    requires carId in cars
    ensures r.Keys == cars.Keys
    ensures r[carId].inventory == cars[carId].inventory + 1
    ensures r[carId].(inventory := cars[carId].inventory) == cars[carId]
    ensures forall k :: k in cars && k != carId ==> r[k] == cars[k]
  {
    cars[carId := cars[carId].(inventory := cars[carId].inventory + 1)]
  }

  /** Returning the car restores the inventory the booking took. */
  lemma ReleaseUndoesReserve(cars: map<int, Car>, carId: int)
    requires carId in cars
    ensures ReleaseUnit(ReserveUnit(cars, carId), carId) == cars
  {
    var back := ReleaseUnit(ReserveUnit(cars, carId), carId);
    assert back[carId] == cars[carId];
  }

  /** A unit is taken only from a car whose inventory is not 0, so a
      non-negative inventory stays non-negative. */
  lemma ReserveKeepsInventoryNonNegative(cars: map<int, Car>, carId: int)
    requires InventoryNonNegative(cars)
    requires carId in cars && cars[carId].inventory != 0
    ensures InventoryNonNegative(ReserveUnit(cars, carId))
    ensures ReserveUnit(cars, carId)[carId].inventory == cars[carId].inventory - 1
    ensures forall k :: k in cars && k != carId ==> ReserveUnit(cars, carId)[k] == cars[k]
  {
  }

  lemma ReleaseKeepsInventoryNonNegative(cars: map<int, Car>, carId: int)
    requires InventoryNonNegative(cars) && carId in cars
    ensures InventoryNonNegative(ReleaseUnit(cars, carId))
    ensures ReleaseUnit(cars, carId)[carId].inventory == cars[carId].inventory + 1
    ensures forall k :: k in cars && k != carId ==> ReleaseUnit(cars, carId)[k] == cars[k]
  {
  }

  // ---------------------------------------------------------------------
  // The checks and lookups of the service.

  /** RentalRepository.findOpenRental: the user's rentals without an
      actual return date. */
  function OpenRentalsOf(all: seq<Rental>, userId: int): (r: seq<Rental>)
    ensures forall x :: x in r ==> x in all && x.user.id == userId && IsOpen(x)
  {
    Filter(all, (r: Rental) => r.user.id == userId && IsOpen(r))
  }

  lemma {:induction false} OpenRentalsOfEmpty(all: seq<Rental>, userId: int)
    ensures OpenRentalsOf(all, userId) == []
            <==> forall r :: r in all ==> !(r.user.id == userId && IsOpen(r))
  {
    var p := (r: Rental) => r.user.id == userId && IsOpen(r);
    if OpenRentalsOf(all, userId) != [] {
      FilterMembership(all, p, OpenRentalsOf(all, userId)[0]);
    } else {
      forall r | r in all ensures !(r.user.id == userId && IsOpen(r)) {
        FilterMembership(all, p, r);
      }
    }
  }

  /** checkUserHasOpenRentals: passes exactly when the user has no open rental. */
  function CheckUserHasOpenRentals(all: seq<Rental>, user: User): (o: Outcome)
    ensures o.Pass? <==> forall r :: r in all ==> !(r.user.id == user.id && IsOpen(r))
    ensures o.Fail? ==> o.error == OpenRentalExists && Thrown(o.error) == RentalException
  {
    OpenRentalsOfEmpty(all, user.id);
    if OpenRentalsOf(all, user.id) != [] then Fail(OpenRentalExists) else Pass
  }

  /** checkIsCarAvailable: only an inventory of exactly 0 is refused, so a
      car that passes with a non-negative inventory can give up one unit. */
  function CheckIsCarAvailable(car: Car): (o: Outcome)
    ensures o.Fail? <==> car.inventory == 0
    ensures o.Fail? ==> o.error == CarUnavailable(car.id) && Thrown(o.error) == CarAvailableException
    ensures o.Pass? && car.inventory >= 0 ==> car.inventory - 1 >= 0
  {
    if car.inventory == 0 then Fail(CarUnavailable(car.id)) else Pass
  }

  /** findCarById: a soft-deleted or missing car is a RentalException. */
  function FindCarById(cars: map<int, Car>, carId: int): (r: Result<Car>)
    ensures r.Ok? <==> carId in cars && !cars[carId].isDeleted
    ensures r.Ok? ==> r.value == cars[carId]
    ensures r.Err? ==> r.error == CarNotFoundForRental(carId) && Thrown(r.error) == RentalException
  {
    match FindCar(cars, carId)
    case Some(car) => Ok(car)
    case None => Err(CarNotFoundForRental(carId))
  }

  /** findRentalById: a missing rental is a RentalException. */
  function FindRentalById(rentals: map<int, Rental>, rentalId: int): (r: Result<Rental>)
    ensures r.Ok? <==> rentalId in rentals
    ensures r.Ok? ==> r.value == rentals[rentalId]
    ensures r.Err? ==> r.error == RentalNotFound(rentalId) && Thrown(r.error) == RentalException
  {
    if rentalId in rentals then Ok(rentals[rentalId]) else Err(RentalNotFound(rentalId))
  }

  /** checkRentalIsClosed: a rental that has an actual return date cannot be
      closed again. */
  function CheckRentalIsClosed(rental: Rental): (o: Outcome)
    ensures o.Pass? <==> IsOpen(rental)
    ensures o.Fail? ==> o.error == RentalIsClosed && Thrown(o.error) == RentalException
  {
    if rental.actualReturnDate.Some? then Fail(RentalIsClosed) else Pass
  }

  /** createNewRental: an open rental with the requested dates, the user and the car. */
  function CreateNewRental(id: int, request: RentalRequest, car: Car, user: User): (r: Rental)
    ensures IsOpen(r) && r.id == id
    ensures r.rentalDate == request.rentalDate && r.returnDate == request.returnDate
    ensures r.user == user && r.carId == car.id
  {
    Rental(id, request.rentalDate, request.returnDate, None, user, car.id)
  }

  /** The rental as it is saved when the car comes back. */
  function CloseRental(rental: Rental, today: Date): (closed: Rental)
    ensures !IsOpen(closed) && closed.actualReturnDate == Some(today)
    ensures closed.(actualReturnDate := rental.actualReturnDate) == rental
  {
    rental.(actualReturnDate := Some(today))
  }

  /** A new open rental for a user without one keeps the one-open-rental rule. */
  lemma BookingKeepsOneOpenRental(rentals: map<int, Rental>, id: int, rental: Rental)
    requires AtMostOneOpenRentalPerUser(rentals) && id !in rentals
    requires forall k :: k in rentals && IsOpen(rentals[k]) ==> rentals[k].user.id != rental.user.id
    ensures AtMostOneOpenRentalPerUser(rentals[id := rental])
  {
  }

  /** Closing a rental never opens one, so the rule is kept. */
  lemma ClosingKeepsOneOpenRental(rentals: map<int, Rental>, id: int, today: Date)
    requires AtMostOneOpenRentalPerUser(rentals) && id in rentals
    ensures AtMostOneOpenRentalPerUser(rentals[id := CloseRental(rentals[id], today)])
    ensures !IsOpen(CloseRental(rentals[id], today))
  {
  }

  // ---------------------------------------------------------------------
  // Listing rentals: two optional filters, applied one after the other.

  predicate MatchesUser(r: Rental, userId: Option<int>) {
    userId.None? || r.user.id == userId.value
  }

  predicate MatchesActivity(r: Rental, isActive: Option<bool>) {
    if isActive.None? then true
    else if isActive.value then r.actualReturnDate.None?
    else r.actualReturnDate.Some?
  }

  function SelectRentals(all: seq<Rental>, userId: Option<int>, isActive: Option<bool>): (r: seq<Rental>)
    ensures |r| <= |all|
    ensures forall x :: x in r ==> x in all && MatchesUser(x, userId) && MatchesActivity(x, isActive)
  {
    Filter(Filter(all, (r: Rental) => MatchesUser(r, userId)),
           (r: Rental) => MatchesActivity(r, isActive))
  }

  /** The two filters are one filter on both conditions. */
  lemma SelectRentalsIsConjunction(all: seq<Rental>, userId: Option<int>, isActive: Option<bool>)
    ensures SelectRentals(all, userId, isActive)
            == Filter(all, (r: Rental) => MatchesUser(r, userId) && MatchesActivity(r, isActive))
  {
    FilterTwice(all, (r: Rental) => MatchesUser(r, userId), (r: Rental) => MatchesActivity(r, isActive),
                (r: Rental) => MatchesUser(r, userId) && MatchesActivity(r, isActive));
  }

  /** A rental is listed exactly when it passes the user filter and the
      activity filter: open for true, closed for false, any for none. */
  lemma SelectRentalsMembership(all: seq<Rental>, userId: Option<int>, isActive: Option<bool>, x: Rental)
    ensures x in SelectRentals(all, userId, isActive)
            <==> x in all
                 && (userId.None? || x.user.id == userId.value)
                 && (isActive.None? || isActive.value == IsOpen(x))
  {
    var byUser := Filter(all, (r: Rental) => MatchesUser(r, userId));
    FilterMembership(all, (r: Rental) => MatchesUser(r, userId), x);
    FilterMembership(byUser, (r: Rental) => MatchesActivity(r, isActive), x);
  }

  /** Without filters every rental is listed, in the original order. */
  lemma SelectRentalsUnfiltered(all: seq<Rental>)
    ensures SelectRentals(all, None, None) == all
  {
    FilterKeepsAll(all, (r: Rental) => MatchesUser(r, None));
    FilterKeepsAll(all, (r: Rental) => MatchesActivity(r, None));
  }

  /** The listing keeps the order of the store. */
  lemma SelectRentalsKeepsOrder(a: seq<Rental>, b: seq<Rental>, userId: Option<int>, isActive: Option<bool>)
    ensures SelectRentals(a + b, userId, isActive)
            == SelectRentals(a, userId, isActive) + SelectRentals(b, userId, isActive)
  {
    var p := (r: Rental) => MatchesUser(r, userId);
    FilterAppend(a, b, p);
    FilterAppend(Filter(a, p), Filter(b, p), (r: Rental) => MatchesActivity(r, isActive));
  }

  // ---------------------------------------------------------------------
  // The overdue sweep.

  predicate IsOverdue(r: Rental, today: Date) {
    r.returnDate < today && r.actualReturnDate.None?
  }

  function OverdueRentals(all: seq<Rental>, today: Date): (r: seq<Rental>)
    ensures forall x :: x in r ==> x in all && IsOpen(x) && x.returnDate < today
  {
    Filter(all, (r: Rental) => IsOverdue(r, today))
  }

  /** The sweep selects exactly the open rentals whose planned return date
      is before today; a rental due today is not overdue. */
  lemma OverdueRentalsExactly(all: seq<Rental>, today: Date, x: Rental)
    ensures x in OverdueRentals(all, today) <==> x in all && x.returnDate < today && IsOpen(x)
    ensures x.returnDate == today ==> x !in OverdueRentals(all, today)
  {
    FilterMembership(all, (r: Rental) => IsOverdue(r, today), x);
  }

  function OverdueMessage(chatId: int, r: Rental): Notification {
    Notification(Some(chatId), OverdueRental(r.id))
  }

  class RentalServiceImpl {
    const carRepository: Table<Car>
    const rentalRepository: Table<Rental>
    /** telegram.chat.id: where the sweep reports. */
    const chatId: int

    ghost predicate Valid()
      reads this, carRepository, rentalRepository
    {
      && carRepository.Valid() && rentalRepository.Valid()
      && CarsKeyed(carRepository.rows) && RentalsKeyed(rentalRepository.rows)
    }

    constructor (cars: Table<Car>, rentals: Table<Rental>, chatId: int)
      requires cars.Valid() && rentals.Valid() && CarsKeyed(cars.rows) && RentalsKeyed(rentals.rows)
      ensures carRepository == cars && rentalRepository == rentals && this.chatId == chatId
      ensures Valid()
    {
      carRepository := cars;
      rentalRepository := rentals;
      this.chatId := chatId;
    }

    /** save: book a car for a user. */
    method Save(request: RentalRequest, user: User) returns (result: Result<Rental>, sent: seq<Notification>)
      requires Valid()
      modifies carRepository, rentalRepository
      ensures Valid()
      // the guards, in order
      ensures CheckUserHasOpenRentals(old(rentalRepository.FindAll()), user).Fail?
              ==> result == Err(OpenRentalExists)
      ensures CheckUserHasOpenRentals(old(rentalRepository.FindAll()), user).Pass?
              && FindCarById(old(carRepository.rows), request.carId).Err?
              ==> result == Err(CarNotFoundForRental(request.carId))
      ensures CheckUserHasOpenRentals(old(rentalRepository.FindAll()), user).Pass?
              && FindCarById(old(carRepository.rows), request.carId).Ok?
              && old(carRepository.rows[request.carId].inventory) == 0
              ==> result == Err(CarUnavailable(request.carId))
      ensures CheckUserHasOpenRentals(old(rentalRepository.FindAll()), user).Pass?
              && FindCarById(old(carRepository.rows), request.carId).Ok?
              && old(carRepository.rows[request.carId].inventory) != 0
              && user.telegramChatId.None?
              ==> result == Err(ChatIdMissing)
      // it books exactly when every guard passes
      ensures result.Ok? <==>
                && CheckUserHasOpenRentals(old(rentalRepository.FindAll()), user).Pass?
                && FindCarById(old(carRepository.rows), request.carId).Ok?
                && old(carRepository.rows[request.carId].inventory) != 0
                && user.telegramChatId.Some?
      ensures result.Err? ==> unchanged(carRepository, rentalRepository) && sent == []
      // a booking
      ensures result.Ok? ==>
        && carRepository.rows == ReserveUnit(old(carRepository.rows), request.carId)
        && carRepository.order == old(carRepository.order)
        && carRepository.nextId == old(carRepository.nextId)
        && result.value == CreateNewRental(old(rentalRepository.nextId), request,
                                           old(carRepository.rows[request.carId]), user)
        && rentalRepository.rows == old(rentalRepository.rows)[result.value.id := result.value]
        && rentalRepository.order == old(rentalRepository.order) + [result.value.id]
        && rentalRepository.nextId == old(rentalRepository.nextId) + 1
        && sent == [Notification(user.telegramChatId, NewRentalCreated(user.username))]
      // the invariants it keeps
      ensures old(InventoryNonNegative(carRepository.rows)) ==> InventoryNonNegative(carRepository.rows)
      ensures old(AtMostOneOpenRentalPerUser(rentalRepository.rows))
              ==> AtMostOneOpenRentalPerUser(rentalRepository.rows)
      ensures old(RentalsReferToCars(rentalRepository.rows, carRepository.rows))
              ==> RentalsReferToCars(rentalRepository.rows, carRepository.rows)
    {
      var openCheck := CheckUserHasOpenRentals(rentalRepository.FindAll(), user);
      if openCheck.Fail? {
        return Err(openCheck.error), [];
      }
      var found := FindCarById(carRepository.rows, request.carId);
      if found.Err? {
        return Err(found.error), [];
      }
      var car := found.value;
      var available := CheckIsCarAvailable(car);
      if available.Fail? {
        return Err(available.error), [];
      }
      // The Java service notifies after both saves; a missing chat id throws there
      // and the transaction rolls both saves back, as failing here does.
      if user.telegramChatId.None? {
        return Err(ChatIdMissing), [];
      }
      forall k | k in rentalRepository.rows && IsOpen(rentalRepository.rows[k])
        ensures rentalRepository.rows[k].user.id != user.id
      {
        rentalRepository.ListedByFindAll(k);
      }
      if InventoryNonNegative(carRepository.rows) {
        ReserveKeepsInventoryNonNegative(carRepository.rows, car.id);
      }
      carRepository.Update(car.id, car.(inventory := car.inventory - 1));

      var rental := CreateNewRental(rentalRepository.nextId, request, car, user);
      if AtMostOneOpenRentalPerUser(rentalRepository.rows) {
        BookingKeepsOneOpenRental(rentalRepository.rows, rental.id, rental);
      }
      var id := rentalRepository.Insert(rental);
      result := Ok(rental);
      sent := [Notification(user.telegramChatId, NewRentalCreated(user.username))];
    }

    /** getRentalById */
    function GetRentalById(rentalId: int): (r: Result<Rental>)
      reads this, carRepository, rentalRepository
      requires Valid()
      ensures r.Ok? ==> r.value in rentalRepository.FindAll() && r.value.id == rentalId
      ensures r.Err? ==> r.error == RentalNotFound(rentalId)
                         && forall x :: x in rentalRepository.FindAll() ==> x.id != rentalId
    {
      var found := FindRentalById(rentalRepository.rows, rentalId);
      if found.Ok? then rentalRepository.ListedByFindAll(rentalId); found
      else NoStoredRentalHasId(rentalId); found
    }

    lemma NoStoredRentalHasId(rentalId: int)
      requires Valid() && rentalId !in rentalRepository.rows
      ensures forall x :: x in rentalRepository.FindAll() ==> x.id != rentalId
    {
      forall x | x in rentalRepository.FindAll() ensures x.id != rentalId {
        rentalRepository.FindAllIsStored(x);
      }
    }

    /** setActualReturnDate: close an open rental today and give its car's
        unit back. A rental holds the copy of its user taken at booking, while
        the Java service reads the live User entity, whose chat id /start may
        have changed since; `ownerChatId` is that user's chat id as it is now. */
    method SetActualReturnDate(rentalId: int, today: Date, ownerChatId: Option<int>)
      returns (result: Result<Rental>, sent: seq<Notification>)
      requires Valid()
      modifies carRepository, rentalRepository
      ensures Valid()
      ensures rentalId !in old(rentalRepository.rows) ==> result == Err(RentalNotFound(rentalId))
      ensures rentalId in old(rentalRepository.rows) && !IsOpen(old(rentalRepository.rows[rentalId]))
              ==> result == Err(RentalIsClosed)
      ensures rentalId in old(rentalRepository.rows) && IsOpen(old(rentalRepository.rows[rentalId]))
              && FindCar(old(carRepository.rows), old(rentalRepository.rows[rentalId].carId)).None?
              ==> result == Err(CarNotFoundForRental(old(rentalRepository.rows[rentalId].carId)))
      ensures rentalId in old(rentalRepository.rows) && IsOpen(old(rentalRepository.rows[rentalId]))
              && FindCar(old(carRepository.rows), old(rentalRepository.rows[rentalId].carId)).Some?
              && ownerChatId.None?
              ==> result == Err(ChatIdMissing)
      // it closes exactly when the rental is found and open, its car is
      // found and its user has a chat id
      ensures result.Ok? <==>
                && rentalId in old(rentalRepository.rows) && IsOpen(old(rentalRepository.rows[rentalId]))
                && FindCar(old(carRepository.rows), old(rentalRepository.rows[rentalId].carId)).Some?
                && ownerChatId.Some?
      ensures result.Err? ==> unchanged(carRepository, rentalRepository) && sent == []
      ensures result.Ok? ==>
        var before := old(rentalRepository.rows[rentalId]);
        && result.value == CloseRental(before, today)
        && rentalRepository.rows == old(rentalRepository.rows)[rentalId := result.value]
        && rentalRepository.order == old(rentalRepository.order)
        && rentalRepository.nextId == old(rentalRepository.nextId)
        && carRepository.rows == ReleaseUnit(old(carRepository.rows), before.carId)
        && carRepository.order == old(carRepository.order)
        && carRepository.nextId == old(carRepository.nextId)
        && sent == [Notification(ownerChatId, RentalReturned)]
      ensures old(InventoryNonNegative(carRepository.rows)) ==> InventoryNonNegative(carRepository.rows)
      ensures old(AtMostOneOpenRentalPerUser(rentalRepository.rows))
              ==> AtMostOneOpenRentalPerUser(rentalRepository.rows)
      ensures old(RentalsReferToCars(rentalRepository.rows, carRepository.rows))
              ==> RentalsReferToCars(rentalRepository.rows, carRepository.rows)
    {
      var found := FindRentalById(rentalRepository.rows, rentalId);
      if found.Err? {
        return Err(found.error), [];
      }
      var rental := found.value;
      var closed := CheckRentalIsClosed(rental);
      if closed.Fail? {
        return Err(closed.error), [];
      }
      if AtMostOneOpenRentalPerUser(rentalRepository.rows) {
        ClosingKeepsOneOpenRental(rentalRepository.rows, rentalId, today);
      }
      // The Java service saves the closed rental before it looks the car up, and
      // notifies last; when the lookup or the notifier throws, the
      // transaction rolls the saves back. Failing before any save leaves the
      // same state behind.
      var carFound := FindCarById(carRepository.rows, rental.carId);
      if carFound.Err? {
        return Err(carFound.error), [];
      }
      if ownerChatId.None? {
        return Err(ChatIdMissing), [];
      }
      var returned := CloseRental(rental, today);
      rentalRepository.Update(rentalId, returned);
      var car := carFound.value;
      if InventoryNonNegative(carRepository.rows) {
        ReleaseKeepsInventoryNonNegative(carRepository.rows, car.id);
      }
      carRepository.Update(car.id, car.(inventory := car.inventory + 1));
      result := Ok(returned);
      sent := [Notification(ownerChatId, RentalReturned)];
    }

    /** getRentalsByUserId: the stored rentals that pass both optional filters. */
    function GetRentalsByUserId(userId: Option<int>, isActive: Option<bool>): (r: seq<Rental>)
      reads this, carRepository, rentalRepository
      requires Valid()
      ensures forall k :: k in rentalRepository.rows ==>
                (rentalRepository.rows[k] in r
                 <==> MatchesUser(rentalRepository.rows[k], userId)
                      && MatchesActivity(rentalRepository.rows[k], isActive))
      ensures forall x :: x in r ==>
                x in rentalRepository.rows.Values && MatchesUser(x, userId) && MatchesActivity(x, isActive)
      ensures userId.None? && isActive.None? ==> r == rentalRepository.FindAll()
    {
      ListingSpec(userId, isActive);
      SelectRentals(rentalRepository.FindAll(), userId, isActive)
    }

    lemma ListingSpec(userId: Option<int>, isActive: Option<bool>)
      requires Valid()
      ensures var r := SelectRentals(rentalRepository.FindAll(), userId, isActive);
        && (forall k :: k in rentalRepository.rows ==>
              (rentalRepository.rows[k] in r
               <==> MatchesUser(rentalRepository.rows[k], userId)
                    && MatchesActivity(rentalRepository.rows[k], isActive)))
        && (forall x :: x in r ==>
              x in rentalRepository.rows.Values && MatchesUser(x, userId) && MatchesActivity(x, isActive))
        && (userId.None? && isActive.None? ==> r == rentalRepository.FindAll())
    {
      var all := rentalRepository.FindAll();
      var r := SelectRentals(all, userId, isActive);
      forall k | k in rentalRepository.rows
        ensures rentalRepository.rows[k] in r
                <==> MatchesUser(rentalRepository.rows[k], userId)
                     && MatchesActivity(rentalRepository.rows[k], isActive)
      {
        rentalRepository.ListedByFindAll(k);
        SelectRentalsMembership(all, userId, isActive, rentalRepository.rows[k]);
      }
      forall x | x in r
        ensures x in rentalRepository.rows.Values && MatchesUser(x, userId) && MatchesActivity(x, isActive)
      {
        SelectRentalsMembership(all, userId, isActive, x);
        rentalRepository.FindAllIsStored(x);
      }
      if userId.None? && isActive.None? {
        SelectRentalsUnfiltered(all);
      }
    }

    /** checkOverdueRentals: one message per overdue rental, in store
        order, or one "none" message; nothing is changed. */
    method CheckOverdueRentals(today: Date) returns (sent: seq<Notification>)
      requires Valid()
      ensures var overdue := OverdueRentals(rentalRepository.FindAll(), today);
        && (overdue == [] ==> sent == [Notification(Some(chatId), NoRentalsOverdue)])
        && (overdue != [] ==> |sent| == |overdue|
                              && forall i :: 0 <= i < |overdue| ==> sent[i] == OverdueMessage(chatId, overdue[i]))
      ensures forall k :: k in rentalRepository.rows ==>
                (OverdueMessage(chatId, rentalRepository.rows[k]) in sent
                 <==> IsOverdue(rentalRepository.rows[k], today))
    {
      var overdue := OverdueRentals(rentalRepository.FindAll(), today);
      if |overdue| == 0 {
        sent := [Notification(Some(chatId), NoRentalsOverdue)];
      } else {
        sent := [];
        for i := 0 to |overdue|
          invariant |sent| == i
          invariant forall j :: 0 <= j < i ==> sent[j] == OverdueMessage(chatId, overdue[j])
        {
          sent := sent + [OverdueMessage(chatId, overdue[i])];
        }
      }
      SweepNamesExactlyOverdue(today, overdue, sent);
    }

    lemma SweepNamesExactlyOverdue(today: Date, overdue: seq<Rental>, sent: seq<Notification>)
      requires Valid()
      requires overdue == OverdueRentals(rentalRepository.FindAll(), today)
      requires overdue == [] ==> sent == [Notification(Some(chatId), NoRentalsOverdue)]
      requires overdue != [] ==>
                 |sent| == |overdue| && forall i :: 0 <= i < |overdue| ==> sent[i] == OverdueMessage(chatId, overdue[i])
      ensures forall k :: k in rentalRepository.rows ==>
                (OverdueMessage(chatId, rentalRepository.rows[k]) in sent
                 <==> IsOverdue(rentalRepository.rows[k], today))
    {
      var all := rentalRepository.FindAll();
      forall k | k in rentalRepository.rows
        ensures OverdueMessage(chatId, rentalRepository.rows[k]) in sent
                <==> IsOverdue(rentalRepository.rows[k], today)
      {
        var x := rentalRepository.rows[k];
        rentalRepository.ListedByFindAll(k);
        OverdueRentalsExactly(all, today, x);
        if IsOverdue(x, today) {
          var i :| 0 <= i < |overdue| && overdue[i] == x;
          assert sent[i] == OverdueMessage(chatId, x);
        }
        if OverdueMessage(chatId, x) in sent {
          var i :| 0 <= i < |sent| && sent[i] == OverdueMessage(chatId, x);
          assert overdue != [];
          var y := overdue[i];
          OverdueRentalsExactly(all, today, y);
          rentalRepository.FindAllIsStored(y);
          assert y.id == k;
          assert y == x;
        }
      }
    }
  }
}

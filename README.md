# Car-sharing rental and payment engine, in Dafny

This project models the business rules of the car-sharing service:
- booking a car against its inventory and closing the rental when the car comes back;
- listing rentals and the daily sweep that reports overdue rentals;
- the amount owed for a closed rental, including the late-return fine;
- the checks before a payment is created, settling a payment, and the rule that decides whose payments a caller may see;
- the car catalogue, with its case-insensitive type check and soft delete;
- the password-match constraint on a registration request.

The JPA repositories are in-memory tables (`Repository.Table`). Each table holds:
- the rows by id;
- a listing order over the ids, which is what `findAll` returns in the model (insertion order; see Left out);
- the next identity the database will generate.

Each service is a class that holds references to the tables it uses. Entities are values; a JPA entity whose setters run one after another becomes one record update.

Several things the services read from outside become parameters of the model:
- the current user;
- "today";
- the payment provider's session;
- the chat id the overdue sweep reports to.

Notifications are returned as a sequence of (chat id, message) pairs. Dates are day numbers. Money is `real`, which is exact, as `BigDecimal` is.

Modules:
- `Domain` (domain.dfy): entities, errors and the exception class each one maps to, messages, and the invariants shared by the services.
- `Seqs` (seqs.dfy): `Stream.filter(...).toList()` and its laws.
- `Repository` (repository.dfy): the table class and the soft-delete lookup of cars.
- `RentalService` (rental_service.dfy): `RentalServiceImpl`.
- `PaymentService` (payment_service.dfy): `PaymentServiceImpl`.
- `CarService` (car_service.dfy): `CarServiceImpl`, with the type conversion of `CarMapper`.
- `PasswordValidator` (password_validator.dfy): `PasswordValidator`.

Invariants the services keep across calls:
- every inventory stays non-negative;
- a user has at most one open rental;
- every rental names a stored car;
- a rental is not paid twice, which holds only for the corrected settlement; see Findings.

Each state-changing method states its invariants as "if it held before, it holds after".

The late-fee branch does not clamp a negative rental duration; `PaymentService.LateBranchDoesNotClampDuration` shows the result.

## Model

| member | source | states |
|---|---|---|
| RentalService.RentalServiceImpl.Save | src/main/java/carsharingapp/service/impl/RentalServiceImpl.java:39-56 | The guards run in order: an open rental of the user, then a missing or deleted car, then an inventory of 0, then a user without a Telegram chat id (NullPointerException; the transaction rolls the saves back). It succeeds exactly when all four guards pass. On any failure nothing changes and nothing is sent. On success the car loses exactly one unit, exactly one open rental is stored under the next id with the requested dates, user and car, the rental id generator advances by one, and one "new rental" notification goes to the user. The inventory, one-open-rental and rental-to-car invariants are kept. |
| RentalService.RentalServiceImpl.GetRentalById | src/main/java/carsharingapp/service/impl/RentalServiceImpl.java:58-63 | Returns a stored rental with that id, or RentalNotFound when no stored rental has it. |
| RentalService.RentalServiceImpl.NoStoredRentalHasId | src/main/java/carsharingapp/service/impl/RentalServiceImpl.java:152-155 | An id missing from the table names none of the rentals findAll lists. |
| RentalService.RentalServiceImpl.SetActualReturnDate | src/main/java/carsharingapp/service/impl/RentalServiceImpl.java:65-79 | The errors come in order: RentalNotFound, then RentalIsClosed, then a missing car, then no Telegram chat id on the rental's user as that user is stored now (NullPointerException, rolled back). That chat id is a parameter, because the rental's copy of its user is the one taken at booking. It succeeds exactly when none of these happens. Each error leaves the state unchanged. On success the rental gets today as its actual return date, its car gains exactly one unit, nothing else changes, and the "returned" message goes to the user's current chat id. The three invariants are kept. |
| RentalService.RentalServiceImpl.GetRentalsByUserId | src/main/java/carsharingapp/service/impl/RentalServiceImpl.java:81-97 | A stored rental is listed exactly when it passes both optional filters. Everything listed is stored. With no filters, findAll is returned as it is. |
| RentalService.RentalServiceImpl.ListingSpec | src/main/java/carsharingapp/service/impl/RentalServiceImpl.java:86-96 | The two chained filters over findAll list exactly the stored rentals that pass both, and nothing else. |
| RentalService.RentalServiceImpl.CheckOverdueRentals | src/main/java/carsharingapp/service/impl/RentalServiceImpl.java:99-117 | With no overdue rental, exactly one "No rentals overdue today!" goes to the configured chat. Otherwise there is one message per overdue rental, in store order. A stored rental is reported exactly when it is overdue. Nothing is modified. |
| RentalService.RentalServiceImpl.SweepNamesExactlyOverdue | src/main/java/carsharingapp/service/impl/RentalServiceImpl.java:108-116 | The messages the loop builds name exactly the stored rentals that are open with a return date before today. |
| RentalService.CheckUserHasOpenRentals | src/main/java/carsharingapp/service/impl/RentalServiceImpl.java:119-125 | Passes exactly when the user has no rental without an actual return date; otherwise a RentalException. |
| RentalService.OpenRentalsOf | src/main/java/carsharingapp/repository/RentalRepository.java:9-11 | The open-rental query lists only rentals of that user that are still open; OpenRentalsOfEmpty gives the other direction. |
| RentalService.OpenRentalsOfEmpty | src/main/java/carsharingapp/repository/RentalRepository.java:9-11 | The open-rental query is empty exactly when no rental of that user is open. |
| RentalService.CreateNewRental | src/main/java/carsharingapp/service/impl/RentalServiceImpl.java:127-136 | The new rental is open and carries the requested dates, the user and the car. |
| RentalService.CheckIsCarAvailable | src/main/java/carsharingapp/service/impl/RentalServiceImpl.java:138-144 | Fails with CarAvailableException exactly when the inventory is 0. A car that passes with a non-negative inventory can give up one unit. |
| RentalService.FindCarById | src/main/java/carsharingapp/service/impl/RentalServiceImpl.java:146-150 | Finds exactly the stored cars that are not soft-deleted; a miss raises a RentalException. |
| RentalService.FindRentalById | src/main/java/carsharingapp/service/impl/RentalServiceImpl.java:152-155 | Finds exactly the stored rentals; a miss raises a RentalException. |
| RentalService.CheckRentalIsClosed | src/main/java/carsharingapp/service/impl/RentalServiceImpl.java:157-161 | Passes exactly when the rental is open; a closed rental raises a RentalException. |
| RentalService.ReserveUnit | src/main/java/carsharingapp/service/impl/RentalServiceImpl.java:46 | Exactly one unit is taken from the booked car. The car's other fields, every other car and the set of ids are unchanged. |
| RentalService.ReleaseUnit | src/main/java/carsharingapp/service/impl/RentalServiceImpl.java:74 | Exactly one unit is given back to the returned car. The car's other fields, every other car and the set of ids are unchanged. |
| RentalService.CloseRental | src/main/java/carsharingapp/service/impl/RentalServiceImpl.java:70 | The rental is closed, its actual return date is today, and no other field changes. |
| RentalService.ReleaseUndoesReserve | src/main/java/carsharingapp/service/impl/RentalServiceImpl.java:46-74 | Booking a car then returning it restores its inventory. |
| RentalService.ReserveKeepsInventoryNonNegative | src/main/java/carsharingapp/service/impl/RentalServiceImpl.java:45-46 | Taking one unit from a car whose inventory is not 0 keeps every inventory non-negative, and changes no other car. |
| RentalService.ReleaseKeepsInventoryNonNegative | src/main/java/carsharingapp/service/impl/RentalServiceImpl.java:74 | Giving one unit back keeps every inventory non-negative, and changes no other car. |
| RentalService.BookingKeepsOneOpenRental | src/main/java/carsharingapp/service/impl/RentalServiceImpl.java:43-50 | A new open rental for a user with no open rental keeps "at most one open rental per user". |
| RentalService.ClosingKeepsOneOpenRental | src/main/java/carsharingapp/service/impl/RentalServiceImpl.java:69-71 | Closing a rental keeps "at most one open rental per user", and the closed rental is no longer open. |
| RentalService.SelectRentals | src/main/java/carsharingapp/service/impl/RentalServiceImpl.java:86-96 | The listing is no longer than findAll, and everything on it is from findAll and passes both optional filters; SelectRentalsMembership gives the other direction. |
| RentalService.SelectRentalsIsConjunction | src/main/java/carsharingapp/service/impl/RentalServiceImpl.java:86-94 | The two chained filters equal one filter on the conjunction of both conditions. |
| RentalService.SelectRentalsMembership | src/main/java/carsharingapp/service/impl/RentalServiceImpl.java:87-94 | A rental is listed exactly when it matches the user id (or none is given) and its open state matches isActive (or none is given). |
| RentalService.SelectRentalsUnfiltered | src/main/java/carsharingapp/service/impl/RentalServiceImpl.java:86-96 | Two null filters return every rental, in the original order. |
| RentalService.SelectRentalsKeepsOrder | src/main/java/carsharingapp/service/impl/RentalServiceImpl.java:86-96 | The listing of a concatenation is the concatenation of the listings, so the store order is kept. |
| RentalService.OverdueRentals | src/main/java/carsharingapp/service/impl/RentalServiceImpl.java:101-106 | Everything the sweep selects is from findAll, open and past its planned return date; OverdueRentalsExactly gives the other direction. |
| RentalService.OverdueRentalsExactly | src/main/java/carsharingapp/service/impl/RentalServiceImpl.java:101-106 | A rental is selected exactly when it is open and its return date is before today; one due today is not selected. |
| Repository.FindCar | src/main/java/carsharingapp/model/Car.java:21-22 | A lookup finds a car exactly when it is stored and not soft-deleted. |
| Repository.Table.FindAll | src/main/java/carsharingapp/repository/RentalRepository.java:8 | JpaRepository.findAll lists every stored row once, one per id in the listing order; ListedByFindAll and FindAllIsStored state both directions of membership. |
| Repository.Table.ListedByFindAll | src/main/java/carsharingapp/repository/RentalRepository.java:8 | Every stored row is listed by findAll. |
| Repository.Table.FindAllIsStored | src/main/java/carsharingapp/repository/RentalRepository.java:8 | Everything findAll lists is a stored row. |
| Repository.Table.Insert | src/main/java/carsharingapp/service/impl/RentalServiceImpl.java:50 | Saving a new entity stores it under the next generated id, which was free, appends that id to the listing, and advances the generator by one; no other row changes. |
| Repository.Table.Update | src/main/java/carsharingapp/service/impl/RentalServiceImpl.java:71 | Saving a stored entity replaces only its row; the listing and the id generator are unchanged. |
| PaymentService.OnTimeAmount | src/main/java/carsharingapp/service/impl/PaymentServiceImpl.java:132-134 | Returned on or before the planned date: the daily fee times max(1, days rented). |
| PaymentService.LateAmount | src/main/java/carsharingapp/service/impl/PaymentServiceImpl.java:126-131 | Returned after the planned date: the daily fee times the days rented, plus the daily fee times 1.5 times the overdue days. |
| PaymentService.ReturnOnPlannedDayIsOnTime | src/main/java/carsharingapp/service/impl/PaymentServiceImpl.java:137-139 | Returning exactly on the planned date is not late, and such a same-day rental costs one daily fee. |
| PaymentService.AmountCoversOneDay | src/main/java/carsharingapp/service/impl/PaymentServiceImpl.java:122-135 | With a non-negative fee and a planned return date no earlier than the start, the amount is at least one daily fee. |
| PaymentService.EachLateDayCostsTwoAndAHalfFees | src/main/java/carsharingapp/service/impl/PaymentServiceImpl.java:126-131 | Once late, every further day adds 2.5 daily fees: one for the day rented and 1.5 for the fine. |
| PaymentService.LateCostsMoreThanOnTime | src/main/java/carsharingapp/service/impl/PaymentServiceImpl.java:122-135 | With a positive fee, returning late costs strictly more than returning on the planned date. |
| PaymentService.LateBranchDoesNotClampDuration | src/main/java/carsharingapp/service/impl/PaymentServiceImpl.java:126-131 | A planned return date before the start, with the car returned in between, gives a negative amount (-750 for a fee of 100). |
| PaymentService.FeeExamples | src/main/java/carsharingapp/service/impl/PaymentServiceImpl.java:122-135 | At a fee of 100 with a five-day plan: 400 for a return on day 4, 100 for a same-day return, 1250 for a return on day 8. |
| PaymentService.IsRentalClosedLate | src/main/java/carsharingapp/service/impl/PaymentServiceImpl.java:137-139 | Late exactly when the number of days past the planned return date is positive. |
| PaymentService.CalculateAmountToPay | src/main/java/carsharingapp/service/impl/PaymentServiceImpl.java:122-135 | With a non-negative fee, a car returned no earlier than it was taken costs at least one daily fee. Both branches are stated by OnTimeAmount and LateAmount. |
| PaymentService.FindByRentalId | src/main/java/carsharingapp/repository/PaymentRepository.java:14 | With no payment for the rental, the result is empty. With one, it is that payment. With more than one, IncorrectResultSizeDataAccessException. |
| PaymentService.PaymentsOfRental | src/main/java/carsharingapp/repository/PaymentRepository.java:14 | The rows the rental query matches all name that rental; FilterEmpty and FilterSingle relate them to the whole table. |
| PaymentService.FilterEmpty | src/main/java/carsharingapp/repository/PaymentRepository.java:14 | The rental's payments are none exactly when no payment names the rental. |
| PaymentService.FilterSingle | src/main/java/carsharingapp/repository/PaymentRepository.java:14 | When a single payment names the rental, it is every payment that names the rental. |
| PaymentService.CheckPaymentIsDone | src/main/java/carsharingapp/service/impl/PaymentServiceImpl.java:113-120 | Passing means no payment of the rental is PAID. With at most one payment, it fails exactly when that payment is PAID, with PaidPaymentException. With more than one, it fails with the non-unique-result error, whatever their statuses. |
| PaymentService.PendingPaymentDoesNotBlock | src/main/java/carsharingapp/service/impl/PaymentServiceImpl.java:113-120 | A PENDING payment for a closed rental of the caller does not stop a new payment. |
| PaymentService.CheckUserIsRentalOwner | src/main/java/carsharingapp/service/impl/PaymentServiceImpl.java:99-104 | Passes exactly when the caller owns the rental; otherwise PaidPaymentException. |
| PaymentService.CheckRentalIsClosed | src/main/java/carsharingapp/service/impl/PaymentServiceImpl.java:106-111 | Passes exactly when the rental has an actual return date; otherwise RuntimeException. |
| PaymentService.ValidateAndRetrieveRental | src/main/java/carsharingapp/service/impl/PaymentServiceImpl.java:89-97 | The errors come in order: not found, then not the owner, then still open, then already paid. A success is the stored, closed rental of the caller with no PAID payment. |
| PaymentService.InitializePayment | src/main/java/carsharingapp/service/impl/PaymentServiceImpl.java:141-148 | The new payment is PENDING, of type PAYMENT, for that rental, with amount 0 and no session. |
| PaymentService.UpdatePayment | src/main/java/carsharingapp/service/impl/PaymentServiceImpl.java:189-194 | Records the session id and URL and the amount, and keeps the payment PENDING. Id, rental and type are unchanged. |
| PaymentService.ValidateUserAccess | src/main/java/carsharingapp/service/impl/PaymentServiceImpl.java:205-212 | A refusal is a CustomerAccessException naming the requested user id. |
| PaymentService.AccessRule | src/main/java/carsharingapp/service/impl/PaymentServiceImpl.java:205-212 | A caller without ROLE_CUSTOMER may ask about any id. A customer is allowed exactly for their own id. Everyone may ask about themselves. |
| PaymentService.MarkPaidIsIdempotent | src/main/java/carsharingapp/service/impl/PaymentServiceImpl.java:85 | Settlement makes the status PAID and changes no other field; doing it twice is doing it once. |
| PaymentService.MarkPaid | src/main/java/carsharingapp/service/impl/PaymentServiceImpl.java:85 | The payment becomes PAID and no other field changes. |
| PaymentService.FindPaymentById | src/main/java/carsharingapp/service/impl/PaymentServiceImpl.java:214-218 | Finds exactly the stored payments; a miss raises EntityNotFoundException. |
| PaymentService.PaymentsOfUser | src/main/java/carsharingapp/repository/PaymentRepository.java:10-12 | Everything the user query lists is a payment whose rental belongs to the user; UserPaymentsSpec gives the other direction. |
| PaymentService.TwoPendingPaymentsCanBothBecomePaid | src/main/java/carsharingapp/service/impl/PaymentServiceImpl.java:82-87 | Two payments of one rental can be created while the first is PENDING. Settling both breaks "at most one PAID payment per rental". |
| PaymentService.PaymentServiceImpl.CreatePayment | src/main/java/carsharingapp/service/impl/PaymentServiceImpl.java:53-70 | A failed check returns its error. A failed session returns SessionCreationFailed. A caller without a Telegram chat id then gets NullPointerException, and the save is rolled back. It succeeds exactly when the checks pass, the session exists and the caller has a chat id. Each failure saves nothing and sends nothing. On success exactly one payment is stored under the next id, which then advances by one: PENDING, type PAYMENT, the computed amount at the car's daily fee, and the session's id and URL. "Rental with id … was successfully paid" goes to the caller. |
| PaymentService.PaymentServiceImpl.GetPaymentsByUserId | src/main/java/carsharingapp/service/impl/PaymentServiceImpl.java:72-78 | A customer asking about another id is refused. Otherwise a stored payment is listed exactly when its rental belongs to the user, and everything listed is a stored payment whose rental belongs to the user. |
| PaymentService.PaymentServiceImpl.UserPaymentsSpec | src/main/java/carsharingapp/repository/PaymentRepository.java:10-12 | The user query lists a stored payment exactly when its rental's user has that id, and lists nothing that is not such a stored payment. |
| PaymentService.PaymentServiceImpl.VerifySuccessfulPayment | src/main/java/carsharingapp/service/impl/PaymentServiceImpl.java:80-87 | A missing payment gives PaymentNotFound. Otherwise the result is the access rule applied to the rental's owner. On success only that payment changes, to PAID status, whatever it was before; a failure changes nothing. |
| PaymentService.PaymentServiceImpl.VerifySuccessfulPaymentOnce | src/main/java/carsharingapp/service/impl/PaymentServiceImpl.java:80-87 | As settlement, with the access rule checked first. Then it refuses with AlreadyPaid exactly when another payment of the same rental is already PAID. It succeeds exactly when access is allowed and no other payment of the rental is PAID. A failure changes nothing. A success changes only that row, to PAID, and leaves the listing and the id generator alone. "At most one PAID payment per rental" is kept. |
| CarService.LetterMatch | src/main/java/carsharingapp/service/impl/CarServiceImpl.java:60-61 | A letter of a type name is matched case-insensitively by its own upper and lower case. Beyond ASCII it is matched only by the dotless i, the long s, the dotted capital I and the Kelvin sign. |
| CarService.EqualsIgnoreCase | src/main/java/carsharingapp/service/impl/CarServiceImpl.java:60-61 | Strings of different lengths never match, and every string matches itself. |
| CarService.EqualsIgnoreCaseIsSymmetric | src/main/java/carsharingapp/service/impl/CarServiceImpl.java:60-61 | Ignoring case, s matches t exactly when t matches s. |
| CarService.UpperCase | src/main/java/carsharingapp/mapper/CarMapper.java:21 | The upper case has the same length, and each character is Java's upper case of the original one. |
| CarService.LowerCase | src/main/java/carsharingapp/service/impl/CarServiceImpl.java:60-61 | The lower case has the same length, and each character is Java's lower case of the original one. |
| CarService.IsValidTypeMeans | src/main/java/carsharingapp/service/impl/CarServiceImpl.java:60-61 | The anyMatch over Car.Type.values() holds exactly when some type's name matches. |
| CarService.CheckIfCarTypeIsValid | src/main/java/carsharingapp/service/impl/CarServiceImpl.java:59-67 | Passes exactly when some type name equals the string ignoring case; otherwise IllegalArgumentException. |
| CarService.AsciiTypeCheck | src/main/java/carsharingapp/service/impl/CarServiceImpl.java:59-67 | For ASCII input, the check passes exactly when the string's upper case is one of SEDAN, SUV, HATCHBACK, UNIVERSAL. |
| CarService.MatchesNameExactly | src/main/java/carsharingapp/service/impl/CarServiceImpl.java:60-61 | Without the dotted capital I or the Kelvin sign, matching a name ignoring case is equality of the upper case with the name. |
| CarService.AllTypesListed | src/main/java/carsharingapp/model/Car.java:43-48 | Every type is among the declared values, and its name is upper-case ASCII. |
| CarService.ValueOf | src/main/java/carsharingapp/model/Car.java:43-48 | Car.Type.valueOf accepts exactly the four names and otherwise raises IllegalArgumentException. |
| CarService.ParseType | src/main/java/carsharingapp/mapper/CarMapper.java:19-22 | The @AfterMapping conversion succeeds exactly when the upper case of the string is a type name, and yields that type; otherwise IllegalArgumentException naming the upper-cased string. |
| CarService.ValidTypeParses | src/main/java/carsharingapp/mapper/CarMapper.java:19-22 | A string that passes the check and holds neither the dotted capital I nor the Kelvin sign converts to the type it matched. |
| CarService.ParsedTypePassesCheck | src/main/java/carsharingapp/mapper/CarMapper.java:19-22 | A string that converts also passes the check, matching the type it converts to. |
| CarService.NamesAreAccepted | src/main/java/carsharingapp/service/impl/CarServiceImpl.java:59-67 | Every type name, and its lower-case form, passes the check and converts to that type. |
| CarService.KelvinSignPassesCheckOnly | src/main/java/carsharingapp/mapper/CarMapper.java:19-22 | "HATCHBAC" followed by the Kelvin sign passes the check, but the conversion after it raises IllegalArgumentException. |
| CarService.ExactNameConvertsAlike | src/main/java/carsharingapp/mapper/CarMapper.java:19-29 | An exact type name passes the check, and the @AfterMapping's upper-case conversion yields the type the exact conversion gave. |
| CarService.LowerCaseNameRefusedOnUpdate | src/main/java/carsharingapp/service/impl/CarServiceImpl.java:44-52 | "suv" passes the check and converts when a car is added, but the exact conversion in the update raises IllegalArgumentException. |
| CarService.UnknownTypeRefused | src/main/java/carsharingapp/service/impl/CarServiceImpl.java:59-67 | "van" is refused. |
| CarService.NewCar | src/main/java/carsharingapp/mapper/CarMapper.java:16-17 | A new car is not deleted and carries the request's brand, model, inventory, fee and the converted type. |
| CarService.UpdateCar | src/main/java/carsharingapp/mapper/CarMapper.java:29 | The update takes the request's fields and keeps the car's id and deleted flag. |
| CarService.CarServiceImpl.GetCarById | src/main/java/carsharingapp/service/impl/CarServiceImpl.java:39-42 | Finds exactly the stored, non-deleted cars; a miss raises EntityNotFoundException. |
| CarService.CarServiceImpl.AddNewCar | src/main/java/carsharingapp/service/impl/CarServiceImpl.java:23-30 | An invalid type, or one that does not convert, stores nothing. Otherwise exactly one new car is stored under the next id, the id generator advances by one, and a lookup finds it. Inventories stay non-negative when the request's is, and no car disappears. |
| CarService.CarServiceImpl.UpdateCarById | src/main/java/carsharingapp/service/impl/CarServiceImpl.java:44-52 | The type is checked before the lookup, so an invalid type is refused even for a missing id. A missing id is EntityNotFoundException. Then a type string that is not an exact type name raises IllegalArgumentException (the generated mapper's exact conversion). It succeeds exactly when all three pass. A failure changes nothing. A success replaces only that car, keeping its id. |
| CarService.CarServiceImpl.DeleteCarById | src/main/java/carsharingapp/service/impl/CarServiceImpl.java:54-57 | Afterwards the car is not found, and every other lookup is as before. A found car is only flagged as deleted. A missing id changes nothing. |
| PasswordValidator.ObjectsEquals | src/main/java/carsharingapp/validation/PasswordValidator.java:13-14 | Objects.equals on two nullable strings is exactly equality: both null, or both present and equal. |
| PasswordValidator.IsValid | src/main/java/carsharingapp/validation/PasswordValidator.java:11-15 | Valid exactly when the password equals its repetition. |
| PasswordValidator.BothNullIsValid | src/main/java/carsharingapp/validation/PasswordValidator.java:13-14 | Two missing passwords are valid. |
| PasswordValidator.OneNullIsInvalid | src/main/java/carsharingapp/validation/PasswordValidator.java:13-14 | Exactly one missing password is invalid. |
| PasswordValidator.ValidityIsSymmetric | src/main/java/carsharingapp/validation/PasswordValidator.java:11-15 | Swapping the two fields keeps the verdict, and no other field affects it. |

## Left out

- Stripe: session creation is a parameter, `None` when the provider fails. The model leaves out the API key, the line-item parameters, the expiry and the callback URLs. Those URLs are built from a payment id that is still null at that moment.
- The provider's amount in cents (`amountToPay * 100` truncated to a long) is sent only to Stripe and is not modelled.
- Turning the session URL string into a `java.net.URL` can fail with IllegalArgumentException; the model takes the URL as given.
- Telegram delivery is network I/O. Notifications are returned as a sequence. A failed delivery is not modelled; it is caught and logged. A null chat id is not caught: `chatId.toString()` (src/main/java/carsharingapp/service/impl/TelegramNotificationService.java:28) throws NullPointerException, modelled as the ChatIdMissing error of the notifying operation. Registration never sets a chat id; only the bot's /start handler does.
- `UserService.getCurrentUser`, the JWT machinery and `userRepository.getReferenceById` are outside the model. The current user, or the booking user, is passed in resolved. A user id that names no user is not modelled.
- `LocalDate.now()` is the `today` parameter. The `@Scheduled` timing of the sweep is not modelled; the sweep is a plain call.
- Concurrency and `@Transactional` atomicity are not modelled; the model is single-threaded. RentalService.RentalServiceImpl.SetActualReturnDate looks the car up before it saves the closed rental; the Java service saves first and relies on the rollback when the lookup throws. The final state is the same.
- `getAllCars` with paging is not modelled, because paging and sorting belong to Spring Data.
- The unique constraint on a car's model column is not modelled, because that rejection happens in the database.
- Inventories are unbounded integers; Java `int` overflow is not modelled.
- Mapper and DTO plumbing (`toDto`, the response projections, HTTP status mapping) is not modelled.
- The generated mapper code is not part of this model. CarService.CarServiceImpl.UpdateCarById follows MapStruct's documented behaviour for `updateCar`: an exact `Enum.valueOf` of the type string, then the `@AfterMapping` conversion.
- CarService.JavaUpper: String.toUpperCase is modelled only on the characters that can pass the type check, where it agrees with the default locale; the Turkish locale is not modelled.
- A null type string in a car request is not modelled. The check refuses it as well, since `equalsIgnoreCase(null)` is false.
- PaymentService.PaymentServiceImpl.CreatePayment: the amount uses the stored car row of the rental. Whether Hibernate would hide a soft-deleted car behind the rental's association is not modelled.
- PaymentService.PaymentServiceImpl.GetPaymentsByUserId: the query has no ORDER BY, so the model lists payments in insertion order. Only which payments are listed is stated, not their order.
- Repository.Table.FindAll: `findAll` has no ORDER BY and the database may return rows in any order. Insertion order is the model's choice, so the order of a listing or of the overdue messages is a property of the model only.
- The database schema is not part of this model. A unique constraint on the payment's rental column, if the schema has one, would reject the second payment in Findings.
- Entities are values. A car, a rental or a payment is one row of its table, so two Java references to it are that row. There is no user table: each rental holds a copy of its user taken at booking, and a later change to the live User entity (the chat id set by /start) does not reach that copy. RentalService.RentalServiceImpl.SetActualReturnDate therefore takes the user's current chat id as a parameter. No other operation reads a user field that can change after booking.
- The code does not check that the return date is no earlier than the start date, and neither does the model.

## Findings

| source | as written | input that shows it | evidently intended | confidence | as-written member | corrected member |
|---|---|---|---|---|---|---|
| src/main/java/carsharingapp/service/impl/PaymentServiceImpl.java:82-87 | Settlement sets the status to PAID without looking at the rental's other payments. Creating a payment is blocked only by a PAID payment, not a PENDING one, so a rental can get two PENDING payments. | Create payment 1 for rental 7 (no payment yet), then payment 2 for rental 7 (payment 1 is PENDING), then settle both: rental 7 has two PAID payments. | A rental is paid at most once: settlement refuses when another payment of the rental is already PAID. | not executed | PaymentService.TwoPendingPaymentsCanBothBecomePaid | PaymentService.PaymentServiceImpl.VerifySuccessfulPaymentOnce |

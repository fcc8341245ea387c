/** CarServiceImpl: the car catalogue, its case-insensitive type check and
    its soft delete. */
module CarService {
  import opened Domain
  import opened Repository

  // ---------------------------------------------------------------------
  // Character case, as java.lang.Character does it for the characters
  // that matter here.

  /** The Kelvin sign, whose lower case is the ASCII k. */
  const KELVIN_SIGN: char := '\U{212A}'
  /** Latin capital I with dot above, whose lower case is the ASCII i. */
  const DOTTED_CAPITAL_I: char := '\U{0130}'
  /** Latin small dotless i, whose upper case is the ASCII I. */
  const DOTLESS_SMALL_I: char := '\U{0131}'
  /** Latin small long s, whose upper case is the ASCII S. */
  const LONG_SMALL_S: char := '\U{017F}'

  /** Character.toUpperCase on the characters whose upper case is an ASCII
      letter; every other character is left as it is, which changes no
      comparison against an ASCII name. */
  function JavaUpper(c: char): char {
    if 'a' <= c <= 'z' then (c as int - 32) as char
    else if c == DOTLESS_SMALL_I then 'I'
    else if c == LONG_SMALL_S then 'S'
    else c
  }

  /** Character.toLowerCase on the characters whose lower case is an ASCII
      letter; every other character is left as it is. */
  function JavaLower(c: char): char {
    if 'A' <= c <= 'Z' then (c as int + 32) as char
    else if c == DOTTED_CAPITAL_I then 'i'
    else if c == KELVIN_SIGN then 'k'
    else c
  }

  /** The per-character test of String.equalsIgnoreCase: equal, or equal
      in upper case, or equal in the lower case of the upper case. */
  predicate CharsEqualIgnoreCase(a: char, b: char) {
    a == b || JavaUpper(a) == JavaUpper(b) || JavaLower(JavaUpper(a)) == JavaLower(JavaUpper(b))
  }

  /** String.equalsIgnoreCase: the same length, and every pair of
      characters matches. */
  function EqualsIgnoreCase(s: string, t: string): (r: bool)
    ensures r ==> |s| == |t|
    ensures s == t ==> r
  {
    |s| == |t| && forall i :: 0 <= i < |s| ==> CharsEqualIgnoreCase(s[i], t[i])
  }

  /** Ignoring case is symmetric. */
  lemma EqualsIgnoreCaseIsSymmetric(s: string, t: string)
    ensures EqualsIgnoreCase(s, t) <==> EqualsIgnoreCase(t, s)
  {
  }

  /** A letter of an enum name is matched by its own upper and lower case
      and, beyond ASCII, by the four characters named above. */
  lemma LetterMatch(letter: char, c: char)
    requires 'A' <= letter <= 'Z'
    ensures CharsEqualIgnoreCase(letter, c)
            <==> JavaUpper(c) == letter
                 || (c == DOTTED_CAPITAL_I && letter == 'I')
                 || (c == KELVIN_SIGN && letter == 'K')
  {
  }

  /** String.toUpperCase on the strings that pass the type check. */
  function UpperCase(s: string): (r: string)
    ensures |r| == |s| && forall i :: 0 <= i < |s| ==> r[i] == JavaUpper(s[i])
  {
    if s == [] then [] else [JavaUpper(s[0])] + UpperCase(s[1..])
  }

  function LowerCase(s: string): (r: string)
    ensures |r| == |s| && forall i :: 0 <= i < |s| ==> r[i] == JavaLower(s[i])
  {
    if s == [] then [] else [JavaLower(s[0])] + LowerCase(s[1..])
  }

  // ---------------------------------------------------------------------
  // Car types.

  /** Car.Type.name() */
  function TypeName(t: CarType): string {
    match t
    case SEDAN => "SEDAN"
    case SUV => "SUV"
    case HATCHBACK => "HATCHBACK"
    case UNIVERSAL => "UNIVERSAL"
  }

  /** Car.Type.values(), in declaration order. */
  const AllTypes: seq<CarType> := [SEDAN, SUV, HATCHBACK, UNIVERSAL]

  predicate IsUpperAsciiName(name: string) {
    forall i :: 0 <= i < |name| ==> 'A' <= name[i] <= 'Z'
  }

  lemma AllTypesListed(t: CarType)
    ensures t in AllTypes && IsUpperAsciiName(TypeName(t))
  {
  }

  /** The anyMatch of checkIfCarTypeIsValid. */
  predicate IsValidType(carType: string) {
    exists i :: 0 <= i < |AllTypes| && EqualsIgnoreCase(TypeName(AllTypes[i]), carType)
  }

  /** The anyMatch over the declared types is a match of some type. */
  lemma IsValidTypeMeans(carType: string)
    ensures IsValidType(carType) <==> exists t :: EqualsIgnoreCase(TypeName(t), carType)
  {
    forall t | EqualsIgnoreCase(TypeName(t), carType) ensures IsValidType(carType) {
      var i := if t == SEDAN then 0 else if t == SUV then 1 else if t == HATCHBACK then 2 else 3;
      assert AllTypes[i] == t;
    }
  }

  /** checkIfCarTypeIsValid */
  function CheckIfCarTypeIsValid(carType: string): (o: Outcome)
    ensures o.Pass? <==> exists t :: EqualsIgnoreCase(TypeName(t), carType)
    ensures o.Fail? ==> o.error == InvalidCarType(carType) && Thrown(o.error) == IllegalArgumentException
  {
    IsValidTypeMeans(carType);
    if IsValidType(carType) then Pass else Fail(InvalidCarType(carType))
  }

  /** Car.Type.valueOf: an exact name, or IllegalArgumentException. */
  function ValueOf(name: string): (r: Result<CarType>)
    ensures r.Ok? <==> exists t :: TypeName(t) == name
    ensures r.Ok? ==> TypeName(r.value) == name
    ensures r.Err? ==> r.error == NoEnumConstant(name) && Thrown(r.error) == IllegalArgumentException
  {
    if name == "SEDAN" then assert TypeName(SEDAN) == name; Ok(SEDAN)
    else if name == "SUV" then assert TypeName(SUV) == name; Ok(SUV)
    else if name == "HATCHBACK" then assert TypeName(HATCHBACK) == name; Ok(HATCHBACK)
    else if name == "UNIVERSAL" then assert TypeName(UNIVERSAL) == name; Ok(UNIVERSAL)
    else
      assert forall t :: TypeName(t) != name;
      Err(NoEnumConstant(name))
  }

  /** The mapper's type conversion: Car.Type.valueOf(type.toUpperCase()). */
  function ParseType(carType: string): (r: Result<CarType>)
    ensures r.Ok? <==> exists t :: TypeName(t) == UpperCase(carType)
    ensures r.Ok? ==> TypeName(r.value) == UpperCase(carType)
    ensures r.Err? ==> r.error == NoEnumConstant(UpperCase(carType)) && Thrown(r.error) == IllegalArgumentException
  {
    ValueOf(UpperCase(carType))
  }

  /** For ASCII input the check is exactly "its upper case is a type name". */
  lemma {:induction false} AsciiTypeCheck(carType: string)
    requires forall i :: 0 <= i < |carType| ==> carType[i] < '\U{0080}'
    ensures CheckIfCarTypeIsValid(carType).Pass? <==> exists t :: TypeName(t) == UpperCase(carType)
  {
    forall t ensures EqualsIgnoreCase(TypeName(t), carType) <==> TypeName(t) == UpperCase(carType) {
      MatchesNameExactly(t, carType);
    }
  }

  lemma {:induction false} MatchesNameExactly(t: CarType, carType: string)
    requires forall i :: 0 <= i < |carType| ==> carType[i] != DOTTED_CAPITAL_I && carType[i] != KELVIN_SIGN
    ensures EqualsIgnoreCase(TypeName(t), carType) <==> TypeName(t) == UpperCase(carType)
  {
    var name := TypeName(t);
    AllTypesListed(t);
    if |name| == |carType| {
      forall i | 0 <= i < |name| ensures CharsEqualIgnoreCase(name[i], carType[i]) <==> name[i] == UpperCase(carType)[i] {
        LetterMatch(name[i], carType[i]);
      }
    }
  }

  /** A string that passes the check and holds neither the dotted capital I
      nor the Kelvin sign parses to the type it matched. */
  lemma {:induction false} ValidTypeParses(carType: string)
    requires CheckIfCarTypeIsValid(carType).Pass?
    requires forall i :: 0 <= i < |carType| ==> carType[i] != DOTTED_CAPITAL_I && carType[i] != KELVIN_SIGN
    ensures ParseType(carType).Ok?
    ensures EqualsIgnoreCase(TypeName(ParseType(carType).value), carType)
  {
    var t :| EqualsIgnoreCase(TypeName(t), carType);
    MatchesNameExactly(t, carType);
  }

  /** Whatever parses also passes the check, as the type it parses to. */
  lemma {:induction false} ParsedTypePassesCheck(carType: string)
    requires ParseType(carType).Ok?
    ensures CheckIfCarTypeIsValid(carType).Pass?
    ensures EqualsIgnoreCase(TypeName(ParseType(carType).value), carType)
  {
    var t := ParseType(carType).value;
    var name := TypeName(t);
    AllTypesListed(t);
    forall i | 0 <= i < |name| ensures CharsEqualIgnoreCase(name[i], carType[i]) {
      LetterMatch(name[i], carType[i]);
    }
  }

  /** An upper-case ASCII name is its own upper case, and the upper case of
      its lower case. */
  lemma UpperOfUpperAsciiName(name: string)
    requires IsUpperAsciiName(name)
    ensures UpperCase(name) == name
    ensures UpperCase(LowerCase(name)) == name
  {
    assert forall i :: 0 <= i < |name| ==> UpperCase(name)[i] == name[i];
    assert forall i :: 0 <= i < |name| ==> UpperCase(LowerCase(name))[i] == name[i];
  }

  lemma TypeNameIsInjective(s: CarType, t: CarType)
    ensures TypeName(s) == TypeName(t) ==> s == t
  {
  }

  /** Every type is accepted under its own name and in lower case. */
  lemma {:induction false} NamesAreAccepted(t: CarType)
    ensures CheckIfCarTypeIsValid(TypeName(t)).Pass? && ParseType(TypeName(t)) == Ok(t)
    ensures CheckIfCarTypeIsValid(LowerCase(TypeName(t))).Pass? && ParseType(LowerCase(TypeName(t))) == Ok(t)
  {
    var name := TypeName(t);
    AllTypesListed(t);
    UpperOfUpperAsciiName(name);
    TypeNameIsInjective(ParseType(name).value, t);
    TypeNameIsInjective(ParseType(LowerCase(name)).value, t);
    ParsedTypePassesCheck(name);
    ParsedTypePassesCheck(LowerCase(name));
  }

  /** The Kelvin sign passes the check for "K" but not the parse that
      follows it, which throws the same exception class. */
  lemma KelvinSignPassesCheckOnly()
    ensures CheckIfCarTypeIsValid("HATCHBAC" + [KELVIN_SIGN]).Pass?
    ensures ParseType("HATCHBAC" + [KELVIN_SIGN]).Err?
    ensures Thrown(ParseType("HATCHBAC" + [KELVIN_SIGN]).error) == IllegalArgumentException
  {
    var s := "HATCHBAC" + [KELVIN_SIGN];
    var name := TypeName(HATCHBACK);
    assert |s| == |name| == 9;
    forall i | 0 <= i < 9 ensures CharsEqualIgnoreCase(name[i], s[i]) {
      LetterMatch(name[i], s[i]);
    }
    assert UpperCase(s)[8] == KELVIN_SIGN;
    assert UpperCase(s)[8] != name[8];
  }

  /** An exact type name passes the check, and upper-casing it for the
      second conversion yields the same type. */
  lemma {:induction false} ExactNameConvertsAlike(carType: string)
    requires ValueOf(carType).Ok?
    ensures CheckIfCarTypeIsValid(carType).Pass?
    ensures ParseType(carType) == ValueOf(carType)
  {
    var t := ValueOf(carType).value;
    assert TypeName(t) == carType;
    NamesAreAccepted(t);
  }

  /** A lower-case name is accepted when a car is added but not when one is
      updated: the update's exact conversion throws. */
  lemma LowerCaseNameRefusedOnUpdate()
    ensures CheckIfCarTypeIsValid("suv").Pass? && ParseType("suv") == Ok(SUV)
    ensures ValueOf("suv") == Err(NoEnumConstant("suv"))
  {
    NamesAreAccepted(SUV);
    assert LowerCase(TypeName(SUV)) == "suv";
  }

  /** A string that is no type name in any case is refused. */
  lemma UnknownTypeRefused()
    ensures CheckIfCarTypeIsValid("van").Fail?
  {
    AsciiTypeCheck("van");
    assert UpperCase("van") == "VAN";
  }

  // ---------------------------------------------------------------------
  // The catalogue.

  /** A create or update request; `carType` is the raw type string. */
  datatype CarRequest = CarRequest(brand: string, model: string, carType: string, inventory: int, dailyFee: real)

  /** carMapper.toModel: a new, not deleted car with the request's fields. */
  function NewCar(id: int, request: CarRequest, carType: CarType): (car: Car)
    ensures car.id == id && !car.isDeleted && car.carType == carType
    ensures car.brand == request.brand && car.model == request.model
    ensures car.inventory == request.inventory && car.dailyFee == request.dailyFee
  {
    Car(id, request.model, request.brand, carType, request.inventory, request.dailyFee, false)
  }

  /** carMapper.updateCar: the request's fields over the stored car. */
  function UpdateCar(car: Car, request: CarRequest, carType: CarType): (r: Car)
    ensures r.id == car.id && r.isDeleted == car.isDeleted && r.carType == carType
    ensures r.brand == request.brand && r.model == request.model
    ensures r.inventory == request.inventory && r.dailyFee == request.dailyFee
  {
    car.(brand := request.brand, model := request.model, carType := carType,
         inventory := request.inventory, dailyFee := request.dailyFee)
  }

  class CarServiceImpl {
    const carRepository: Table<Car>

    ghost predicate Valid()
      reads this, carRepository
    {
      carRepository.Valid() && CarsKeyed(carRepository.rows)
    }

    constructor (cars: Table<Car>)
      requires cars.Valid() && CarsKeyed(cars.rows)
      ensures carRepository == cars
      ensures Valid()
    {
      carRepository := cars;
    }

    /** getCarById / findCarById: soft-deleted cars are not found. */
    function GetCarById(id: int): (r: Result<Car>)
      reads this, carRepository
      ensures r.Ok? <==> id in carRepository.rows && !carRepository.rows[id].isDeleted
      ensures r.Ok? ==> r.value == carRepository.rows[id]
      ensures r.Err? ==> r.error == CarNotFound(id) && Thrown(r.error) == EntityNotFoundException
    {
      match FindCar(carRepository.rows, id)
      case Some(car) => Ok(car)
      case None => Err(CarNotFound(id))
    }

    /** addNewCar: the type check, the conversion, then one new car. */
    method AddNewCar(request: CarRequest) returns (result: Result<Car>)
      requires Valid()
      modifies carRepository
      ensures Valid()
      ensures CheckIfCarTypeIsValid(request.carType).Fail? ==> result == Err(InvalidCarType(request.carType))
      ensures CheckIfCarTypeIsValid(request.carType).Pass? && ParseType(request.carType).Err?
              ==> result == Err(ParseType(request.carType).error)
      ensures result.Ok? <==> CheckIfCarTypeIsValid(request.carType).Pass? && ParseType(request.carType).Ok?
      ensures result.Err? ==> unchanged(carRepository)
      ensures result.Ok? ==>
        && result.value == NewCar(old(carRepository.nextId), request, ParseType(request.carType).value)
        && carRepository.rows == old(carRepository.rows)[result.value.id := result.value]
        && carRepository.order == old(carRepository.order) + [result.value.id]
        && carRepository.nextId == old(carRepository.nextId) + 1
        && GetCarById(result.value.id) == Ok(result.value)
      ensures old(InventoryNonNegative(carRepository.rows)) && request.inventory >= 0
              ==> InventoryNonNegative(carRepository.rows)
      ensures forall k :: k in old(carRepository.rows) ==> k in carRepository.rows
    {
      var check := CheckIfCarTypeIsValid(request.carType);
      if check.Fail? {
        return Err(check.error);
      }
      var parsed := ParseType(request.carType);
      if parsed.Err? {
        return Err(parsed.error);
      }
      var car := NewCar(carRepository.nextId, request, parsed.value);
      var id := carRepository.Insert(car);
      result := Ok(car);
    }

    /** updateCarById: the type check first, then the lookup, then the
        request's fields over the stored car, under the same id. The
        generated carMapper.updateCar converts the type string with the exact
        Car.Type.valueOf before its @AfterMapping upper-cases it, so only an
        exact type name gets through. */
    method UpdateCarById(id: int, request: CarRequest) returns (result: Result<Car>)
      requires Valid()
      modifies carRepository
      ensures Valid()
      ensures CheckIfCarTypeIsValid(request.carType).Fail? ==> result == Err(InvalidCarType(request.carType))
      ensures CheckIfCarTypeIsValid(request.carType).Pass? && old(GetCarById(id)).Err?
              ==> result == Err(CarNotFound(id))
      ensures CheckIfCarTypeIsValid(request.carType).Pass? && old(GetCarById(id)).Ok?
              && ValueOf(request.carType).Err?
              ==> result == Err(NoEnumConstant(request.carType))
      // it updates exactly when the check passes, the car is found and the
      // type string is an exact type name
      ensures result.Ok? <==>
                CheckIfCarTypeIsValid(request.carType).Pass? && old(GetCarById(id)).Ok?
                && ValueOf(request.carType).Ok?
      ensures result.Err? ==> unchanged(carRepository)
      ensures result.Ok? ==>
        && id in old(carRepository.rows) && !old(carRepository.rows[id]).isDeleted
        && ParseType(request.carType) == ValueOf(request.carType)
        && result.value == UpdateCar(old(carRepository.rows[id]), request, ValueOf(request.carType).value)
        && result.value.id == id
        && carRepository.rows == old(carRepository.rows)[id := result.value]
        && carRepository.order == old(carRepository.order)
        && carRepository.nextId == old(carRepository.nextId)
      ensures old(InventoryNonNegative(carRepository.rows)) && request.inventory >= 0
              ==> InventoryNonNegative(carRepository.rows)
      ensures forall k :: k in old(carRepository.rows) ==> k in carRepository.rows
    {
      var check := CheckIfCarTypeIsValid(request.carType);
      if check.Fail? {
        return Err(check.error);
      }
      var found := GetCarById(id);
      if found.Err? {
        return Err(found.error);
      }
      var exact := ValueOf(request.carType);
      if exact.Err? {
        return Err(exact.error);
      }
      // the @AfterMapping then sets the type it has already
      ExactNameConvertsAlike(request.carType);
      var car := UpdateCar(found.value, request, exact.value);
      carRepository.Update(id, car);
      result := Ok(car);
    }

    /** deleteCarById: a soft delete of a car that is found; a missing or
        already deleted id changes nothing. */
    method DeleteCarById(id: int)
      requires Valid()
      modifies carRepository
      ensures Valid()
      ensures GetCarById(id).Err?
      ensures forall k :: k != id ==> FindCar(carRepository.rows, k) == old(FindCar(carRepository.rows, k))
      ensures old(GetCarById(id)).Ok? ==>
        && carRepository.rows == old(carRepository.rows)[id := old(carRepository.rows[id]).(isDeleted := true)]
        && carRepository.order == old(carRepository.order)
        && carRepository.nextId == old(carRepository.nextId)
      ensures old(GetCarById(id)).Err? ==> unchanged(carRepository)
      ensures old(InventoryNonNegative(carRepository.rows)) ==> InventoryNonNegative(carRepository.rows)
      ensures forall k :: k in old(carRepository.rows) ==> k in carRepository.rows
    {
      var found := GetCarById(id);
      if found.Ok? {
        carRepository.Update(id, found.value.(isDeleted := true));
      }
    }
  }
}

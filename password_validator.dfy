/** PasswordValidator: the @PasswordMatch constraint on a registration
    request. A missing field (Java null) is None. */
module PasswordValidator {
  import opened Domain

  /** The registration request; only the two password fields are read. */
  datatype UserRegistrationRequest = UserRegistrationRequest(
    email: Option<string>,
    password: Option<string>,
    repeatPassword: Option<string>,
    firstName: Option<string>,
    lastName: Option<string>)

  /** java.util.Objects.equals on two nullable strings: both null, or both
      present with the same characters. */
  function ObjectsEquals(a: Option<string>, b: Option<string>): (r: bool)
    ensures r <==> a == b
  {
    match a
    case None => b.None?
    case Some(x) => b.Some? && x == b.value
  }

  /** isValid: the password and its repetition agree. */
  function IsValid(request: UserRegistrationRequest): (r: bool)
    ensures r <==> request.password == request.repeatPassword
  {
    ObjectsEquals(request.password, request.repeatPassword)
  }

  /** Two missing passwords match. */
  lemma BothNullIsValid(request: UserRegistrationRequest)
    requires request.password.None? && request.repeatPassword.None?
    ensures IsValid(request)
  {
  }

  /** A password against a missing one never matches. */
  lemma OneNullIsInvalid(request: UserRegistrationRequest)
    requires request.password.None? != request.repeatPassword.None?
    ensures !IsValid(request)
  {
  }

  /** Swapping the two fields does not change the verdict, and no other
      field takes part in it. */
  lemma ValidityIsSymmetric(request: UserRegistrationRequest, other: UserRegistrationRequest)
    ensures IsValid(request) == IsValid(request.(password := request.repeatPassword,
                                                  repeatPassword := request.password))
    ensures other.password == request.password && other.repeatPassword == request.repeatPassword
            ==> IsValid(other) == IsValid(request)
  {
  }
}

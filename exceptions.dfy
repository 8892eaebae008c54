/**
 * The exception classes of the check-in system, the records they carry
 * (message, error code, details) and their dictionary form, plus the other
 * Python exceptions the request handlers can meet.
 */
module Exceptions {
  import opened Wrappers
  import opened Text
  import opened Values
  import opened Dicts

  /** The classes under `CheckinBaseException`. */
  datatype ErrorClass =
    | CheckinBase | Validation | Authentication | Authorization | BusinessRule
    | WeekendCheckin | DuplicateCheckin | UserNotFound | Database | ExternalService | Configuration

  /** `cls.__name__`. */
  function ClassName(c: ErrorClass): (name: string)
    ensures name != ""
  {
    match c
    case CheckinBase => "CheckinBaseException"
    case Validation => "ValidationError"
    case Authentication => "AuthenticationError"
    case Authorization => "AuthorizationError"
    case BusinessRule => "BusinessRuleError"
    case WeekendCheckin => "WeekendCheckinError"
    case DuplicateCheckin => "DuplicateCheckinError"
    case UserNotFound => "UserNotFoundError"
    case Database => "DatabaseError"
    case ExternalService => "ExternalServiceError"
    case Configuration => "ConfigurationError"
  }

  /** The direct base class, within the hierarchy. */
  function Parent(c: ErrorClass): Option<ErrorClass>
  {
    match c
    case CheckinBase => None
    case WeekendCheckin => Some(BusinessRule)
    case DuplicateCheckin => Some(BusinessRule)
    case _ => Some(CheckinBase)
  }

  function Depth(c: ErrorClass): nat
  {
    match c
    case CheckinBase => 0
    case WeekendCheckin => 2
    case DuplicateCheckin => 2
    case _ => 1
  }

  /** `issubclass(c, p)`. */
  predicate IsSubclassOf(c: ErrorClass, p: ErrorClass)
    decreases Depth(c)
  {
    c == p || (Parent(c).Some? && IsSubclassOf(Parent(c).value, p))
  }

  type Details = Dict<string, Scalar>

  /** An instance of a `CheckinBaseException` class. */
  datatype CheckinError = CheckinError(cls: ErrorClass, message: string, errorCode: string, details: Details)

  /**
   * `cls(message, error_code, details)`: an absent or empty error code becomes the
   * class name, and absent or empty details become an empty dictionary.
   */
  function NewCheckinError(cls: ErrorClass, message: string, errorCode: Option<string>, details: Option<Details>)
    : (e: CheckinError)
    ensures e.cls == cls && e.message == message
    ensures e.errorCode == (if errorCode.Some? && errorCode.value != "" then errorCode.value else ClassName(cls))
    ensures e.details == (if details.Some? then details.value else [])
  {
    CheckinError(cls, message,
      if errorCode.Some? && errorCode.value != "" then errorCode.value else ClassName(cls),
      if details.Some? && details.value != [] then details.value else [])
  }

  const WeekendMessage := "Check-ins são permitidos apenas de Segunda a Sexta"

  function WeekendCheckinError(date: string): CheckinError
  {
    NewCheckinError(WeekendCheckin, WeekendMessage, Some("WEEKEND_CHECKIN_NOT_ALLOWED"),
      Some([("attempted_date", Str(date))]))
  }

  function DuplicateCheckinError(username: string, existingCheckinTime: string): CheckinError
  {
    NewCheckinError(DuplicateCheckin, DuplicateCheckinMessage(username, existingCheckinTime),
      Some("DUPLICATE_CHECKIN"),
      Some([("username", Str(username)), ("existing_checkin_time", Str(existingCheckinTime))]))
  }

  function DuplicateCheckinMessage(username: string, existingCheckinTime: string): string
  {
    "Usuário " + username + " já realizou check-in hoje às " + existingCheckinTime
  }

  function UserNotFoundError(identifier: string): CheckinError
  {
    NewCheckinError(UserNotFound, "Usuário não encontrado: " + identifier, Some("USER_NOT_FOUND"),
      Some([("identifier", Str(identifier))]))
  }

  /** A value of the dictionary `to_dict()` builds. */
  datatype Field = Text(text: string) | Map(entries: Details)

  /** `e.to_dict()`. */
  function ToDict(e: CheckinError): (r: Dict<string, Field>)
    ensures Keys(r) == ["error_code", "message", "details"]
    ensures Get(r, "error_code") == Some(Text(e.errorCode))
    ensures Get(r, "message") == Some(Text(e.message))
    ensures Get(r, "details") == Some(Map(e.details))
  {
    [("error_code", Text(e.errorCode)), ("message", Text(e.message)), ("details", Map(e.details))]
  }

  /** How an exception outside `CheckinBaseException` descends from Python's built-ins. */
  datatype BuiltinBase =
    | ValueErrorKind | TypeErrorKind | AttributeErrorKind
    | PlainException      // any other subclass of `Exception`
    | NotAnException      // a `BaseException` outside `Exception`, such as `KeyboardInterrupt`

  /** The `detail` of an `HTTPException`: a string or a dictionary. */
  datatype HttpDetail = TextDetail(text: string) | DictDetail(entries: Dict<string, Field>)

  /** A raised Python exception. */
  datatype Exception =
    | AppError(error: CheckinError)
    | HttpError(status: int, detail: HttpDetail, headers: Dict<string, string>)
    | OtherError(moduleName: string, name: string, base: BuiltinBase)

  /** Whether `except Exception` catches the exception. */
  predicate IsException(x: Exception)
  {
    !(x.OtherError? && x.base == NotAnException)
  }

  /** What a call does: returns a value or raises. */
  datatype Outcome<T> = Returned(value: T) | Raised(exception: Exception)

  /** `type(e).__name__`. */
  function TypeName(x: Exception): string
  {
    match x
    case AppError(e) => ClassName(e.cls)
    case HttpError(_, _, _) => "HTTPException"
    case OtherError(_, name, _) => name
  }

  /** `str(type(e))`: `<class 'module.Name'>`, without a module for built-ins. */
  function TypeRepr(x: Exception): string
  {
    "<class '" + QualifiedName(x) + "'>"
  }

  /** The module-qualified class name that `str(type(e))` shows; built-in classes go unqualified. */
  function QualifiedName(x: Exception): string
  {
    match x
    case AppError(e) => "app.utils.exceptions." + ClassName(e.cls)
    case HttpError(_, _, _) => "fastapi.exceptions.HTTPException"
    case OtherError(m, name, _) => if m == "builtins" then name else m + "." + name
  }

  // ---------------------------------------------------------------------------
  // Lemmas

  /** The weekend and duplicate errors are business-rule errors; every class is a `CheckinBaseException`. */
  lemma Hierarchy(c: ErrorClass)
    ensures IsSubclassOf(c, CheckinBase)
    ensures IsSubclassOf(c, BusinessRule) <==> c in {BusinessRule, WeekendCheckin, DuplicateCheckin}
  {
  }

  /** The dictionary form determines the error record of a given class. */
  lemma ToDictDetermines(a: CheckinError, b: CheckinError)
    requires a.cls == b.cls && ToDict(a) == ToDict(b)
    ensures a == b
  {
    assert Get(ToDict(a), "error_code") == Get(ToDict(b), "error_code");
    assert Get(ToDict(a), "message") == Get(ToDict(b), "message");
    assert Get(ToDict(a), "details") == Get(ToDict(b), "details");
  }

  /** The weekend error's code and details. */
  lemma WeekendCheckinErrorFields(date: string)
    ensures var e := WeekendCheckinError(date);
      && e.errorCode == "WEEKEND_CHECKIN_NOT_ALLOWED" && e.message == WeekendMessage
      && Keys(e.details) == ["attempted_date"] && Get(e.details, "attempted_date") == Some(Str(date))
      && IsSubclassOf(e.cls, BusinessRule)
  {
  }

  /**
   * The duplicate error's code and details; its message names the user and the
   * time of the earlier check-in, and no `checkin_time` detail is ever set.
   */
  lemma DuplicateCheckinErrorFields(username: string, time: string)
    ensures var e := DuplicateCheckinError(username, time);
      && e.errorCode == "DUPLICATE_CHECKIN"
      && Keys(e.details) == ["username", "existing_checkin_time"]
      && Get(e.details, "username") == Some(Str(username))
      && Get(e.details, "existing_checkin_time") == Some(Str(time))
      && !HasKey(e.details, "checkin_time")
      && Contains(e.message, username) && Contains(e.message, time)
      && IsSubclassOf(e.cls, BusinessRule)
  {
    DuplicateCheckinMessageNames(username, time);
    DuplicateCheckinDetails(username, time);
  }

  /** The two details of the duplicate error, and no `checkin_time` among them. */
  lemma DuplicateCheckinDetails(username: string, time: string)
    ensures var d: Details := [("username", Str(username)), ("existing_checkin_time", Str(time))];
      && Keys(d) == ["username", "existing_checkin_time"]
      && Get(d, "username") == Some(Str(username))
      && Get(d, "existing_checkin_time") == Some(Str(time))
      && !HasKey(d, "checkin_time")
  {
    var d: Details := [("username", Str(username)), ("existing_checkin_time", Str(time))];
    assert Keys(d) == ["username", "existing_checkin_time"];
    assert "checkin_time" != "username" && "checkin_time" != "existing_checkin_time";
  }

  /** The duplicate message names the user and the time of the earlier check-in. */
  lemma DuplicateCheckinMessageNames(username: string, time: string)
    ensures Contains(DuplicateCheckinMessage(username, time), username)
    ensures Contains(DuplicateCheckinMessage(username, time), time)
  {
    var m := DuplicateCheckinMessage(username, time);
    var pre, mid := "Usuário ", " já realizou check-in hoje às ";
    ContainsMiddle(pre, username, mid + time);
    assert m == pre + username + (mid + time);
    ContainsMiddle(pre + username + mid, time, "");
    assert m == pre + username + mid + time + "";
  }

  /** The not-found error's code and details. */
  lemma UserNotFoundErrorFields(identifier: string)
    ensures var e := UserNotFoundError(identifier);
      && e.errorCode == "USER_NOT_FOUND"
      && Keys(e.details) == ["identifier"] && Get(e.details, "identifier") == Some(Str(identifier))
      && !IsSubclassOf(e.cls, BusinessRule)
  {
  }
}

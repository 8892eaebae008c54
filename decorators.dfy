/**
 * The decorators around the service and router functions: the translation
 * of raised exceptions into HTTP errors, input validation and execution-time
 * logging. A wrapped call is given by its outcome, since what the wrapper does
 * depends only on how the call ended.
 */
module Decorators {
  import opened Wrappers
  import opened Text
  import opened Values
  import opened Dicts
  import opened Exceptions
  import opened Logging

  /** A table from exception class to HTTP status. */
  type StatusTable = Dict<ErrorClass, int>

  const BadRequest := 400
  const Unauthorized := 401
  const NotFound := 404
  const Conflict := 409
  const UnprocessableEntity := 422
  const InternalServerError := 500

  const DefaultMappings: StatusTable := [
    (WeekendCheckin, BadRequest), (DuplicateCheckin, Conflict), (UserNotFound, NotFound),
    (Authentication, Unauthorized), (Validation, UnprocessableEntity), (Database, InternalServerError)]

  /** The default table, updated with the custom mappings when a non-empty table is given. */
  function ExceptionMappings(custom: Option<StatusTable>): StatusTable
  {
    if custom.Some? && custom.value != [] then Update(DefaultMappings, custom.value) else DefaultMappings
  }

  /** The status for an error: looked up by its exact class, 400 when the class has no entry. */
  function StatusFor(custom: Option<StatusTable>, e: CheckinError): int
  {
    GetOr(ExceptionMappings(custom), e.cls, BadRequest)
  }

  /** The body of the 500 response for an unexpected exception. */
  const InternalErrorDetail: Dict<string, Field> := [
    ("error_code", Text("INTERNAL_SERVER_ERROR")), ("message", Text("Erro interno do servidor")), ("details", Map([]))]

  /** `str(type(e)).lower()` names Pydantic or a validation error. */
  predicate LooksLikeValidation(x: Exception)
  {
    var name := LowerAscii(TypeRepr(x));
    Contains(name, "pydantic") || Contains(name, "validation")
  }

  /** The exceptions `handle_exceptions` lets through untouched. */
  predicate PassesThrough(x: Exception)
  {
    match x
    case AppError(_) => false
    case HttpError(_, _, _) => true
    case OtherError(_, _, base) => base != PlainException || LooksLikeValidation(x)
  }

  /** What a call wrapped by `handle_exceptions(custom_mappings=custom)` ends with. */
  function HandleExceptions<T>(custom: Option<StatusTable>, outcome: Outcome<T>): Outcome<T>
  {
    match outcome
    case Returned(_) => outcome
    case Raised(x) =>
      match x
      case AppError(e) => Raised(HttpError(StatusFor(custom, e), DictDetail(ToDict(e)), []))
      case HttpError(_, _, _) => outcome
      case OtherError(_, _, base) =>
        if base != PlainException || LooksLikeValidation(x) then outcome
        else Raised(HttpError(InternalServerError, DictDetail(InternalErrorDetail), []))
  }

  /**
   * The line `handle_exceptions` logs when it has a logger. `durationText` is the
   * two-decimal rendering of the call's duration, a reading of the clock.
   */
  function HandleExceptionsLog<T>(logger: string, funcName: string, durationText: string, outcome: Outcome<T>)
    : Option<LogRecord>
  {
    match outcome
    case Returned(_) =>
      Some(InfoRecord(logger, "Operação " + funcName + " concluída com sucesso",
        Some([("duration_ms", Str(durationText))])))
    case Raised(x) =>
      match x
      case AppError(e) =>
        Some(ErrorRecord(logger, "Erro de negócio em " + funcName + ": " + e.message, Some(x), Some(e.details)))
      case HttpError(_, _, _) => None
      case OtherError(_, _, base) =>
        if base != PlainException || LooksLikeValidation(x) then None
        else Some(ErrorRecord(logger, "Erro inesperado em " + funcName, Some(x), Some([("function", Str(funcName))])))
  }

  /**
   * `handle_checkin_exceptions`: the default table. What it logs is
   * `HandleExceptionsLog` with the check-in logger's name.
   */
  function HandleCheckinExceptions<T>(outcome: Outcome<T>): Outcome<T>
  {
    HandleExceptions(None, outcome)
  }

  /**
   * `validate_input(validator)`: `validation` is what the validator returned for
   * the arguments and `call` what the wrapped function would do with them.
   */
  function ValidateInput<T>(validation: Scalar, call: Outcome<T>): Outcome<T>
  {
    if validation == Bool(true) then call
    else Raised(AppError(NewCheckinError(Validation, Display(validation), Some("VALIDATION_FAILED"), None)))
  }

  /**
   * `log_execution_time(logger, operation_name)`: the call's outcome, together
   * with the line logged for it (none without a logger, and none for a
   * `BaseException` outside `Exception`).
   */
  function LogExecutionTime<T>(logger: Option<string>, operationName: Option<string>, funcName: string,
                               durationText: string, outcome: Outcome<T>): (Outcome<T>, Option<LogRecord>)
  {
    var opName := if operationName.Some? && operationName.value != "" then operationName.value else funcName;
    var line :=
      if logger.None? then None
      else match outcome
        case Returned(_) =>
          Some(InfoRecord(logger.value, "⏱️ " + opName + " executado", Some([("duration_ms", Str(durationText))])))
        case Raised(x) =>
          if !IsException(x) then None
          else Some(ErrorRecord(logger.value, "⏱️ " + opName + " falhou após " + durationText + "ms", Some(x), None));
    (outcome, line)
  }

  // ---------------------------------------------------------------------------
  // Lemmas

  lemma DefaultMappingsUnique()
    ensures UniqueKeys(DefaultMappings)
  {
  }

  /** The default statuses, and 400 for every class without an entry of its own. */
  lemma DefaultStatuses(e: CheckinError)
    ensures StatusFor(None, e) ==
      match e.cls
      case WeekendCheckin => 400
      case DuplicateCheckin => 409
      case UserNotFound => 404
      case Authentication => 401
      case Validation => 422
      case Database => 500
      case _ => 400
  {
    assert Keys(DefaultMappings) ==
      [WeekendCheckin, DuplicateCheckin, UserNotFound, Authentication, Validation, Database];
  }

  /**
   * The lookup is by exact class: a business-rule error maps to 400 although
   * its subclass the duplicate error maps to 409.
   */
  lemma ExactTypeLookup(message: string, code: Option<string>, details: Option<Details>)
    ensures StatusFor(None, NewCheckinError(BusinessRule, message, code, details)) == 400
    ensures StatusFor(None, NewCheckinError(Authorization, message, code, details)) == 400
    ensures IsSubclassOf(DuplicateCheckin, BusinessRule)
      && StatusFor(None, NewCheckinError(DuplicateCheckin, message, code, details)) == 409
  {
    DefaultStatuses(NewCheckinError(BusinessRule, message, code, details));
    DefaultStatuses(NewCheckinError(Authorization, message, code, details));
    DefaultStatuses(NewCheckinError(DuplicateCheckin, message, code, details));
  }

  /** A custom entry wins over the default one; classes it does not name keep their default. */
  lemma CustomMappingsOverride(custom: StatusTable, c: ErrorClass)
    requires UniqueKeys(custom)
    ensures Get(ExceptionMappings(Some(custom)), c) ==
      if HasKey(custom, c) then Get(custom, c) else Get(DefaultMappings, c)
  {
    if custom != [] {
      GetUpdate(DefaultMappings, custom, c);
    }
  }

  /**
   * How each outcome is handled: a return and the pass-through exceptions are
   * unchanged, an application error becomes an HTTP error whose detail is its
   * dictionary form, and any other exception becomes the 500 error.
   */
  lemma HandleExceptionsCases<T>(custom: Option<StatusTable>, outcome: Outcome<T>)
    ensures var r := HandleExceptions(custom, outcome);
      && (outcome.Returned? ==> r == outcome)
      && (outcome.Raised? && PassesThrough(outcome.exception) ==> r == outcome)
      && (outcome.Raised? && outcome.exception.AppError? ==>
            r == Raised(HttpError(StatusFor(custom, outcome.exception.error), DictDetail(ToDict(outcome.exception.error)), [])))
      && (outcome.Raised? && outcome.exception.OtherError? && !PassesThrough(outcome.exception) ==>
            r == Raised(HttpError(500, DictDetail(InternalErrorDetail), [])))
      && (r.Raised? ==> r.exception.HttpError? || PassesThrough(r.exception))
  {
  }

  /** Wrapping twice is wrapping once: every outcome of the wrapper passes through it unchanged. */
  lemma HandleExceptionsIdempotent<T>(custom: Option<StatusTable>, custom2: Option<StatusTable>, outcome: Outcome<T>)
    ensures HandleExceptions(custom2, HandleExceptions(custom, outcome)) == HandleExceptions(custom, outcome)
  {
    var once := HandleExceptions(custom, outcome);
    HandleExceptionsCases(custom, outcome);
    HandleExceptionsCases(custom2, once);
  }

  /**
   * An unexpected exception (one outside `ValueError`, `TypeError` and
   * `AttributeError`) is re-raised unchanged exactly when its qualified class
   * name names Pydantic or validation in any case, and becomes the 500 error
   * otherwise, whatever the custom table.
   */
  lemma ValidationNamedPassThrough(custom: Option<StatusTable>, moduleName: string, name: string)
    ensures var x := OtherError(moduleName, name, PlainException);
      var q := LowerAscii(QualifiedName(x));
      var named := Contains(q, "pydantic") || Contains(q, "validation");
      && (named <==> HandleExceptions<int>(custom, Raised(x)) == Raised(x))
      && (!named ==>
            HandleExceptions<int>(custom, Raised(x)) == Raised(HttpError(InternalServerError, DictDetail(InternalErrorDetail), [])))
  {
    var x := OtherError(moduleName, name, PlainException);
    QuotedNameContains(QualifiedName(x), "pydantic");
    QuotedNameContains(QualifiedName(x), "validation");
  }

  /**
   * A word without a quote, at least as long as `<class '`, occurs in the
   * lowered `str(type(e))` exactly when it occurs in the lowered qualified name:
   * it can start neither in `<class '` nor run into the closing `'>`.
   */
  lemma QuotedNameContains(q: string, w: string)
    requires 8 <= |w| && '\'' !in w
    ensures Contains(LowerAscii("<class '" + q + "'>"), w) <==> Contains(LowerAscii(q), w)
  {
    var pre, post := "<class '", "'>";
    var lq := LowerAscii(q);
    LowerAsciiConcat(pre + q, post);
    LowerAsciiConcat(pre, q);
    assert LowerAscii(pre) == pre;
    assert LowerAscii(post) == post;
    assert LowerAscii(pre + q + post) == pre + (lq + post);
    ContainsAfterMark(pre, lq + post, w, '\'');
    ContainsBeforeMark(lq, post, w, '\'');
    if Contains(lq, w) {
      ContainsInside(pre, lq, post, w);
      assert pre + lq + post == pre + (lq + post);
    }
  }

  /**
   * `handle_exceptions` with a logger logs a line exactly when the call returned
   * or the wrapper translated the exception: at info level on success and at
   * error level otherwise.
   */
  lemma HandleExceptionsLogWhen<T>(custom: Option<StatusTable>, logger: string, funcName: string,
                                   durationText: string, outcome: Outcome<T>)
    ensures var line := HandleExceptionsLog(logger, funcName, durationText, outcome);
      && (line.Some? <==> outcome.Returned? || HandleExceptions(custom, outcome) != outcome)
      && (line.Some? ==> line.value.logger == logger && line.value.level == (if outcome.Returned? then Info else Error))
  {
    HandleExceptionsCases(custom, outcome);
  }

  /** The success line carries the duration as context. */
  lemma HandleExceptionsLogSuccess<T>(logger: string, funcName: string, durationText: string, outcome: Outcome<T>)
    requires outcome.Returned?
    ensures var line := HandleExceptionsLog(logger, funcName, durationText, outcome);
      line.Some? && Contains(line.value.text, " | " + Item(("duration_ms", Str(durationText))))
  {
    WithContextContains(logger, "Operação " + funcName + " concluída com sucesso", None,
      [("duration_ms", Str(durationText))], 0);
  }

  /**
   * A business error's line starts with its message, carries its details as
   * context and ends with its type name.
   */
  lemma HandleExceptionsLogBusiness<T>(logger: string, funcName: string, durationText: string, outcome: Outcome<T>)
    requires outcome.Raised? && outcome.exception.AppError?
    ensures var line := HandleExceptionsLog(logger, funcName, durationText, outcome);
      var e := outcome.exception.error;
      var head := "Erro de negócio em " + funcName + ": " + e.message;
      && line.Some? && |head| <= |line.value.text| && line.value.text[..|head|] == head
      && (forall i :: 0 <= i < |e.details| ==> Contains(line.value.text, " | " + Item(e.details[i])))
      && EndsWith(line.value.text, " | error_type=" + TypeName(outcome.exception))
  {
    var x := outcome.exception;
    var e := x.error;
    var head := "Erro de negócio em " + funcName + ": " + e.message;
    var r := ErrorRecord(logger, head, Some(x), Some(e.details));
    ErrorRecordSuffix(logger, head, Some(x), Some(e.details));
    forall i | 0 <= i < |e.details|
      ensures Contains(r.text, " | " + Item(e.details[i]))
    {
      WithContextContains(logger, head, Some(x), e.details, i);
    }
  }

  /** An unexpected exception's line names the function as context and ends with the type name. */
  lemma HandleExceptionsLogUnexpected<T>(logger: string, funcName: string, durationText: string, outcome: Outcome<T>)
    requires outcome.Raised? && outcome.exception.OtherError? && !PassesThrough(outcome.exception)
    ensures var line := HandleExceptionsLog(logger, funcName, durationText, outcome);
      && line.Some?
      && Contains(line.value.text, " | " + Item(("function", Str(funcName))))
      && EndsWith(line.value.text, " | error_type=" + TypeName(outcome.exception))
  {
    var x := outcome.exception;
    var head := "Erro inesperado em " + funcName;
    ErrorRecordSuffix(logger, head, Some(x), Some([("function", Str(funcName))]));
    WithContextContains(logger, head, Some(x), [("function", Str(funcName))], 0);
  }

  /** Each context item appears, after its separator, in an info or error record that carries the context. */
  lemma WithContextContains(logger: string, message: string, error: Option<Exception>, ctx: Context, i: nat)
    requires i < |ctx|
    ensures Contains(InfoRecord(logger, message, Some(ctx)).text, " | " + Item(ctx[i]))
    ensures Contains(ErrorRecord(logger, message, error, Some(ctx)).text, " | " + Item(ctx[i]))
  {
    var c := FormatContextSpec(Some(ctx));
    FormatContextItems(ctx, i);
    ContainsInside(message, c, "", " | " + Item(ctx[i]));
    assert message + c + "" == InfoRecord(logger, message, Some(ctx)).text;
    var errorInfo := if error.Some? then " | error_type=" + TypeName(error.value) else "";
    ContainsInside(message, c, errorInfo, " | " + Item(ctx[i]));
  }

  /** A rejecting validator raises the validation error, which is reported as 422, without running the call. */
  lemma ValidateInputRejects<T>(validation: Scalar, call: Outcome<T>, other: Outcome<T>)
    requires validation != Bool(true)
    ensures ValidateInput(validation, call) == ValidateInput(validation, other)
    ensures var r := ValidateInput(validation, call);
      && r.Raised? && r.exception.AppError?
      && r.exception.error.errorCode == "VALIDATION_FAILED"
      && r.exception.error.message == Display(validation)
      && r.exception.error.details == []
      && HandleExceptions(None, r).exception.status == 422
  {
    DefaultStatuses(ValidateInput(validation, call).exception.error);
  }

  /** An accepting validator runs the call and returns what it returns. */
  lemma ValidateInputAccepts<T>(call: Outcome<T>)
    ensures ValidateInput(Bool(true), call) == call
  {
  }

  /**
   * `log_execution_time` re-raises what it catches and returns what the call
   * returns; a failure is logged at error level with the exception's type.
   */
  lemma LogExecutionTimeTransparent<T>(logger: Option<string>, operationName: Option<string>, funcName: string,
                                       durationText: string, outcome: Outcome<T>)
    ensures var (r, line) := LogExecutionTime(logger, operationName, funcName, durationText, outcome);
      && r == outcome
      && (line.Some? <==> logger.Some? && !(outcome.Raised? && !IsException(outcome.exception)))
      && (line.Some? ==> line.value.level == (if outcome.Returned? then Info else Error))
  {
  }
}

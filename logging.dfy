/**
 * The structured loggers: how a log line's text is assembled from a
 * message, an optional context dictionary and an optional exception, and the
 * level each specialised entry point logs at.
 */
module Logging {
  import opened Wrappers
  import opened Text
  import opened Values
  import opened Dicts
  import opened Exceptions

  datatype Level = Debug | Info | Warning | Error

  /** One emitted line: the logger's name, its level and its text. */
  datatype LogRecord = LogRecord(logger: string, level: Level, text: string)

  type Context = Dict<string, Scalar>

  const CheckinLoggerName := "checkin"
  const AuthLoggerName := "auth"
  const SystemLoggerName := "system"

  /** `f"{key}={value}"`. */
  function Item(entry: (string, Scalar)): string
  {
    entry.0 + "=" + Display(entry.1)
  }

  /** The formatted items of a context, in insertion order. */
  function ContextItems(ctx: Context): (items: seq<string>)
    ensures |items| == |ctx| && forall i :: 0 <= i < |ctx| ==> items[i] == Item(ctx[i])
  {
    seq(|ctx|, i requires 0 <= i < |ctx| => Item(ctx[i]))
  }

  /** What `_format_context` returns. */
  function FormatContextSpec(context: Option<Context>): string
  {
    if context.None? || context.value == [] then ""
    else " | " + Join(ContextItems(context.value), " | ")
  }

  /** `_format_context`: collects the `key=value` items in a loop, then joins them. */
  method FormatContext(context: Option<Context>) returns (s: string)
    ensures s == FormatContextSpec(context)
  {
    if context.None? || |context.value| == 0 {
      return "";
    }
    var ctx := context.value;
    var formattedItems: seq<string> := [];
    var i := 0;
    while i < |ctx|
      invariant 0 <= i <= |ctx|
      invariant |formattedItems| == i
      invariant forall k :: 0 <= k < i ==> formattedItems[k] == Item(ctx[k])
    {
      formattedItems := formattedItems + [Item(ctx[i])];
      i := i + 1;
    }
    assert formattedItems == ContextItems(ctx);
    s := " | " + Join(formattedItems, " | ");
  }

  function InfoRecord(logger: string, message: string, context: Option<Context>): LogRecord
  {
    LogRecord(logger, Info, message + FormatContextSpec(context))
  }

  function WarningRecord(logger: string, message: string, context: Option<Context>): LogRecord
  {
    LogRecord(logger, Warning, message + FormatContextSpec(context))
  }

  /** `error(message, error, context)`: the exception's type name is appended when one is given. */
  function ErrorRecord(logger: string, message: string, error: Option<Exception>, context: Option<Context>)
    : LogRecord
  {
    var errorInfo := if error.Some? then " | error_type=" + TypeName(error.value) else "";
    LogRecord(logger, Error, message + FormatContextSpec(context) + errorInfo)
  }

  /** The context `checkin_denied` logs: username and reason, then the extra details merged over them. */
  function DeniedContext(username: string, reason: string, details: Option<Context>): Context
  {
    var base := [("username", Str(username)), ("reason", Str(reason))];
    if details.Some? && details.value != [] then Update(base, details.value) else base
  }

  function CheckinDenied(username: string, reason: string, details: Option<Context>): LogRecord
  {
    WarningRecord(CheckinLoggerName, "⚠️ Checkin negado", Some(DeniedContext(username, reason, details)))
  }

  /**
   * The context `database_operation` logs. `durationText` is the two-decimal
   * rendering of a non-zero duration, or None when no duration (or zero) is given.
   */
  function OperationContext(operation: string, collection: string, success: bool, durationText: Option<string>)
    : Context
  {
    var base := [("operation", Str(operation)), ("collection", Str(collection)), ("success", Bool(success))];
    if durationText.Some? then base + [("duration_ms", Str(durationText.value))] else base
  }

  function DatabaseOperation(operation: string, collection: string, success: bool, durationText: Option<string>)
    : LogRecord
  {
    var context := OperationContext(operation, collection, success, durationText);
    if success then InfoRecord(CheckinLoggerName, "💾 Operação de banco: " + operation, Some(context))
    else ErrorRecord(CheckinLoggerName, "❌ Falha na operação de banco: " + operation, None, Some(context))
  }

  /** The context `token_validation` logs: the reason only for a failure that gives a non-empty one. */
  function TokenContext(username: string, success: bool, reason: Option<string>): Context
  {
    if !success && reason.Some? && reason.value != "" then [("username", Str(username)), ("reason", Str(reason.value))]
    else [("username", Str(username))]
  }

  function TokenValidation(username: string, success: bool, reason: Option<string>): LogRecord
  {
    var context := TokenContext(username, success, reason);
    if success then InfoRecord(AuthLoggerName, "🎫 Token validado com sucesso", Some(context))
    else WarningRecord(AuthLoggerName, "❌ Falha na validação do token", Some(context))
  }

  function HealthEmoji(status: string): string
  {
    if status == "healthy" then "✅" else "❌"
  }

  function HealthContext(component: string, status: string, details: Option<Context>): Context
  {
    var base := [("component", Str(component)), ("status", Str(status))];
    if details.Some? && details.value != [] then Update(base, details.value) else base
  }

  function HealthCheck(component: string, status: string, details: Option<Context>): LogRecord
  {
    InfoRecord(SystemLoggerName, HealthEmoji(status) + " Health check: " + component,
      Some(HealthContext(component, status, details)))
  }

  // ---------------------------------------------------------------------------
  // Lemmas

  /** A context formats to nothing exactly when it is absent or empty. */
  lemma FormatContextEmpty(context: Option<Context>)
    ensures FormatContextSpec(context) == "" <==> context.None? || context.value == []
  {
  }

  /**
   * A non-empty context formats to ` | key=value` for each entry in insertion
   * order, so each entry appears in the text after a separator.
   */
  lemma FormatContextItems(ctx: Context, i: nat)
    requires i < |ctx|
    ensures FormatContextSpec(Some(ctx)) == Prefixed(ContextItems(ctx), " | ")
    ensures Contains(FormatContextSpec(Some(ctx)), " | " + Item(ctx[i]))
  {
    var items := ContextItems(ctx);
    JoinPrefixed(items, " | ");
    PrefixedContains(items, " | ", i);
  }

  /**
   * An error record is the message and the formatted context, followed by
   * ` | error_type=<name>` when an exception is given and by nothing otherwise.
   */
  lemma ErrorRecordSuffix(logger: string, message: string, error: Option<Exception>, context: Option<Context>)
    ensures var r := ErrorRecord(logger, message, error, context);
      var prefix := message + FormatContextSpec(context);
      && r.level == Error && r.logger == logger
      && (error.None? ==> r.text == prefix)
      && (error.Some? ==>
            var suffix := " | error_type=" + TypeName(error.value);
            && |r.text| == |prefix| + |suffix|
            && r.text[..|prefix|] == prefix
            && EndsWith(r.text, suffix))
  {
    if error.Some? {
      var prefix := message + FormatContextSpec(context);
      var suffix := " | error_type=" + TypeName(error.value);
      var text := ErrorRecord(logger, message, error, context).text;
      assert text == prefix + suffix;
      assert text[..|prefix|] == prefix;
      assert text[|text| - |suffix|..] == suffix;
    }
  }

  /** Extra details override the username and reason and add keys of their own. */
  lemma CheckinDeniedContext(username: string, reason: string, details: Option<Context>, k: string)
    requires details.Some? ==> UniqueKeys(details.value)
    ensures var ctx := DeniedContext(username, reason, details);
      && UniqueKeys(ctx)
      && Get(ctx, k) ==
        if details.Some? && HasKey(details.value, k) then Get(details.value, k)
        else if k == "username" then Some(Str(username))
        else if k == "reason" then Some(Str(reason))
        else None
    ensures CheckinDenied(username, reason, details).level == Warning
  {
    var base := [("username", Str(username)), ("reason", Str(reason))];
    if details.Some? && details.value != [] {
      GetUpdate(base, details.value, k);
      UpdateUnique(base, details.value);
    }
  }

  /** Info level on success, error level on failure; the duration appears only when given. */
  lemma DatabaseOperationLevel(operation: string, collection: string, success: bool, durationText: Option<string>)
    ensures var r := DatabaseOperation(operation, collection, success, durationText);
      && (r.level == Info <==> success)
      && (r.level == Error <==> !success)
      && r.logger == CheckinLoggerName
    ensures HasKey(OperationContext(operation, collection, success, durationText), "duration_ms") <==> durationText.Some?
  {
    var base := [("operation", Str(operation)), ("collection", Str(collection)), ("success", Bool(success))];
    assert Keys(base) == ["operation", "collection", "success"];
    if durationText.Some? {
      assert Keys(base + [("duration_ms", Str(durationText.value))]) == Keys(base) + ["duration_ms"];
    }
  }

  /** The reason is logged only for a failed validation that gives a non-empty one. */
  lemma TokenValidationReason(username: string, success: bool, reason: Option<string>)
    ensures HasKey(TokenContext(username, success, reason), "reason") <==>
      !success && reason.Some? && reason.value != ""
    ensures TokenValidation(username, success, reason).level == (if success then Info else Warning)
  {
    if !success && reason.Some? && reason.value != "" {
      assert Keys(TokenContext(username, success, reason)) == ["username", "reason"];
    } else {
      assert Keys(TokenContext(username, success, reason)) == ["username"];
    }
  }

  /** The check mark is used exactly for the status "healthy". */
  lemma HealthCheckEmoji(component: string, status: string, details: Option<Context>)
    ensures var r := HealthCheck(component, status, details);
      && r.level == Info
      && (r.text[..1] == "✅" <==> status == "healthy")
  {
    var emoji := HealthEmoji(status);
    var text := emoji + " Health check: " + component;
    assert |emoji| == 1;
    assert text[..1] == emoji;
    assert "❌"[0] != "✅"[0];
  }
}

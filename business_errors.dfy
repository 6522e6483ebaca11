/** Business errors: an error code resolved against a message table into an
    HTTP status, a response code and localised texts, and the HTTP error the
    server answers with. The table is loaded from a file that is not part of
    this model, so it is a parameter. */
module BusinessErrors {
  import opened Values

  /** A message definition: status, response code and text per locale. */
  datatype MessageDef = MessageDef(statusCode: int, messageCode: string, message: map<string, string>)

  /** A business error: the code it was raised with, its definition and the
      error it wraps. */
  datatype BusinessError = BusinessError(code: string, def: MessageDef, original: Option<Error>)

  /** The definition used for a code missing from the table. */
  const FallbackDef := MessageDef(500, "internal_error", map["en" := "internal error"])

  /** `NewBusinessError`: the code's definition, or the fallback for an
      unknown code; the wrapped error is kept. */
  function NewBusinessError(messages: map<string, MessageDef>, code: string, original: Option<Error>): BusinessError
  {
    BusinessError(code, if code in messages then messages[code] else FallbackDef, original)
  }

  /** `Error()`: the English text if there is one, else the raw code. */
  function ErrorText(e: BusinessError): string
  {
    if "en" in e.def.message then e.def.message["en"] else e.code
  }

  function Code(e: BusinessError): string
  {
    e.def.messageCode
  }

  function HTTPStatus(e: BusinessError): int
  {
    e.def.statusCode
  }

  /** `Message(locale)`: the locale's text, else the English one (empty when
      there is none either, as a missing map entry reads in Go). */
  function Message(e: BusinessError, locale: string): string
  {
    if locale in e.def.message then e.def.message[locale]
    else if "en" in e.def.message then e.def.message["en"]
    else ""
  }

  /** Client errors are shown to the caller; server errors are not. */
  predicate IsPublic(e: BusinessError)
  {
    e.def.statusCode < 500
  }

  function OriginalError(e: BusinessError): Option<Error>
  {
    e.original
  }

  function Unwrap(e: BusinessError): Option<Error>
  {
    e.original
  }

  /** A known code takes its definition from the table; an unknown one gets
      status 500, response code `internal_error` and the text `internal
      error`, and is not public. Either way the wrapped error is kept and
      both accessors return it. */
  lemma NewBusinessErrorDefinition(messages: map<string, MessageDef>, code: string, original: Option<Error>)
    ensures var e := NewBusinessError(messages, code, original);
      && (code in messages ==> Code(e) == messages[code].messageCode && HTTPStatus(e) == messages[code].statusCode)
      && (code !in messages ==>
            HTTPStatus(e) == 500 && Code(e) == "internal_error" && ErrorText(e) == "internal error" && !IsPublic(e))
      && OriginalError(e) == original && Unwrap(e) == original
  {
  }

  /** The locale's own text when it has one, otherwise the English text. */
  lemma MessageLocaleFallback(e: BusinessError, locale: string)
    ensures locale in e.def.message ==> Message(e, locale) == e.def.message[locale]
    ensures locale !in e.def.message && "en" in e.def.message ==> Message(e, locale) == e.def.message["en"]
    ensures "en" in e.def.message ==> Message(e, "en") == ErrorText(e)
  {
  }

  /** The HTTP error for a failed request: what `errors.As` found in the
      error's chain decides. A public business error answers with its own
      status and text; anything else answers 500 with a fixed text. */
  function NewEchoHTTPError(found: Option<BusinessError>): (int, string)
  {
    if found.Some? && IsPublic(found.value) then (HTTPStatus(found.value), ErrorText(found.value))
    else (500, "internal server error")
  }

  /** The answer is below 500 exactly for a public business error, and only
      then does the error's own text reach the caller. */
  lemma EchoErrorHidesServerErrors(found: Option<BusinessError>)
    ensures NewEchoHTTPError(found).0 < 500 <==> found.Some? && IsPublic(found.value)
    ensures !(found.Some? && IsPublic(found.value)) ==> NewEchoHTTPError(found) == (500, "internal server error")
    ensures found.Some? && IsPublic(found.value) ==> NewEchoHTTPError(found).1 == ErrorText(found.value)
  {
  }

  /** A code missing from the table always answers 500 with the fixed text. */
  lemma UnknownCodeAnswers500(messages: map<string, MessageDef>, code: string, original: Option<Error>)
    requires code !in messages
    ensures NewEchoHTTPError(Some(NewBusinessError(messages, code, original))) == (500, "internal server error")
  {
    NewBusinessErrorDefinition(messages, code, original);
  }
}

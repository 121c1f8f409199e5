/**
 * The exception raised when the agent reports an error: it is built from the
 * error envelope `{"code": ..., "message": ..., "errors": [...]}` and keeps
 * the whole decoded envelope.
 */
module ServerException {
  import opened Wrappers
  import opened PhpValues

  /** A RuntimeException subtype; `message` is the exception message, `envelope` the decoded body. */
  datatype ServerException = ServerException(envelope: Value, message: string)

  /**
   * The outcome of `new ServerException($body)`: the exception itself, or the
   * plain RuntimeException its constructor throws when the envelope is incomplete.
   */
  datatype Construction = Raised(exception: ServerException) | DataMissing(message: string)

  const DataMissingMessage: string := "ServerException occured, but data missing"

  /**
   * `new ServerException($body)` on the decoded body (null when the body is
   * not JSON): `message` and `code` must both be present and non-empty, and
   * the exception message is the code, ": ", then the message.
   */
  function FromBody(decoded: Value): (c: Construction)
    ensures c.Raised? <==> !EmptyAt(decoded, StrKey("message")) && !EmptyAt(decoded, StrKey("code"))
    ensures c.DataMissing? ==> c.message == DataMissingMessage
    ensures c.Raised? ==> c.exception.envelope == decoded
    ensures c.Raised? ==>
              c.exception.message ==
                ToString(Offset(decoded, StrKey("code")).value) + ": " + ToString(Offset(decoded, StrKey("message")).value)
    ensures decoded.Null? ==> c.DataMissing?
  {
    WordKeyIsNoOffset(StrKey("code"));
    WordKeyIsNoOffset(StrKey("message"));
    if EmptyAt(decoded, StrKey("message")) || EmptyAt(decoded, StrKey("code")) then
      DataMissing(DataMissingMessage)
    else
      var code := Read(decoded, StrKey("code"));
      var message := Read(decoded, StrKey("message"));
      assert decoded.Arr?;
      Raised(ServerException(decoded, ToString(code.value) + ": " + ToString(message.value)))
  }

  /** The envelope's `code`, as tests read it through `getOpaCode()`. */
  function OpaCode(e: ServerException): Value {
    Coalesce(e.envelope, StrKey("code"), Null)
  }

  /** The envelope's nested `errors`, as tests read them through `getErrors()`; empty when absent. */
  function Errors(e: ServerException): Value {
    Coalesce(e.envelope, StrKey("errors"), Arr([]))
  }

  /** Non-empty string `code` and `message` are enough for the exception to be raised. */
  lemma CompleteEnvelopeRaises(entries: seq<Entry>, code: string, message: string)
    requires Find(entries, StrKey("code")) == Some(Str(code)) && code != "" && code != "0"
    requires Find(entries, StrKey("message")) == Some(Str(message)) && message != "" && message != "0"
    ensures FromBody(Arr(entries)).Raised?
  {
    NonEmptyStringAt(entries, StrKey("code"), code);
    NonEmptyStringAt(entries, StrKey("message"), message);
  }

  /** A raised exception's message joins the string code and message with ": ". */
  lemma RaisedMessage(entries: seq<Entry>, code: string, message: string)
    requires FromBody(Arr(entries)).Raised?
    requires Find(entries, StrKey("code")) == Some(Str(code))
    requires Find(entries, StrKey("message")) == Some(Str(message))
    ensures FromBody(Arr(entries)).exception.message == code + ": " + message
  {
  }

  /** A raised exception gives back the envelope's code and errors. */
  lemma RaisedProjections(entries: seq<Entry>, code: string, errors: seq<Entry>)
    requires FromBody(Arr(entries)).Raised?
    requires Find(entries, StrKey("code")) == Some(Str(code))
    requires Find(entries, StrKey("errors")) == Some(Arr(errors))
    ensures OpaCode(FromBody(Arr(entries)).exception) == Str(code)
    ensures Errors(FromBody(Arr(entries)).exception) == Arr(errors)
  {
  }

  /**
   * For a complete envelope with string fields, the exception message is
   * "<code>: <message>", and the projections give back the code and the
   * nested errors unchanged.
   */
  lemma EnvelopeRoundTrip(entries: seq<Entry>, code: string, message: string, errors: seq<Entry>)
    requires Find(entries, StrKey("code")) == Some(Str(code)) && code != "" && code != "0"
    requires Find(entries, StrKey("message")) == Some(Str(message)) && message != "" && message != "0"
    requires Find(entries, StrKey("errors")) == Some(Arr(errors))
    ensures FromBody(Arr(entries)).Raised?
    ensures FromBody(Arr(entries)).exception.message == code + ": " + message
    ensures OpaCode(FromBody(Arr(entries)).exception) == Str(code)
    ensures Errors(FromBody(Arr(entries)).exception) == Arr(errors)
  {
    CompleteEnvelopeRaises(entries, code, message);
    RaisedMessage(entries, code, message);
    RaisedProjections(entries, code, errors);
  }

  /**
   * An envelope whose `code` is missing or PHP-empty (null, false, 0, 0.0,
   * "", "0" or []) never yields a ServerException, whatever else it holds.
   */
  lemma MissingCodeIsDataMissing(entries: seq<Entry>)
    requires EmptyAt(Arr(entries), StrKey("code"))
    ensures FromBody(Arr(entries)) == DataMissing("ServerException occured, but data missing")
  {
  }
}

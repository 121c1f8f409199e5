/**
 * The decision envelope returned by the agent (`Response`) and the exception
 * raised when it carries no result (`PolicyException`).
 *
 * The two PHP classes refer to each other (the exception holds the partially
 * built response), so both are modelled in this one module.
 */
module Response {
  import opened Wrappers
  import opened PhpValues

  /** The decoded envelope fields, stored as given. */
  datatype Response = Response(
    decisionId: Value,
    explain: Value,
    metrics: Value,
    result: Value,
    version: Value)

  /** A RuntimeException subtype holding the response it was raised for. */
  datatype PolicyException = PolicyException(response: Response, message: string)

  /** The outcome of `new Response(...)`: an object, or a thrown PolicyException. */
  datatype Construction = Constructed(response: Response) | NotFound(exception: PolicyException) {
    /** The response object, whether it was returned or carried by the exception. */
    function Built(): Response {
      match this
      case Constructed(r) => r
      case NotFound(e) => e.response
    }
  }

  const PolicyNotFoundMessage: string := "Policy not found"

  /** `$data[$name] ?? $default` for one envelope field. */
  function FieldOr(data: Value, name: string, default: Value): (v: Value)
    ensures Isset(data, StrKey(name)) ==> v == Offset(data, StrKey(name)).value
    ensures IsWord(name) && !Isset(data, StrKey(name)) ==> v == default
  {
    Coalesce(data, StrKey(name), default)
  }

  /**
   * `new PolicyException($response, $message)`: it keeps exactly the response
   * and the message it was given.
   */
  function NewPolicyException(r: Response, message: string): (e: PolicyException)
    ensures e.response == r && e.message == message
  {
    PolicyException(r, message)
  }

  /**
   * `new Response($httpResponse)` on the decoded body `data` (null when the
   * body is not JSON). Every field is assigned, with its default when absent
   * or null, before `result` is checked; without a non-null `result` the
   * partially filled response is thrown inside a PolicyException.
   */
  function FromBody(data: Value): (c: Construction)
    ensures c.Constructed? <==> Isset(data, StrKey("result"))
    ensures c.NotFound? ==> c.exception.message == PolicyNotFoundMessage
    ensures c.Constructed? ==> c.response.result == Offset(data, StrKey("result")).value
    ensures c.NotFound? ==> c.exception.response.result == Arr([])
    ensures Isset(data, StrKey("decision_id")) ==> c.Built().decisionId == Offset(data, StrKey("decision_id")).value
    ensures !Isset(data, StrKey("decision_id")) ==> c.Built().decisionId == Str("")
    ensures Isset(data, StrKey("explanation")) ==> c.Built().explain == Offset(data, StrKey("explanation")).value
    ensures !Isset(data, StrKey("explanation")) ==> c.Built().explain == Arr([])
    ensures Isset(data, StrKey("metrics")) ==> c.Built().metrics == Offset(data, StrKey("metrics")).value
    ensures !Isset(data, StrKey("metrics")) ==> c.Built().metrics == Arr([])
    ensures Isset(data, StrKey("provenance")) ==> c.Built().version == Offset(data, StrKey("provenance")).value
    ensures !Isset(data, StrKey("provenance")) ==> c.Built().version == Arr([])
  {
    var r := Response(
      FieldOr(data, "decision_id", Str("")),
      FieldOr(data, "explanation", Arr([])),
      FieldOr(data, "metrics", Arr([])),
      FieldOr(data, "result", Arr([])),
      FieldOr(data, "provenance", Arr([])));
    if !Isset(data, StrKey("result")) then NotFound(NewPolicyException(r, PolicyNotFoundMessage))
    else Constructed(r)
  }

  /**
   * `getByName($name)`: `result[$name] ?? null`. An array result is looked
   * up under the normalised key; a string result is indexed by the integer
   * the name starts with, if any.
   */
  function GetByName(r: Response, name: string): (v: Value)
    ensures Isset(r.result, ArrayKey(name)) ==> v == Offset(r.result, ArrayKey(name)).value
    ensures r.result.Arr? ==> v == Find(r.result.entries, ArrayKey(name)).GetOr(Null)
    ensures r.result.Str? ==>
              v == (if LenientOffset(name).Some? then CharAt(r.result.s, LenientOffset(name).value).GetOr(Null) else Null)
    ensures !r.result.Arr? && !r.result.Str? ==> v == Null
  {
    ArrayKeyOffset(name);
    CoalesceNull(r.result, ArrayKey(name));
    Coalesce(r.result, ArrayKey(name), Null)
  }

  /**
   * `has($name)`: `!empty(result[$name])`. An array result must hold a
   * truthy value under the normalised key; a string result must have a
   * character other than "0" at the offset the name is as an integer numeric
   * string; any other result has nothing.
   */
  function Has(r: Response, name: string): (b: bool)
    ensures r.result.Arr? ==>
              (b <==> Find(r.result.entries, ArrayKey(name)).Some? && !Empty(Find(r.result.entries, ArrayKey(name)).value))
    ensures r.result.Str? ==>
              (b <==> StrictOffset(name).Some? && CharAt(r.result.s, StrictOffset(name).value).Some?
                      && CharAt(r.result.s, StrictOffset(name).value).value != Str("0"))
    ensures !r.result.Arr? && !r.result.Str? ==> !b
  {
    ArrayKeyOffset(name);
    if r.result.Str? then EmptyAtString(r.result.s, ArrayKey(name)); !EmptyAt(r.result, ArrayKey(name))
    else !EmptyAt(r.result, ArrayKey(name))
  }

  /** `getResults(): array`: the stored result, which must be an array. */
  function GetResults(r: Response): (v: Checked<seq<Entry>>)
    ensures v.Passes? <==> r.result.Arr?
    ensures v.Passes? ==> Arr(v.value) == r.result
  {
    if r.result.Arr? then Passes(r.result.entries) else TypeError
  }

  /** `getDecisionID(): string`. */
  function GetDecisionId(r: Response): (v: Checked<string>)
    ensures v.Passes? <==> r.decisionId.Str?
    ensures v.Passes? ==> Str(v.value) == r.decisionId
  {
    if r.decisionId.Str? then Passes(r.decisionId.s) else TypeError
  }

  /** A getter declared to return `array`: the stored field, which must be an array. */
  function ArrayField(v: Value): (a: Checked<seq<Entry>>)
    ensures a.Passes? <==> v.Arr?
    ensures a.Passes? ==> Arr(a.value) == v
  {
    if v.Arr? then Passes(v.entries) else TypeError
  }

  /** `getExplain(): array`. */
  function GetExplain(r: Response): Checked<seq<Entry>> {
    ArrayField(r.explain)
  }

  /** `getMetrics(): array`. */
  function GetMetrics(r: Response): Checked<seq<Entry>> {
    ArrayField(r.metrics)
  }

  /** `getVersion(): array`: the `provenance` field. */
  function GetVersion(r: Response): Checked<seq<Entry>> {
    ArrayField(r.version)
  }

  // ---------------------------------------------------------------------------
  // Properties
  // ---------------------------------------------------------------------------

  /**
   * `has` implies that what `getByName` returns is truthy, and the converse
   * holds unless the result is a string and the name, like "1a", is an
   * offset for `??` but not for `empty`.
   */
  lemma HasIsTruthyGetByName(r: Response, name: string)
    ensures Has(r, name) ==> !Empty(GetByName(r, name))
    ensures !r.result.Str? || StrictOffset(name) == LenientOffset(name) ==>
              (Has(r, name) <==> !Empty(GetByName(r, name)))
  {
  }

  /**
   * `has` is false for every falsy value: false, 0, "", "0", [] and null,
   * and for a missing key.
   */
  lemma HasFalseForFalsy(r: Response, name: string)
    requires r.result.Arr?
    requires Find(r.result.entries, ArrayKey(name)) in
               {None, Some(Null), Some(Bool(false)), Some(Int(0)), Some(Str("")), Some(Str("0")), Some(Arr([]))}
    ensures !Has(r, name)
  {
  }

  /** A body with a non-null `result` always constructs, and the result is returned verbatim. */
  lemma ResultReturnedVerbatim(data: Value, result: seq<Entry>)
    requires data.Arr?
    requires Find(data.entries, StrKey("result")) == Some(Arr(result))
    ensures FromBody(data).Constructed?
    ensures GetResults(FromBody(data).response) == Passes(result)
  {
  }

  /** Bodies without a usable `result` raise "Policy not found": null, `[]`, `{}`, or a null result. */
  lemma MissingResultNotFound(data: Value)
    requires data == Null || data == Arr([]) || (data.Arr? && Find(data.entries, StrKey("result")) in {None, Some(Null)})
    ensures FromBody(data).NotFound?
    ensures FromBody(data).exception.message == "Policy not found"
  {
  }

  /**
   * The response carried by the PolicyException keeps the decision id,
   * explanation, metrics and provenance of the body.
   */
  lemma NotFoundKeepsContext(data: Value)
    requires !Isset(data, StrKey("result"))
    ensures FromBody(data).exception.response ==
              Response(
                FieldOr(data, "decision_id", Str("")),
                FieldOr(data, "explanation", Arr([])),
                FieldOr(data, "metrics", Arr([])),
                Arr([]),
                FieldOr(data, "provenance", Arr([])))
  {
  }

  /** The typed getters return exactly the stored string and array fields. */
  lemma GettersReturnStored(data: Value, id: string, explain: seq<Entry>, metrics: seq<Entry>, version: seq<Entry>)
    requires data.Arr?
    requires Find(data.entries, StrKey("decision_id")) == Some(Str(id))
    requires Find(data.entries, StrKey("explanation")) == Some(Arr(explain))
    requires Find(data.entries, StrKey("metrics")) == Some(Arr(metrics))
    requires Find(data.entries, StrKey("provenance")) == Some(Arr(version))
    ensures GetDecisionId(FromBody(data).Built()) == Passes(id)
    ensures GetExplain(FromBody(data).Built()) == Passes(explain)
    ensures GetMetrics(FromBody(data).Built()) == Passes(metrics)
    ensures GetVersion(FromBody(data).Built()) == Passes(version)
  {
  }
}

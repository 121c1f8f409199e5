/**
 * The HTTP exchange as the library sees it. Sending is left to an injected
 * transport: the model receives its outcome, never performs it.
 */
module Http {
  import opened Wrappers
  import opened PhpValues

  datatype Method = GET | POST | PUT

  /**
   * A request body: the JSON encoding of a PHP array (never the empty
   * string), or a string sent as is.
   */
  datatype Payload = Encoded(doc: Value) | Raw(text: string)

  datatype Header = Header(name: string, value: string)

  datatype Request = Request(verb: Method, url: string, headers: seq<Header>, body: Option<Payload>)

  /** A reply, with its body already decoded by `json_decode($body, true)` (null when empty or not JSON). */
  datatype HttpResponse = HttpResponse(status: int, body: Value)

  /**
   * What the transport reports for a request: a network-level failure
   * (connection refused, DNS, timeout), another transport failure, or a reply.
   */
  datatype Exchange =
    | NetworkFailure(detail: string)
    | OtherFailure(detail: string)
    | Replied(response: HttpResponse)

  /**
   * The part of an incoming PSR-7 server request the middlewares read: the
   * method, the URI path and the attributes earlier middleware attached.
   */
  datatype ServerRequest = ServerRequest(verb: string, path: string, attributes: map<string, Value>)

  /** The four evaluation flags the agent accepts on the query string. */
  datatype Flags = Flags(explain: bool, metrics: bool, instrument: bool, provenance: bool)

  /** A URL ending in exactly one `/`. */
  predicate EndsInOneSlash(url: string) {
    |url| >= 1 && url[|url| - 1] == '/' && (|url| == 1 || url[|url| - 2] != '/')
  }

  /** The value of the first header with the given name, as the transport would read it. */
  function HeaderValue(hs: seq<Header>, name: string): (v: Option<string>)
    ensures v.Some? <==> exists i :: 0 <= i < |hs| && hs[i].name == name
    ensures v.Some? ==> Header(name, v.value) in hs
  {
    if hs == [] then None
    else if hs[0].name == name then Some(hs[0].value)
    else
      var v := HeaderValue(hs[1..], name);
      assert forall i :: 1 <= i < |hs| ==> hs[i] == hs[1..][i - 1];
      v
  }
}

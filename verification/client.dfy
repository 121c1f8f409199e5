/**
 * `Client`: the PSR-18 client of the agent's REST API. It normalises the
 * agent URL, builds the data, query and policy URLs with their query
 * strings, shapes each request, and classifies what the transport reports.
 */
module Client {
  import opened Wrappers
  import opened PhpValues
  import opened PhpStrings
  import opened QueryParams
  import opened Http
  import opened Failures
  import Response

  const ApiVersion: string := "v1"
  const UnavailablePrefix: string := "OPA Client unavailable: "

  datatype Client = Client(agentUrl: string, agentToken: string)

  /**
   * `new Client(..., $agentUrl, $agentToken)`: the agent URL loses all its
   * trailing slashes and gains exactly one.
   */
  function New(agentUrl: string, agentToken: string): (c: Client)
    ensures EndsInOneSlash(c.agentUrl)
    ensures c.agentUrl[..|c.agentUrl| - 1] <= agentUrl
    ensures forall i :: |c.agentUrl| - 1 <= i < |agentUrl| ==> agentUrl[i] == '/'
    ensures c.agentToken == agentToken
  {
    var trimmed := Rtrim(agentUrl, '/');
    var url := trimmed + "/";
    assert url[..|url| - 1] == trimmed;
    Client(url, agentToken)
  }

  /** Normalising an already normalised URL changes nothing. */
  lemma NewIdempotent(agentUrl: string, agentToken: string)
    ensures New(New(agentUrl, agentToken).agentUrl, agentToken) == New(agentUrl, agentToken)
  {
    RtrimThenAppend(agentUrl, '/');
  }

  /** A URL that already ends in exactly one slash is kept as given. */
  lemma NewKeepsNormalised(agentUrl: string, agentToken: string)
    requires EndsInOneSlash(agentUrl)
    ensures New(agentUrl, agentToken).agentUrl == agentUrl
  {
    var p := agentUrl[..|agentUrl| - 1];
    assert agentUrl == p + ['/'];
    RtrimAppend(p, '/');
    RtrimKeeps(p, '/');
  }

  // ---------------------------------------------------------------------------
  // URLs
  // ---------------------------------------------------------------------------

  function BaseUrl(c: Client): string {
    c.agentUrl + ApiVersion + "/"
  }

  /** The document name a data URL of this client addresses, if it is one. */
  function DataNameOf(c: Client, url: string): Option<string> {
    var root := BaseUrl(c) + "data";
    if !(root <= url) then None
    else
      var rest := url[|root|..];
      if rest == "" then Some("")
      else if rest[0] == '/' && |rest| > 1 then Some(rest[1..])
      else None
  }

  /**
   * `getDataUrl($name)`: the data API root, followed by `/` and the name
   * only when the name is non-empty; the name can be read back.
   */
  function DataUrl(c: Client, name: string): (url: string)
    ensures BaseUrl(c) + "data" <= url
    ensures DataNameOf(c, url) == Some(name)
  {
    var root := BaseUrl(c) + "data";
    var url := root + (if |name| == 0 then "" else "/" + name);
    assert url[|root|..] == (if |name| == 0 then "" else "/" + name);
    url
  }

  /**
   * `getQueryUrl()`: the query endpoint under the API root, which is neither
   * a data URL nor a policy URL of the client.
   */
  function QueryUrl(c: Client): (url: string)
    ensures BaseUrl(c) <= url && url[|BaseUrl(c)|..] == "query"
    ensures DataNameOf(c, url).None? && PolicyNameOf(c, url).None?
  {
    var url := BaseUrl(c) + "query";
    assert url[|BaseUrl(c)|..] == "query";
    assert !(BaseUrl(c) + "data" <= url) by {
      assert url[|BaseUrl(c)|] == 'q' != (BaseUrl(c) + "data")[|BaseUrl(c)|];
    }
    assert !(BaseUrl(c) + "policies/" <= url) by {
      assert url[|BaseUrl(c)|] == 'q' != (BaseUrl(c) + "policies/")[|BaseUrl(c)|];
    }
    url
  }

  /** The policy name a policy URL of this client addresses, if it is one. */
  function PolicyNameOf(c: Client, url: string): Option<string> {
    var root := BaseUrl(c) + "policies/";
    if root <= url then Some(url[|root|..]) else None
  }

  /** `getPolicyUrl($name)`: the policy API root followed by the name, which can be read back. */
  function PolicyUrl(c: Client, name: string): (url: string)
    ensures BaseUrl(c) + "policies/" <= url
    ensures PolicyNameOf(c, url) == Some(name)
  {
    var root := BaseUrl(c) + "policies/";
    assert (root + name)[|root|..] == name;
    root + name
  }

  // ---------------------------------------------------------------------------
  // Query string
  // ---------------------------------------------------------------------------

  function BoolText(b: bool): string {
    if b then "true" else "false"
  }

  predicate IsBoolText(s: string) {
    s == "true" || s == "false"
  }

  /** The four flags in the order `http_build_query` writes them. */
  function FlagParams(f: Flags): seq<Param> {
    [ Param("explain", BoolText(f.explain)),
      Param("metrics", BoolText(f.metrics)),
      Param("instrument", BoolText(f.instrument)),
      Param("provenance", BoolText(f.provenance)) ]
  }

  /**
   * Read a query string as the four flags: exactly the keys explain,
   * metrics, instrument and provenance in that order, each `true` or `false`.
   */
  function ReadFlags(q: string): Option<Flags> {
    var ps := Parse(q);
    if |ps| == 4
       && ps[0].name == "explain" && ps[1].name == "metrics"
       && ps[2].name == "instrument" && ps[3].name == "provenance"
       && IsBoolText(ps[0].value) && IsBoolText(ps[1].value)
       && IsBoolText(ps[2].value) && IsBoolText(ps[3].value)
    then Some(Flags(ps[0].value == "true", ps[1].value == "true", ps[2].value == "true", ps[3].value == "true"))
    else None
  }

  /** The flag names and their two spellings hold no separator. */
  lemma FlagWordsClean()
    ensures Clean("explain") && Clean("metrics") && Clean("instrument") && Clean("provenance")
    ensures Clean("true") && Clean("false")
  {
  }

  /** Each flag is written as a plain pair. */
  lemma FlagParamsPlain(f: Flags)
    ensures forall i :: 0 <= i < |FlagParams(f)| ==> Plain(FlagParams(f)[i])
  {
    var ps := FlagParams(f);
    FlagWordsClean();
    assert Clean(BoolText(f.explain)) && Clean(BoolText(f.metrics));
    assert Clean(BoolText(f.instrument)) && Clean(BoolText(f.provenance));
  }

  /** Reading the rendered flags gives them back. */
  lemma ReadFlagParams(f: Flags)
    ensures Parse(Render(FlagParams(f))) == FlagParams(f)
    ensures ReadFlags(Render(FlagParams(f))) == Some(f)
  {
    FlagParamsPlain(f);
    ParseRender(FlagParams(f));
  }

  /**
   * `url` followed by `?` and a query string that reads as the flags `f`:
   * exactly the four pairs, in order, each spelled `true` or `false`.
   */
  predicate Addresses(r: string, url: string, f: Flags) {
    |url| < |r| && r[..|url|] == url && r[|url|] == '?'
    && ReadFlags(r[|url| + 1..]) == Some(f)
    && Parse(r[|url| + 1..]) == FlagParams(f)
  }

  /**
   * `getUrlQuery($url, ...)`: the URL, `?`, then all four flags, each
   * spelled `true` or `false`; reading the query back gives the flags.
   */
  function UrlQuery(url: string, f: Flags): (r: string)
    ensures Addresses(r, url, f)
  {
    var ps := FlagParams(f);
    var q := Render(ps);
    FlagParamsPlain(f);
    RenderNotTrailing(ps);
    RtrimKeeps(q, '&');
    ReadFlagParams(f);
    var r := url + "?" + Rtrim(q, '&');
    assert r[|url| + 1..] == q;
    r
  }

  // ---------------------------------------------------------------------------
  // Requests
  // ---------------------------------------------------------------------------

  /**
   * The headers of every request: the content type, and a bearer token
   * unless the token is PHP-empty ("" or "0").
   */
  function Headers(c: Client, json: bool): (hs: seq<Header>)
    ensures HeaderValue(hs, "Content-Type") == Some(if json then "application/json" else "text/plain")
    ensures HeaderValue(hs, "Authorization").Some? <==> c.agentToken != "" && c.agentToken != "0"
    ensures HeaderValue(hs, "Authorization").Some? ==> HeaderValue(hs, "Authorization").value == "Bearer " + c.agentToken
    ensures forall i :: 0 <= i < |hs| ==> hs[i].name == "Content-Type" || hs[i].name == "Authorization"
  {
    [Header("Content-Type", if json then "application/json" else "text/plain")]
    + (if !Empty(Str(c.agentToken)) then [Header("Authorization", "Bearer " + c.agentToken)] else [])
  }

  /**
   * `execute`'s request: the given verb and URL, the headers above, and the
   * body written unless it is the empty string.
   */
  function Prepare(c: Client, verb: Method, url: string, json: bool, body: Payload): (r: Request)
    ensures r.verb == verb && r.url == url && r.headers == Headers(c, json)
    ensures r.body.None? <==> body == Raw("")
    ensures r.body.Some? ==> r.body.value == body
  {
    var written := body.Encoded? || |body.text| > 0;
    Request(verb, url, Headers(c, json), if written then Some(body) else None)
  }

  /** `policy($name, $input, ...)`: a JSON POST of `{"input": input}` to the named document. */
  function PolicyRequest(c: Client, name: string, input: seq<Entry>, f: Flags): (r: Request)
    ensures r.verb == POST && r.headers == Headers(c, true)
    ensures Addresses(r.url, DataUrl(c, name), f)
    ensures r.body == Some(Encoded(Arr([Entry(StrKey("input"), Arr(input))])))
  {
    Prepare(c, POST, UrlQuery(DataUrl(c, name), f), true, Encoded(Arr([Entry(StrKey("input"), Arr(input))])))
  }

  /** `query($query, $input, ...)`: a JSON POST of `{"query": query, "input": input}` to the query API. */
  function QueryRequest(c: Client, query: string, input: seq<Entry>, f: Flags): (r: Request)
    ensures r.verb == POST && r.headers == Headers(c, true)
    ensures Addresses(r.url, QueryUrl(c), f)
    ensures r.body == Some(Encoded(Arr([Entry(StrKey("query"), Str(query)), Entry(StrKey("input"), Arr(input))])))
  {
    Prepare(c, POST, UrlQuery(QueryUrl(c), f), true,
            Encoded(Arr([Entry(StrKey("query"), Str(query)), Entry(StrKey("input"), Arr(input))])))
  }

  /** `dataUpdate($name, $content)`: a JSON PUT of the content, as is, to the named document, without a query string. */
  function DataUpdateRequest(c: Client, name: string, content: string): (r: Request)
    ensures r.verb == PUT && r.headers == Headers(c, true)
    ensures DataNameOf(c, r.url) == Some(name)
    ensures r.body == (if content == "" then None else Some(Raw(content)))
  {
    Prepare(c, PUT, DataUrl(c, name), true, Raw(content))
  }

  /** `policyUpdate($name, $content, $metrics)`: a plain-text PUT whose query sets at most the metrics flag. */
  function PolicyUpdateRequest(c: Client, name: string, content: string, metrics: bool): (r: Request)
    ensures r.verb == PUT && r.headers == Headers(c, false)
    ensures Addresses(r.url, PolicyUrl(c, name), Flags(false, metrics, false, false))
    ensures r.body == (if content == "" then None else Some(Raw(content)))
  {
    Prepare(c, PUT, UrlQuery(PolicyUrl(c, name), Flags(false, metrics, false, false)), false, Raw(content))
  }

  /** `getAgentVersion()`: a JSON GET of the data root asking only for provenance, carrying the body `[]`. */
  function VersionRequest(c: Client): (r: Request)
    ensures r.verb == GET && r.headers == Headers(c, true)
    ensures Addresses(r.url, DataUrl(c, ""), Flags(false, false, false, true))
    ensures r.body == Some(Encoded(Arr([])))
  {
    Prepare(c, GET, UrlQuery(DataUrl(c, ""), Flags(false, false, false, true)), true, Encoded(Arr([])))
  }

  // ---------------------------------------------------------------------------
  // Outcomes
  // ---------------------------------------------------------------------------

  /**
   * `execute`'s handling of the transport: a network failure becomes
   * "OPA Client unavailable", other transport failures propagate, status
   * 400 raises a ServerException built from the body, and every other
   * status is returned.
   */
  function Classify(x: Exchange): (o: Outcome<HttpResponse>)
    ensures o.Done? <==> x.Replied? && x.response.status != 400
    ensures o.Done? ==> o.value == x.response
    ensures x.NetworkFailure? ==> o == Raised(Unavailable(UnavailablePrefix + x.detail))
    ensures x.OtherFailure? ==> o == Raised(TransportError(x.detail))
    ensures x.Replied? && x.response.status == 400 ==> o == Raised(ServerFailure(x.response.body))
  {
    match x
    case NetworkFailure(d) => Raised(Unavailable(UnavailablePrefix + d))
    case OtherFailure(d) => Raised(TransportError(d))
    case Replied(resp) => if resp.status == 400 then Raised(ServerFailure(resp.body)) else Done(resp)
  }

  /**
   * What `executeGet`/`executePost` promise about a reply: a decision exactly
   * when the server answered with a status other than 400 and a body that
   * sets `result`, carrying that result and the response parsed from the
   * whole body; PolicyNotFound, carrying the partly parsed response, for any
   * other answer without `result`, even a 500; a network failure reported as
   * "OPA Client unavailable"; any other transport failure passed on; and a
   * ServerException built from the body of a 400.
   */
  predicate Decided(x: Exchange, o: Outcome<Response.Response>) {
    && (o.Done? <==> x.Replied? && x.response.status != 400 && Isset(x.response.body, StrKey("result")))
    && (o.Done? ==> o.value.result == Offset(x.response.body, StrKey("result")).value)
    && (o.Done? ==> o.value == Response.FromBody(x.response.body).Built())
    && (x.Replied? && x.response.status != 400 && !Isset(x.response.body, StrKey("result")) ==>
          && o.Raised? && o.failure.PolicyNotFound? && o.failure.policyException.message == Response.PolicyNotFoundMessage
          && o.failure.policyException.response == Response.FromBody(x.response.body).Built())
    && (x.NetworkFailure? ==> o == Raised(Unavailable(UnavailablePrefix + x.detail)))
    && (x.OtherFailure? ==> o == Raised(TransportError(x.detail)))
    && (x.Replied? && x.response.status == 400 ==> o == Raised(ServerFailure(x.response.body)))
  }

  /**
   * What `executePut` promises about a reply: true exactly for 200 and 204,
   * false for every other status but 400, and the failures of `execute`.
   */
  predicate PutAnswered(x: Exchange, o: Outcome<bool>) {
    && (o.Done? <==> x.Replied? && x.response.status != 400)
    && (o.Done? ==> (o.value <==> x.response.status == 200 || x.response.status == 204))
    && (x.NetworkFailure? ==> o == Raised(Unavailable(UnavailablePrefix + x.detail)))
    && (x.OtherFailure? ==> o == Raised(TransportError(x.detail)))
    && (x.Replied? && x.response.status == 400 ==> o == Raised(ServerFailure(x.response.body)))
  }

  /** `executeGet`/`executePost`: the classified reply is handed to the Response parser whatever its status. */
  function Decide(x: Exchange): (o: Outcome<Response.Response>)
    ensures Decided(x, o)
  {
    match Classify(x)
    case Raised(f) => Raised(f)
    case Done(resp) =>
      match Response.FromBody(resp.body)
      case Constructed(r) => Done(r)
      case NotFound(e) => Raised(PolicyNotFound(e))
  }

  /** `executePut`: the classified reply's status, read as success or not. */
  function PutResult(x: Exchange): (o: Outcome<bool>)
    ensures PutAnswered(x, o)
  {
    match Classify(x)
    case Raised(f) => Raised(f)
    case Done(resp) => Done(resp.status == 200 || resp.status == 204)
  }

  /** Only status 400 is special: every other status leads to the same outcome for the same body. */
  lemma OnlyStatus400IsSpecial(s: int, t: int, body: Value)
    requires s != 400 && t != 400
    ensures Decide(Replied(HttpResponse(s, body))) == Decide(Replied(HttpResponse(t, body)))
  {
  }

  /** A network failure is never reported as a ServerException, whatever the request. */
  lemma NetworkFailureIsUnavailable(detail: string)
    ensures Decide(NetworkFailure(detail)) == Raised(Unavailable("OPA Client unavailable: " + detail))
    ensures PutResult(NetworkFailure(detail)) == Raised(Unavailable("OPA Client unavailable: " + detail))
  {
  }

  // ---------------------------------------------------------------------------
  // Operations
  // ---------------------------------------------------------------------------

  /** `policy(...)`: evaluate the named document with the given input. */
  function Policy(c: Client, send: Request -> Exchange, name: string, input: seq<Entry>, f: Flags): (o: Outcome<Response.Response>)
    ensures Decided(send(PolicyRequest(c, name, input, f)), o)
  {
    Decide(send(PolicyRequest(c, name, input, f)))
  }

  /** `query(...)`: evaluate an ad hoc query with the given input. */
  function Query(c: Client, send: Request -> Exchange, query: string, input: seq<Entry>, f: Flags): (o: Outcome<Response.Response>)
    ensures Decided(send(QueryRequest(c, query, input, f)), o)
  {
    Decide(send(QueryRequest(c, query, input, f)))
  }

  /** `dataUpdate(...)`: create or replace a document. */
  function DataUpdate(c: Client, send: Request -> Exchange, name: string, content: string): (o: Outcome<bool>)
    ensures PutAnswered(send(DataUpdateRequest(c, name, content)), o)
  {
    PutResult(send(DataUpdateRequest(c, name, content)))
  }

  /** `policyUpdate(...)`: create or replace a policy module. */
  function PolicyUpdate(c: Client, send: Request -> Exchange, name: string, content: string, metrics: bool): (o: Outcome<bool>)
    ensures PutAnswered(send(PolicyUpdateRequest(c, name, content, metrics)), o)
  {
    PutResult(send(PolicyUpdateRequest(c, name, content, metrics)))
  }

  /**
   * `getAgentVersion()`: the `provenance` of the data root's decision. The
   * decision must carry a `result` like any other, and the provenance must be
   * an array to pass the typed return.
   */
  function GetAgentVersion(c: Client, send: Request -> Exchange): (o: Outcome<seq<Entry>>)
    ensures var x := send(VersionRequest(c));
            o.Done? <==> x.Replied? && x.response.status != 400 && Isset(x.response.body, StrKey("result"))
                         && Response.FieldOr(x.response.body, "provenance", Arr([])).Arr?
    ensures var x := send(VersionRequest(c));
            o.Done? ==> Arr(o.value) == Response.FieldOr(x.response.body, "provenance", Arr([]))
    ensures var x := send(VersionRequest(c));
            x.NetworkFailure? ==> o == Raised(Unavailable(UnavailablePrefix + x.detail))
    ensures var x := send(VersionRequest(c));
            x.OtherFailure? ==> o == Raised(TransportError(x.detail))
    ensures var x := send(VersionRequest(c));
            x.Replied? && x.response.status == 400 ==> o == Raised(ServerFailure(x.response.body))
    ensures var x := send(VersionRequest(c));
            x.Replied? && x.response.status != 400 && !Isset(x.response.body, StrKey("result")) ==>
              o.Raised? && o.failure.PolicyNotFound? && o.failure.policyException.message == Response.PolicyNotFoundMessage
    ensures var x := send(VersionRequest(c));
            (x.Replied? && x.response.status != 400 && Isset(x.response.body, StrKey("result"))
             && !Response.FieldOr(x.response.body, "provenance", Arr([])).Arr?) ==> o == Raised(Failure.TypeError)
  {
    match Decide(send(VersionRequest(c)))
    case Raised(f) => Raised(f)
    case Done(r) =>
      match Response.GetVersion(r)
      case Passes(v) => Done(v)
      case TypeError => Raised(Failure.TypeError)
  }
}

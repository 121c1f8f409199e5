/**
 * `Engine`: the older Guzzle-based client. Its query strings carry only the
 * flags that are set, it always POSTs, and it splits failures into HTTP
 * errors (4xx/5xx, a ServerException), other request failures ("OPA Engine
 * unavailable") and connection failures, which Guzzle 7 does not raise as
 * request failures and which therefore leave `execute` unchanged.
 */
module Engine {
  import opened Wrappers
  import opened PhpValues
  import opened PhpStrings
  import opened PhpArrays
  import opened QueryParams
  import opened Http
  import opened Failures

  const ApiVersion: string := "v1"
  const AgentUrlOption: string := "agent_url"
  const UnavailablePrefix: string := "OPA Engine unavailable: "

  /** The merged options, whose `agent_url` is the normalised `agentUrl`. */
  datatype Engine = Engine(options: seq<Entry>, agentUrl: string)

  /** The constructor's defaults: `['agent_url' => '']`. */
  function Defaults(): seq<Entry> {
    [Entry(StrKey(AgentUrlOption), Str(""))]
  }

  /**
   * `new Engine($options)`: a PHP-empty `agent_url` is rejected with
   * "<value> is not set"; otherwise the options replace the defaults
   * recursively and `agent_url`, which must be a string for `rtrim`, is
   * normalised to end in exactly one slash.
   */
  function New(options: seq<Entry>): (o: Outcome<Engine>)
    requires UniqueKeys(options)
    ensures (o.Raised? && o.failure.Rejected?) <==> EmptyAt(Arr(options), StrKey(AgentUrlOption))
    ensures o.Raised? && o.failure.Rejected? ==>
              o.failure.message == ToString(Find(options, StrKey(AgentUrlOption)).GetOr(Null)) + " is not set"
    ensures o.Done? <==> !EmptyAt(Arr(options), StrKey(AgentUrlOption)) && Find(options, StrKey(AgentUrlOption)).value.Str?
    ensures o.Done? ==> EndsInOneSlash(o.value.agentUrl)
    ensures o.Done? ==>
              var given := Find(options, StrKey(AgentUrlOption)).value.s;
              o.value.agentUrl[..|o.value.agentUrl| - 1] <= given
              && forall i :: |o.value.agentUrl| - 1 <= i < |given| ==> given[i] == '/'
    ensures o.Done? ==> Find(o.value.options, StrKey(AgentUrlOption)) == Some(Str(o.value.agentUrl))
    ensures o.Done? ==>
              forall k :: k != StrKey(AgentUrlOption) ==> Find(o.value.options, k) == Find(options, k)
  {
    var key := StrKey(AgentUrlOption);
    if EmptyAt(Arr(options), key) then
      Raised(Rejected(ToString(Find(options, key).GetOr(Null)) + " is not set"))
    else
      var merged := ReplaceRecursive(Defaults(), options);
      MergedOptions(options, key);
      match Find(merged, key).value
      case Str(given) =>
        var url := Rtrim(given, '/') + "/";
        assert url[..|url| - 1] == Rtrim(given, '/');
        assert forall k :: k != key ==> Find(merged, k) == Find(options, k) by {
          forall k | k != key ensures Find(merged, k) == Find(options, k) {
            MergedOptions(options, k);
          }
        }
        Done(Engine(Set(merged, key, Str(url)), url))
      case _ => Raised(Failure.TypeError)
  }

  /** Replacing the defaults by well-formed options leaves exactly the options' values under their keys. */
  lemma MergedOptions(options: seq<Entry>, k: Key)
    requires UniqueKeys(options)
    requires HasKey(options, k) || k != StrKey(AgentUrlOption)
    ensures Find(ReplaceRecursive(Defaults(), options), k) == Find(options, k)
  {
    if HasKey(options, k) {
      var j :| 0 <= j < |options| && options[j].key == k;
      ReplaceTakesSrc(Defaults(), options, j);
      FindEntry(options, j);
    } else {
      ReplaceKeepsDest(Defaults(), options, k);
    }
  }

  // ---------------------------------------------------------------------------
  // URLs
  // ---------------------------------------------------------------------------

  function BaseUrl(e: Engine): string {
    e.agentUrl + ApiVersion + "/"
  }

  /** The document name a data URL of this engine addresses, if it is one. */
  function DataNameOf(e: Engine, url: string): Option<string> {
    var root := BaseUrl(e) + "data/";
    if root <= url then Some(url[|root|..]) else None
  }

  /**
   * `getDataUrl($name)`: the data API root with its slash, then the name;
   * the slash stays even when the name is empty.
   */
  function DataUrl(e: Engine, name: string): (url: string)
    ensures BaseUrl(e) + "data/" <= url
    ensures DataNameOf(e, url) == Some(name)
  {
    var root := BaseUrl(e) + "data/";
    assert (root + name)[|root|..] == name;
    root + name
  }

  /** `getQueryUrl()`: the query endpoint under the API root, which is not a data URL of the engine. */
  function QueryUrl(e: Engine): (url: string)
    ensures BaseUrl(e) <= url && url[|BaseUrl(e)|..] == "query"
    ensures DataNameOf(e, url).None?
  {
    var url := BaseUrl(e) + "query";
    assert url[|BaseUrl(e)|..] == "query";
    assert !(BaseUrl(e) + "data/" <= url) by {
      assert url[|BaseUrl(e)|] == 'q' != (BaseUrl(e) + "data/")[|BaseUrl(e)|];
    }
    url
  }

  // ---------------------------------------------------------------------------
  // Query string
  // ---------------------------------------------------------------------------

  /** The pair each set flag contributes: explain asks for the full explanation. */
  const ExplainParam := Param("explain", "full")
  const MetricsParam := Param("metrics", "true")
  const InstrumentParam := Param("instrument", "true")
  const ProvenanceParam := Param("provenance", "true")

  predicate NoneSet(f: Flags) {
    !f.explain && !f.metrics && !f.instrument && !f.provenance
  }

  /** The query text `getUrlQuery` assembles: `name=value&` for each set flag, in a fixed order. */
  function QueryText(f: Flags): string {
    (if f.explain then "explain=full&" else "")
    + (if f.metrics then "metrics=true&" else "")
    + (if f.instrument then "instrument=true&" else "")
    + (if f.provenance then "provenance=true&" else "")
  }

  /** The pairs of the set flags, in the order explain, metrics, instrument, provenance. */
  function SetParams(f: Flags): seq<Param> {
    (if f.explain then [ExplainParam] else [])
    + (if f.metrics then [MetricsParam] else [])
    + (if f.instrument then [InstrumentParam] else [])
    + (if f.provenance then [ProvenanceParam] else [])
  }

  /** The position of a flag's name in the fixed order; other names come last. */
  function Rank(name: string): nat {
    if name == "explain" then 0
    else if name == "metrics" then 1
    else if name == "instrument" then 2
    else if name == "provenance" then 3
    else 4
  }

  /** Pairs whose names follow the fixed order strictly, so no flag appears twice. */
  predicate InFixedOrder(ps: seq<Param>) {
    forall i, j :: 0 <= i < j < |ps| ==> Rank(ps[i].name) < Rank(ps[j].name)
  }

  /** Read a query string as flags: a flag is set exactly when its pair is present. */
  function ReadFlags(q: string): Flags {
    var ps := Parse(q);
    Flags(HasParam(ps, "explain", "full"), HasParam(ps, "metrics", "true"),
          HasParam(ps, "instrument", "true"), HasParam(ps, "provenance", "true"))
  }

  /** One optional pair, assembled. */
  lemma TerminatedPiece(b: bool, p: Param)
    ensures Terminated(if b then [p] else []) == (if b then RenderParam(p) + "&" else "")
  {
    if b {
      assert [p][1..] == [];
    }
  }

  /** Each flag's pair, written with its trailing `&`, is the piece `getUrlQuery` appends. */
  lemma RenderedFlagPieces()
    ensures RenderParam(ExplainParam) + "&" == "explain=full&"
    ensures RenderParam(MetricsParam) + "&" == "metrics=true&"
    ensures RenderParam(InstrumentParam) + "&" == "instrument=true&"
    ensures RenderParam(ProvenanceParam) + "&" == "provenance=true&"
  {
  }

  /** The assembled text is the set flags' pairs, each followed by `&`. */
  lemma QueryTextIsTerminated(f: Flags)
    ensures QueryText(f) == Terminated(SetParams(f))
  {
    var e := if f.explain then [ExplainParam] else [];
    var m := if f.metrics then [MetricsParam] else [];
    var i := if f.instrument then [InstrumentParam] else [];
    var p := if f.provenance then [ProvenanceParam] else [];
    TerminatedPiece(f.explain, ExplainParam);
    TerminatedPiece(f.metrics, MetricsParam);
    TerminatedPiece(f.instrument, InstrumentParam);
    TerminatedPiece(f.provenance, ProvenanceParam);
    RenderedFlagPieces();
    TerminatedConcat(e, m);
    TerminatedConcat(e + m, i);
    TerminatedConcat(e + m + i, p);
  }

  /** The set flags' pairs are exactly the pairs of the flags that are set. */
  lemma SetParamsMembers(f: Flags)
    ensures forall p :: p in SetParams(f) <==>
              (f.explain && p == ExplainParam) || (f.metrics && p == MetricsParam)
              || (f.instrument && p == InstrumentParam) || (f.provenance && p == ProvenanceParam)
  {
  }

  /** The four flag pairs are distinct: their names start with different letters. */
  lemma FlagParamsDistinct()
    ensures ExplainParam != MetricsParam && ExplainParam != InstrumentParam && ExplainParam != ProvenanceParam
    ensures MetricsParam != InstrumentParam && MetricsParam != ProvenanceParam && InstrumentParam != ProvenanceParam
  {
    assert ExplainParam.name[0] == 'e' && MetricsParam.name[0] == 'm';
    assert InstrumentParam.name[0] == 'i' && ProvenanceParam.name[0] == 'p';
  }

  /** The flag names and values hold no separator. */
  lemma FlagWordsClean()
    ensures Clean("explain") && Clean("metrics") && Clean("instrument") && Clean("provenance")
    ensures Clean("full") && Clean("true")
  {
  }

  /** Each flag pair holds no `&` or `=`. */
  lemma FlagParamsPlain()
    ensures Plain(ExplainParam) && Plain(MetricsParam) && Plain(InstrumentParam) && Plain(ProvenanceParam)
  {
    FlagWordsClean();
  }

  /** The set flags' pairs hold no `&` or `=`, so they read back. */
  lemma SetParamsPlain(f: Flags)
    ensures forall i :: 0 <= i < |SetParams(f)| ==> Plain(SetParams(f)[i])
  {
    var ps := SetParams(f);
    SetParamsMembers(f);
    FlagParamsPlain();
    forall i | 0 <= i < |ps| ensures Plain(ps[i]) {
      assert ps[i] in ps;
    }
  }

  /** The set flags' pairs name exactly the set flags, and there are none when no flag is set. */
  lemma SetParamsRead(f: Flags)
    ensures |SetParams(f)| == 0 <==> NoneSet(f)
    ensures HasParam(SetParams(f), "explain", "full") == f.explain
    ensures HasParam(SetParams(f), "metrics", "true") == f.metrics
    ensures HasParam(SetParams(f), "instrument", "true") == f.instrument
    ensures HasParam(SetParams(f), "provenance", "true") == f.provenance
  {
    var ps := SetParams(f);
    SetParamsMembers(f);
    FlagParamsDistinct();
    assert HasParam(ps, "explain", "full") == (ExplainParam in ps);
    assert HasParam(ps, "metrics", "true") == (MetricsParam in ps);
    assert HasParam(ps, "instrument", "true") == (InstrumentParam in ps);
    assert HasParam(ps, "provenance", "true") == (ProvenanceParam in ps);
  }

  /** The set flags' pairs follow the fixed order. */
  lemma SetParamsOrdered(f: Flags)
    ensures InFixedOrder(SetParams(f))
  {
    var ps := SetParams(f);
    forall i, j | 0 <= i < j < |ps| ensures Rank(ps[i].name) < Rank(ps[j].name) {
      assert Rank(ExplainParam.name) == 0 && Rank(MetricsParam.name) == 1;
      assert Rank(InstrumentParam.name) == 2 && Rank(ProvenanceParam.name) == 3;
    }
  }

  /** A URL followed by `?` and a query holding exactly the set flags, in the fixed order, or the URL alone when none is set. */
  predicate Addresses(r: string, url: string, f: Flags) {
    if NoneSet(f) then r == url
    else
      |url| < |r| && r[..|url|] == url && r[|url|] == '?'
      && Parse(r[|url| + 1..]) == SetParams(f)
      && ReadFlags(r[|url| + 1..]) == f
      && InFixedOrder(Parse(r[|url| + 1..]))
      && r[|r| - 1] != '&'
  }

  /** With some flag set, the assembled text is the rendered pairs followed by one `&`, so it is not empty. */
  lemma QueryTextNotEmpty(f: Flags)
    requires !NoneSet(f)
    ensures !Empty(Str(QueryText(f)))
  {
    var ps := SetParams(f);
    QueryTextIsTerminated(f);
    SetParamsRead(f);
    SetParamsPlain(f);
    TerminatedRender(ps);
    RenderNotTrailing(ps);
    assert QueryText(f) == Render(ps) + "&";
    assert |QueryText(f)| >= 2;
  }

  /** With some flag set, the trimmed text reads back as the flags, in the fixed order, with no trailing `&`. */
  lemma TrimmedQueryReads(f: Flags)
    requires !NoneSet(f)
    ensures var q := Rtrim(QueryText(f), '&');
            Parse(q) == SetParams(f) && ReadFlags(q) == f && InFixedOrder(Parse(q))
            && q != [] && q[|q| - 1] != '&'
  {
    var ps := SetParams(f);
    TrimmedIsRendered(f);
    SetParamsPlain(f);
    ParseRender(ps);
    SetParamsRead(f);
    SetParamsOrdered(f);
    RenderNotTrailing(ps);
  }

  /** With some flag set, trimming the assembled text leaves the rendered pairs of the set flags. */
  lemma TrimmedIsRendered(f: Flags)
    requires !NoneSet(f)
    ensures |SetParams(f)| >= 1
    ensures Rtrim(QueryText(f), '&') == Render(SetParams(f))
  {
    QueryTextIsTerminated(f);
    SetParamsRead(f);
    SetParamsPlain(f);
    TrimTerminated(SetParams(f));
  }

  /** What the assembled text becomes once its trailing `&` are trimmed. */
  lemma QueryTextFacts(f: Flags)
    ensures NoneSet(f) ==> QueryText(f) == ""
    ensures !NoneSet(f) ==>
              var q := Rtrim(QueryText(f), '&');
              !Empty(Str(QueryText(f)))
              && Parse(q) == SetParams(f)
              && ReadFlags(q) == f && InFixedOrder(Parse(q))
              && q != [] && q[|q| - 1] != '&'
  {
    if !NoneSet(f) {
      QueryTextNotEmpty(f);
      TrimmedQueryReads(f);
    }
  }

  /**
   * `getUrlQuery($url, ...)`: only the set flags, joined by `&` with no
   * trailing `&`; with no flag set the URL is returned unchanged, without `?`.
   */
  function UrlQuery(url: string, f: Flags): (r: string)
    ensures Addresses(r, url, f)
  {
    var query := QueryText(f);
    QueryTextFacts(f);
    if Empty(Str(query)) then url
    else
      AddressedQuery(url, f);
      url + "?" + Rtrim(query, '&')
  }

  /** With some flag set, the URL, `?` and the trimmed text address the flags. */
  lemma AddressedQuery(url: string, f: Flags)
    requires !NoneSet(f)
    ensures Addresses(url + "?" + Rtrim(QueryText(f), '&'), url, f)
  {
    var q := Rtrim(QueryText(f), '&');
    TrimmedQueryReads(f);
    QueryAfterUrl(url, q, f);
  }

  /** A query that reads as the set flags, placed after the URL and `?`, addresses them. */
  lemma QueryAfterUrl(url: string, q: string, f: Flags)
    requires !NoneSet(f)
    requires Parse(q) == SetParams(f) && ReadFlags(q) == f && InFixedOrder(Parse(q))
    requires q != [] && q[|q| - 1] != '&'
    ensures Addresses(url + "?" + q, url, f)
  {
    var r := url + "?" + q;
    assert r[..|url|] == url;
    assert r[|url| + 1..] == q;
  }

  // ---------------------------------------------------------------------------
  // Requests and outcomes
  // ---------------------------------------------------------------------------

  /** The one header every request of the engine carries. */
  function Headers(): seq<Header> {
    [Header("Content-Type", "application/json")]
  }

  /** `execute($url, $body)`: always a JSON POST; an empty body is not sent. */
  function Post(url: string, body: Option<Payload>): (r: Request)
    ensures r.verb == POST && r.url == url && r.body == body
    ensures HeaderValue(r.headers, "Content-Type") == Some("application/json")
    ensures HeaderValue(r.headers, "Authorization").None?
  {
    Request(POST, url, Headers(), body)
  }

  /** `policy($name, $input, ...)`: `{"input": input}` posted to the named document. */
  function PolicyRequest(e: Engine, name: string, input: seq<Entry>, f: Flags): (r: Request)
    ensures r.verb == POST
    ensures Addresses(r.url, DataUrl(e, name), f)
    ensures r.body == Some(Encoded(Arr([Entry(StrKey("input"), Arr(input))])))
  {
    Post(UrlQuery(DataUrl(e, name), f), Some(Encoded(Arr([Entry(StrKey("input"), Arr(input))]))))
  }

  /** `query($query, ...)`: `{"query": query}` posted to the query API, with no input. */
  function QueryRequest(e: Engine, query: string, f: Flags): (r: Request)
    ensures r.verb == POST
    ensures Addresses(r.url, QueryUrl(e), f)
    ensures r.body == Some(Encoded(Arr([Entry(StrKey("query"), Str(query))])))
  {
    Post(UrlQuery(QueryUrl(e), f), Some(Encoded(Arr([Entry(StrKey("query"), Str(query))]))))
  }

  /** `getAgentVersion()`: an empty POST to the data root, keeping its slash, asking only for provenance. */
  function VersionRequest(e: Engine): (r: Request)
    ensures r.verb == POST
    ensures Addresses(r.url, DataUrl(e, ""), Flags(false, false, false, true))
    ensures r.body.None?
  {
    Post(UrlQuery(DataUrl(e, ""), Flags(false, false, false, true)), None)
  }

  /** Guzzle raises an HTTP error for every 4xx and 5xx status. */
  predicate HttpError(status: int) {
    400 <= status <= 599
  }

  /**
   * What `execute` promises about a reply: a 4xx or 5xx reply raises a
   * ServerException built from its body, any other request failure becomes
   * "OPA Engine unavailable", a connection failure (Guzzle's ConnectException,
   * which is not a RequestException) escapes as it was raised, and every other
   * reply is delivered unchanged.
   */
  predicate Delivered(x: Exchange, o: Outcome<HttpResponse>) {
    && (o.Done? <==> x.Replied? && !HttpError(x.response.status))
    && (o.Done? ==> o.value == x.response)
    && (x.Replied? && HttpError(x.response.status) ==> o == Raised(ServerFailure(x.response.body)))
    && (x.NetworkFailure? ==> o == Raised(TransportError(x.detail)))
    && (x.OtherFailure? ==> o == Raised(Unavailable(UnavailablePrefix + x.detail)))
  }

  /** `execute`'s failure handling. */
  function Classify(x: Exchange): (o: Outcome<HttpResponse>)
    ensures Delivered(x, o)
  {
    match x
    case NetworkFailure(d) => Raised(TransportError(d))
    case OtherFailure(d) => Raised(Unavailable(UnavailablePrefix + d))
    case Replied(resp) => if HttpError(resp.status) then Raised(ServerFailure(resp.body)) else Done(resp)
  }

  /** `policy(...)`: the delivered reply, whose decoding is not part of this model. */
  function Policy(e: Engine, send: Request -> Exchange, name: string, input: seq<Entry>, f: Flags): (o: Outcome<HttpResponse>)
    ensures Delivered(send(PolicyRequest(e, name, input, f)), o)
  {
    Classify(send(PolicyRequest(e, name, input, f)))
  }

  /** `query(...)`: the delivered reply, whose decoding is not part of this model. */
  function Query(e: Engine, send: Request -> Exchange, query: string, f: Flags): (o: Outcome<HttpResponse>)
    ensures Delivered(send(QueryRequest(e, query, f)), o)
  {
    Classify(send(QueryRequest(e, query, f)))
  }

  /** `getAgentVersion()`: the delivered reply, whose decoding is not part of this model. */
  function GetAgentVersion(e: Engine, send: Request -> Exchange): (o: Outcome<HttpResponse>)
    ensures Delivered(send(VersionRequest(e)), o)
  {
    Classify(send(VersionRequest(e)))
  }
}

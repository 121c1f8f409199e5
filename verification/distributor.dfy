/**
 * `Distributor`: the PSR-15 middleware that serves the policy bundle to an
 * agent polling for it. Only its routing decision is modelled: whether a
 * request is answered with the bundle or passed on.
 */
module Distributor {
  import opened Wrappers
  import opened PhpValues
  import opened PhpStrings
  import opened Http
  import opened Failures

  const InvalidPathMessage: string := "opa-distributor: Policy path is invalid"

  /** The options a caller passes; an option left out is `None`. */
  datatype UserOptions = UserOptions(attrToken: Option<string>, agentUser: Option<Value>, tokenField: Option<Value>)

  datatype Distributor = Distributor(
    bundleRoute: string,
    policyPath: string,
    attrToken: string,
    agentUser: Value,
    tokenField: Value)

  /** What `process` does with a request. */
  datatype Routing =
    | ServeBundle(status: int, contentType: string)
    | PassThrough
    | Failed(failure: Failure)

  const Bundle := ServeBundle(200, "application/gzip")

  /**
   * The constructor: a policy path that does not exist is rejected; the
   * options left out take their defaults (token attribute `token`, agent
   * user `opa`, token field `sub`). Whether the path exists is an input,
   * since the model has no file system.
   */
  function New(bundleRoute: string, policyPath: string, u: UserOptions, policyPathExists: bool): (o: Outcome<Distributor>)
    ensures o.Raised? <==> !policyPathExists
    ensures o.Raised? ==> o.failure == Rejected(InvalidPathMessage)
    ensures o.Done? ==> o.value.bundleRoute == bundleRoute && o.value.policyPath == policyPath
    ensures o.Done? ==> o.value.attrToken == (if u.attrToken.Some? then u.attrToken.value else "token")
    ensures o.Done? ==> o.value.agentUser == (if u.agentUser.Some? then u.agentUser.value else Str("opa"))
    ensures o.Done? ==> o.value.tokenField == (if u.tokenField.Some? then u.tokenField.value else Str("sub"))
  {
    if !policyPathExists then Raised(Rejected(InvalidPathMessage))
    else
      Done(Distributor(bundleRoute, policyPath, u.attrToken.GetOr("token"),
                       u.agentUser.GetOr(Str("opa")), u.tokenField.GetOr(Str("sub"))))
  }

  /** `getAttribute($name)`: the attribute, or null when it is not set. */
  function TokenOf(d: Distributor, req: ServerRequest): Value {
    if d.attrToken in req.attributes then req.attributes[d.attrToken] else Null
  }

  /**
   * `process`: the bundle is served when a token is present, the bundle
   * route occurs at the very start of the path, and the token's `sub` is
   * strictly the agent user; the field read is always `sub`, whatever the
   * token field option says. Reading `sub` from a string token throws.
   */
  function Process(d: Distributor, req: ServerRequest): (r: Routing)
    ensures r == Bundle <==>
              !TokenOf(d, req).Null? && d.bundleRoute <= req.path
              && Read(TokenOf(d, req), StrKey("sub")) == Passes(d.agentUser)
    ensures r.Failed? <==> !TokenOf(d, req).Null? && d.bundleRoute <= req.path && TokenOf(d, req).Str?
    ensures r.Failed? ==> r.failure == Failure.TypeError
    ensures r.ServeBundle? ==> r == Bundle
  {
    var attribute := TokenOf(d, req);
    var pos := Strpos(req.path, d.bundleRoute);
    StrposZeroIsPrefix(req.path, d.bundleRoute);
    if attribute.Null? || pos.None? || pos.value > 0 then PassThrough
    else
      match Read(attribute, StrKey("sub"))
      case TypeError => Failed(Failure.TypeError)
      case Passes(sub) => if sub == d.agentUser then Bundle else PassThrough
  }

  /** Without a token attribute every request passes through. */
  lemma NoTokenPassesThrough(d: Distributor, req: ServerRequest)
    requires d.attrToken !in req.attributes || req.attributes[d.attrToken] == Null
    ensures Process(d, req) == PassThrough
  {
  }

  /** A path on which the bundle route occurs only later than its start passes through. */
  lemma RouteMustBePrefix(d: Distributor, req: ServerRequest)
    requires !(d.bundleRoute <= req.path)
    ensures Process(d, req) == PassThrough
  {
  }

  /** The token field option is never read. */
  lemma TokenFieldIgnored(d: Distributor, req: ServerRequest, field: Value)
    ensures Process(d.(tokenField := field), req) == Process(d, req)
  {
  }

  /**
   * With the default options, the agent user is `opa`: a token whose `sub`
   * is "opa" on the bundle route gets the bundle, any other subject passes
   * through.
   */
  lemma DefaultAgentUser(route: string, policyPath: string, req: ServerRequest, token: seq<Entry>)
    requires "token" in req.attributes && req.attributes["token"] == Arr(token)
    requires route <= req.path
    ensures var d := New(route, policyPath, UserOptions(None, None, None), true).value;
            Process(d, req) == (if Find(token, StrKey("sub")) == Some(Str("opa")) then Bundle else PassThrough)
  {
  }
}

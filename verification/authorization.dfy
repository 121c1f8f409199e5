/**
 * `Authorization`: the PSR-15 middleware that asks the agent whether a
 * request may proceed. It builds the policy input from the request, evaluates
 * the configured policy with every flag off, and lets the request through
 * only when the allow key of the result is exactly `true`.
 */
module Authorization {
  import opened Wrappers
  import opened PhpValues
  import opened PhpStrings
  import opened PhpArrays
  import opened Http
  import opened Failures
  import Response
  import Client

  const NoPolicyMessage: string := "opa-authz: no policy set"
  const PolicyNotFoundMessage: string := "Policy not found"
  const ForbiddenStatus: int := 403
  const ForbiddenReason: string := "Unauthorized"

  /**
   * The options a caller passes: an option left out is `None`; a callback is
   * `Some` exactly when the value given is callable.
   */
  datatype UserOptions = UserOptions(
    attrResult: Option<string>,
    attrInput: Option<string>,
    attrDefault: Option<Value>,
    policy: Option<string>,
    allowKey: Option<string>,
    inputCallback: Option<() -> Value>,
    missingCallback: Option<Value -> Value>)

  /** The options after the defaults were merged in. */
  datatype Options = Options(
    attrResult: string,
    attrInput: string,
    attrDefault: Value,
    policy: string,
    allowKey: string,
    inputCallback: Option<() -> Value>,
    missingCallback: Option<Value -> Value>)

  /**
   * What `process` does: hand the request to the next handler (with the
   * decision attached under a name, when one is configured), answer with an
   * empty 403, raise the generic "Policy not found", or let an exception of
   * the client propagate.
   */
  datatype Decision =
    | Forward(request: ServerRequest, attached: Option<(string, Response.Response)>)
    | Denied(status: int, reason: string)
    | Fatal(message: string)
    | Propagated(failure: Failure)

  /** The default token attribute, `['sub' => '']`. */
  function SubDefault(): seq<Entry> {
    [Entry(StrKey("sub"), Str(""))]
  }

  /** `array_replace_recursive` of the default token attribute with the one given, if any. */
  function MergeAttrDefault(given: Option<Value>): Value {
    match given
    case None => Arr(SubDefault())
    case Some(Arr(es)) => Arr(ReplaceRecursive(SubDefault(), es))
    case Some(v) => v
  }

  /**
   * The constructor: a PHP-empty `policy` is rejected; otherwise every option
   * left out takes its default (result attribute `openpolicyagent`, input
   * attribute `token`, allow key `allow`), and an array given as the default
   * token attribute gains `sub => ''` unless it has its own `sub`.
   */
  function Configure(u: UserOptions): (o: Outcome<Options>)
    ensures o.Raised? <==> u.policy.None? || u.policy.value == "" || u.policy.value == "0"
    ensures o.Raised? ==> o.failure == Rejected(NoPolicyMessage)
    ensures o.Done? ==> o.value.policy == u.policy.value
    ensures o.Done? ==> o.value.attrResult == (if u.attrResult.Some? then u.attrResult.value else "openpolicyagent")
    ensures o.Done? ==> o.value.attrInput == (if u.attrInput.Some? then u.attrInput.value else "token")
    ensures o.Done? ==> o.value.allowKey == (if u.allowKey.Some? then u.allowKey.value else "allow")
    ensures o.Done? ==> o.value.inputCallback == u.inputCallback && o.value.missingCallback == u.missingCallback
    ensures o.Done? && u.attrDefault.None? ==> o.value.attrDefault == Arr([Entry(StrKey("sub"), Str(""))])
    ensures o.Done? && u.attrDefault.Some? && !u.attrDefault.value.Arr? ==> o.value.attrDefault == u.attrDefault.value
    ensures o.Done? && u.attrDefault.Some? && u.attrDefault.value.Arr? && UniqueKeys(u.attrDefault.value.entries) ==>
              && o.value.attrDefault.Arr?
              && forall k :: Find(o.value.attrDefault.entries, k) ==
                               if HasKey(u.attrDefault.value.entries, k) then Find(u.attrDefault.value.entries, k)
                               else if k == StrKey("sub") then Some(Str(""))
                               else None
  {
    AttrDefaultMergeAll(u.attrDefault);
    if u.policy.None? || Empty(Str(u.policy.value)) then Raised(Rejected(NoPolicyMessage))
    else
      Done(Options(
        u.attrResult.GetOr("openpolicyagent"),
        u.attrInput.GetOr("token"),
        MergeAttrDefault(u.attrDefault),
        u.policy.value,
        u.allowKey.GetOr("allow"),
        u.inputCallback,
        u.missingCallback))
  }

  /**
   * An array given as the default token attribute keeps all its own entries,
   * and `sub` is "" when it has none.
   */
  lemma AttrDefaultMerge(es: seq<Entry>, k: Key)
    requires UniqueKeys(es)
    ensures Find(MergeAttrDefault(Some(Arr(es))).entries, k) ==
              if HasKey(es, k) then Find(es, k)
              else if k == StrKey("sub") then Some(Str(""))
              else None
  {
    if HasKey(es, k) {
      var j :| 0 <= j < |es| && es[j].key == k;
      ReplaceTakesSrc(SubDefault(), es, j);
      FindEntry(es, j);
    } else {
      ReplaceKeepsDest(SubDefault(), es, k);
    }
  }

  /** `AttrDefaultMerge` for every key at once. */
  lemma AttrDefaultMergeAll(given: Option<Value>)
    ensures given.Some? && given.value.Arr? && UniqueKeys(given.value.entries) ==>
              forall k :: Find(MergeAttrDefault(given).entries, k) ==
                            if HasKey(given.value.entries, k) then Find(given.value.entries, k)
                            else if k == StrKey("sub") then Some(Str(""))
                            else None
  {
    if given.Some? && given.value.Arr? && UniqueKeys(given.value.entries) {
      forall k {
        AttrDefaultMerge(given.value.entries, k);
      }
    }
  }

  // ---------------------------------------------------------------------------
  // Policy input
  // ---------------------------------------------------------------------------

  /** The path segments that survive `array_filter`: those other than "" and "0", in order. */
  function Segments(pieces: seq<string>): (r: seq<string>)
    ensures forall i :: 0 <= i < |r| ==> r[i] != "" && r[i] != "0" && r[i] in pieces
  {
    if pieces == [] then []
    else
      var rest := Segments(pieces[1..]);
      assert forall i :: 0 <= i < |rest| ==> rest[i] in pieces;
      if pieces[0] == "" || pieces[0] == "0" then rest else [pieces[0]] + rest
  }

  function StrValues(ss: seq<string>): (vs: seq<Value>)
    ensures |vs| == |ss| && forall i :: 0 <= i < |ss| ==> vs[i] == Str(ss[i])
  {
    seq(|ss|, i requires 0 <= i < |ss| => Str(ss[i]))
  }

  /** Keeping the truthy strings is keeping the segments. */
  lemma {:induction false} KeepTruthyStrings(pieces: seq<string>)
    ensures KeepTruthy(StrValues(pieces)) == StrValues(Segments(pieces))
  {
    if pieces != [] {
      KeepTruthyStrings(pieces[1..]);
      assert StrValues(pieces)[1..] == StrValues(pieces[1..]);
      var rest := Segments(pieces[1..]);
      if !(pieces[0] == "" || pieces[0] == "0") {
        assert StrValues([pieces[0]] + rest) == [Str(pieces[0])] + StrValues(rest);
      }
    }
  }

  /**
   * The `path` input: the URL-decoded path split on `/`, with the falsy
   * segments ("" and "0") dropped, order kept, renumbered from 0.
   */
  function PathInput(path: string, urldecode: string -> string): (r: seq<Entry>)
    ensures r == List(StrValues(Segments(Split(urldecode(path), '/'))))
  {
    var pieces := Split(urldecode(path), '/');
    KeepTruthyStrings(pieces);
    FilteredList(StrValues(pieces));
    Values(FilterTruthy(List(StrValues(pieces))))
  }

  /** The token attribute: the request's attribute if it is set, else the configured default. */
  function AttributeOf(opts: Options, req: ServerRequest): Value {
    if opts.attrInput in req.attributes then req.attributes[opts.attrInput] else opts.attrDefault
  }

  /** The three entries every input starts with. */
  function BaseInput(path: Value, verb: string, user: Value): (r: seq<Entry>)
    ensures UniqueKeys(r)
    ensures Find(r, StrKey("path")) == Some(path)
    ensures Find(r, StrKey("method")) == Some(Str(verb))
    ensures Find(r, StrKey("user")) == Some(user)
    ensures forall k :: HasKey(r, k) <==> k == StrKey("path") || k == StrKey("method") || k == StrKey("user")
  {
    var r := [Entry(StrKey("path"), path), Entry(StrKey("method"), Str(verb)), Entry(StrKey("user"), user)];
    assert r[0].key == StrKey("path") && r[1].key == StrKey("method") && r[2].key == StrKey("user");
    r
  }

  /**
   * The input built from the request: `path`, `method`, `user` (the token's
   * `sub`, or "") and the token attribute under its own name, which wins if
   * that name is one of the other three.
   */
  function BuiltInput(opts: Options, req: ServerRequest, urldecode: string -> string): (r: seq<Entry>)
    ensures UniqueKeys(r)
    ensures Find(r, ArrayKey(opts.attrInput)) == Some(AttributeOf(opts, req))
    ensures ArrayKey(opts.attrInput) != StrKey("path") ==>
              Find(r, StrKey("path")) == Some(Arr(List(StrValues(Segments(Split(urldecode(req.path), '/'))))))
    ensures ArrayKey(opts.attrInput) != StrKey("method") ==> Find(r, StrKey("method")) == Some(Str(req.verb))
    ensures ArrayKey(opts.attrInput) != StrKey("user") ==>
              Find(r, StrKey("user")) == Some(Coalesce(AttributeOf(opts, req), StrKey("sub"), Str("")))
    ensures forall k :: HasKey(r, k) <==>
              k == StrKey("path") || k == StrKey("method") || k == StrKey("user") || k == ArrayKey(opts.attrInput)
  {
    var attribute := AttributeOf(opts, req);
    var name := ArrayKey(opts.attrInput);
    var base := BaseInput(Arr(PathInput(req.path, urldecode)), req.verb, Coalesce(attribute, StrKey("sub"), Str("")));
    var r := Set(base, name, attribute);
    SetUnique(base, name, attribute);
    assert forall k :: HasKey(r, k) <==> Find(r, k).Some?;
    assert forall k :: HasKey(base, k) <==> Find(base, k).Some?;
    r
  }

  /**
   * `policyInputsPrepare`: the built input, merged over what the extra-input
   * callback returns (if one is configured); the callback must return an array.
   */
  function PrepareInput(opts: Options, req: ServerRequest, urldecode: string -> string): (r: Checked<seq<Entry>>)
    ensures opts.inputCallback.None? ==> r == Passes(BuiltInput(opts, req, urldecode))
    ensures r.TypeError? <==> opts.inputCallback.Some? && !opts.inputCallback.value().Arr?
    ensures r.Passes? && opts.inputCallback.Some? ==>
              r.value == ArrayMerge(opts.inputCallback.value().entries, BuiltInput(opts, req, urldecode))
  {
    var built := BuiltInput(opts, req, urldecode);
    match opts.inputCallback
    case None => Passes(built)
    case Some(cb) =>
      var extra := cb();
      if extra.Arr? then Passes(ArrayMerge(extra.entries, built)) else Checked.TypeError
  }

  /**
   * The callback's string keys are kept, but the four built keys override
   * them; the input still has unique keys.
   */
  lemma CallbackKeysOverridden(opts: Options, req: ServerRequest, urldecode: string -> string, s: string)
    requires opts.inputCallback.Some? && opts.inputCallback.value().Arr?
    requires UniqueKeys(opts.inputCallback.value().entries)
    ensures UniqueKeys(PrepareInput(opts, req, urldecode).value)
    ensures var built := BuiltInput(opts, req, urldecode);
            Find(PrepareInput(opts, req, urldecode).value, StrKey(s)) ==
              if HasKey(built, StrKey(s)) then Find(built, StrKey(s))
              else Find(opts.inputCallback.value().entries, StrKey(s))
  {
    ArrayMergeSpec(opts.inputCallback.value().entries, BuiltInput(opts, req, urldecode));
  }

  // ---------------------------------------------------------------------------
  // Decision
  // ---------------------------------------------------------------------------

  /** The flags the policy is evaluated with: all off. */
  const NoFlags := Flags(false, false, false, false)

  const Forbidden := Denied(ForbiddenStatus, ForbiddenReason)

  /**
   * `policyMissing`: without a callable callback the generic "Policy not
   * found" is raised; a callback answering exactly `false` denies, any other
   * answer lets the request through.
   */
  function PolicyMissing(opts: Options, req: ServerRequest, input: seq<Entry>): (d: Decision)
    ensures opts.missingCallback.None? ==> d == Fatal(PolicyNotFoundMessage)
    ensures opts.missingCallback.Some? ==>
              (d == Forbidden <==> opts.missingCallback.value(Arr(input)) == Bool(false))
              && (d != Forbidden ==> d == Forward(req, None))
  {
    match opts.missingCallback
    case None => Fatal(PolicyNotFoundMessage)
    case Some(cb) => if cb(Arr(input)) == Bool(false) then Forbidden else Forward(req, None)
  }

  /**
   * `process` once the client has answered: the request goes on exactly
   * when the allow key of the decision is strictly `true`, a missing policy
   * is handled by `PolicyMissing`, and every other client failure propagates.
   */
  function Conclude(opts: Options, req: ServerRequest, input: seq<Entry>, x: Outcome<Response.Response>): (d: Decision)
    ensures x.Done? ==> (d.Forward? <==> Response.GetByName(x.value, opts.allowKey) == Bool(true))
    ensures x.Done? && !d.Forward? ==> d == Forbidden
    ensures x.Raised? && x.failure.PolicyNotFound? ==> d == PolicyMissing(opts, req, input)
    ensures x.Raised? && !x.failure.PolicyNotFound? ==> d == Propagated(x.failure)
    ensures d.Forward? ==> d.request == req
    ensures d.Forward? && d.attached.Some? ==> x.Done? && d.attached.value == (opts.attrResult, x.value)
    ensures x.Done? && d.Forward? ==> (d.attached.Some? <==> opts.attrResult != "" && opts.attrResult != "0")
  {
    match x
    case Raised(f) =>
      if f.PolicyNotFound? then PolicyMissing(opts, req, input) else Propagated(f)
    case Done(result) =>
      var attached := if !Empty(Str(opts.attrResult)) then Some((opts.attrResult, result)) else None;
      if Response.GetByName(result, opts.allowKey) == Bool(true) then Forward(req, attached)
      else Forbidden
  }

  /**
   * How `process` answers once the policy request has been sent: the request
   * goes on exactly when the reply's `result` holds the allow key with the
   * value `true`, carrying the parsed decision under the result attribute
   * when that name is not PHP-empty, and is otherwise refused with 403; a reply without `result`
   * is handled by `PolicyMissing`; a 400 reply and transport failures
   * propagate as the client raised them.
   */
  predicate Authorized(opts: Options, req: ServerRequest, input: seq<Entry>, x: Exchange, d: Decision) {
    var decided := x.Replied? && x.response.status != 400 && Isset(x.response.body, StrKey("result"));
    && (decided ==>
          (d.Forward? <==> Coalesce(Offset(x.response.body, StrKey("result")).value, ArrayKey(opts.allowKey), Null) == Bool(true))
          && (!d.Forward? ==> d == Forbidden))
    && (x.Replied? && x.response.status != 400 && !decided ==> d == PolicyMissing(opts, req, input))
    && (x.Replied? && x.response.status == 400 ==> d == Propagated(ServerFailure(x.response.body)))
    && (x.NetworkFailure? ==> d == Propagated(Unavailable(Client.UnavailablePrefix + x.detail)))
    && (x.OtherFailure? ==> d == Propagated(TransportError(x.detail)))
    && (d.Forward? ==> d.request == req)
    && (d.Forward? && decided ==>
          d.attached == if opts.attrResult != "" && opts.attrResult != "0"
                        then Some((opts.attrResult, Response.FromBody(x.response.body).Built()))
                        else None)
  }

  /**
   * `process`: prepare the input, evaluate the configured policy with every
   * flag off, and conclude; a callback returning a non-array raises a TypeError.
   */
  function Process(opts: Options, client: Client.Client, send: Request -> Exchange, req: ServerRequest,
                   urldecode: string -> string): (d: Decision)
    ensures PrepareInput(opts, req, urldecode).TypeError? ==> d == Propagated(Failure.TypeError)
    ensures var input := PrepareInput(opts, req, urldecode);
            input.Passes? ==> Authorized(opts, req, input.value, send(Client.PolicyRequest(client, opts.policy, input.value, NoFlags)), d)
  {
    match PrepareInput(opts, req, urldecode)
    case TypeError => Propagated(Failure.TypeError)
    case Passes(input) =>
      ConcludeAuthorized(opts, req, input, send(Client.PolicyRequest(client, opts.policy, input, NoFlags)));
      Conclude(opts, req, input, Client.Policy(client, send, opts.policy, input, NoFlags))
  }

  /** Concluding on the client's reading of a reply answers as `Authorized` says. */
  lemma ConcludeAuthorized(opts: Options, req: ServerRequest, input: seq<Entry>, x: Exchange)
    ensures Authorized(opts, req, input, x, Conclude(opts, req, input, Client.Decide(x)))
  {
    var o := Client.Decide(x);
    var d := Conclude(opts, req, input, o);
    if o.Done? {
      assert Response.GetByName(o.value, opts.allowKey)
             == Coalesce(Offset(x.response.body, StrKey("result")).value, ArrayKey(opts.allowKey), Null);
    }
  }

  /** The policy is asked with every flag off, as a JSON POST of the prepared input to the configured document. */
  lemma EvaluatedWithoutFlags(opts: Options, client: Client.Client, input: seq<Entry>)
    ensures var r := Client.PolicyRequest(client, opts.policy, input, NoFlags);
            r.verb == POST
            && Client.Addresses(r.url, Client.DataUrl(client, opts.policy), Flags(false, false, false, false))
            && r.body == Some(Encoded(Arr([Entry(StrKey("input"), Arr(input))])))
  {
  }

  /** A truthy allow value that is not exactly `true` ("true", 1, "yes", ...) still denies. */
  lemma OnlyTrueAllows(opts: Options, client: Client.Client, send: Request -> Exchange, req: ServerRequest,
                       urldecode: string -> string)
    requires PrepareInput(opts, req, urldecode).Passes?
    requires var x := Client.Policy(client, send, opts.policy, PrepareInput(opts, req, urldecode).value, NoFlags);
             x.Done? && Response.GetByName(x.value, opts.allowKey) != Bool(true)
    ensures Process(opts, client, send, req, urldecode) == Denied(403, "Unauthorized")
  {
  }
}

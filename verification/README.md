# OPA client for PHP, modelled in Dafny

This project models the core of a PHP library that talks to an Open Policy
Agent (OPA) server. The library has:

- a `Client` that builds request URLs and headers and classifies HTTP replies;
- an older `Engine` with its own URL builder and error classification;
- the decision envelope (`Response`), with its `PolicyException` and `ServerException`;
- the `/v1/data?provenance=true` reading (`Provenance`, `Bundle`);
- an `Inputs` collector that folds several collectors' parameters with
  `array_merge_recursive`;
- two PSR-15 middlewares:
  - `Authorization` asks a policy whether a request may pass;
  - `Distributor` decides whether a request is the agent fetching its policy bundle.

PHP values are modelled as a datatype (`PhpValues.Value`). Arrays are ordered
sequences of integer- or string-keyed entries, so that `array_merge`,
`array_merge_recursive`, `array_replace_recursive`, `array_filter` and
`array_values` can be written out with PHP's key rules. A string key that reads
as a canonical integer within 64 bits becomes an integer key, as in PHP. A
string indexed by a string key follows PHP's numeric-string rules: `isset` and
`empty` accept an integer numeric string ("01", " 1"), while `??` and plain
reads accept any string that starts with an integer ("1a").

The library targets PHP 8.3, whose array rules the model follows (for
instance, `$a[] = v` after a negative largest key uses that key plus one).
Every source file declares `strict_types=1`. A typed property or return that
would receive a value of the wrong type is therefore modelled as a
`Checked.TypeError` result instead of a coercion.

The HTTP transport is a function parameter `send: Request -> Exchange`. Its
reply body arrives already decoded from JSON, and a body that is not JSON
decodes to `Null`. `urldecode` and the middlewares' callbacks are function
values as well.

Modules, in dependency order:

- `Wrappers`
- `PhpValues`
- `PhpStrings`
- `PhpArrays`
- `QueryParams`: a reader for `name=value&...` query strings, used to state
  what the URL builders produce.
- `Response`
- `ServerException`
- `Http`
- `Failures`: the exceptions an operation can end in.
- `Client`
- `Engine`
- `Authorization`
- `Agent`
- `Inputs`
- `Distributor`

Where the code and the library's documentation differ, the model follows the
code:

- The Client raises `ServerException` only for status 400, not for every 4xx or 5xx.
- The Client treats a token of `"0"` as no token, because it tests it with `empty`.
- `Client::getAgentVersion` fails with "Policy not found" when the reply has no
  `result`, since it goes through `new Response`.

## Model

| member | source | states |
|---|---|---|
| PhpStrings.Rtrim | src/Client.php:63 | `rtrim` with one character returns a prefix of its input that does not end in that character, and everything it drops is that character |
| PhpStrings.RtrimThenAppend | src/Client.php:63 | trimming the trailing slashes and appending one slash is idempotent |
| PhpStrings.JoinSplit | src/Middleware/Authorization.php:169 | joining the pieces of `explode` with the same separator gives back the original string |
| PhpStrings.SplitJoin | src/Middleware/Authorization.php:169 | splitting the join of separator-free pieces gives back the same pieces |
| PhpStrings.Strpos | src/Middleware/Distributor.php:114 | `strpos` returns the first position where the needle occurs, and returns none only when it occurs nowhere |
| PhpStrings.StrposZeroIsPrefix | src/Middleware/Distributor.php:114-116 | the first occurrence is at position 0 exactly when the needle is a prefix of the path |
| PhpValues.Find | src/Response.php:95-98 | a lookup succeeds exactly when the key is present, and what it returns is stored under that key |
| PhpValues.Set | src/Engine.php:77 | after an assignment the key reads as the new value, every other key reads as before, and a new key is appended at the end |
| PhpValues.SetUnique | src/Engine.php:77 | assignment keeps keys unique |
| PhpValues.NextFree | src/Parameters/Inputs.php:60 | the next index `$a[] = v` uses is one past the largest integer key, even a negative one (PHP 8.3), and 0 when there is no integer key |
| PhpValues.Push | src/Parameters/Inputs.php:60 | `$a[] = v` appends `v` under the next free integer key, which was unused, and keeps keys unique |
| PhpValues.ArrayKeyOfIntToString | src/Middleware/Authorization.php:172 | an array key written as the decimal text of an integer is that integer key |
| PhpValues.IntToStringOfArrayKey | src/Middleware/Authorization.php:172 | a canonical integer string becomes an integer key whose decimal text is that string |
| PhpValues.Offset | src/Response.php:143-146 | the element `isset` and `empty` see is the stored one in an array, and in a string the character at an integer or integer-numeric-string offset, if in range; scalars have none |
| PhpValues.Fetch | src/Response.php:95-98 | the element `??` sees agrees with the `isset` view wherever that one finds an element, on every non-string container, and for every word key; in a string it exists only for a key that starts with an integer |
| PhpValues.Coalesce | src/Response.php:79-83 | `$a[$k] ?? $d` is the element when `isset` holds, the element `??` finds when that is non-null, and the default otherwise |
| PhpValues.Read | src/Middleware/Distributor.php:121 | reading an offset of an array gives the stored value or null; reading a string throws a TypeError exactly when the key does not start with an integer, and otherwise gives the character `??` finds, or "" past the end |
| PhpValues.StrictOffset | src/Response.php:143-146 | an offset `isset` accepts is one `??` accepts too, with the same value |
| PhpValues.LeadingDigitsOffset | src/Response.php:95-98 | digits, leading zeros allowed, followed by text that does not make a float of them, are read as their integer by `??` whatever the text, and by `isset` only when the text is whitespace |
| PhpValues.FloatDigitsOffset | src/Response.php:95-98 | digits that go on as a float ("1.5", "1e3") are no string offset for `??` or `isset` |
| PhpValues.IntegerStringOffset | src/Response.php:95-98 | a string that is an integer array key is read as the same integer offset into a string, by `isset` and `??` alike |
| PhpValues.ArrayKeyOffset | src/Response.php:95-98 | the key a name denotes in an array and the offset it denotes in a string agree, under both views |
| PhpValues.WordIsNoOffset | src/Response.php:79-83 | a name starting with a letter or `_`, like every envelope field, is never a string offset |
| PhpValues.StringKeys | src/Parameters/Inputs.php:60 | the string keys of an array are exactly the strings present as keys |
| PhpArrays.ArrayMergeSpec | src/Middleware/Authorization.php:176 | `array_merge(a, b)` keeps keys unique; a string key takes b's value when b has it and a's otherwise; the integer keys renumber a's integer-keyed values followed by b's |
| PhpArrays.MergeIntoStrKeys | src/Middleware/Authorization.php:176 | merging produces exactly the union of both arrays' string keys |
| PhpArrays.FilteredList | src/Middleware/Authorization.php:169 | `array_values(array_filter(list))` is the list of the truthy elements, in order |
| PhpArrays.MergeRecursiveIntoUnique | src/Parameters/Inputs.php:60 | `array_merge_recursive` keeps keys unique |
| PhpArrays.MergeRecursiveIntoIntPart | src/Parameters/Inputs.php:60 | `array_merge_recursive` appends the source's integer-keyed values after the destination's, renumbered from 0 |
| PhpArrays.MergeRecursiveIntoStrKeys | src/Parameters/Inputs.php:60 | `array_merge_recursive` produces exactly the union of both arrays' string keys |
| PhpArrays.MergeRecursiveIntoKeepsDest | src/Parameters/Inputs.php:60 | a string key absent from the source keeps the destination's value |
| PhpArrays.MergeRecursiveIntoSrcKey | src/Parameters/Inputs.php:60 | a string key of the source holds the source value when the destination lacks it, and the two values combined into an array when both have it |
| PhpArrays.ReplaceKeepsDest | src/Engine.php:75 | `array_replace_recursive` leaves every key the replacement lacks as it was |
| PhpArrays.ReplaceTakesSrc | src/Engine.php:75 | a replacement value that is not an array over an array takes the place of the old value |
| PhpArrays.ReplaceKeys | src/Engine.php:75 | the replaced array has exactly the keys of either input |
| QueryParams.ParseRender | src/Client.php:208-215 | a rendered list of pairs that hold no `&` or `=` reads back as the same pairs |
| QueryParams.TrimTerminated | src/Engine.php:157-172 | trimming the trailing `&` of pairs each written `name=value&` gives the pairs joined by `&` |
| QueryParams.TerminatedConcat | src/Engine.php:157-168 | appending pieces one after another is assembling their concatenation |
| Response.FromBody | src/Response.php:76-88 | construction succeeds exactly when `result` is set and non-null; the other fields take the body's values or their defaults; otherwise it throws "Policy not found" carrying the partially filled response |
| Response.NewPolicyException | src/Exception/PolicyException.php:50-54 | the exception keeps the response and the message it was given |
| Response.GetByName | src/Response.php:95-98 | `getByName` returns, for an array result, the value stored under the normalised key or null; for a string result, the character at the integer the name starts with, or null; null for any other result |
| Response.Has | src/Response.php:143-146 | `has(name)` holds for an array result exactly when the normalised key holds a truthy value, for a string result exactly when the name is an integer numeric string whose offset is in range and not the character "0", and never for any other result |
| PhpValues.EmptyAtString | src/Response.php:143-146 | `empty` on a string offset is false exactly when the key is an `isset` offset in range whose character is not "0" |
| Response.HasIsTruthyGetByName | src/Response.php:143-146 | `has(name)` implies that `getByName(name)` is truthy, and the converse holds unless the result is a string and the name is an offset for `??` but not for `empty` |
| Response.HasFalseForFalsy | src/Response.php:143-146 | `has` is false for a missing key and for false, 0, "", "0", [] and null |
| Response.GetResults | src/Response.php:103-106 | `getResults()` returns the stored result, and throws a TypeError when it is not an array |
| Response.GetDecisionId | src/Response.php:111-114 | `getDecisionID()` returns the stored string, and throws a TypeError for a non-string |
| Response.ArrayField | src/Response.php:119-138 | the array getters return the stored array, and throw a TypeError for anything else |
| Response.ResultReturnedVerbatim | src/Response.php:85-88 | an array `result` is returned verbatim by `getResults` |
| Response.MissingResultNotFound | src/Response.php:85-87 | a null body, an empty body, or a body with a missing or null `result` throws "Policy not found" |
| Response.NotFoundKeepsContext | src/Response.php:79-87 | the response carried by the exception keeps the decision id, explanation, metrics and provenance, with an empty result |
| Response.GettersReturnStored | src/Response.php:111-138 | the typed getters give back exactly the string and arrays of the body |
| ServerException.FromBody | src/Exception/ServerException.php:62-70 | the exception is raised exactly when both `message` and `code` are non-empty, with message "code: message" and the decoded envelope kept; otherwise the result is "ServerException occured, but data missing" |
| ServerException.EnvelopeRoundTrip | src/Exception/ServerException.php:64-69 | an OPA error envelope with a code, a message and errors comes back with its code, its errors and the message "code: message" |
| ServerException.MissingCodeIsDataMissing | src/Exception/ServerException.php:65-66 | an envelope whose code is missing or falsy is reported as missing data |
| Http.HeaderValue | src/Client.php:168-173 | a header is found exactly when one with that name was set, and the value returned is that header's |
| Failures.ServerFailure | src/Client.php:188-189 | a 400 reply becomes a ServerException exactly when its envelope has both a code and a message, and missing data otherwise |
| Client.New | src/Client.php:61-69 | the agent URL ends in exactly one slash, everything before it is a prefix of the given URL, only slashes were removed, and the token is kept |
| Client.NewIdempotent | src/Client.php:63 | normalising an already normalised agent URL changes nothing |
| Client.NewKeepsNormalised | src/Client.php:63 | a URL that already ends in exactly one slash is kept as given |
| Client.QueryUrl | src/Client.php:237-240 | the query URL is `query` under the API root, and is neither a data URL nor a policy URL of the client |
| Client.DataUrl | src/Client.php:229-232 | a data URL starts with `<agent>v1/data` and the document name can be read back from it, including the empty name for the data root |
| Client.PolicyUrl | src/Client.php:245-248 | a policy URL starts with `<agent>v1/policies/` and the policy name can be read back from it |
| Client.ReadFlagParams | src/Client.php:208-213 | the rendered query of the four flags parses back as exactly those four pairs, and reads back as those flags |
| Client.UrlQuery | src/Client.php:200-216 | the URL is followed by `?` and a query that parses as exactly the four pairs explain, metrics, instrument and provenance, in that order, each spelled `true` or `false`, and reads back as the flags |
| Client.Headers | src/Client.php:168-173 | Content-Type is JSON or plain text as asked; Authorization is present exactly when the token is neither "" nor "0", and is then `Bearer <token>`; no other header is set |
| Client.Prepare | src/Client.php:166-177 | a request carries exactly the method, URL and headers asked for, and has a body exactly when the body text is non-empty |
| Client.PolicyRequest | src/Client.php:103-113 | a policy evaluation is a JSON POST to the document's data URL with the flags, and its body is `{"input": ...}` |
| Client.QueryRequest | src/Client.php:118-128 | an ad-hoc query is a JSON POST to the query URL with the flags, and its body is `{"query": ..., "input": ...}` |
| Client.DataUpdateRequest | src/Client.php:86-89 | a data update is a JSON PUT of the raw content to the document's data URL, and empty content sends no body |
| Client.PolicyUpdateRequest | src/Client.php:94-98 | a policy update is a plain-text PUT to the policy URL with only the metrics flag possibly set, and empty content sends no body |
| Client.VersionRequest | src/Client.php:76-81 | the version query is a JSON GET of `[]` to the data root with only provenance set |
| Client.Classify | src/Client.php:179-194 | every reply except status 400 is delivered as is; a 400 becomes a ServerException or missing data; a network failure becomes "OPA Client unavailable: ..."; other transport failures propagate |
| Client.Decide | src/Client.php:133-146 | an evaluation succeeds exactly when a non-400 reply carries a set `result`, which is returned together with the response parsed from the whole body (decision id, explanation, metrics, provenance); a reply without one is PolicyNotFound carrying the partly parsed response; transport and 400 failures propagate |
| Client.PutResult | src/Client.php:151-161 | a PUT answers true exactly for 200 or 204, false for any other non-400 status, and propagates the failure otherwise |
| Client.OnlyStatus400IsSpecial | src/Client.php:188-190 | apart from 400 the status code does not affect the outcome of an evaluation |
| Client.NetworkFailureIsUnavailable | src/Client.php:181-184 | a network failure ends every operation with "OPA Client unavailable: " and the failure's message |
| Client.Policy | src/Client.php:103-113 | whatever the agent answers to the POST of the input to the document, `policy` returns the response parsed from its body exactly when the status is not 400 and `result` is set, raises PolicyNotFound when it is not set, and raises the ServerException or unavailability otherwise |
| Client.Query | src/Client.php:118-128 | whatever the agent answers to the POST of the query, `query` returns the response parsed from its body exactly when the status is not 400 and `result` is set, raises PolicyNotFound when it is not set, and raises the ServerException or unavailability otherwise |
| Client.DataUpdate | src/Client.php:86-89 | for any reply to the PUT of the document, `dataUpdate` answers true exactly for 200 or 204, false for other non-400 statuses, and raises on a 400 or a transport failure |
| Client.PolicyUpdate | src/Client.php:94-98 | for any reply to the PUT of the module, `policyUpdate` answers true exactly for 200 or 204, false for other non-400 statuses, and raises on a 400 or a transport failure |
| Client.GetAgentVersion | src/Client.php:76-81 | the version succeeds exactly when a non-400 reply has a `result` and its `provenance`, defaulting to `[]`, is an array, which is then returned; a 400 raises a ServerException from the body, a reply without `result` raises PolicyNotFound, a non-array provenance a TypeError, a network failure "OPA Client unavailable" and any other transport failure passes through |
| Engine.New | src/Engine.php:68-78 | construction is rejected with "<value> is not set" exactly when `agent_url` is empty; it succeeds exactly for a string URL, which is normalised to one trailing slash and stored back in the options; every other option is as given |
| Engine.MergedOptions | src/Engine.php:75 | replacing the defaults with the given options yields the given option for every key |
| Engine.QueryUrl | src/Engine.php:194-197 | the query URL is `query` under the API root, and is not a data URL of the engine |
| Engine.DataUrl | src/Engine.php:185-188 | a data URL starts with `<agent>v1/data/` and the name can be read back from it |
| Engine.SetParamsRead | src/Engine.php:157-168 | the assembled parameters hold `explain=full` exactly when explain is asked for, `metrics`, `instrument` and `provenance` `=true` exactly when asked for, and nothing when no flag is set |
| Engine.SetParamsOrdered | src/Engine.php:157-168 | the parameters appear in the fixed order explain, metrics, instrument, provenance |
| Engine.QueryTextIsTerminated | src/Engine.php:155-168 | the query text is each set parameter written `name=value&`, in order |
| Engine.TrimmedIsRendered | src/Engine.php:156-172 | with some flag set, trimming the trailing `&` leaves exactly the set pairs joined by `&` |
| Engine.QueryTextFacts | src/Engine.php:169-172 | with no flag set the text is empty; otherwise the trimmed text is non-empty, parses as exactly the set flags' pairs in the fixed order, reads back as the flags, and does not end with `&` |
| Engine.UrlQuery | src/Engine.php:149-172 | with no flag set the URL is returned unchanged; otherwise it is followed by `?` and a query that parses as exactly the set flags' pairs, in order, with no trailing `&` |
| Engine.Post | src/Engine.php:124-127 | an Engine request is a POST with exactly the given URL and body, a JSON Content-Type and no Authorization |
| Engine.PolicyRequest | src/Engine.php:93-103 | a policy evaluation is POSTed to the document's data URL with the flags, with body `{"input": ...}` |
| Engine.QueryRequest | src/Engine.php:108-117 | a query is POSTed to the query URL with the flags, with body `{"query": ...}` only |
| Engine.VersionRequest | src/Engine.php:83-86 | the version query is an empty POST to the data root with only provenance set |
| Engine.Classify | src/Engine.php:126-143 | a reply is delivered exactly when its status is not a 4xx or 5xx error; an error status becomes a ServerException or missing data; a connection failure escapes unchanged, and any other request failure becomes "OPA Engine unavailable: ..." |
| Engine.Policy | src/Engine.php:93-103 | for any reply to the POST of the input, `policy` delivers it unchanged exactly when its status is not 4xx or 5xx, raises a ServerException built from the body of an error status, lets a connection failure escape unchanged, and reports any other request failure as "OPA Engine unavailable" |
| Engine.Query | src/Engine.php:108-117 | for any reply to the POST of the query, `query` delivers it unchanged exactly when its status is not 4xx or 5xx, raises a ServerException built from the body of an error status, lets a connection failure escape unchanged, and reports any other request failure as "OPA Engine unavailable" |
| Engine.GetAgentVersion | src/Engine.php:83-88 | for any reply to the provenance request, `getAgentVersion` delivers it unchanged exactly when its status is not 4xx or 5xx, raises a ServerException built from the body of an error status, lets a connection failure escape unchanged, and reports any other request failure as "OPA Engine unavailable" |
| Authorization.Configure | src/Middleware/Authorization.php:81-109 | construction is rejected with "opa-authz: no policy set" exactly when the policy is missing, "" or "0"; otherwise every option is the given one or its default, the callbacks are kept, and a default attribute given as an array keeps all its own entries and gains `sub => ''` when it has none |
| Authorization.AttrDefaultMerge | src/Middleware/Authorization.php:84-108 | a given default attribute array is merged over `['sub' => '']`: its own keys win, and `sub` is added when it is missing |
| Authorization.Segments | src/Middleware/Authorization.php:169 | the path segments kept are non-empty, not "0", and taken from the split path |
| Authorization.KeepTruthyStrings | src/Middleware/Authorization.php:169 | filtering the truthy values of the string pieces is keeping the pieces that are neither "" nor "0" |
| Authorization.PathInput | src/Middleware/Authorization.php:169 | the `path` input is the list, numbered from 0, of the non-empty, non-"0" segments of the decoded path |
| Authorization.BaseInput | src/Middleware/Authorization.php:169-171 | the base input has exactly the keys path, method and user, holding the given values |
| Authorization.BuiltInput | src/Middleware/Authorization.php:164-173 | the input has exactly path, method, user and the attribute name as keys; the attribute is stored under its normalised name and overrides an entry of the same name; user is the attribute's `sub` or "" |
| Authorization.PrepareInput | src/Middleware/Authorization.php:164-179 | without a callback the built input is used; a callback that does not return an array throws a TypeError; otherwise its array is merged under the built input |
| Authorization.CallbackKeysOverridden | src/Middleware/Authorization.php:176 | in the merged input the built keys win over the callback's keys, and every other callback key is kept |
| Authorization.PolicyMissing | src/Middleware/Authorization.php:144-160 | without a missing-policy callback the middleware fails with "Policy not found"; otherwise it denies exactly when the callback returns `false`, and forwards the request unchanged otherwise |
| Authorization.Conclude | src/Middleware/Authorization.php:117-138 | after an evaluation the request is forwarded exactly when the allow value is `true`, and answered 403 "Unauthorized" otherwise; the response is attached exactly when the result attribute name is non-empty; a missing policy goes to the missing-policy handling; other failures propagate |
| Authorization.Process | src/Middleware/Authorization.php:114-139 | a callback returning a non-array raises a TypeError; otherwise, for any reply to the policy request, the request is forwarded exactly when the reply's `result` holds the allow key with value `true`, carrying the parsed decision under the result attribute exactly when that name is not PHP-empty, and refused with 403 otherwise, a reply without `result` goes to the missing-policy handling, and a 400 or transport failure propagates |
| Authorization.ConcludeAuthorized | src/Middleware/Authorization.php:117-138 | concluding on the client's reading of any reply gives the decision the reply calls for: forward exactly on a strict `true` allow value, 403 otherwise, missing-policy handling without `result`, propagation of 400s and transport failures |
| Authorization.EvaluatedWithoutFlags | src/Middleware/Authorization.php:118 | the policy is asked with every flag off, as a JSON POST of the prepared input |
| Authorization.OnlyTrueAllows | src/Middleware/Authorization.php:132-138 | an allow value other than exactly `true`, including a truthy one, gives 403 |
| Agent.StringField | src/Agent/Provenance.php:45-48 | a string property is assigned exactly when the field is a string, and otherwise throws a TypeError |
| Agent.NewBundle | src/Agent/Bundle.php:39-43 | a bundle is built exactly when `revision` is a string, and keeps the name and the revision |
| Agent.BundleIgnoresOtherKeys | src/Agent/Bundle.php:39-43 | a bundle depends only on the `revision` field of its data |
| Agent.BundleOf | src/Agent/Provenance.php:51 | a bundles entry builds a bundle exactly when its key is a string and its data an array with a string revision |
| Agent.BundlesInto | src/Agent/Provenance.php:50-52 | the loop completes exactly when every entry builds a bundle |
| Agent.BundlesIntoKeys | src/Agent/Provenance.php:50-52 | the loop adds exactly the entries' names to the map, and every bundle stays stored under its own name |
| Agent.BundlesIntoValues | src/Agent/Provenance.php:50-52 | with unique names each entry's bundle is stored under its name |
| Agent.BundlesIntoKeeps | src/Agent/Provenance.php:50-52 | a name the loop does not visit keeps its earlier bundle |
| Agent.BundlesFromScratch | src/Agent/Provenance.php:41-52 | starting from no bundles, the map holds exactly the entries' names, each with its own bundle |
| Agent.NewProvenance | src/Agent/Provenance.php:43-53 | the four strings are copied from the reply; the bundles are keyed by name, one per entry, and empty when `bundles` is not an array; a TypeError is thrown exactly when a field or an entry has the wrong type |
| Inputs.AddCollector | src/Parameters/Inputs.php:46-49 | adding a collector appends it after the existing ones |
| Inputs.Outputs | src/Parameters/Inputs.php:58-60 | each collector is asked, in order, about the same request |
| Inputs.Collect | src/Parameters/Inputs.php:54-67 | the result has the single key `params`, holding the recursive merge, in order, of exactly the arrays the collectors returned, whose string keys are those of all these arrays together |
| Inputs.Fold | src/Parameters/Inputs.php:58-63 | the loop is the recursive merge, in order, of exactly the outputs of the collectors that returned: a throw contributes nothing |
| Inputs.ThrowerSkipped | src/Parameters/Inputs.php:61-62 | a collector that throws contributes nothing |
| Inputs.NoCollectors | src/Parameters/Inputs.php:56-66 | with no collector the result is `['params' => []]` |
| Inputs.SingleCollector | src/Parameters/Inputs.php:60 | with one collector its string keys are unchanged and its integer-keyed values are renumbered from 0 |
| Inputs.FoldKeys | src/Parameters/Inputs.php:58-63 | the string keys of the result are the union of the string keys of all outputs |
| Inputs.FoldAppend | src/Parameters/Inputs.php:58-63 | folding one more output merges it into the previous result |
| Inputs.AddedCollectorRunsLast | src/Parameters/Inputs.php:46-63 | a collector added last is merged after every earlier one |
| Distributor.New | src/Middleware/Distributor.php:66-96 | construction fails with "opa-distributor: Policy path is invalid" exactly when the policy path does not exist; otherwise the route and path are kept and the token attribute, agent user and token field are each the given one or its default (`token`, `opa`, `sub`) |
| Distributor.Process | src/Middleware/Distributor.php:110-131 | the bundle (200, application/gzip) is served exactly when a token is present, the path starts with the bundle route and the token's `sub` is identical to the agent user; a string token throws a TypeError; every other request passes through |
| Distributor.NoTokenPassesThrough | src/Middleware/Distributor.php:112-117 | a request without the token attribute passes through |
| Distributor.RouteMustBePrefix | src/Middleware/Distributor.php:113-117 | a path that does not start with the bundle route passes through |
| Distributor.TokenFieldIgnored | src/Middleware/Distributor.php:70-121 | the configured token field has no effect: `sub` is always read |
| Distributor.DefaultAgentUser | src/Middleware/Distributor.php:67-121 | with default options the bundle is served exactly to the token whose `sub` is the string "opa" |

## Left out

- HTTP transport, PSR-7 message objects and PSR-17 factories are left out. The
  transport is the parameter `send`. Its reply is a status and a decoded body.
- JSON encoding and decoding are left out. Bodies are `Value`s, an encoded
  request body is `Encoded(value)`, and a body that is not JSON decodes to `Null`.
  `JSON_THROW_ON_ERROR` failures of `json_encode` are not modelled.
- `urldecode` is left out. It is a function parameter.
- Logging is left out. It has no effect on any result.
- `Distributor::getBundle`, `getBundleFiles` and `setDataCallable` are left out.
  They cover file-system traversal and tar/gzip archive building, i.e. I/O.
  The bundle is represented by the `ServeBundle` outcome.
- The Distributor's `file_exists` check is the boolean parameter `policyPathExists`.
- `Engine` builds its replies with `new OpaResponse()` and `fromJson`, which
  belong to an older `Response` API than the modelled `Response.php`. The
  Engine operations return the classified reply. `Engine.GetAgentVersion` and
  `Engine.Policy` therefore stop at the reply and do not model `getVersion()`.
- The `Engine` error classification follows the Guzzle 7 exception hierarchy
  (the generation that implements the PSR-18 interfaces `Client` is written against):
  - 4xx and 5xx are client/server exceptions;
  - other request exceptions are "unavailable";
  - a connection failure is a `ConnectException`, which is not a request
    exception, so it leaves `execute` unchanged.
  The path where such an exception carries no response is marked
  unreachable in the source and is not modelled.
- Engine.New: requires unique option keys, the invariant every PHP array keeps.
- The options of `Authorization` and `Distributor` are modelled as typed
  option fields (strings, a value for the default attribute, callbacks). The
  untyped PHP array would also accept values of other types there.
- PhpValues.NextFree: integer keys are unbounded, so appending past
  `PHP_INT_MAX`, which fails in PHP, is not modelled.
- Strings read as offsets are range-checked by their value. PHP checks a
  19-digit key together with any text after it, so at the very bottom of the
  range ("-9223372036854775808a") PHP rejects a key the model accepts.
- Floats are carried as their PHP text, with no arithmetic or comparison beyond
  truthiness of `0.0`.
- `ServerException.OpaCode` and `ServerException.Errors` are projections of
  the stored envelope. The source stores the envelope but has no getter for
  these fields.
- Agent.NewProvenance: bundles are a Dafny `map`, so the insertion order of the
  PHP array is not kept. With duplicate names only the key set is stated.
- `Provenance` getters are the datatype's fields; they return stored strings
  and the bundles map without further logic.
- Inputs.Collect: a collector that throws is modelled by its `Threw` output.
  Every `Throwable` is swallowed the same way, so its kind is not kept.

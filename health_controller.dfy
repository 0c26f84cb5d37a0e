/**
 * The health evaluator (controllers/healthcheckController.js): a request to
 * GET /healthz must carry no query parameters and no body; then the
 * database must accept a connection and one new `health_check` row. Header
 * names outside a fixed allow-list are only reported, never rejected.
 */
module HealthEvaluator {
  import opened Http

  /** The allow-list of lower-cased header names: nine standard ones, five
      that an AWS load balancer adds, and three more common ones. */
  const StandardHeaders: set<string> := {
    "host", "user-agent", "accept", "connection", "content-type", "content-length",
    "postman-token", "accept-encoding", "accept-language",
    "x-forwarded-for", "x-forwarded-proto", "x-forwarded-port", "x-amzn-trace-id",
    "x-forwarded-host",
    "cache-control", "pragma", "upgrade-insecure-requests"
  }

  /** `toLowerCase` on one character, for the ASCII letters. */
  function LowerChar(c: char): char
  {
    if 'A' <= c <= 'Z' then (c as int - 'A' as int + 'a' as int) as char else c
  }

  /** `toLowerCase` on a string, character by character. */
  function ToLower(s: string): (r: string)
    ensures |r| == |s|
    ensures forall i :: 0 <= i < |s| ==> r[i] == LowerChar(s[i])
  {
    if s == [] then [] else [LowerChar(s[0])] + ToLower(s[1..])
  }

  /** A header name the controller counts as standard; a name already in
      lower case is standard exactly when it is on the list. */
  predicate IsStandardHeader(name: string): (r: bool)
    ensures ToLower(name) == name ==> (r <==> name in StandardHeaders)
  {
    ToLower(name) in StandardHeaders
  }

  /** Lower-casing twice is lower-casing once, so whether a header counts as
      standard does not depend on how its name is cased. */
  lemma StandardHeaderIgnoresCase(name: string)
    ensures ToLower(ToLower(name)) == ToLower(name)
    ensures IsStandardHeader(ToLower(name)) == IsStandardHeader(name)
  {
  }

  /** The header names that are logged as non-standard, in request order. */
  function NonStandardHeaders(names: seq<string>): (r: seq<string>)
    ensures |r| <= |names|
    ensures forall h :: h in r <==> h in names && !IsStandardHeader(h)
  {
    if names == [] then []
    else (if IsStandardHeader(names[0]) then [] else [names[0]]) + NonStandardHeaders(names[1..])
  }

  /** Filtering distributes over concatenation, so the logged names keep
      the order in which the request lists them. */
  lemma {:induction false} NonStandardHeadersAppend(a: seq<string>, b: seq<string>)
    ensures NonStandardHeaders(a + b) == NonStandardHeaders(a) + NonStandardHeaders(b)
    decreases |a|
  {
    if a == [] {
      assert a + b == b;
    } else {
      var head := if IsStandardHeader(a[0]) then [] else [a[0]];
      assert (a + b)[0] == a[0];
      assert (a + b)[1..] == a[1..] + b;
      NonStandardHeadersAppend(a[1..], b);
      assert head + (NonStandardHeaders(a[1..]) + NonStandardHeaders(b))
             == (head + NonStandardHeaders(a[1..])) + NonStandardHeaders(b);
    }
  }

  /** The parts of a request the controller looks at: the keys of
      `req.query`, of the parsed `req.body` and of `req.headers`. */
  datatype HealthRequest = HealthRequest(
    queryKeys: seq<string>,
    bodyKeys: seq<string>,
    headerNames: seq<string>)

  /** `Object.keys(req.query).length > 0`: some query parameter is present. */
  predicate HasQuery(req: HealthRequest): (r: bool)
    ensures r <==> exists k :: k in req.queryKeys
  {
    assert |req.queryKeys| > 0 ==> req.queryKeys[0] in req.queryKeys;
    |req.queryKeys| > 0
  }

  /** `Object.keys(req.body).length > 0`: the body has some field. */
  predicate HasBody(req: HealthRequest): (r: bool)
    ensures r <==> exists k :: k in req.bodyKeys
  {
    assert |req.bodyKeys| > 0 ==> req.bodyKeys[0] in req.bodyKeys;
    |req.bodyKeys| > 0
  }

  /** The status of GET /healthz, given the outcomes of
      `sequelize.authenticate()` and `HealthCheck.create`. */
  function HealthStatus(req: HealthRequest, authenticate: Outcome, create: Outcome): (status: int)
    ensures status in {OK, BAD_REQUEST, SERVICE_UNAVAILABLE}
    ensures status == BAD_REQUEST <==> HasQuery(req) || HasBody(req)
    ensures status == OK <==> !HasQuery(req) && !HasBody(req) && authenticate.Ok? && create.Ok?
  {
    if HasQuery(req) then BAD_REQUEST
    else if HasBody(req) then BAD_REQUEST
    else if authenticate.Fail? then SERVICE_UNAVAILABLE
    else if create.Fail? then SERVICE_UNAVAILABLE
    else OK
  }

  /** The status never depends on the request's headers: a non-standard
      header is reported but not rejected. */
  lemma StatusIgnoresHeaders(req: HealthRequest, headerNames: seq<string>, authenticate: Outcome,
                             create: Outcome)
    ensures HealthStatus(req.(headerNames := headerNames), authenticate, create)
            == HealthStatus(req, authenticate, create)
  {
  }

  /** The custom header of the integration test that expects 400 is not on
      the allow-list. */
  lemma CustomHeaderNotStandard()
    ensures !IsStandardHeader("custom-header")
  {
    UnlistedLowerCaseNotStandard("custom-header");
  }

  /** A name in lower case that is not on the list is not standard. */
  lemma UnlistedLowerCaseNotStandard(name: string)
    requires forall i :: 0 <= i < |name| ==> !('A' <= name[i] <= 'Z')
    requires name !in StandardHeaders
    ensures !IsStandardHeader(name)
  {
    LowerCaseFixed(name);
  }

  /** A request like the one of the integration test that expects 400 for a
      custom header: the header is reported as non-standard, and with a
      healthy database the answer is still 200. */
  lemma CustomHeaderIsAccepted(req: HealthRequest)
    requires !HasQuery(req) && !HasBody(req)
    requires "custom-header" in req.headerNames
    ensures "custom-header" in NonStandardHeaders(req.headerNames)
    ensures HealthStatus(req, Ok, Ok) == OK
  {
    CustomHeaderNotStandard();
  }

  /** A name without upper-case ASCII letters is its own lower-case form. */
  lemma LowerCaseFixed(s: string)
    requires forall i :: 0 <= i < |s| ==> !('A' <= s[i] <= 'Z')
    ensures ToLower(s) == s
  {
  }

  /** A row of the `health_check` table: auto-increment key and timestamp. */
  datatype HealthCheckRow = HealthCheckRow(checkId: nat, datetime: string)

  class HealthController {
    /** The `health_check` table in insertion order. */
    var checks: seq<HealthCheckRow>
    /** The table's next auto-increment value. */
    var nextCheckId: nat

    /** Keys grow with insertion order and stay below the counter. */
    ghost predicate Valid()
      reads this
    {
      && (forall i, j :: 0 <= i < j < |checks| ==> checks[i].checkId < checks[j].checkId)
      && (forall i :: 0 <= i < |checks| ==> checks[i].checkId < nextCheckId)
    }

    constructor ()
      ensures Valid() && checks == [] && nextCheckId == 1
    {
      checks := [];
      nextCheckId := 1;
    }

    /** `getHealthCheck(req, res)`; `now` is `new Date()`. */
    method GetHealthCheck(req: HealthRequest, authenticate: Outcome, create: Outcome, now: string)
      returns (resp: Response)
      requires Valid()
      modifies this
      ensures Valid()
      ensures resp == Respond(HealthStatus(req, authenticate, create), NoBody)
      ensures resp.status == OK ==>
                && checks == old(checks) + [HealthCheckRow(old(nextCheckId), now)]
                && nextCheckId == old(nextCheckId) + 1
      ensures resp.status != OK ==> checks == old(checks) && nextCheckId == old(nextCheckId)
    {
      if HasQuery(req) {
        return Respond(BAD_REQUEST, NoBody);
      }
      if HasBody(req) {
        return Respond(BAD_REQUEST, NoBody);
      }
      // Computed for the log only.
      var customHeaders := NonStandardHeaders(req.headerNames);
      if authenticate.Fail? {
        return Respond(SERVICE_UNAVAILABLE, NoBody);
      }
      if create.Fail? {
        return Respond(SERVICE_UNAVAILABLE, NoBody);
      }
      checks := checks + [HealthCheckRow(nextCheckId, now)];
      nextCheckId := nextCheckId + 1;
      resp := Respond(OK, NoBody);
    }

    /** `handleUnsupportedMethods(req, res)`: whatever the request, 405 with
        the common headers and no body; no state is read or written. */
    method HandleUnsupportedMethods(req: HealthRequest) returns (resp: Response)
      ensures resp.status == METHOD_NOT_ALLOWED
      ensures resp.headers == CommonHeaders && resp.body == NoBody
    {
      resp := Respond(METHOD_NOT_ALLOWED, NoBody);
    }
  }
}

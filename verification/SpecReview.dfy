/** The specification review: documents, operation contract, challenge metadata,
    findings and status. */
module SpecReview {
  import opened Text
  import opened Json
  import opened References
  import opened Concreteness
  import opened Paths
  import opened KeySearch
  import opened Checks
  import Payment

  // --------------------------------------------------------------------- findings

  datatype Severity = Info | Warning | Error

  datatype Code =
    | OpenapiInvalid | OpenapiVersion | OpenapiTooLarge | OpenapiMissing
    | OpenapiPathsMissing | OperationMissing | MethodMissing | SummaryMissing
    | RequestSchemaMissing | RequestSchemaGeneric | RequestExampleMissing
    | ResponseSchemaMissing | ResponseSchemaGeneric | ResponseExampleMissing
    | RegistrationMissing | RegistrationInvalid | RegistrationInactive | ServiceNotRegistered | AgentIdMissing
    | SkillMissing | SkillInvalid
    | ChallengeUnavailable
    | ResourceMissing | ResourceInvalid | ResourceInsecure | ResourceMismatch
    | BazaarMissing | BazaarInputMissing | BazaarOutputMissing

  /** The severity every code is reported with. */
  function SeverityOf(c: Code): Severity {
    match c
    case OpenapiInvalid | OpenapiVersion | OpenapiTooLarge => Error
    case OpenapiPathsMissing | OperationMissing | MethodMissing | RequestSchemaMissing => Error
    case ResourceInvalid | ResourceInsecure | ResourceMismatch => Error
    case OpenapiMissing | SummaryMissing | RequestSchemaGeneric => Warning
    case ResponseSchemaMissing | ResponseSchemaGeneric => Warning
    case RegistrationInvalid | RegistrationInactive | ServiceNotRegistered | SkillInvalid => Warning
    case ResourceMissing | BazaarMissing | BazaarInputMissing => Warning
    case _ => Info
  }

  datatype Finding = Finding(code: Code, severity: Severity)

  const MAX_FINDINGS := 64

  /** Capped, and the first finding of a code wins. */
  function WithFinding(findings: seq<Finding>, code: Code, severity: Severity): seq<Finding> {
    if |findings| >= MAX_FINDINGS || (exists f :: f in findings && f.code == code) then findings
    else findings + [Finding(code, severity)]
  }

  function WithCodes(findings: seq<Finding>, codes: seq<Code>): seq<Finding> {
    if codes == [] then findings
    else
      var n := |codes| - 1;
      WithFinding(WithCodes(findings, codes[..n]), codes[n], SeverityOf(codes[n]))
  }

  // ------------------------------------------------------------- inputs and result

  datatype Method = GET | POST

  datatype Url = Url(scheme: string, host: string, path: string, escapedPath: string, rawQuery: string, hasUser: bool)

  /** URL parsing, the redaction of URLs and the text sanitizer are taken as given. */
  datatype Outside = Outside(parseUrl: string -> Option<Url>, redact: Url -> string, safeText: string -> string)

  datatype Registration = Registration(active: Option<bool>, agentIds: nat, endpoints: seq<string>)

  /** What the three fetches brought: json and registration are None if the body does
      not decode. */
  datatype Documents = Documents(
    openapiAvailable: bool, openapiTruncated: bool, openapi: Option<Object>,
    registrationAvailable: bool, registration: Option<Registration>,
    skillAvailable: bool, skillTruncated: bool, skillBlank: bool)

  datatype Operation = Operation(
    found: bool, path: string, summary: string,
    requestSchema: bool, concreteRequest: bool, requestExample: bool,
    responseSchema: bool, concreteResponse: bool, responseExample: bool)

  const NO_OPERATION := Operation(false, "", "", false, false, false, false, false, false)

  datatype ChallengeReview = ChallengeReview(
    resourceUrl: string, resourceMatches: bool, bazaarExtension: bool, bazaarInput: bool, bazaarOutput: bool)

  const NO_CHALLENGE := ChallengeReview("", false, false, false, false)

  datatype Status = Unset | Ready | NeedsRepair

  datatype Review = Review(
    status: Status, openapiValid: bool, registrationValid: bool, skillValid: bool,
    operation: Operation, challenge: ChallengeReview, findings: seq<Finding>)

  const EMPTY_REVIEW := Review(Unset, false, false, false, NO_OPERATION, NO_CHALLENGE, [])

  // ------------------------------------------------- reading an OpenAPI operation

  function ResolveField(doc: Object, o: Option<Object>, key: string): Option<Object> {
    if o.Some? && key in o.value then Resolve(doc, o.value[key], 0) else None
  }

  function Content(o: Option<Object>): Option<Object> {
    if o.Some? then ObjectField(o.value, "content") else None
  }

  function JsonMediaKeys(content: Object): set<string> {
    set k | k in content && HasSuffix(Lower(k), "+json")
  }

  function JsonMedia(content: Option<Object>): Option<Object> {
    if content.None? then None
    else if ObjectField(content.value, "application/json").Some? then ObjectField(content.value, "application/json")
    else
      var keys := Sorted(JsonMediaKeys(content.value));
      if keys == [] then None else ObjectField(content.value, keys[0])
  }

  predicate HasExample(o: Option<Object>) {
    && o.Some?
    && ("example" in o.value
        || (ObjectField(o.value, "examples").Some? && ObjectField(o.value, "examples").value != map[]))
  }

  /** The schema and whether an example is published, from one media object. */
  function SchemaOfMedia(doc: Object, media: Option<Object>): (Option<Object>, bool) {
    if media.None? then (None, false)
    else
      var schema := ResolveField(doc, media, "schema");
      (schema, HasExample(media) || HasExample(schema))
  }

  function RequestBodySchema(doc: Object, operation: Object): (Option<Object>, bool) {
    SchemaOfMedia(doc, JsonMedia(Content(ResolveField(doc, Some(operation), "requestBody"))))
  }

  function SuccessKeys(responses: Object): set<string> {
    set k | k in responses && (HasPrefix(k, "2") || k == "default")
  }

  /** The first successful response, in key order, that has a JSON media object. */
  function FirstResponseSchema(doc: Object, responses: Object, keys: seq<string>): (Option<Object>, bool) {
    if keys == [] then (None, false)
    else
      var media := JsonMedia(Content(ResolveField(doc, Some(responses), keys[0])));
      if media.Some? then SchemaOfMedia(doc, media) else FirstResponseSchema(doc, responses, keys[1..])
  }

  function SuccessfulResponseSchema(doc: Object, operation: Object): (Option<Object>, bool) {
    match ObjectField(operation, "responses")
    case None => (None, false)
    case Some(responses) => FirstResponseSchema(doc, responses, Sorted(SuccessKeys(responses)))
  }

  function Parameters(operation: Object): seq<Json> {
    if "parameters" in operation && operation["parameters"].Arr? then operation["parameters"].items else []
  }

  predicate IsQuery(p: Json) {
    p.Obj? && StringField(p.fields, "in") == "query"
  }

  predicate IsNamedAndTyped(p: Json) {
    p.Obj? && StringField(p.fields, "name") != "" && ObjectField(p.fields, "schema").Some?
  }

  /** Any query parameters; and are they all named and typed, and at least one? */
  method QueryParameterContract(operation: Object) returns (any: bool, concrete: bool)
    ensures any <==> exists p :: p in Parameters(operation) && IsQuery(p)
    ensures concrete <==> any && forall p :: p in Parameters(operation) && IsQuery(p) ==> IsNamedAndTyped(p)
  {
    hide StringField, ObjectField;
    var parameters := Parameters(operation);
    var found := false;
    for n := 0 to |parameters|
      invariant found <==> exists i :: 0 <= i < n && IsQuery(parameters[i])
      invariant forall i :: 0 <= i < n && IsQuery(parameters[i]) ==> IsNamedAndTyped(parameters[i])
    {
      var parameter := parameters[n];
      if !IsQuery(parameter) {
        continue;
      }
      found := true;
      assert parameter in parameters;
      if StringField(parameter.fields, "name") == "" {
        return true, false;
      }
      if ObjectField(parameter.fields, "schema").None? {
        return true, false;
      }
    }
    return found, found;
  }

  predicate HasQuery(operation: Object) {
    exists p :: p in Parameters(operation) && IsQuery(p)
  }

  predicate QueriesConcrete(operation: Object) {
    HasQuery(operation) && forall p :: p in Parameters(operation) && IsQuery(p) ==> IsNamedAndTyped(p)
  }

  function MethodKey(verb: Method): string {
    match verb case GET => "get" case POST => "post"
  }

  datatype Located = NoPaths | NoRoute | NoMethod | Found(path: string, operation: Object)

  ghost function Locate(doc: Object, target: Url, verb: Method): Located {
    match ObjectField(doc, "paths")
    case None => NoPaths
    case Some(paths) =>
      match FindPath(paths, target.path)
      case None => NoRoute
      case Some(route) =>
        match ObjectField(route.item, MethodKey(verb))
        case None => NoMethod
        case Some(operation) => Found(route.path, operation)
  }

  predicate RequiresInput(target: Url, verb: Method) {
    verb.POST? || target.rawQuery != ""
  }

  /** What the request side of an operation documents: a JSON body for POST, query
      parameters for a GET that has a query, nothing to document otherwise. */
  function WithRequest(o: Operation, doc: Object, operation: Object, target: Url, verb: Method): Operation {
    if verb.POST? then
      var (schema, example) := RequestBodySchema(doc, operation);
      o.(requestSchema := schema.Some?, concreteRequest := IsConcrete(doc, schema, 0), requestExample := example)
    else
      var plain := !RequiresInput(target, verb);
      o.(requestSchema := plain || HasQuery(operation), concreteRequest := plain || QueriesConcrete(operation))
  }

  function WithResponse(o: Operation, doc: Object, operation: Object): Operation {
    var (schema, example) := SuccessfulResponseSchema(doc, operation);
    o.(responseSchema := schema.Some?, concreteResponse := IsConcrete(doc, schema, 0), responseExample := example)
  }

  /** The facts recorded about a documented operation. */
  function FactsOf(doc: Object, path: string, operation: Object, target: Url, verb: Method, out: Outside): Operation {
    var located := NO_OPERATION.(found := true, path := path,
                                 summary := out.safeText(StringField(operation, "summary")));
    WithResponse(WithRequest(located, doc, operation, target, verb), doc, operation)
  }

  function If(condition: bool, code: Code): seq<Code> {
    if condition then [code] else []
  }

  /** The codes reported about a documented operation, in order. */
  function OperationCodes(o: Operation, needsInput: bool): seq<Code> {
    If(o.summary == "", SummaryMissing)
    + If(!o.requestSchema, RequestSchemaMissing)
    + If(o.requestSchema && !o.concreteRequest, RequestSchemaGeneric)
    + If(needsInput && !o.requestExample, RequestExampleMissing)
    + If(!o.responseSchema, ResponseSchemaMissing)
    + If(o.responseSchema && !o.concreteResponse, ResponseSchemaGeneric)
    + If(!o.responseExample, ResponseExampleMissing)
  }

  // ------------------------------------------------------------ the three documents

  predicate Is3x(doc: Object) { HasPrefix(StringField(doc, "openapi"), "3.") }

  predicate OpenapiUsable(docs: Documents) {
    docs.openapiAvailable && !docs.openapiTruncated && docs.openapi.Some? && Is3x(docs.openapi.value)
  }

  ghost function OpenapiCodes(docs: Documents, target: Url, verb: Method, out: Outside): seq<Code> {
    if docs.openapiAvailable && !docs.openapiTruncated then
      if docs.openapi.None? then [OpenapiInvalid]
      else if !Is3x(docs.openapi.value) then [OpenapiVersion]
      else
        match Locate(docs.openapi.value, target, verb)
        case NoPaths => [OpenapiPathsMissing]
        case NoRoute => [OperationMissing]
        case NoMethod => [MethodMissing]
        case Found(path, operation) =>
          OperationCodes(FactsOf(docs.openapi.value, path, operation, target, verb, out), RequiresInput(target, verb))
    else if docs.openapiTruncated then [OpenapiTooLarge]
    else [OpenapiMissing]
  }

  ghost function OperationFacts(docs: Documents, target: Url, verb: Method, out: Outside): Operation {
    if OpenapiUsable(docs) && Locate(docs.openapi.value, target, verb).Found? then
      var at := Locate(docs.openapi.value, target, verb);
      FactsOf(docs.openapi.value, at.path, at.operation, target, verb, out)
    else NO_OPERATION
  }

  function TrimSuffix(s: string, c: char): string {
    if s != "" && s[|s| - 1] == c then s[..|s| - 1] else s
  }

  /** The endpoint is on the target's origin and its path is a prefix of the route. */
  predicate Covers(endpoint: Option<Url>, target: Url) {
    && endpoint.Some?
    && endpoint.value.scheme == target.scheme && EqualFold(endpoint.value.host, target.host)
    && var path := TrimSuffix(endpoint.value.path, '/');
       path == "" || target.path == path || HasPrefix(target.path, path + "/")
  }

  predicate Listed(registration: Registration, target: Url, out: Outside) {
    exists e :: e in registration.endpoints && Covers(out.parseUrl(TrimSpace(e)), target)
  }

  function RegistrationCodes(docs: Documents, target: Url, out: Outside): seq<Code> {
    if !docs.registrationAvailable then [RegistrationMissing]
    else
      match docs.registration
      case None => [RegistrationInvalid]
      case Some(r) => AboutRegistration(r, target, out)
  }

  function AboutRegistration(r: Registration, target: Url, out: Outside): seq<Code> {
    If(r.active == Some(false), RegistrationInactive)
    + If(!Listed(r, target, out), ServiceNotRegistered)
    + If(r.agentIds == 0, AgentIdMissing)
  }

  function SkillCodes(docs: Documents): seq<Code> {
    if !docs.skillAvailable then [SkillMissing]
    else If(docs.skillTruncated || docs.skillBlank, SkillInvalid)
  }

  // ------------------------------------------------------------- challenge metadata

  function CanonicalPath(u: Url): string {
    if u.escapedPath == "" then "/" else u.escapedPath
  }

  predicate SameResource(expected: Url, advertised: Url) {
    EqualFold(expected.scheme, advertised.scheme) && EqualFold(expected.host, advertised.host)
    && CanonicalPath(expected) == CanonicalPath(advertised) && expected.rawQuery == advertised.rawQuery
  }

  function Advertised(challenge: Payment.Challenge, out: Outside): Option<Url> {
    match out.parseUrl(TrimSpace(challenge.resource))
    case Some(u) => if u.scheme == "" || u.host == "" || u.hasUser then None else Some(u)
    case None => None
  }

  function Bazaar(challenge: Payment.Challenge): Object {
    match ObjectField(challenge.extensions, "bazaar") case Some(b) => b case None => map[]
  }

  predicate InfoHas(bazaar: Object, key: string) {
    var info := ObjectField(bazaar, "info");
    info.Some? && key in info.value && info.value[key] != Null
  }

  /** The challenge names exactly the requested resource. */
  predicate Matching(challenge: Payment.Challenge, target: Url, out: Outside) {
    TrimSpace(challenge.resource) != "" && Advertised(challenge, out).Some?
    && SameResource(target, Advertised(challenge, out).value)
  }

  /** A readable resource URL is recorded, redacted, whether it is the right one or not. */
  function ResourceFacts(challenge: Payment.Challenge, target: Url, out: Outside): ChallengeReview {
    var url := Advertised(challenge, out);
    NO_CHALLENGE.(
      resourceUrl := if TrimSpace(challenge.resource) != "" && url.Some? then out.redact(url.value) else "",
      resourceMatches := Matching(challenge, target, out))
  }

  function ResourceCodes(challenge: Payment.Challenge, target: Url, out: Outside): seq<Code> {
    var url := Advertised(challenge, out);
    if TrimSpace(challenge.resource) == "" then [ResourceMissing]
    else if url.None? then [ResourceInvalid]
    else ReadableCodes(target, url.value)
  }

  /** An insecure resource is reported as that and not also as a mismatch. */
  function ReadableCodes(target: Url, resource: Url): seq<Code> {
    if resource.scheme != "https" && target.scheme == "https" then [ResourceInsecure]
    else If(!SameResource(target, resource), ResourceMismatch)
  }

  function WithBazaar(facts: ChallengeReview, bazaar: Object): ChallengeReview {
    if bazaar == map[] then facts
    else
      facts.(
        bazaarExtension := true,
        bazaarInput := InfoHas(bazaar, "input") || ContainsNestedKey(Obj(bazaar), "inputSchema", 0),
        bazaarOutput := InfoHas(bazaar, "output") || ContainsNestedKey(Obj(bazaar), "outputSchema", 0))
  }

  predicate NoBazaar(facts: ChallengeReview) {
    !facts.bazaarExtension && !facts.bazaarInput && !facts.bazaarOutput
  }

  function BazaarCodes(facts: ChallengeReview, verb: Method): seq<Code> {
    if !facts.bazaarExtension then [BazaarMissing]
    else If(verb.POST? && !facts.bazaarInput, BazaarInputMissing) + If(!facts.bazaarOutput, BazaarOutputMissing)
  }

  function ChallengeFacts(challenge: Payment.Challenge, target: Url, out: Outside): ChallengeReview {
    WithBazaar(ResourceFacts(challenge, target, out), Bazaar(challenge))
  }

  function ChallengeCodes(challenge: Payment.Challenge, target: Url, verb: Method, out: Outside): seq<Code> {
    ResourceCodes(challenge, target, out) + BazaarCodes(ChallengeFacts(challenge, target, out), verb)
  }

  // ------------------------------------------------------------- the whole review

  ghost function DiscoveryCodes(docs: Documents, target: Url, verb: Method, out: Outside): seq<Code> {
    OpenapiCodes(docs, target, verb, out) + RegistrationCodes(docs, target, out) + SkillCodes(docs)
  }

  ghost function Inspected(docs: Documents, target: Url, verb: Method, out: Outside): Review {
    EMPTY_REVIEW.(
      openapiValid := OpenapiUsable(docs),
      registrationValid := docs.registrationAvailable && docs.registration.Some?,
      skillValid := docs.skillAvailable && !docs.skillTruncated && !docs.skillBlank,
      operation := OperationFacts(docs, target, verb, out),
      findings := WithCodes([], DiscoveryCodes(docs, target, verb, out)))
  }

  function CodesAbout(challenge: Option<Payment.Challenge>, target: Url, verb: Method, out: Outside): seq<Code> {
    match challenge
    case None => [ChallengeUnavailable]
    case Some(c) => ChallengeCodes(c, target, verb, out)
  }

  predicate Blocking(findings: seq<Finding>) {
    exists f :: f in findings && !f.severity.Info?
  }

  function Finalized(review: Review, challenge: Option<Payment.Challenge>, target: Url, verb: Method,
                     out: Outside): Review {
    var findings := WithCodes(review.findings, CodesAbout(challenge, target, verb, out));
    review.(
      challenge := if challenge.Some? then ChallengeFacts(challenge.value, target, out) else review.challenge,
      findings := findings,
      status := if Blocking(findings) then NeedsRepair else Ready)
  }

  predicate DiscoveryReady(r: Review) { r.openapiValid && r.operation.found }

  predicate ContractReady(r: Review, verb: Method) {
    && r.operation.concreteRequest && r.operation.concreteResponse
    && r.challenge.resourceMatches && r.challenge.bazaarExtension
    && (verb.POST? ==> r.challenge.bazaarInput)
  }

  function SpecChecks(r: Review, verb: Method): seq<Check> {
    [if DiscoveryReady(r) then Check(ServiceDiscovery, Pass, 15, 15) else Check(ServiceDiscovery, Warn, 15, 7),
     if ContractReady(r, verb) then Check(RequestContract, Pass, 15, 15) else Check(RequestContract, Warn, 15, 7)]
  }

  // ---------------------------------------------------------- the source's own steps

  lemma {:induction false} WithCodesAppend(findings: seq<Finding>, a: seq<Code>, b: seq<Code>)
    ensures WithCodes(findings, a + b) == WithCodes(WithCodes(findings, a), b)
    decreases |b|
  {
    if b == [] {
      assert a + b == a;
    } else {
      var n := |b| - 1;
      assert (a + b)[..|a| + n] == a + b[..n];
      WithCodesAppend(findings, a, b[..n]);
    }
  }

  lemma OneCode(findings: seq<Finding>, codes: seq<Code>, code: Code)
    ensures WithCodes(findings, codes + [code]) == WithFinding(WithCodes(findings, codes), code, SeverityOf(code))
  {
    WithCodesAppend(findings, codes, [code]);
    assert [code][..0] == [];
  }

  lemma SingleCode(findings: seq<Finding>, code: Code)
    ensures WithCodes(findings, [code]) == WithFinding(findings, code, SeverityOf(code))
  {
    assert [code][..0] == [];
  }

  class SpecInspection {
    var result: Review

    constructor ()
      ensures result == EMPTY_REVIEW
    {
      result := EMPTY_REVIEW;
    }

    method AddFinding(code: Code, severity: Severity)
      modifies this
      ensures result == old(result).(findings := WithFinding(old(result).findings, code, severity))
    {
      if |result.findings| >= MAX_FINDINGS {
        return;
      }
      for n := 0 to |result.findings|
        invariant result == old(result)
        invariant forall i :: 0 <= i < n ==> result.findings[i].code != code
      {
        if result.findings[n].code == code {
          assert result.findings[n] in result.findings;
          return;
        }
      }
      result := result.(findings := result.findings + [Finding(code, severity)]);
    }

    /** A conditional finding, and what the list of reported codes becomes. */
    method AddFindingIf(condition: bool, code: Code, severity: Severity,
                        ghost before: seq<Finding>, ghost codes: seq<Code>) returns (ghost more: seq<Code>)
      requires result.findings == WithCodes(before, codes) && severity == SeverityOf(code)
      modifies this
      ensures more == codes + If(condition, code)
      ensures result == old(result).(findings := WithCodes(before, more))
    {
      more := codes + If(condition, code);
      assert codes + [] == codes;
      if condition {
        OneCode(before, codes, code);
        AddFinding(code, severity);
      }
    }

    method AnalyzeOpenAPI(document: Object, target: Url, verb: Method, out: Outside)
      requires result.operation == NO_OPERATION
      modifies this
      ensures match Locate(document, target, verb)
              case NoPaths => result == old(result).(findings := WithCodes(old(result).findings, [OpenapiPathsMissing]))
              case NoRoute => result == old(result).(findings := WithCodes(old(result).findings, [OperationMissing]))
              case NoMethod => result == old(result).(findings := WithCodes(old(result).findings, [MethodMissing]))
              case Found(path, operation) =>
                var facts := FactsOf(document, path, operation, target, verb, out);
                result == old(result).(
                  operation := facts,
                  findings := WithCodes(old(result).findings, OperationCodes(facts, RequiresInput(target, verb))))
    {
      hide FactsOf, OperationCodes, FindPath, MethodKey, WithFinding;
      SingleCode(result.findings, OpenapiPathsMissing);
      SingleCode(result.findings, OperationMissing);
      SingleCode(result.findings, MethodMissing);
      var paths := ObjectField(document, "paths");
      if paths.None? {
        AddFinding(OpenapiPathsMissing, Error);
        return;
      }
      var route := FindOpenAPIPath(paths.value, target.path);
      if route.None? {
        AddFinding(OperationMissing, Error);
        return;
      }
      var operation := ObjectField(route.value.item, MethodKey(verb));
      if operation.None? {
        AddFinding(MethodMissing, Error);
        return;
      }
      AnalyzeOperation(document, route.value.path, operation.value, target, verb, out);
    }

    method AnalyzeOperation(document: Object, path: string, operation: Object, target: Url, verb: Method, out: Outside)
      requires result.operation == NO_OPERATION
      modifies this
      ensures var facts := FactsOf(document, path, operation, target, verb, out);
              result == old(result).(
                operation := facts,
                findings := WithCodes(old(result).findings, OperationCodes(facts, RequiresInput(target, verb))))
    {
      hide WithCodes, IsConcrete, RequestBodySchema, SuccessfulResponseSchema, If, HasQuery, QueriesConcrete;
      ghost var before := result.findings;
      NoCodes(before);
      var summary := out.safeText(StringField(operation, "summary"));
      result := result.(operation := result.operation.(found := true, path := path, summary := summary));
      ghost var codes := AddFindingIf(summary == "", SummaryMissing, Warning, before, []);
      NothingBefore(If(summary == "", SummaryMissing));
      codes := AnalyzeRequest(document, operation, target, verb, before, codes);
      codes := AnalyzeResponse(document, operation, before, codes);
      ghost var facts := FactsOf(document, path, operation, target, verb, out);
      assert result.operation == facts;
      assert codes == OperationCodes(facts, RequiresInput(target, verb));
    }

    method AnalyzeRequest(document: Object, operation: Object, target: Url, verb: Method,
                          ghost before: seq<Finding>, ghost codes: seq<Code>) returns (ghost more: seq<Code>)
      requires result.findings == WithCodes(before, codes)
      modifies this
      ensures result.operation == WithRequest(old(result).operation, document, operation, target, verb)
      ensures result == old(result).(operation := result.operation, findings := WithCodes(before, more))
      ensures more == codes + If(!result.operation.requestSchema, RequestSchemaMissing)
                      + If(result.operation.requestSchema && !result.operation.concreteRequest, RequestSchemaGeneric)
                      + If(RequiresInput(target, verb) && !result.operation.requestExample, RequestExampleMissing)
    {
      hide WithCodes, If, WithRequest;
      ReadRequest(document, operation, target, verb);
      more := AddFindingIf(!result.operation.requestSchema, RequestSchemaMissing, Error, before, codes);
      more := AddFindingIf(result.operation.requestSchema && !result.operation.concreteRequest,
                           RequestSchemaGeneric, Warning, before, more);
      more := AddFindingIf(RequiresInput(target, verb) && !result.operation.requestExample,
                           RequestExampleMissing, Info, before, more);
    }

    method ReadRequest(document: Object, operation: Object, target: Url, verb: Method)
      modifies this
      ensures result == old(result).(operation := WithRequest(old(result).operation, document, operation, target, verb))
    {
      hide IsConcrete, RequestBodySchema, IsQuery, IsNamedAndTyped;
      if verb.POST? {
        var (schema, example) := RequestBodySchema(document, operation);
        result := result.(operation := result.operation.(requestSchema := schema.Some?,
                                                         concreteRequest := IsConcrete(document, schema, 0),
                                                         requestExample := example));
      } else if RequiresInput(target, verb) {
        var any, concrete := QueryParameterContract(operation);
        result := result.(operation := result.operation.(requestSchema := any, concreteRequest := concrete));
      } else {
        result := result.(operation := result.operation.(requestSchema := true, concreteRequest := true));
      }
    }

    method AnalyzeResponse(document: Object, operation: Object, ghost before: seq<Finding>, ghost codes: seq<Code>)
      returns (ghost more: seq<Code>)
      requires result.findings == WithCodes(before, codes)
      modifies this
      ensures result.operation == WithResponse(old(result).operation, document, operation)
      ensures result == old(result).(operation := result.operation, findings := WithCodes(before, more))
      ensures more == codes + If(!result.operation.responseSchema, ResponseSchemaMissing)
                      + If(result.operation.responseSchema && !result.operation.concreteResponse, ResponseSchemaGeneric)
                      + If(!result.operation.responseExample, ResponseExampleMissing)
    {
      hide WithCodes, IsConcrete, SuccessfulResponseSchema, If;
      var (responseSchema, responseExample) := SuccessfulResponseSchema(document, operation);
      result := result.(operation := result.operation.(responseSchema := responseSchema.Some?,
                                                       concreteResponse := IsConcrete(document, responseSchema, 0),
                                                       responseExample := responseExample));
      assert result == old(result).(operation := WithResponse(old(result).operation, document, operation));
      hide WithResponse;
      more := AddFindingIf(!result.operation.responseSchema, ResponseSchemaMissing, Warning, before, codes);
      more := AddFindingIf(result.operation.responseSchema && !result.operation.concreteResponse,
                           ResponseSchemaGeneric, Warning, before, more);
      more := AddFindingIf(!result.operation.responseExample, ResponseExampleMissing, Info, before, more);
    }

    method AnalyzeRegistration(target: Url, docs: Documents, out: Outside)
      modifies this
      ensures result == old(result).(
                        registrationValid := old(result).registrationValid
                          || (docs.registrationAvailable && docs.registration.Some?),
                        findings := WithCodes(old(result).findings, RegistrationCodes(docs, target, out)))
    {
      hide WithCodes, AboutRegistration;
      SingleCode(result.findings, RegistrationMissing);
      SingleCode(result.findings, RegistrationInvalid);
      if !docs.registrationAvailable {
        AddFinding(RegistrationMissing, Info);
        return;
      }
      if docs.registration.None? {
        AddFinding(RegistrationInvalid, Warning);
        return;
      }
      result := result.(registrationValid := true);
      ReportRegistration(docs.registration.value, target, out);
    }

    method ReportRegistration(registration: Registration, target: Url, out: Outside)
      modifies this
      ensures result == old(result).(
                        findings := WithCodes(old(result).findings, AboutRegistration(registration, target, out)))
    {
      hide WithCodes, If, Listed;
      ghost var before := result.findings;
      NoCodes(before);
      ghost var codes := AddFindingIf(registration.active == Some(false), RegistrationInactive, Warning, before, []);
      NothingBefore(If(registration.active == Some(false), RegistrationInactive));
      var listed := IsListed(registration, target, out);
      codes := AddFindingIf(!listed, ServiceNotRegistered, Warning, before, codes);
      codes := AddFindingIf(registration.agentIds == 0, AgentIdMissing, Info, before, codes);
    }

    static method IsListed(registration: Registration, target: Url, out: Outside) returns (listed: bool)
      ensures listed == Listed(registration, target, out)
    {
      listed := false;
      for n := 0 to |registration.endpoints|
        invariant !listed
        invariant forall i :: 0 <= i < n ==> !Covers(out.parseUrl(TrimSpace(registration.endpoints[i])), target)
      {
        var endpoint := out.parseUrl(TrimSpace(registration.endpoints[n]));
        if endpoint.None? || endpoint.value.scheme != target.scheme || !EqualFold(endpoint.value.host, target.host) {
          continue;
        }
        var path := TrimSuffix(endpoint.value.path, '/');
        if path == "" || target.path == path || HasPrefix(target.path, path + "/") {
          assert registration.endpoints[n] in registration.endpoints;
          listed := true;
          break;
        }
      }
    }

    method AnalyzeSkillDocument(docs: Documents)
      modifies this
      ensures result == old(result).(
                        skillValid := old(result).skillValid
                          || (docs.skillAvailable && !docs.skillTruncated && !docs.skillBlank),
                        findings := WithCodes(old(result).findings, SkillCodes(docs)))
    {
      SingleCode(result.findings, SkillMissing);
      SingleCode(result.findings, SkillInvalid);
      if !docs.skillAvailable {
        AddFinding(SkillMissing, Info);
        return;
      }
      if docs.skillTruncated || docs.skillBlank {
        AddFinding(SkillInvalid, Warning);
        return;
      }
      result := result.(skillValid := true);
    }

    /** inspectSpecifications, after the three fetches. */
    method Inspect(docs: Documents, target: Url, verb: Method, out: Outside)
      requires result == EMPTY_REVIEW
      modifies this
      ensures result == Inspected(docs, target, verb, out)
    {
      hide WithFinding, FactsOf, OperationCodes, Locate, RegistrationCodes, SkillCodes, WithCodes;
      SingleCode([], OpenapiInvalid);
      SingleCode([], OpenapiVersion);
      SingleCode([], OpenapiTooLarge);
      SingleCode([], OpenapiMissing);
      NoCodes([]);
      if docs.openapiAvailable && !docs.openapiTruncated {
        if docs.openapi.None? {
          AddFinding(OpenapiInvalid, Error);
        } else if !Is3x(docs.openapi.value) {
          AddFinding(OpenapiVersion, Error);
        } else {
          result := result.(openapiValid := true);
          AnalyzeOpenAPI(docs.openapi.value, target, verb, out);
        }
      } else if docs.openapiTruncated {
        AddFinding(OpenapiTooLarge, Error);
      } else {
        AddFinding(OpenapiMissing, Warning);
      }
      ghost var openapi := OpenapiCodes(docs, target, verb, out);
      assert result.findings == WithCodes([], openapi);
      AnalyzeRegistration(target, docs, out);
      WithCodesAppend([], openapi, RegistrationCodes(docs, target, out));
      AnalyzeSkillDocument(docs);
      WithCodesAppend([], openapi + RegistrationCodes(docs, target, out), SkillCodes(docs));
    }

    method AnalyzeChallenge(target: Url, challenge: Payment.Challenge, verb: Method, out: Outside)
      requires result.challenge == NO_CHALLENGE
      modifies this
      ensures result == old(result).(
                        challenge := ChallengeFacts(challenge, target, out),
                        findings := WithCodes(old(result).findings, ChallengeCodes(challenge, target, verb, out)))
    {
      hide WithCodes, ResourceCodes, Matching, Bazaar, BazaarCodes, InfoHas, ContainsNestedKey;
      ghost var before := result.findings;
      ghost var resourceCodes := AnalyzeResource(target, challenge, out);
      ghost var after := result.findings;
      AnalyzeBazaar(challenge, verb);
      WithCodesAppend(before, resourceCodes, BazaarCodes(result.challenge, verb));
    }

    method AnalyzeBazaar(challenge: Payment.Challenge, verb: Method)
      requires NoBazaar(result.challenge)
      modifies this
      ensures result.challenge == WithBazaar(old(result).challenge, Bazaar(challenge))
      ensures result == old(result).(
                        challenge := result.challenge,
                        findings := WithCodes(old(result).findings, BazaarCodes(result.challenge, verb)))
    {
      hide WithCodes, WithBazaar, Bazaar, If;
      ghost var before := result.findings;
      NoCodes(before);
      SingleCode(before, BazaarMissing);
      ReadBazaar(challenge);
      if !result.challenge.bazaarExtension {
        AddFinding(BazaarMissing, Warning);
        return;
      }
      ghost var codes := AddFindingIf(verb.POST? && !result.challenge.bazaarInput, BazaarInputMissing, Warning,
                                      before, []);
      NothingBefore(If(verb.POST? && !result.challenge.bazaarInput, BazaarInputMissing));
      codes := AddFindingIf(!result.challenge.bazaarOutput, BazaarOutputMissing, Info, before, codes);
    }

    method ReadBazaar(challenge: Payment.Challenge)
      requires NoBazaar(result.challenge)
      modifies this
      ensures result == old(result).(challenge := WithBazaar(old(result).challenge, Bazaar(challenge)))
    {
      hide InfoHas, ContainsNestedKey;
      var bazaar := ObjectField(challenge.extensions, "bazaar");
      result := result.(challenge := result.challenge.(bazaarExtension := bazaar.Some? && bazaar.value != map[]));
      if result.challenge.bazaarExtension {
        result := result.(challenge := result.challenge.(
          bazaarInput := InfoHas(bazaar.value, "input") || ContainsNestedKey(Obj(bazaar.value), "inputSchema", 0),
          bazaarOutput := InfoHas(bazaar.value, "output") || ContainsNestedKey(Obj(bazaar.value), "outputSchema", 0)));
      }
    }

    method AnalyzeResource(target: Url, challenge: Payment.Challenge, out: Outside) returns (ghost codes: seq<Code>)
      requires result.challenge == NO_CHALLENGE
      modifies this
      ensures codes == ResourceCodes(challenge, target, out)
      ensures result == old(result).(
                        challenge := ResourceFacts(challenge, target, out),
                        findings := WithCodes(old(result).findings, codes))
    {
      hide WithFinding, SameResource, TrimSpace, WithCodes;
      codes := ResourceCodes(challenge, target, out);
      SingleCode(result.findings, ResourceMissing);
      SingleCode(result.findings, ResourceInvalid);
      var advertised := TrimSpace(challenge.resource);
      if advertised == "" {
        AddFinding(ResourceMissing, Warning);
        return;
      }
      var resource := out.parseUrl(advertised);
      if resource.None? || resource.value.scheme == "" || resource.value.host == "" || resource.value.hasUser {
        AddFinding(ResourceInvalid, Error);
        return;
      }
      AnalyzeReadable(target, resource.value, out);
    }

    /** The part about a resource URL that could be read. */
    method AnalyzeReadable(target: Url, resource: Url, out: Outside)
      modifies this
      ensures result == old(result).(
                        challenge := old(result).challenge.(resourceUrl := out.redact(resource),
                                                            resourceMatches := SameResource(target, resource)),
                        findings := WithCodes(old(result).findings, ReadableCodes(target, resource)))
    {
      hide WithFinding, SameResource, WithCodes;
      NoCodes(result.findings);
      SingleCode(result.findings, ResourceInsecure);
      SingleCode(result.findings, ResourceMismatch);
      result := result.(challenge := result.challenge.(resourceUrl := out.redact(resource),
                                                       resourceMatches := SameResource(target, resource)));
      if resource.scheme != "https" && target.scheme == "https" {
        AddFinding(ResourceInsecure, Error);
      } else if !result.challenge.resourceMatches {
        AddFinding(ResourceMismatch, Error);
      }
    }

    method Finalize(target: Url, challenge: Option<Payment.Challenge>, verb: Method, out: Outside)
      returns (checks: seq<Check>)
      requires result.challenge == NO_CHALLENGE
      modifies this
      ensures result == Finalized(old(result), challenge, target, verb, out)
      ensures checks == SpecChecks(result, verb)
    {
      hide WithFinding, WithCodes, ChallengeCodes, ChallengeFacts, Blocking, SpecChecks;
      SingleCode(result.findings, ChallengeUnavailable);
      if challenge.Some? {
        AnalyzeChallenge(target, challenge.value, verb, out);
      } else {
        AddFinding(ChallengeUnavailable, Info);
      }
      SetStatus();
      checks := ChecksOf(result, verb);
    }

    /** READY unless some finding is more than information. */
    method SetStatus()
      modifies this
      ensures result == old(result).(status := if Blocking(old(result).findings) then NeedsRepair else Ready)
    {
      result := result.(status := Ready);
      ghost var reviewed := result;
      for n := 0 to |result.findings|
        invariant result == reviewed
        invariant forall i :: 0 <= i < n ==> result.findings[i].severity.Info?
      {
        if result.findings[n].severity.Error? || result.findings[n].severity.Warning? {
          assert result.findings[n] in result.findings;
          result := result.(status := NeedsRepair);
          break;
        }
      }
    }

    static method ChecksOf(result: Review, verb: Method) returns (checks: seq<Check>)
      ensures checks == SpecChecks(result, verb)
    {
      var discoveryCheck := Check(ServiceDiscovery, Warn, 15, 7);
      if result.openapiValid && result.operation.found {
        discoveryCheck := Check(ServiceDiscovery, Pass, 15, 15);
      }
      var contractReady := result.operation.concreteRequest && result.operation.concreteResponse
                           && result.challenge.resourceMatches && result.challenge.bazaarExtension;
      if verb.POST? {
        contractReady := contractReady && result.challenge.bazaarInput;
      }
      var contractCheck := Check(RequestContract, Warn, 15, 7);
      if contractReady {
        contractCheck := Check(RequestContract, Pass, 15, 15);
      }
      return [discoveryCheck, contractCheck];
    }
  }

  lemma NothingBefore(codes: seq<Code>)
    ensures [] + codes == codes
  {
  }

  lemma NoCodes(findings: seq<Finding>)
    ensures WithCodes(findings, []) == findings
  {
  }
}

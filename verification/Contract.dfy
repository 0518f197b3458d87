/** What a specification review reads, member by member of the documents and of the
    challenge, and exactly when its two checks pass. */
module Contract {
  import opened Text
  import opened Json
  import opened References
  import opened Concreteness
  import opened Paths
  import opened KeySearch
  import opened Checks
  import opened SpecReview
  import Payment
  import Readiness

  predicate Holds(o: Object, key: string, member: Object) {
    key in o && o[key] == Obj(member)
  }

  lemma HeldMember(o: Object, key: string)
    ensures forall m :: Holds(o, key, m) <==> ObjectField(o, key) == Some(m)
  {
  }

  // ---------------------------------------------------------------- media objects

  predicate EndsPlusJson(key: string) {
    |key| >= 5 && Lower(key[|key| - 5..]) == "+json"
  }

  function PlusJson(content: Object): set<string> {
    set k | k in content && EndsPlusJson(k)
  }

  /** The media object under "application/json" if that is an object, otherwise under the
      least key that ends in "+json", in any case. */
  predicate IsJsonMedia(content: Object, media: Object) {
    if "application/json" in content && content["application/json"].Obj? then
      content["application/json"] == Obj(media)
    else
      exists k :: k in content && IsLeast(k, PlusJson(content)) && content[k] == Obj(media)
  }

  lemma SuffixesAre(key: string)
    ensures HasSuffix(Lower(key), "+json") <==> EndsPlusJson(key)
  {
    if |key| >= 5 {
      var tail := key[|key| - 5..];
      forall i | 0 <= i < 5 ensures Lower(key)[|key| - 5..][i] == Lower(tail)[i] {
        assert Lower(key)[|key| - 5 + i] == LowerChar(key[|key| - 5 + i]);
      }
      assert Lower(key)[|key| - 5..] == Lower(tail);
    }
  }

  lemma FirstKeyIsLeast(s: set<string>)
    requires s != {}
    ensures Sorted(s) != [] && IsLeast(Sorted(s)[0], s)
  {
    SortedAscending(s);
    var q := Sorted(s);
    assert |q| == |s| && |s| > 0;
    forall y | y in s && y != q[0] ensures Less(q[0], y) {
      var i :| 0 <= i < |q| && q[i] == y;
    }
    assert q[0] in q;
  }

  lemma MediaAre(content: Object, media: Object)
    ensures JsonMedia(Some(content)) == Some(media) <==> IsJsonMedia(content, media)
  {
    hide Less, Lower, HasSuffix, EndsPlusJson, Sorted;
    forall k: string ensures HasSuffix(Lower(k), "+json") <==> EndsPlusJson(k) { SuffixesAre(k); }
    var keys := JsonMediaKeys(content);
    assert keys == PlusJson(content);
    if keys == {} {
      assert Sorted(keys) == [] by { assert |Sorted(keys)| == 0; }
    } else {
      FirstKeyIsLeast(keys);
      forall k | IsLeast(k, keys) ensures k == Sorted(keys)[0] { LeastUnique(k, Sorted(keys)[0], keys); }
    }
  }

  lemma NoMedia()
    ensures JsonMedia(None) == None
  {
  }

  /** The raw value resolves to an object whose "content" holds the JSON media object. */
  predicate Carries(doc: Object, raw: Json, media: Object) {
    match Resolve(doc, raw, 0)
    case None => false
    case Some(o) => "content" in o && o["content"].Obj? && IsJsonMedia(o["content"].fields, media)
  }

  lemma CarriedMedia(doc: Object, o: Object, key: string, media: Object)
    ensures JsonMedia(Content(ResolveField(doc, Some(o), key))) == Some(media) <==>
            key in o && Carries(doc, o[key], media)
  {
    hide JsonMedia, IsJsonMedia, Resolve;
    NoMedia();
    if key in o && Resolve(doc, o[key], 0).Some? {
      var held := Resolve(doc, o[key], 0).value;
      if ObjectField(held, "content").Some? { MediaAre(ObjectField(held, "content").value, media); }
    }
  }

  // -------------------------------------------------------- schemas of an operation

  predicate SchemaIn(doc: Object, media: Object, schema: Object) {
    "schema" in media && Resolve(doc, media["schema"], 0) == Some(schema)
  }

  /** The schema documented for the request body. */
  ghost predicate BodySchema(doc: Object, operation: Object, schema: Object) {
    "requestBody" in operation
    && exists media :: Carries(doc, operation["requestBody"], media) && SchemaIn(doc, media, schema)
  }

  lemma BodySchemaIsRead(doc: Object, operation: Object, schema: Object)
    ensures RequestBodySchema(doc, operation).0 == Some(schema) <==> BodySchema(doc, operation, schema)
  {
    hide JsonMedia, Resolve, Carries;
    var media := JsonMedia(Content(ResolveField(doc, Some(operation), "requestBody")));
    forall m ensures media == Some(m) <==> "requestBody" in operation && Carries(doc, operation["requestBody"], m) {
      CarriedMedia(doc, operation, "requestBody", m);
    }
  }

  predicate SuccessKey(k: string) {
    k == "default" || (k != "" && k[0] == '2')
  }

  /** The keys of successful responses that carry JSON. */
  ghost predicate Answering(doc: Object, responses: Object, k: string) {
    k in responses && SuccessKey(k) && exists media :: Carries(doc, responses[k], media)
  }

  ghost function AnsweringKeys(doc: Object, responses: Object): set<string> {
    set k | k in responses && Answering(doc, responses, k)
  }

  /** The schema documented for the response: that of the least successful key that
      carries JSON, whatever the later ones say. */
  ghost predicate ResponseSchema(doc: Object, operation: Object, schema: Object) {
    "responses" in operation && operation["responses"].Obj?
    && var responses := operation["responses"].fields;
       exists k, media ::
         && IsLeast(k, AnsweringKeys(doc, responses)) && k in responses
         && Carries(doc, responses[k], media) && SchemaIn(doc, media, schema)
  }

  lemma OneMedia(doc: Object, raw: Json, m: Object, n: Object)
    requires Carries(doc, raw, m) && Carries(doc, raw, n)
    ensures m == n
  {
    hide Less, Lower;
    var content := Resolve(doc, raw, 0).value["content"].fields;
    if !("application/json" in content && content["application/json"].Obj?) {
      var j :| j in content && IsLeast(j, PlusJson(content)) && content[j] == Obj(m);
      var k :| k in content && IsLeast(k, PlusJson(content)) && content[k] == Obj(n);
      LeastUnique(j, k, PlusJson(content));
    }
  }

  function MediaAt(doc: Object, responses: Object, k: string): Option<Object> {
    JsonMedia(Content(ResolveField(doc, Some(responses), k)))
  }

  lemma {:induction false} FirstAnswers(doc: Object, responses: Object, keys: seq<string>, n: nat)
    requires n < |keys| && MediaAt(doc, responses, keys[n]).Some?
    requires forall j :: 0 <= j < n ==> MediaAt(doc, responses, keys[j]).None?
    ensures FirstResponseSchema(doc, responses, keys) == SchemaOfMedia(doc, MediaAt(doc, responses, keys[n]))
  {
    hide JsonMedia, SchemaOfMedia, Resolve;
    if n > 0 {
      assert keys[1..][n - 1] == keys[n] && forall j :: 0 <= j < n - 1 ==> keys[1..][j] == keys[j + 1];
      FirstAnswers(doc, responses, keys[1..], n - 1);
    }
  }

  lemma {:induction false} NoneAnswers(doc: Object, responses: Object, keys: seq<string>)
    requires forall j :: 0 <= j < |keys| ==> MediaAt(doc, responses, keys[j]).None?
    ensures FirstResponseSchema(doc, responses, keys) == (None, false)
  {
    hide JsonMedia, SchemaOfMedia, Resolve;
    if keys == [] {
    } else {
      NoneAnswers(doc, responses, keys[1..]);
    }
  }

  lemma AnsweringIsMedia(doc: Object, responses: Object, k: string)
    ensures k in AnsweringKeys(doc, responses) <==>
            k in responses && SuccessKey(k) && MediaAt(doc, responses, k).Some?
    ensures k in responses ==>
              forall media :: MediaAt(doc, responses, k) == Some(media) <==> Carries(doc, responses[k], media)
  {
    hide JsonMedia, Carries, Resolve, ResolveField, Content;
    forall media
      ensures MediaAt(doc, responses, k) == Some(media) <==> k in responses && Carries(doc, responses[k], media)
    {
      CarriedMedia(doc, responses, k, media);
    }
  }

  lemma SuccessKeysAre(responses: Object)
    ensures SuccessKeys(responses) == set k | k in responses && SuccessKey(k)
  {
    forall k: string ensures HasPrefix(k, "2") <==> k != "" && k[0] == '2' {
      if k != "" { assert k[..1] == [k[0]]; }
    }
  }

  lemma ResponseSchemaIsRead(doc: Object, operation: Object, schema: Object)
    ensures SuccessfulResponseSchema(doc, operation).0 == Some(schema) <==> ResponseSchema(doc, operation, schema)
  {
    hide JsonMedia, Carries, Resolve, SuccessKey, Less, Sorted, FirstResponseSchema, SuccessKeys, MediaAt,
      AnsweringKeys;
    if "responses" in operation && operation["responses"].Obj? {
      var responses := operation["responses"].fields;
      var keys, answering := Sorted(SuccessKeys(responses)), AnsweringKeys(doc, responses);
      SuccessKeysAre(responses);
      SortedAscending(SuccessKeys(responses));
      forall k: string
        ensures k in answering <==> k in keys && MediaAt(doc, responses, k).Some?
        ensures k in answering ==> k in responses
        ensures k in responses ==>
                  forall media :: MediaAt(doc, responses, k) == Some(media) <==> Carries(doc, responses[k], media)
      {
        AnsweringIsMedia(doc, responses, k);
      }
      if answering == {} {
        NoneAnswers(doc, responses, keys);
      } else {
        var one :| one in answering;
        assert one in keys;
        var n := FirstIn(keys, answering);
        FirstAnswers(doc, responses, keys, n);
        FirstIsLeast(keys, n, answering);
        forall k | IsLeast(k, answering) ensures k == keys[n] { LeastUnique(k, keys[n], answering); }
        var media := MediaAt(doc, responses, keys[n]).value;
        assert Carries(doc, responses[keys[n]], media);
        SchemaOf(doc, media, schema);
        assert SuccessfulResponseSchema(doc, operation) == SchemaOfMedia(doc, Some(media));
        hide SchemaOfMedia, SchemaIn;
      }
    }
  }

  lemma FirstIn(keys: seq<string>, wanted: set<string>) returns (n: nat)
    requires exists k :: k in keys && k in wanted
    ensures n < |keys| && keys[n] in wanted && forall j :: 0 <= j < n ==> keys[j] !in wanted
  {
    var k :| k in keys && k in wanted;
    var i :| 0 <= i < |keys| && keys[i] == k;
    n := 0;
    while keys[n] !in wanted
      invariant n <= i && forall j :: 0 <= j < n ==> keys[j] !in wanted
      decreases i - n
    {
      n := n + 1;
    }
  }

  lemma SchemaOf(doc: Object, media: Object, schema: Object)
    ensures SchemaOfMedia(doc, Some(media)).0 == Some(schema) <==> SchemaIn(doc, media, schema)
  {
    hide Resolve;
  }

  // ------------------------------------------------------------------ query parameters

  predicate QueryParameter(p: Json) {
    p.Obj? && "in" in p.fields && p.fields["in"] == Str("query")
  }

  predicate Described(p: Json) {
    && p.Obj? && "name" in p.fields && p.fields["name"].Str? && p.fields["name"].text != ""
    && "schema" in p.fields && p.fields["schema"].Obj?
  }

  /** There are query parameters, and each is named and has a schema. */
  predicate QueriesDescribed(operation: Object) {
    && "parameters" in operation && operation["parameters"].Arr?
    && (exists p :: p in operation["parameters"].items && QueryParameter(p))
    && forall p :: p in operation["parameters"].items && QueryParameter(p) ==> Described(p)
  }

  lemma QueriesAre(operation: Object)
    ensures QueriesConcrete(operation) <==> QueriesDescribed(operation)
  {
    forall p: Json
      ensures IsQuery(p) <==> QueryParameter(p)
      ensures IsNamedAndTyped(p) <==> Described(p)
    {
    }
    hide IsQuery, IsNamedAndTyped, QueryParameter, Described;
    var parameters := Parameters(operation);
    assert HasQuery(operation) <==> exists p :: p in parameters && QueryParameter(p);
  }

  // ------------------------------------------------------------- when the checks pass

  /** A usable OpenAPI document: fetched, whole, decoded and of a version 3. */
  predicate Published(docs: Documents) {
    && docs.openapiAvailable && !docs.openapiTruncated && docs.openapi.Some?
    && "openapi" in docs.openapi.value && docs.openapi.value["openapi"].Str?
    && |docs.openapi.value["openapi"].text| >= 2 && docs.openapi.value["openapi"].text[..2] == "3."
  }

  /** The document's operation for the request: the best path item's member for the verb. */
  ghost predicate Operates(doc: Object, target: Url, verb: Method, operation: Object) {
    exists paths, route ::
      && Holds(doc, "paths", paths) && FindPath(paths, target.path) == Some(route)
      && Holds(route.item, if verb.POST? then "post" else "get", operation)
  }

  /** A concrete body schema for POST, described query parameters for a GET with a query. */
  ghost predicate RequestIsConcrete(doc: Object, operation: Object, target: Url, verb: Method) {
    if verb.POST? then exists schema :: BodySchema(doc, operation, schema) && IsConcrete(doc, Some(schema), 0)
    else target.rawQuery == "" || QueriesDescribed(operation)
  }

  ghost predicate ResponseIsConcrete(doc: Object, operation: Object) {
    exists schema :: ResponseSchema(doc, operation, schema) && IsConcrete(doc, Some(schema), 0)
  }

  /** The challenge advertises a whole URL without credentials, and the requested one. */
  predicate NamesTheResource(challenge: Payment.Challenge, target: Url, out: Outside) {
    && TrimSpace(challenge.resource) != ""
    && match out.parseUrl(TrimSpace(challenge.resource))
       case None => false
       case Some(u) => u.scheme != "" && u.host != "" && !u.hasUser && SameResource(target, u)
  }

  ghost predicate DescribesInput(bazaar: Object) {
    || ("info" in bazaar && bazaar["info"].Obj? && "input" in bazaar["info"].fields
        && bazaar["info"].fields["input"] != Null)
    || Reachable(Obj(bazaar), "inputSchema", 6)
  }

  /** It has Bazaar metadata, which for a POST describe the input. */
  ghost predicate HasMetadata(challenge: Payment.Challenge, verb: Method) {
    && "bazaar" in challenge.extensions && challenge.extensions["bazaar"].Obj?
    && challenge.extensions["bazaar"].fields != map[]
    && (verb.POST? ==> DescribesInput(challenge.extensions["bazaar"].fields))
  }

  lemma PublishedIsUsable(docs: Documents)
    ensures OpenapiUsable(docs) <==> Published(docs)
  {
  }

  lemma LocatedIsDocumented(doc: Object, target: Url, verb: Method, operation: Object)
    ensures Operates(doc, target, verb, operation) <==>
            Locate(doc, target, verb).Found? && Locate(doc, target, verb).operation == operation
  {
    hide FindPath;
    HeldMember(doc, "paths");
    if ObjectField(doc, "paths").Some? {
      var paths := ObjectField(doc, "paths").value;
      if FindPath(paths, target.path).Some? {
        HeldMember(FindPath(paths, target.path).value.item, MethodKey(verb));
      }
    }
  }

  lemma FactsAreConcrete(doc: Object, path: string, operation: Object, target: Url, verb: Method, out: Outside)
    ensures var facts := FactsOf(doc, path, operation, target, verb, out);
            && facts.found && facts.path == path
            && (facts.concreteRequest <==> RequestIsConcrete(doc, operation, target, verb))
            && (facts.concreteResponse <==> ResponseIsConcrete(doc, operation))
  {
    hide RequestBodySchema, SuccessfulResponseSchema, IsConcrete, BodySchema, ResponseSchema, QueriesConcrete,
      QueriesDescribed, StringField, HasQuery;
    QueriesAre(operation);
    forall schema ensures RequestBodySchema(doc, operation).0 == Some(schema) <==> BodySchema(doc, operation, schema) {
      BodySchemaIsRead(doc, operation, schema);
    }
    forall schema
      ensures SuccessfulResponseSchema(doc, operation).0 == Some(schema) <==> ResponseSchema(doc, operation, schema)
    {
      ResponseSchemaIsRead(doc, operation, schema);
    }
    var (body, response) := (RequestBodySchema(doc, operation).0, SuccessfulResponseSchema(doc, operation).0);
    if body.Some? { assert BodySchema(doc, operation, body.value); }
    if response.Some? { assert ResponseSchema(doc, operation, response.value); }
    NoneIsNotConcrete(doc);
  }

  lemma NoneIsNotConcrete(doc: Object)
    ensures !IsConcrete(doc, None, 0)
  {
  }

  lemma ResourceIsNamed(challenge: Payment.Challenge, target: Url, out: Outside)
    ensures Matching(challenge, target, out) <==> NamesTheResource(challenge, target, out)
  {
    hide SameResource, TrimSpace;
  }

  lemma MetadataAreRead(challenge: Payment.Challenge, target: Url, verb: Method, out: Outside)
    ensures var facts := ChallengeFacts(challenge, target, out);
            && (facts.resourceMatches <==> NamesTheResource(challenge, target, out))
            && (facts.bazaarExtension && (verb.POST? ==> facts.bazaarInput) <==> HasMetadata(challenge, verb))
  {
    ResourceIsNamed(challenge, target, out);
    hide Matching, NamesTheResource, ContainsNestedKey, Reachable, Advertised, TrimSpace;
    SearchIsExact(Obj(Bazaar(challenge)), "inputSchema", 0);
  }

  /** The two checks of any review, READY or not, from the documents and the challenge:
      discovery passes iff a usable document has the operation; the contract iff moreover
      its request and response are concrete and a challenge was seen that names the
      resource and has its metadata. */
  lemma ChecksExactly(docs: Documents, challenge: Option<Payment.Challenge>, target: Url, verb: Method, out: Outside)
    ensures var found := Published(docs) && exists operation :: Operates(docs.openapi.value, target, verb, operation);
            var kept := found
                        && (exists operation ::
                              && Operates(docs.openapi.value, target, verb, operation)
                              && RequestIsConcrete(docs.openapi.value, operation, target, verb)
                              && ResponseIsConcrete(docs.openapi.value, operation))
                        && challenge.Some?
                        && NamesTheResource(challenge.value, target, out) && HasMetadata(challenge.value, verb);
            SpecChecks(Readiness.FinalReview(docs, challenge, target, verb, out), verb) ==
            [if found then Check(ServiceDiscovery, Pass, 15, 15) else Check(ServiceDiscovery, Warn, 15, 7),
             if kept then Check(RequestContract, Pass, 15, 15) else Check(RequestContract, Warn, 15, 7)]
  {
    hide FactsOf, Locate, Operates, RequestIsConcrete, ResponseIsConcrete, NamesTheResource, HasMetadata,
      ChallengeFacts, OpenapiUsable, Published, WithCodes, DiscoveryCodes, CodesAbout;
    PublishedIsUsable(docs);
    if challenge.Some? { MetadataAreRead(challenge.value, target, verb, out); }
    if Published(docs) {
      var doc := UsableDocument(docs);
      forall operation
        ensures Operates(doc, target, verb, operation) <==>
                Locate(doc, target, verb).Found? && Locate(doc, target, verb).operation == operation
      {
        LocatedIsDocumented(doc, target, verb, operation);
      }
      match Locate(doc, target, verb)
      case Found(path, operation) =>
        assert Operates(doc, target, verb, operation);
        FactsAreConcrete(doc, path, operation, target, verb, out);
      case _ =>
    }
  }

  lemma UsableDocument(docs: Documents) returns (doc: Object)
    requires Published(docs)
    ensures docs.openapi == Some(doc)
  {
    doc := docs.openapi.value;
  }

  // ------------------------------------------------- resources, endpoints, examples

  /** Being the same resource is an equivalence. */
  lemma SameResourceIsEquivalence(u: Url, v: Url, w: Url)
    ensures SameResource(u, u)
    ensures SameResource(u, v) ==> SameResource(v, u)
    ensures SameResource(u, v) && SameResource(v, w) ==> SameResource(u, w)
  {
  }

  /** It is decided part by part: scheme and host up to case, the escaped path with none
      read as "/", the query exactly, and nothing else. */
  lemma ResourcesDifferByPart(u: Url, scheme: string, host: string, path: string, escaped: string, query: string,
                              user: bool)
    ensures SameResource(u, u.(path := path, hasUser := user))
    ensures SameResource(u, u.(scheme := scheme)) <==> EqualFold(u.scheme, scheme)
    ensures SameResource(u, u.(host := host)) <==> EqualFold(u.host, host)
    ensures SameResource(u, u.(rawQuery := query)) <==> u.rawQuery == query
    ensures SameResource(u, u.(escapedPath := escaped)) <==>
            u.escapedPath == escaped || (u.escapedPath in {"", "/"} && escaped in {"", "/"})
  {
  }

  /** An endpoint covers what is on its origin under its path: with no path or "/"
      everything, otherwise that path and what follows it after a slash. One slash at its
      end does not matter. */
  lemma EndpointsCover(u: Url, target: Url, path: string)
    requires path == "" || path[|path| - 1] != '/'
    ensures Covers(Some(u.(path := path)), target) <==>
            && u.scheme == target.scheme && EqualFold(u.host, target.host)
            && (path == "" || target.path == path || path + "/" <= target.path)
    ensures Covers(Some(u.(path := path + "/")), target) <==> Covers(Some(u.(path := path)), target)
    ensures !Covers(None, target)
  {
    assert (path + "/")[..|path|] == path;
    assert TrimSuffix(path + "/", '/') == path && TrimSuffix(path, '/') == path;
    if |path| + 1 <= |target.path| {
      assert HasPrefix(target.path, path + "/") <==> path + "/" <= target.path;
    }
  }

  /** An example is published by "example" or by a non-empty "examples" object. */
  lemma ExamplesAre(o: Object)
    ensures HasExample(Some(o)) <==>
            "example" in o || ("examples" in o && o["examples"].Obj? && o["examples"].fields != map[])
    ensures !HasExample(None)
  {
  }

  /** The severity of every code: what makes a review unusable, what needs repair, and
      what is only information. */
  lemma SeveritiesAre(c: Code)
    ensures SeverityOf(c).Error? <==>
            c in {OpenapiInvalid, OpenapiVersion, OpenapiTooLarge, OpenapiPathsMissing, OperationMissing, MethodMissing,
                  RequestSchemaMissing, ResourceInvalid, ResourceInsecure, ResourceMismatch}
    ensures SeverityOf(c).Info? <==>
            c in {RequestExampleMissing, ResponseExampleMissing, RegistrationMissing, AgentIdMissing, SkillMissing,
                  ChallengeUnavailable, BazaarOutputMissing}
  {
  }

  /** What a review records about a located operation besides being concrete: whether any
      schema is documented at all, and whether an example is. */
  lemma OtherFactsAre(doc: Object, path: string, operation: Object, target: Url, verb: Method, out: Outside)
    ensures var facts := FactsOf(doc, path, operation, target, verb, out);
            && (verb.POST? ==> (facts.requestSchema <==> exists schema :: BodySchema(doc, operation, schema)))
            && (verb.GET? && target.rawQuery == "" ==> facts.requestSchema)
            && (verb.GET? && target.rawQuery != "" ==>
                  (facts.requestSchema <==>
                     "parameters" in operation && operation["parameters"].Arr?
                     && exists p :: p in operation["parameters"].items && QueryParameter(p)))
            && (facts.responseSchema <==> exists schema :: ResponseSchema(doc, operation, schema))
            && facts.summary == out.safeText(if "summary" in operation && operation["summary"].Str?
                                             then operation["summary"].text else "")
  {
    hide RequestBodySchema, SuccessfulResponseSchema, IsConcrete, BodySchema, ResponseSchema, QueriesConcrete;
    QueryParametersAre(operation);
    forall schema ensures RequestBodySchema(doc, operation).0 == Some(schema) <==> BodySchema(doc, operation, schema) {
      BodySchemaIsRead(doc, operation, schema);
    }
    forall schema
      ensures SuccessfulResponseSchema(doc, operation).0 == Some(schema) <==> ResponseSchema(doc, operation, schema)
    {
      ResponseSchemaIsRead(doc, operation, schema);
    }
    var (body, response) := (RequestBodySchema(doc, operation).0, SuccessfulResponseSchema(doc, operation).0);
    if body.Some? { assert BodySchema(doc, operation, body.value); }
    if response.Some? { assert ResponseSchema(doc, operation, response.value); }
    hide HasQuery, QueryParameter;
  }

  lemma QueryParametersAre(operation: Object)
    ensures HasQuery(operation) <==>
            "parameters" in operation && operation["parameters"].Arr?
            && exists p :: p in operation["parameters"].items && QueryParameter(p)
  {
    forall p: Json ensures IsQuery(p) <==> QueryParameter(p) { }
    hide IsQuery, QueryParameter;
    assert HasQuery(operation) <==> exists p :: p in Parameters(operation) && QueryParameter(p);
  }

  // ------------------------------------------------------------------ every finding

  predicate ShowsExample(o: Object) {
    "example" in o || ("examples" in o && o["examples"].Obj? && o["examples"].fields != map[])
  }

  /** The media object shows an example, or the schema it holds does. */
  predicate MediaShowsExample(doc: Object, media: Object) {
    || ShowsExample(media)
    || ("schema" in media && Resolve(doc, media["schema"], 0).Some?
        && ShowsExample(Resolve(doc, media["schema"], 0).value))
  }

  lemma ExampleOf(doc: Object, media: Object)
    ensures SchemaOfMedia(doc, Some(media)).1 <==> MediaShowsExample(doc, media)
  {
    hide Resolve;
  }

  ghost predicate BodyExample(doc: Object, operation: Object) {
    "requestBody" in operation
    && exists media :: Carries(doc, operation["requestBody"], media) && MediaShowsExample(doc, media)
  }

  ghost predicate ResponseExample(doc: Object, operation: Object) {
    "responses" in operation && operation["responses"].Obj?
    && var responses := operation["responses"].fields;
       exists k, media ::
         && IsLeast(k, AnsweringKeys(doc, responses)) && k in responses
         && Carries(doc, responses[k], media) && MediaShowsExample(doc, media)
  }

  lemma BodyExampleIsRead(doc: Object, operation: Object)
    ensures RequestBodySchema(doc, operation).1 <==> BodyExample(doc, operation)
  {
    hide JsonMedia, Resolve, Carries, HasExample, ShowsExample, MediaShowsExample;
    var media := JsonMedia(Content(ResolveField(doc, Some(operation), "requestBody")));
    forall m
      ensures media == Some(m) <==> "requestBody" in operation && Carries(doc, operation["requestBody"], m)
      ensures SchemaOfMedia(doc, Some(m)).1 <==> MediaShowsExample(doc, m)
    {
      CarriedMedia(doc, operation, "requestBody", m);
      ExampleOf(doc, m);
    }
    hide SchemaOfMedia;
    if media.Some? {
      assert Carries(doc, operation["requestBody"], media.value);
    } else {
      NothingOf(doc);
    }
  }

  lemma NothingOf(doc: Object)
    ensures SchemaOfMedia(doc, None) == (None, false)
  {
  }

  lemma ResponseExampleIsRead(doc: Object, operation: Object)
    ensures SuccessfulResponseSchema(doc, operation).1 <==> ResponseExample(doc, operation)
  {
    hide JsonMedia, Carries, Resolve, SuccessKey, Less, Sorted, FirstResponseSchema, SuccessKeys, MediaAt,
      AnsweringKeys, SchemaOfMedia, MediaShowsExample;
    if "responses" in operation && operation["responses"].Obj? {
      var responses := operation["responses"].fields;
      var answering := AnsweringKeys(doc, responses);
      var k := AnswerIsAt(doc, operation, responses);
      forall other
        ensures other in responses ==>
                  forall media ::
                    MediaAt(doc, responses, other) == Some(media) <==> Carries(doc, responses[other], media)
        ensures other in answering <==> other in responses && SuccessKey(other) && MediaAt(doc, responses, other).Some?
      {
        AnsweringIsMedia(doc, responses, other);
      }
      if answering != {} {
        var media := MediaAt(doc, responses, k).value;
        assert Carries(doc, responses[k], media);
        ExampleOf(doc, media);
        forall other | IsLeast(other, answering) ensures other == k { LeastUnique(other, k, answering); }
      }
    }
  }

  /** The answer comes from the least key that carries JSON. */
  lemma AnswerIsAt(doc: Object, operation: Object, responses: Object) returns (k: string)
    requires Holds(operation, "responses", responses)
    ensures AnsweringKeys(doc, responses) == {} ==> SuccessfulResponseSchema(doc, operation) == (None, false)
    ensures AnsweringKeys(doc, responses) != {} ==>
              && IsLeast(k, AnsweringKeys(doc, responses)) && MediaAt(doc, responses, k).Some?
              && SuccessfulResponseSchema(doc, operation) == SchemaOfMedia(doc, MediaAt(doc, responses, k))
  {
    hide JsonMedia, Carries, Resolve, SuccessKey, Less, Sorted, FirstResponseSchema, SuccessKeys, MediaAt,
      AnsweringKeys, SchemaOfMedia;
    var keys, answering := Sorted(SuccessKeys(responses)), AnsweringKeys(doc, responses);
    SuccessKeysAre(responses);
    SortedAscending(SuccessKeys(responses));
    forall other
      ensures other in answering <==> other in keys && MediaAt(doc, responses, other).Some?
    {
      AnsweringIsMedia(doc, responses, other);
    }
    if answering == {} {
      NoneAnswers(doc, responses, keys);
      k := "";
    } else {
      var one :| one in answering;
      assert one in keys;
      var n := FirstIn(keys, answering);
      FirstAnswers(doc, responses, keys, n);
      FirstIsLeast(keys, n, answering);
      k := keys[n];
    }
  }

  // What each finding says, code by code. `o` are the facts of the located operation.

  ghost predicate AboutDocument(c: Code, docs: Documents, target: Url, verb: Method) {
    var whole := docs.openapiAvailable && !docs.openapiTruncated;
    var paths := if Published(docs) then ObjectField(docs.openapi.value, "paths") else None;
    var route := if paths.Some? then FindPath(paths.value, target.path) else None;
    match c
    case OpenapiTooLarge => docs.openapiTruncated
    case OpenapiMissing => !docs.openapiAvailable && !docs.openapiTruncated
    case OpenapiInvalid => whole && docs.openapi.None?
    case OpenapiVersion => whole && docs.openapi.Some? && !Published(docs)
    case OpenapiPathsMissing => Published(docs) && paths.None?
    case OperationMissing => paths.Some? && route.None?
    case MethodMissing => route.Some? && !exists operation :: Operates(docs.openapi.value, target, verb, operation)
    case _ => false
  }

  predicate AboutOperation(c: Code, o: Operation, target: Url, verb: Method) {
    match c
    case SummaryMissing => o.summary == ""
    case RequestSchemaMissing => !o.requestSchema
    case RequestSchemaGeneric => o.requestSchema && !o.concreteRequest
    case RequestExampleMissing => (verb.POST? || target.rawQuery != "") && !o.requestExample
    case ResponseSchemaMissing => !o.responseSchema
    case ResponseSchemaGeneric => o.responseSchema && !o.concreteResponse
    case ResponseExampleMissing => !o.responseExample
    case _ => false
  }

  predicate AboutIdentity(c: Code, docs: Documents, target: Url, out: Outside) {
    var known := docs.registrationAvailable && docs.registration.Some?;
    match c
    case RegistrationMissing => !docs.registrationAvailable
    case RegistrationInvalid => docs.registrationAvailable && docs.registration.None?
    case RegistrationInactive => known && docs.registration.value.active == Some(false)
    case ServiceNotRegistered =>
      known && forall e :: e in docs.registration.value.endpoints ==> !Covers(out.parseUrl(TrimSpace(e)), target)
    case AgentIdMissing => known && docs.registration.value.agentIds == 0
    case SkillMissing => !docs.skillAvailable
    case SkillInvalid => docs.skillAvailable && (docs.skillTruncated || docs.skillBlank)
    case _ => false
  }

  ghost predicate DescribesOutput(bazaar: Object) {
    || ("info" in bazaar && bazaar["info"].Obj? && "output" in bazaar["info"].fields
        && bazaar["info"].fields["output"] != Null)
    || Reachable(Obj(bazaar), "outputSchema", 6)
  }

  ghost predicate AboutChallenge(c: Code, challenge: Payment.Challenge, target: Url, verb: Method, out: Outside) {
    var url := Advertised(challenge, out);
    var readable := TrimSpace(challenge.resource) != "" && url.Some?;
    var insecure := readable && url.value.scheme != "https" && target.scheme == "https";
    var described := "bazaar" in challenge.extensions && challenge.extensions["bazaar"].Obj?
                     && challenge.extensions["bazaar"].fields != map[];
    match c
    case ResourceMissing => TrimSpace(challenge.resource) == ""
    case ResourceInvalid => TrimSpace(challenge.resource) != "" && url.None?
    case ResourceInsecure => insecure
    case ResourceMismatch => readable && !insecure && !SameResource(target, url.value)
    case BazaarMissing => !described
    case BazaarInputMissing => described && verb.POST? && !DescribesInput(challenge.extensions["bazaar"].fields)
    case BazaarOutputMissing => described && !DescribesOutput(challenge.extensions["bazaar"].fields)
    case _ => false
  }

  lemma InIf(c: Code, condition: bool, d: Code)
    ensures c in If(condition, d) <==> condition && c == d
  {
  }

  lemma InAppend(c: Code, a: seq<Code>, b: seq<Code>)
    ensures c in a + b <==> c in a || c in b
  {
  }

  lemma InSeven(c: Code, s: seq<seq<Code>>)
    requires |s| == 7
    ensures c in s[0] + s[1] + s[2] + s[3] + s[4] + s[5] + s[6] <==>
            c in s[0] || c in s[1] || c in s[2] || c in s[3] || c in s[4] || c in s[5] || c in s[6]
  {
    InAppend(c, s[0], s[1]);
    InAppend(c, s[0] + s[1], s[2]);
    InAppend(c, s[0] + s[1] + s[2], s[3]);
    InAppend(c, s[0] + s[1] + s[2] + s[3], s[4]);
    InAppend(c, s[0] + s[1] + s[2] + s[3] + s[4], s[5]);
    InAppend(c, s[0] + s[1] + s[2] + s[3] + s[4] + s[5], s[6]);
  }

  /** The parts of OperationCodes. */
  function Parts(o: Operation, needsInput: bool): (s: seq<seq<Code>>)
    ensures |s| == 7
    ensures OperationCodes(o, needsInput) == s[0] + s[1] + s[2] + s[3] + s[4] + s[5] + s[6]
  {
    [If(o.summary == "", SummaryMissing), If(!o.requestSchema, RequestSchemaMissing),
     If(o.requestSchema && !o.concreteRequest, RequestSchemaGeneric),
     If(needsInput && !o.requestExample, RequestExampleMissing), If(!o.responseSchema, ResponseSchemaMissing),
     If(o.responseSchema && !o.concreteResponse, ResponseSchemaGeneric), If(!o.responseExample, ResponseExampleMissing)]
  }

  lemma InParts(c: Code, o: Operation, needsInput: bool)
    ensures var s := Parts(o, needsInput);
            && (c in s[0] <==> o.summary == "" && c == SummaryMissing)
            && (c in s[1] <==> !o.requestSchema && c == RequestSchemaMissing)
            && (c in s[2] <==> o.requestSchema && !o.concreteRequest && c == RequestSchemaGeneric)
            && (c in s[3] <==> needsInput && !o.requestExample && c == RequestExampleMissing)
            && (c in s[4] <==> !o.responseSchema && c == ResponseSchemaMissing)
            && (c in s[5] <==> o.responseSchema && !o.concreteResponse && c == ResponseSchemaGeneric)
            && (c in s[6] <==> !o.responseExample && c == ResponseExampleMissing)
  {
    hide If, OperationCodes;
    InIf(c, o.summary == "", SummaryMissing);
    InIf(c, !o.requestSchema, RequestSchemaMissing);
    InIf(c, o.requestSchema && !o.concreteRequest, RequestSchemaGeneric);
    InIf(c, needsInput && !o.requestExample, RequestExampleMissing);
    InIf(c, !o.responseSchema, ResponseSchemaMissing);
    InIf(c, o.responseSchema && !o.concreteResponse, ResponseSchemaGeneric);
    InIf(c, !o.responseExample, ResponseExampleMissing);
  }

  lemma OperationFindings(c: Code, o: Operation, target: Url, verb: Method)
    ensures c in OperationCodes(o, RequiresInput(target, verb)) <==> AboutOperation(c, o, target, verb)
  {
    hide If, OperationCodes, Parts;
    InSeven(c, Parts(o, RequiresInput(target, verb)));
    InParts(c, o, RequiresInput(target, verb));
  }

  lemma OperatesIffLocated(doc: Object, target: Url, verb: Method)
    ensures forall operation :: Operates(doc, target, verb, operation) <==>
                                Locate(doc, target, verb).Found? && Locate(doc, target, verb).operation == operation
  {
    forall operation
      ensures Operates(doc, target, verb, operation) <==>
              Locate(doc, target, verb).Found? && Locate(doc, target, verb).operation == operation
    {
      LocatedIsDocumented(doc, target, verb, operation);
    }
  }

  lemma LocatedFindings(c: Code, docs: Documents, target: Url, verb: Method, out: Outside)
    requires Published(docs) && Locate(docs.openapi.value, target, verb).Found?
    ensures !AboutDocument(c, docs, target, verb) && OperationFacts(docs, target, verb, out).found
    ensures c in OpenapiCodes(docs, target, verb, out) <==>
            AboutOperation(c, OperationFacts(docs, target, verb, out), target, verb)
  {
    hide OperationCodes, FactsOf, FindPath, AboutOperation, Operates;
    PublishedIsUsable(docs);
    var doc := docs.openapi.value;
    OperatesIffLocated(doc, target, verb);
    var at := Locate(doc, target, verb);
    assert Operates(doc, target, verb, at.operation);
    OperationFindings(c, FactsOf(doc, at.path, at.operation, target, verb, out), target, verb);
    Readiness.FactsAreFound(doc, at.path, at.operation, target, verb, out);
  }

  lemma DocumentFindings(c: Code, docs: Documents, target: Url, verb: Method, out: Outside)
    ensures c in OpenapiCodes(docs, target, verb, out) <==>
            AboutDocument(c, docs, target, verb)
            || (OperationFacts(docs, target, verb, out).found
                && AboutOperation(c, OperationFacts(docs, target, verb, out), target, verb))
  {
    hide OperationCodes, FactsOf, FindPath, AboutOperation, Operates;
    PublishedIsUsable(docs);
    if Published(docs) && Locate(docs.openapi.value, target, verb).Found? {
      LocatedFindings(c, docs, target, verb, out);
    } else if Published(docs) {
      OperatesIffLocated(docs.openapi.value, target, verb);
    }
  }

  lemma RegistrationFindings(c: Code, docs: Documents, target: Url, out: Outside)
    ensures c in RegistrationCodes(docs, target, out) <==>
            c in {RegistrationMissing, RegistrationInvalid, RegistrationInactive, ServiceNotRegistered, AgentIdMissing}
            && AboutIdentity(c, docs, target, out)
  {
    hide If, Covers, TrimSpace;
    if docs.registrationAvailable && docs.registration.Some? {
      var r := docs.registration.value;
      InIf(c, r.active == Some(false), RegistrationInactive);
      InIf(c, !Listed(r, target, out), ServiceNotRegistered);
      InIf(c, r.agentIds == 0, AgentIdMissing);
      var first := If(r.active == Some(false), RegistrationInactive);
      var second := If(!Listed(r, target, out), ServiceNotRegistered);
      InAppend(c, first, second);
      InAppend(c, first + second, If(r.agentIds == 0, AgentIdMissing));
    }
  }

  lemma IdentityFindings(c: Code, docs: Documents, target: Url, out: Outside)
    ensures c in RegistrationCodes(docs, target, out) + SkillCodes(docs) <==> AboutIdentity(c, docs, target, out)
  {
    hide If, RegistrationCodes, Covers, TrimSpace;
    InAppend(c, RegistrationCodes(docs, target, out), SkillCodes(docs));
    InIf(c, docs.skillTruncated || docs.skillBlank, SkillInvalid);
    RegistrationFindings(c, docs, target, out);
  }

  lemma ResourceFindings(c: Code, challenge: Payment.Challenge, target: Url, out: Outside)
    ensures c in ResourceCodes(challenge, target, out) <==>
            c in {ResourceMissing, ResourceInvalid, ResourceInsecure, ResourceMismatch}
            && AboutChallenge(c, challenge, target, GET, out)
  {
    hide If, SameResource, Advertised, TrimSpace, DescribesInput, DescribesOutput;
    if Advertised(challenge, out).Some? {
      InIf(c, !SameResource(target, Advertised(challenge, out).value), ResourceMismatch);
    }
  }

  lemma BazaarFindings(c: Code, challenge: Payment.Challenge, target: Url, verb: Method, out: Outside)
    ensures c in BazaarCodes(ChallengeFacts(challenge, target, out), verb) <==>
            c in {BazaarMissing, BazaarInputMissing, BazaarOutputMissing}
            && AboutChallenge(c, challenge, target, verb, out)
  {
    hide If, ContainsNestedKey, Reachable, Advertised, TrimSpace, Matching, SameResource;
    var facts := ChallengeFacts(challenge, target, out);
    SearchIsExact(Obj(Bazaar(challenge)), "inputSchema", 0);
    SearchIsExact(Obj(Bazaar(challenge)), "outputSchema", 0);
    InIf(c, verb.POST? && !facts.bazaarInput, BazaarInputMissing);
    InIf(c, !facts.bazaarOutput, BazaarOutputMissing);
    InAppend(c, If(verb.POST? && !facts.bazaarInput, BazaarInputMissing), If(!facts.bazaarOutput, BazaarOutputMissing));
  }

  lemma ChallengeFindings(c: Code, challenge: Payment.Challenge, target: Url, verb: Method, out: Outside)
    ensures c in ChallengeCodes(challenge, target, verb, out) <==> AboutChallenge(c, challenge, target, verb, out)
  {
    hide ResourceCodes, BazaarCodes, ChallengeFacts, Advertised, TrimSpace, SameResource, DescribesInput,
      DescribesOutput;
    ResourceFindings(c, challenge, target, out);
    BazaarFindings(c, challenge, target, verb, out);
    InAppend(c, ResourceCodes(challenge, target, out), BazaarCodes(ChallengeFacts(challenge, target, out), verb));
  }

  /** Every finding of every review, exactly: each code is reported iff what it says is
      so. */
  lemma FindingsExactly(docs: Documents, challenge: Option<Payment.Challenge>, target: Url, verb: Method, out: Outside,
                        c: Code)
    ensures Readiness.Reported(Readiness.FinalReview(docs, challenge, target, verb, out).findings, c) <==>
            || AboutDocument(c, docs, target, verb)
            || (OperationFacts(docs, target, verb, out).found
                && AboutOperation(c, OperationFacts(docs, target, verb, out), target, verb))
            || AboutIdentity(c, docs, target, out)
            || (challenge.None? && c == ChallengeUnavailable)
            || (challenge.Some? && AboutChallenge(c, challenge.value, target, verb, out))
  {
    hide OpenapiCodes, RegistrationCodes, SkillCodes, ChallengeCodes, AboutDocument, AboutOperation, AboutIdentity,
      AboutChallenge, OperationFacts, Readiness.FinalReview, Readiness.Reported, Readiness.Tidy;
    Readiness.ReviewFindings(docs, challenge, target, verb, out);
    DocumentFindings(c, docs, target, verb, out);
    IdentityFindings(c, docs, target, out);
    if challenge.Some? { ChallengeFindings(c, challenge.value, target, verb, out); }
  }
}

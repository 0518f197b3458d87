/** The status of a review, the findings it rests on, and the two checks. */
module Readiness {
  import opened Text
  import opened Json
  import opened Checks
  import opened SpecReview
  import Payment

  // ------------------------------------------------------- findings never overflow

  /** No code twice, and every code with its own severity. */
  predicate Tidy(findings: seq<Finding>) {
    && (forall i, j :: 0 <= i < j < |findings| ==> findings[i].code != findings[j].code)
    && forall i :: 0 <= i < |findings| ==> findings[i].severity == SeverityOf(findings[i].code)
  }

  predicate Reported(findings: seq<Finding>, c: Code) {
    exists f :: f in findings && f.code == c
  }

  /** A number of its own for every code. */
  function Index(c: Code): (n: nat)
    ensures n < 29
  {
    match c
    case OpenapiInvalid => 0
    case OpenapiVersion => 1
    case OpenapiTooLarge => 2
    case OpenapiMissing => 3
    case OpenapiPathsMissing => 4
    case OperationMissing => 5
    case MethodMissing => 6
    case SummaryMissing => 7
    case RequestSchemaMissing => 8
    case RequestSchemaGeneric => 9
    case RequestExampleMissing => 10
    case ResponseSchemaMissing => 11
    case ResponseSchemaGeneric => 12
    case ResponseExampleMissing => 13
    case RegistrationMissing => 14
    case RegistrationInvalid => 15
    case RegistrationInactive => 16
    case ServiceNotRegistered => 17
    case AgentIdMissing => 18
    case SkillMissing => 19
    case SkillInvalid => 20
    case ChallengeUnavailable => 21
    case ResourceMissing => 22
    case ResourceInvalid => 23
    case ResourceInsecure => 24
    case ResourceMismatch => 25
    case BazaarMissing => 26
    case BazaarInputMissing => 27
    case BazaarOutputMissing => 28
  }

  lemma IndexIsInjective(c: Code, d: Code)
    requires Index(c) == Index(d)
    ensures c == d
  {
  }

  /** Distinct numbers below n are at most n. */
  lemma {:induction false} DistinctAtMost(numbers: seq<nat>, n: nat)
    requires forall i, j :: 0 <= i < j < |numbers| ==> numbers[i] != numbers[j]
    requires forall i :: 0 <= i < |numbers| ==> numbers[i] < n
    ensures |numbers| <= n
    decreases n
  {
    if numbers == [] {
    } else {
      assert 0 <= numbers[0] < n;
      if k :| 0 <= k < |numbers| && numbers[k] == n - 1 {
        DistinctAtMost(numbers[..k] + numbers[k + 1..], n - 1);
      } else {
        DistinctAtMost(numbers, n - 1);
      }
    }
  }

  /** Only 29 codes exist, so the cap of 64 is never reached. */
  lemma TidyIsBelowTheCap(findings: seq<Finding>)
    requires Tidy(findings)
    ensures |findings| <= 29 < MAX_FINDINGS
  {
    hide Index;
    var numbers: seq<nat> := seq(|findings|, i requires 0 <= i < |findings| => Index(findings[i].code));
    forall i, j | 0 <= i < j < |findings| ensures numbers[i] != numbers[j] {
      if numbers[i] == numbers[j] { IndexIsInjective(findings[i].code, findings[j].code); }
    }
    DistinctAtMost(numbers, 29);
  }

  lemma FindingAdded(findings: seq<Finding>, c: Code)
    requires Tidy(findings)
    ensures var more := WithFinding(findings, c, SeverityOf(c));
            Tidy(more) && forall d :: Reported(more, d) <==> Reported(findings, d) || d == c
  {
    TidyIsBelowTheCap(findings);
    var more := WithFinding(findings, c, SeverityOf(c));
    if !Reported(findings, c) {
      assert more == findings + [Finding(c, SeverityOf(c))];
      assert forall i :: 0 <= i < |findings| ==> findings[i] in findings;
      forall d ensures Reported(more, d) <==> Reported(findings, d) || d == c {
        assert more[|findings|].code == c && more[|findings|] in more;
        if Reported(findings, d) {
          var f :| f in findings && f.code == d;
          assert f in more;
        }
      }
    }
  }

  /** Every reported code ends up among the findings: none is dropped. */
  lemma {:induction false} NothingIsDropped(findings: seq<Finding>, codes: seq<Code>)
    requires Tidy(findings)
    ensures Tidy(WithCodes(findings, codes))
    ensures forall d :: Reported(WithCodes(findings, codes), d) <==> Reported(findings, d) || d in codes
    decreases |codes|
  {
    hide Tidy, Reported, WithFinding;
    if codes == [] {
    } else {
      var n := |codes| - 1;
      NothingIsDropped(findings, codes[..n]);
      FindingAdded(WithCodes(findings, codes[..n]), codes[n]);
      assert codes == codes[..n] + [codes[n]];
    }
  }

  lemma BlockingIffReported(findings: seq<Finding>)
    requires Tidy(findings)
    ensures Blocking(findings) <==> exists c :: Reported(findings, c) && !SeverityOf(c).Info?
  {
    if Blocking(findings) {
      var f :| f in findings && !f.severity.Info?;
      assert Reported(findings, f.code) && !SeverityOf(f.code).Info?;
    }
    if c :| Reported(findings, c) && !SeverityOf(c).Info? {
      var f :| f in findings && f.code == c;
    }
  }

  // -------------------------------------------------------------- when it is ready

  ghost function FinalReview(docs: Documents, challenge: Option<Payment.Challenge>, target: Url, verb: Method,
                             out: Outside)
    : Review
  {
    Finalized(Inspected(docs, target, verb, out), challenge, target, verb, out)
  }

  ghost function AllCodes(docs: Documents, challenge: Option<Payment.Challenge>, target: Url, verb: Method,
                          out: Outside)
    : seq<Code>
  {
    DiscoveryCodes(docs, target, verb, out) + CodesAbout(challenge, target, verb, out)
  }

  predicate Harmless(codes: seq<Code>) {
    forall c :: c in codes ==> SeverityOf(c).Info?
  }

  lemma FinalFindings(docs: Documents, challenge: Option<Payment.Challenge>, target: Url, verb: Method, out: Outside)
    ensures FinalReview(docs, challenge, target, verb, out).findings ==
            WithCodes([], AllCodes(docs, challenge, target, verb, out))
  {
    WithCodesAppend([], DiscoveryCodes(docs, target, verb, out), CodesAbout(challenge, target, verb, out));
  }

  lemma ReadyIffHarmless(docs: Documents, challenge: Option<Payment.Challenge>, target: Url, verb: Method, out: Outside)
    ensures FinalReview(docs, challenge, target, verb, out).status.Ready? <==>
            Harmless(AllCodes(docs, challenge, target, verb, out))
  {
    hide WithCodes, AllCodes, Inspected, CodesAbout;
    var codes := AllCodes(docs, challenge, target, verb, out);
    FinalFindings(docs, challenge, target, verb, out);
    NothingIsDropped([], codes);
    BlockingIffReported(WithCodes([], codes));
    forall c ensures Reported(WithCodes([], codes), c) <==> c in codes {
      assert !Reported([], c);
    }
  }

  lemma HarmlessIf(condition: bool, c: Code)
    ensures Harmless(If(condition, c)) <==> !condition || SeverityOf(c).Info?
  {
    assert c in [c];
  }

  lemma HarmlessAppend(a: seq<Code>, b: seq<Code>)
    ensures Harmless(a + b) <==> Harmless(a) && Harmless(b)
  {
    forall c ensures c in a + b <==> c in a || c in b { }
  }

  lemma OperationHarmless(o: Operation, needsInput: bool)
    ensures Harmless(OperationCodes(o, needsInput)) <==>
            o.summary != "" && o.requestSchema && o.concreteRequest && o.responseSchema && o.concreteResponse
  {
    hide Harmless, If;
    var c1 := If(o.summary == "", SummaryMissing);
    var c2 := If(!o.requestSchema, RequestSchemaMissing);
    var c3 := If(o.requestSchema && !o.concreteRequest, RequestSchemaGeneric);
    var c4 := If(needsInput && !o.requestExample, RequestExampleMissing);
    var c5 := If(!o.responseSchema, ResponseSchemaMissing);
    var c6 := If(o.responseSchema && !o.concreteResponse, ResponseSchemaGeneric);
    var c7 := If(!o.responseExample, ResponseExampleMissing);
    HarmlessAppend(c1, c2);
    HarmlessAppend(c1 + c2, c3);
    HarmlessAppend(c1 + c2 + c3, c4);
    HarmlessAppend(c1 + c2 + c3 + c4, c5);
    HarmlessAppend(c1 + c2 + c3 + c4 + c5, c6);
    HarmlessAppend(c1 + c2 + c3 + c4 + c5 + c6, c7);
    HarmlessIf(o.summary == "", SummaryMissing);
    HarmlessIf(!o.requestSchema, RequestSchemaMissing);
    HarmlessIf(o.requestSchema && !o.concreteRequest, RequestSchemaGeneric);
    HarmlessIf(needsInput && !o.requestExample, RequestExampleMissing);
    HarmlessIf(!o.responseSchema, ResponseSchemaMissing);
    HarmlessIf(o.responseSchema && !o.concreteResponse, ResponseSchemaGeneric);
    HarmlessIf(!o.responseExample, ResponseExampleMissing);
  }

  ghost predicate OpenapiGood(docs: Documents, target: Url, verb: Method, out: Outside) {
    var o := OperationFacts(docs, target, verb, out);
    && OpenapiUsable(docs) && o.found && o.summary != ""
    && o.requestSchema && o.concreteRequest && o.responseSchema && o.concreteResponse
  }

  lemma FactsAreFound(doc: Object, path: string, operation: Object, target: Url, verb: Method, out: Outside)
    ensures FactsOf(doc, path, operation, target, verb, out).found
  {
    hide References.Resolve;
  }

  lemma One(c: Code)
    ensures Harmless([c]) <==> SeverityOf(c).Info?
  {
    assert c in [c];
  }

  lemma OpenapiHarmless(docs: Documents, target: Url, verb: Method, out: Outside)
    ensures Harmless(OpenapiCodes(docs, target, verb, out)) <==> OpenapiGood(docs, target, verb, out)
  {
    hide Harmless, Locate, OperationCodes, FactsOf, Is3x;
    One(OpenapiInvalid);
    One(OpenapiVersion);
    One(OpenapiTooLarge);
    One(OpenapiMissing);
    One(OpenapiPathsMissing);
    One(OperationMissing);
    One(MethodMissing);
    if OpenapiUsable(docs) {
      match Locate(docs.openapi.value, target, verb)
      case Found(path, operation) =>
        OperationHarmless(FactsOf(docs.openapi.value, path, operation, target, verb, out), RequiresInput(target, verb));
        FactsAreFound(docs.openapi.value, path, operation, target, verb, out);
      case _ =>
    }
  }

  predicate RegistrationGood(docs: Documents, target: Url, out: Outside) {
    docs.registrationAvailable ==>
      docs.registration.Some? && docs.registration.value.active != Some(false)
        && Listed(docs.registration.value, target, out)
  }

  lemma RegistrationHarmless(docs: Documents, target: Url, out: Outside)
    ensures Harmless(RegistrationCodes(docs, target, out)) <==> RegistrationGood(docs, target, out)
  {
    hide Harmless, If, Listed;
    One(RegistrationMissing);
    One(RegistrationInvalid);
    if docs.registrationAvailable && docs.registration.Some? {
      var r := docs.registration.value;
      HarmlessIf(r.active == Some(false), RegistrationInactive);
      HarmlessIf(!Listed(r, target, out), ServiceNotRegistered);
      HarmlessIf(r.agentIds == 0, AgentIdMissing);
      var a, b := If(r.active == Some(false), RegistrationInactive), If(!Listed(r, target, out), ServiceNotRegistered);
      HarmlessAppend(a, b);
      HarmlessAppend(a + b, If(r.agentIds == 0, AgentIdMissing));
    }
  }

  predicate SkillGood(docs: Documents) {
    docs.skillAvailable ==> !docs.skillTruncated && !docs.skillBlank
  }

  lemma SkillHarmless(docs: Documents)
    ensures Harmless(SkillCodes(docs)) <==> SkillGood(docs)
  {
    hide Harmless, If;
    One(SkillMissing);
    HarmlessIf(docs.skillTruncated || docs.skillBlank, SkillInvalid);
  }

  predicate ChallengeGood(challenge: Payment.Challenge, target: Url, verb: Method, out: Outside) {
    var facts := ChallengeFacts(challenge, target, out);
    && facts.resourceMatches && facts.bazaarExtension && (verb.POST? ==> facts.bazaarInput)
    && (target.scheme == "https" ==> Advertised(challenge, out).value.scheme == "https")
  }

  lemma ResourceHarmless(challenge: Payment.Challenge, target: Url, out: Outside)
    ensures Harmless(ResourceCodes(challenge, target, out)) <==>
            Matching(challenge, target, out)
            && (target.scheme == "https" ==> Advertised(challenge, out).value.scheme == "https")
  {
    hide Harmless, If, Advertised, SameResource, TrimSpace;
    One(ResourceMissing);
    One(ResourceInvalid);
    One(ResourceInsecure);
    HarmlessIf(!Matching(challenge, target, out), ResourceMismatch);
  }

  lemma BazaarHarmless(facts: ChallengeReview, verb: Method)
    ensures Harmless(BazaarCodes(facts, verb)) <==> facts.bazaarExtension && (verb.POST? ==> facts.bazaarInput)
  {
    hide Harmless, If;
    One(BazaarMissing);
    HarmlessIf(verb.POST? && !facts.bazaarInput, BazaarInputMissing);
    HarmlessIf(!facts.bazaarOutput, BazaarOutputMissing);
    HarmlessAppend(If(verb.POST? && !facts.bazaarInput, BazaarInputMissing),
                   If(!facts.bazaarOutput, BazaarOutputMissing));
  }

  lemma MatchIsRecorded(challenge: Payment.Challenge, target: Url, out: Outside)
    ensures ChallengeFacts(challenge, target, out).resourceMatches == Matching(challenge, target, out)
  {
    hide Matching, Advertised, InfoHas, KeySearch.ContainsNestedKey, Bazaar, TrimSpace;
  }

  lemma ChallengeHarmless(challenge: Payment.Challenge, target: Url, verb: Method, out: Outside)
    ensures Harmless(ChallengeCodes(challenge, target, verb, out)) <==> ChallengeGood(challenge, target, verb, out)
  {
    hide Harmless, Matching, Advertised, ChallengeFacts, ResourceCodes, BazaarCodes;
    var facts := ChallengeFacts(challenge, target, out);
    MatchIsRecorded(challenge, target, out);
    ResourceHarmless(challenge, target, out);
    BazaarHarmless(facts, verb);
    HarmlessAppend(ResourceCodes(challenge, target, out), BazaarCodes(facts, verb));
  }

  /** A review is READY exactly when every one of these holds. */
  lemma ReadyExactly(docs: Documents, challenge: Option<Payment.Challenge>, target: Url, verb: Method, out: Outside)
    ensures FinalReview(docs, challenge, target, verb, out).status.Ready? <==>
            && OpenapiGood(docs, target, verb, out)
            && RegistrationGood(docs, target, out)
            && SkillGood(docs)
            && (challenge.Some? ==> ChallengeGood(challenge.value, target, verb, out))
  {
    hide Harmless, OpenapiGood, RegistrationGood, SkillGood, ChallengeGood, FinalReview;
    ReadyIffHarmless(docs, challenge, target, verb, out);
    OpenapiHarmless(docs, target, verb, out);
    RegistrationHarmless(docs, target, out);
    SkillHarmless(docs);
    One(ChallengeUnavailable);
    if challenge.Some? { ChallengeHarmless(challenge.value, target, verb, out); }
    var a, b := OpenapiCodes(docs, target, verb, out), RegistrationCodes(docs, target, out);
    HarmlessAppend(a, b);
    HarmlessAppend(a + b, SkillCodes(docs));
    HarmlessAppend(DiscoveryCodes(docs, target, verb, out), CodesAbout(challenge, target, verb, out));
  }

  predicate AllPass(checks: seq<Check>) {
    forall i :: 0 <= i < |checks| ==> checks[i].status.Pass?
  }

  /** A READY review passes both checks iff a valid challenge was seen; without one the
      contract check cannot pass, whatever the status says. */
  lemma ReadyAgreesWithChecks(docs: Documents, challenge: Option<Payment.Challenge>, target: Url, verb: Method,
                              out: Outside)
    requires FinalReview(docs, challenge, target, verb, out).status.Ready?
    ensures AllPass(SpecChecks(FinalReview(docs, challenge, target, verb, out), verb)) <==> challenge.Some?
    ensures SpecChecks(FinalReview(docs, challenge, target, verb, out), verb)[0] ==
            Check(ServiceDiscovery, Pass, 15, 15)
  {
    hide WithCodes, ChallengeFacts, OperationFacts, OpenapiUsable, DiscoveryCodes, CodesAbout, RegistrationGood,
      SkillGood;
    ReadyExactly(docs, challenge, target, verb, out);
    var r := FinalReview(docs, challenge, target, verb, out);
    var checks := SpecChecks(r, verb);
    assert DiscoveryReady(r);
    assert ContractReady(r, verb) <==> challenge.Some?;
    assert AllPass(checks) <==> checks[0].status.Pass? && checks[1].status.Pass?;
  }

  /** The findings of a whole review: tidy, at most 29, and exactly the codes reported. */
  lemma ReviewFindings(docs: Documents, challenge: Option<Payment.Challenge>, target: Url, verb: Method, out: Outside)
    ensures var findings := FinalReview(docs, challenge, target, verb, out).findings;
            && Tidy(findings) && |findings| <= 29
            && forall c :: Reported(findings, c) <==> c in AllCodes(docs, challenge, target, verb, out)
  {
    hide WithCodes, AllCodes, Inspected, CodesAbout, FinalReview;
    var codes := AllCodes(docs, challenge, target, verb, out);
    FinalFindings(docs, challenge, target, verb, out);
    NothingIsDropped([], codes);
    TidyIsBelowTheCap(WithCodes([], codes));
    forall c ensures Reported(WithCodes([], codes), c) <==> c in codes {
      assert !Reported([], c);
    }
  }
}

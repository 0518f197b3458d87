/** Concrete documents, challenges and runs: what the theorems about reviews and runs
    speak of does occur. */
module Samples {
  import opened Text
  import opened Json
  import opened Checks
  import opened SpecReview
  import opened Audit
  import Amounts
  import Authorization
  import Concreteness
  import KeySearch
  import Payment
  import Readiness
  import References
  import Verdicts

  // ---------------------------------------------------------------- a good document

  const SCHEMA: Object := map["type" := Str("string")]
  const MEDIA: Object := map["schema" := Obj(SCHEMA)]
  const CONTENT: Object := map["application/json" := Obj(MEDIA)]
  const RESPONSE: Object := map["content" := Obj(CONTENT)]
  const RESPONSES: Object := map["200" := Obj(RESPONSE)]
  const OPERATION: Object := map["summary" := Str("s"), "responses" := Obj(RESPONSES)]
  const ITEM: Object := map["get" := Obj(OPERATION)]
  const PATHS: Object := map["/" := Obj(ITEM)]
  const DOCUMENT: Object := map["openapi" := Str("3.1.0"), "paths" := Obj(PATHS)]

  const DOCUMENTS := Documents(true, false, Some(DOCUMENT), false, None, false, false, false)

  const TARGET := Url("https", "host", "/", "/", "", false)

  const OUT := Outside(_ => Some(TARGET), _ => "https://host/", t => t)

  lemma NoReference(doc: Object, o: Object)
    requires "$ref" !in o
    ensures References.Resolve(doc, Obj(o), 0) == Some(o)
  {
  }

  lemma MediaIsRead()
    ensures JsonMedia(Content(ResolveField(DOCUMENT, Some(RESPONSES), "200"))) == Some(MEDIA)
    ensures SchemaOfMedia(DOCUMENT, Some(MEDIA)) == (Some(SCHEMA), false)
  {
    hide References.Resolve, Sorted, Lower;
    NoReference(DOCUMENT, RESPONSE);
    NoReference(DOCUMENT, SCHEMA);
    assert RESPONSES["200"] == Obj(RESPONSE) && MEDIA["schema"] == Obj(SCHEMA);
  }

  lemma SchemaIsFound()
    ensures SuccessfulResponseSchema(DOCUMENT, OPERATION) == (Some(SCHEMA), false)
  {
    hide ResolveField, JsonMedia, Content, SchemaOfMedia;
    var keys := Sorted({"200"});
    assert SuccessKeys(RESPONSES) == {"200"};
    assert |keys| == 1 && keys[0] in {"200"} by { SortedAscending({"200"}); }
    assert keys == ["200"];
    MediaIsRead();
    assert OPERATION["responses"] == Obj(RESPONSES);
  }

  lemma SchemaIsConcrete()
    ensures Concreteness.IsConcrete(DOCUMENT, Some(SCHEMA), 0)
  {
    hide References.Resolve;
    NoReference(DOCUMENT, SCHEMA);
  }

  lemma OperationIsLocated()
    ensures Locate(DOCUMENT, TARGET, GET) == Found("/", OPERATION)
  {
  }

  lemma DocumentIsGood()
    ensures Readiness.OpenapiGood(DOCUMENTS, TARGET, GET, OUT)
  {
    hide Concreteness.IsConcrete, SuccessfulResponseSchema, Locate;
    SchemaIsFound();
    SchemaIsConcrete();
    OperationIsLocated();
    assert DOCUMENT["openapi"] == Str("3.1.0");
    assert OPERATION["summary"] == Str("s");
  }

  // --------------------------------------------------------- READY, with and without

  /** A review can be READY although no challenge was seen, and then does not pass both
      of its checks. */
  lemma ReadyWithoutChallenge()
    ensures var review := Readiness.FinalReview(DOCUMENTS, None, TARGET, GET, OUT);
            review.status.Ready? && !Readiness.AllPass(SpecChecks(review, GET))
  {
    hide Readiness.OpenapiGood, Readiness.FinalReview, SpecChecks, Readiness.AllPass;
    DocumentIsGood();
    Readiness.ReadyExactly(DOCUMENTS, None, TARGET, GET, OUT);
    Readiness.ReadyAgreesWithChecks(DOCUMENTS, None, TARGET, GET, OUT);
  }

  const ASSET := "0x00000000000000000000000000000000000000a1"
  const PAYEE := "0x00000000000000000000000000000000000000B2"
  const PAYER := "0x00000000000000000000000000000000000000c3"

  const TERMS: Object := map[
    "scheme" := Str("exact"), "network" := Str("eip155:8453"), "amount" := Str("1"),
    "asset" := Str(ASSET), "payTo" := Str(PAYEE)]

  const BAZAAR: Object := map["bazaar" := Obj(map["info" := Null])]

  const OPTION := Payment.Requirement("exact", "eip155:8453", "1", ASSET, PAYEE, 60, None)

  const RAW := Payment.RawChallenge(2, Str("https://host/"), [TERMS], BAZAAR)

  const CHALLENGE := Payment.Challenge(2, "https://host/", [OPTION], BAZAAR)

  lemma OneIsCanonical()
    ensures Amounts.Canonical("1") && Amounts.ParseInt("1") == Some(1)
    ensures Amounts.AtomicString(Some(Str("1"))) == Some("1")
  {
    assert "1"[..0] == "";
    assert DigitsValue("1") == 1;
    Amounts.ParseCanonical("1");
    Amounts.CanonicalIsNatString("1");
  }

  lemma ChallengeIsParsed()
    ensures Payment.Parsed(Some(RAW)) == Ok(CHALLENGE)
  {
    hide Amounts.AtomicString;
    OneIsCanonical();
    assert Payment.OptionOf(TERMS) == OPTION;
    Payment.NoFault([TERMS]);
    assert Payment.OptionsOf([TERMS]) == [OPTION];
  }

  lemma ChallengeIsGood()
    ensures Readiness.ChallengeGood(CHALLENGE, TARGET, GET, OUT)
  {
    hide TrimSpace, KeySearch.ContainsNestedKey;
    assert TrimSpace(CHALLENGE.resource) != "" by { ResourceIsTrimmed(); }
    assert BAZAAR["bazaar"] == Obj(map["info" := Null]);
    assert "info" in map["info" := Null];
    assert map["info" := Null] != map[];
  }

  lemma ResourceIsTrimmed()
    ensures TrimSpace("https://host/") == "https://host/"
  {
    assert !IsSpace("https://host/"[0]) && !IsSpace("https://host/"[|"https://host/"| - 1]);
  }

  // ------------------------------------------------------------------ complete runs

  /** A request for the sample, with or without payment and review. */
  function Asking(pay: bool, review: bool): Request {
    Request("https://host/", "", [], "", "", 0, review, false, pay, Payment.Terms("1", "", ""))
  }

  const CONFIG := Config(
    Payment.Policy("1", map[Payment.BASE.network := Payment.BASE.id], map[]), 1, 0, 0)

  /** A seller that demands payment with the sample challenge and answers once paid. */
  const ANSWERS := Answers(
    _ => true, _ => Some(TARGET), Some("id"), DOCUMENTS, OUT,
    Some(Response(402, "", [])), _ => Some(RAW),
    Authorization.SignerAnswers(Some(PAYER), Some("0x"), "1", Some("0x")), _ => "e30=",
    Some(Response(200, "", [])), NotConfigured, true)

  lemma SampleIsReported(pay: bool, review: bool) returns (report: Report)
    ensures Audited(Asking(pay, review), CONFIG, ANSWERS).result == Ok(report)
    ensures report.verb == GET && Validation(Asking(pay, review), CONFIG, ANSWERS) == Ok((TARGET, GET))
  {
    hide Audited;
    Verdicts.ReportsExactly(Asking(pay, review), CONFIG, ANSWERS);
    report := Audited(Asking(pay, review), CONFIG, ANSWERS).result.value;
    var target := Verdicts.Anatomy(Asking(pay, review), CONFIG, ANSWERS, report);
  }

  lemma SampleIsParsed()
    ensures Payment.ParseResponse("", [], ANSWERS.decode) ==
            Ok(Payment.Received(CHALLENGE, Payment.BODY_TRANSPORT, Payment.LEGACY_HEADER))
  {
    hide Payment.Parsed;
    ChallengeIsParsed();
  }

  lemma SampleIsReady(pay: bool, report: Report)
    requires Audited(Asking(pay, true), CONFIG, ANSWERS).result == Ok(report)
    requires ChallengeOf(ExitOf(Asking(pay, true), CONFIG, ANSWERS)) == Some(CHALLENGE)
    ensures report.specReview.Some? && report.specReview.value.status.Ready?
  {
    hide Audited, Validation, Readiness.OpenapiGood, Readiness.ChallengeGood, Readiness.FinalReview, ExitOf;
    var other := SampleIsReported(pay, true);
    var target := Verdicts.Anatomy(Asking(pay, true), CONFIG, ANSWERS, report);
    DocumentIsGood();
    ChallengeIsGood();
    Readiness.ReadyExactly(DOCUMENTS, Some(CHALLENGE), TARGET, GET, OUT);
  }

  /** READY, a valid challenge and no payment do occur together, with full marks. */
  lemma ReadyProbeOccurs()
    ensures var result := Audited(Asking(false, true), CONFIG, ANSWERS).result;
            && result.Ok? && result.value.specReview.Some? && result.value.specReview.value.status.Ready?
            && result.value.verdict.PROBE_PASS? && result.value.score == 100
  {
    hide Audited, Validation, Payment.ParseResponse, Readiness.OpenapiGood, Readiness.ChallengeGood,
      Readiness.FinalReview;
    var report := SampleIsReported(false, true);
    SampleIsParsed();
    assert ChallengeOf(ExitOf(Asking(false, true), CONFIG, ANSWERS)) == Some(CHALLENGE);
    SampleIsReady(false, report);
    Verdicts.ReadyProbesPass(Asking(false, true), CONFIG, ANSWERS, report);
  }

  lemma AddressesAreAddresses()
    ensures Payment.IsAddress(ASSET) && Payment.IsAddress(PAYEE)
  {
    assert |ASSET| == 42 && |PAYEE| == 42;
  }

  lemma SampleIsSelected()
    ensures Payment.Selection([OPTION], Asking(true, true).terms, CONFIG.policy) == Ok(OPTION)
  {
    hide Amounts.ParseInt, Payment.NormalizeNetwork, Payment.Matches, Payment.Reasons, Payment.IsAddress, Lower,
      TrimSpace;
    OneIsCanonical();
    Amounts.ParsedIsTrimmed("1");
    assert TrimSpace("") == "" by { NothingIsTrimmed(); }
    Authorization.CanonicalNetworks();
    AddressesAreAddresses();
    var limits := Payment.LimitsOf(Asking(true, true).terms, CONFIG.policy).value;
    assert limits.network == "" && limits.asset == "" by { NothingIsLowered(); }
    assert Payment.Safe(OPTION, CONFIG.policy, limits);
    assert Payment.OnlySafe([OPTION], 0, CONFIG.policy, limits);
    Payment.SelectionIsExact([OPTION], Asking(true, true).terms, CONFIG.policy);
  }

  lemma NothingIsTrimmed()
    ensures TrimSpace("") == ""
  {
  }

  lemma NothingIsLowered()
    ensures Lower("") == ""
  {
  }

  lemma SampleOperates()
    ensures Operates(CONFIG)
  {
    OneIsCanonical();
  }

  /** A run that selects, signs and pays does occur and passes, reviewed (and READY) or
      not. */
  lemma PaidRunOccurs(review: bool)
    ensures var result := Audited(Asking(true, review), CONFIG, ANSWERS).result;
            && result.Ok? && result.value.payment.attempted && result.value.verdict.PASS?
            && (review ==> result.value.specReview.Some? && result.value.specReview.value.status.Ready?)
    ensures HasSelection(ExitOf(Asking(true, review), CONFIG, ANSWERS)) && Operates(CONFIG)
  {
    hide Audited, Validation, Payment.ParseResponse, Payment.Selection, Authorization.Authorize, Operates, TrimSpace,
      Verdicts.SpecPart, Readiness.AllPass;
    var report := SampleIsReported(true, review);
    var exit := ExitOf(Asking(true, review), CONFIG, ANSWERS);
    SampleIsParsed();
    SampleIsSelected();
    SampleOperates();
    assert TrimSpace("") == "" by { NothingIsTrimmed(); }
    Verdicts.PassesExactly(Asking(true, review), CONFIG, ANSWERS, report);
    Verdicts.PassVerdicts(Asking(true, review), CONFIG, ANSWERS, report);
    assert ChallengeOf(exit) == Some(CHALLENGE);
    if review {
      SampleIsReady(true, report);
      Verdicts.ReadyNeverMovesTheVerdict(Asking(true, review), CONFIG, ANSWERS, report);
    } else {
      var target := Verdicts.Anatomy(Asking(true, review), CONFIG, ANSWERS, report);
      Verdicts.CleanUnreviewed(report);
    }
    Verdicts.VerdictsExactly(Asking(true, review), CONFIG, ANSWERS, report);
  }
}

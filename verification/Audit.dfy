/** One audit from request to stored report: its exits, its ledger of checks, what it
    sends and signs, and the score, coverage, tier and verdict it ends with. */
module Audit {
  import opened Text
  import opened Checks
  import opened SpecReview
  import Authorization
  import Headers
  import Payment
  import Readiness

  // --------------------------------------------------------------- inputs, outputs

  datatype Request = Request(
    url: string, verb: string, body: seq<Headers.Byte>, contentType: string,
    expectation: string, expectedStatus: int, specReview: bool, generateRepairs: bool,
    pay: bool, terms: Payment.Terms)

  /** The operator's settings; max is the cap the authorizer was built with. */
  datatype Config = Config(policy: Payment.Policy, max: int, maxRequestBodyBytes: int, maxExpectationBytes: int)

  predicate Operates(config: Config) {
    Authorization.OperatorCap(config.policy) == Some(config.max) && Authorization.Configured(config.policy)
  }

  datatype Response = Response(status: int, challengeHeader: string, body: seq<Headers.Byte>)

  /** The evaluator reports scores in 0..100 or an error. */
  type Points = n: nat | n <= 100

  datatype Evaluation = NotConfigured | Failed | Answered(passed: bool, score: Points)

  /** Everything the surroundings answer during one run. */
  datatype Answers = Answers(
    validJson: seq<Headers.Byte> -> bool, validateUrl: string -> Option<Url>, id: Option<string>,
    docs: Documents, out: Outside,
    probe: Option<Response>, decode: seq<Headers.Byte> -> Option<Payment.RawChallenge>,
    signer: Authorization.SignerAnswers, encode: Authorization.Envelope -> string,
    paid: Option<Response>, evaluation: Evaluation, saved: bool)

  datatype Tier = Probe | Verified

  datatype Verdict = UNDECIDED | FAIL | PROBE_PASS_WITH_WARNINGS | PROBE_PASS | PASS_WITH_WARNINGS | PASS

  datatype Summary = Summary(
    scheme: string, network: string, amount: string, asset: string, payTo: string, transfer: string)

  function SummaryOf(o: Payment.Requirement): Summary {
    Summary(o.scheme, o.network, o.amount, o.asset, o.payTo, Payment.Transfer(o))
  }

  datatype ProbeResult = ProbeResult(status: int, version: int, transport: string, options: seq<Summary>)

  const NO_PROBE := ProbeResult(0, 0, "", [])

  datatype PaymentResult = PaymentResult(
    requested: bool, attempted: bool, selected: Option<Summary>, payer: string,
    authorizationHeader: string, status: int, failed: bool)

  datatype SemanticResult = SemanticResult(attempted: bool, passed: bool, score: Points, failed: bool)

  const NO_SEMANTIC := SemanticResult(false, false, 0, false)

  datatype Report = Report(
    id: string, verb: Method, tier: Tier, verdict: Verdict, score: nat, coverage: nat,
    probe: ProbeResult, payment: PaymentResult, semantic: SemanticResult,
    checks: seq<Check>, specReview: Option<Review>)

  function Blank(id: string, verb: Method, requested: bool): Report {
    Report(id, verb, Probe, UNDECIDED, 0, 0, NO_PROBE,
           PaymentResult(requested, false, None, "", "", 0, false), NO_SEMANTIC, [], None)
  }

  /** What an audit does to the world: requests to the target with the payment header
      if any, signing requests, and reports given to the store. */
  datatype Event =
    | Sent(payment: Option<(string, string)>)
    | Asked(data: Authorization.TypedData)
    | Saved(report: Report)

  // ---------------------------------------------------------------- validation

  datatype RequestError =
    | BadMethod | BodyTooLarge | BodyWithGet | BadContentType | ExpectationTooLong
    | BadExpectedStatus | BodyNotJson | RepairsWithoutReview | BadUrl

  datatype AuditError = Invalid(error: RequestError) | NoId | NotSaved

  /** The simple upper-case mapping where its image is ASCII. */
  function UpperChar(c: char): char {
    if 'a' <= c <= 'z' then (c as int - 32) as char
    else if c as int == 0x17F then 'S'
    else if c as int == 0x131 then 'I'
    else c
  }

  function Upper(s: string): (r: string)
    ensures |r| == |s| && forall i :: 0 <= i < |s| ==> r[i] == UpperChar(s[i])
  {
    if s == "" then "" else [UpperChar(s[0])] + Upper(s[1..])
  }

  function VerbOf(s: string): Option<Method> {
    var name := Upper(TrimSpace(s));
    if name == "" || name == "GET" then Some(GET) else if name == "POST" then Some(POST) else None
  }

  const JSON_TYPE := "application/json"

  function Validation(request: Request, config: Config, a: Answers): Result<(Url, Method), RequestError> {
    var verb := VerbOf(request.verb);
    var target := a.validateUrl(TrimSpace(request.url));
    if verb.None? then Err(BadMethod)
    else if |request.body| > config.maxRequestBodyBytes then Err(BodyTooLarge)
    else if verb.value.GET? && request.body != [] then Err(BodyWithGet)
    else if request.body != [] && request.contentType != "" && request.contentType != JSON_TYPE then Err(BadContentType)
    else if Utf8Length(request.expectation) > config.maxExpectationBytes then Err(ExpectationTooLong)
    else if request.expectedStatus < 0 || request.expectedStatus > 599 then Err(BadExpectedStatus)
    else if request.body != [] && !a.validJson(request.body) then Err(BodyNotJson)
    else if request.generateRepairs && !request.specReview then Err(RepairsWithoutReview)
    else if target.None? then Err(BadUrl)
    else Ok((target.value, verb.value))
  }

  /** The two tests `send` makes of its own arguments. */
  predicate SendRefuses(request: Request, name: string, value: string) {
    || (request.body != [] && TrimSpace(request.contentType) != "" && TrimSpace(request.contentType) != JSON_TYPE)
    || (value != "" && name != Payment.SIGNATURE_HEADER && name != Payment.LEGACY_HEADER)
  }

  lemma JsonTypeIsTrimmed()
    ensures TrimSpace(JSON_TYPE) == JSON_TYPE
    ensures TrimSpace("") == ""
  {
    assert !IsSpace(JSON_TYPE[0]) && !IsSpace(JSON_TYPE[|JSON_TYPE| - 1]);
  }

  /** A validated request is never refused by send, with the header ParseResponse names
      or with none: those two tests are unreachable in an audit. */
  lemma ValidRequestsAreSent(request: Request, config: Config, a: Answers, header: string, body: seq<Headers.Byte>,
                             value: string)
    requires Validation(request, config, a).Ok?
    ensures !SendRefuses(request, "", "")
    ensures var received := Payment.ParseResponse(header, body, a.decode);
            received.Ok? ==> !SendRefuses(request, received.value.authorizationHeader, value)
  {
    hide TrimSpace, Headers.DecodePaymentHeader, Payment.Parsed;
    JsonTypeIsTrimmed();
  }

  // --------------------------------------------------------------------- the exits

  /** How far a run gets: one constructor for each way out of the audit. */
  datatype Exit =
    | Unreachable
    | NotDemanded(answer: Response)
    | BadChallenge(answer: Response, fault: Payment.ChallengeError)
    | ProbeOnly(received: Payment.Received)
    | NothingSelected(received: Payment.Received, error: Payment.SelectError)
    | NotAuthorized(received: Payment.Received, option: Payment.Requirement, asked: seq<Authorization.TypedData>)
    | Unanswered(received: Payment.Received, option: Payment.Requirement, asked: seq<Authorization.TypedData>,
                 authorized: Authorization.Authorized)
    | Delivered(received: Payment.Received, option: Payment.Requirement, asked: seq<Authorization.TypedData>,
                authorized: Authorization.Authorized, answer: Response)

  function ExitOf(request: Request, config: Config, a: Answers): Exit {
    match a.probe
    case None => Unreachable
    case Some(answer) =>
      if answer.status != 402 then NotDemanded(answer)
      else
        match Payment.ParseResponse(answer.challengeHeader, answer.body, a.decode)
        case Err(fault) => BadChallenge(answer, fault)
        case Ok(received) => if request.pay then PaidExit(received, request, config, a) else ProbeOnly(received)
  }

  function PaidExit(received: Payment.Received, request: Request, config: Config, a: Answers): Exit {
    match Payment.Selection(received.challenge.accepts, request.terms, config.policy)
    case Err(error) => NothingSelected(received, error)
    case Ok(option) =>
      var run := Authorization.Authorize(config.policy, config.max, option, received.challenge.extensions, a.signer);
      if run.result.Err? then NotAuthorized(received, option, run.asked)
      else
        match a.paid
        case None => Unanswered(received, option, run.asked, run.result.value)
        case Some(answer) => Delivered(received, option, run.asked, run.result.value, answer)
  }

  predicate HasChallenge(exit: Exit) {
    !exit.Unreachable? && !exit.NotDemanded? && !exit.BadChallenge?
  }

  lemma PaidExitKeeps(received: Payment.Received, request: Request, config: Config, a: Answers)
    ensures var exit := PaidExit(received, request, config, a);
            HasChallenge(exit) && !exit.ProbeOnly? && exit.received == received
  {
    hide Payment.Selection, Authorization.Authorize;
  }

  predicate HasSelection(exit: Exit) {
    exit.NotAuthorized? || exit.Unanswered? || exit.Delivered?
  }

  predicate Spent(exit: Exit) {
    exit.Unanswered? || exit.Delivered?
  }

  predicate Success(status: int) { 200 <= status < 300 }

  // -------------------------------------------------- the ledger, check by check

  function ReachabilityCheck(exit: Exit): Check {
    if exit.Unreachable? then Check(Reachability, Fail, 10, 0) else Check(Reachability, Pass, 10, 10)
  }

  function ChallengeCheck(exit: Exit): Check {
    if exit.Unreachable? then Check(X402Challenge, Skip, 30, 0)
    else if HasChallenge(exit) then Check(X402Challenge, Pass, 30, 30)
    else Check(X402Challenge, Fail, 30, 0)
  }

  function BudgetCheck(exit: Exit): Check {
    if HasSelection(exit) then Check(PaymentBudget, Pass, 10, 10)
    else if exit.NothingSelected? then Check(PaymentBudget, Fail, 10, 0)
    else Check(PaymentBudget, Skip, 10, 0)
  }

  function DeliveryCheck(exit: Exit): Check {
    if !HasSelection(exit) then Check(PaidDelivery, Skip, 25, 0)
    else if exit.Delivered? && Success(exit.answer.status) then Check(PaidDelivery, Pass, 25, 25)
    else Check(PaidDelivery, Fail, 25, 0)
  }

  function TaskCheck(exit: Exit, request: Request, e: Evaluation): Check {
    if exit.NotDemanded? || exit.Delivered? then OutcomeCheck(request, exit.answer.status, e)
    else Check(TaskOutcome, Skip, 25, 0)
  }

  function Ledger(exit: Exit, request: Request, e: Evaluation): seq<Check> {
    [ReachabilityCheck(exit), ChallengeCheck(exit), BudgetCheck(exit), DeliveryCheck(exit), TaskCheck(exit, request, e)]
  }

  const SEMANTIC_PASS_SCORE_FLOOR := 50

  predicate StatusExpected(request: Request, status: int) {
    if request.expectedStatus == 0 then Success(status) || status == 0 else request.expectedStatus == status
  }

  predicate AsksEvaluator(request: Request, status: int) {
    StatusExpected(request, status) && TrimSpace(request.expectation) != ""
  }

  /** A pass the evaluator scores below 50 is only a warning. */
  function SemanticCheck(passed: bool, score: Points): Check {
    var status := if !passed then Fail else if score < SEMANTIC_PASS_SCORE_FLOOR then Warn else Pass;
    Check(TaskOutcome, status, 25, score * 25 / 100)
  }

  function OutcomeCheck(request: Request, status: int, e: Evaluation): Check {
    if !StatusExpected(request, status) then Check(TaskOutcome, Fail, 25, 0)
    else if !AsksEvaluator(request, status) then Check(TaskOutcome, Pass, 25, 25)
    else if e.Answered? then SemanticCheck(e.passed, e.score)
    else Check(TaskOutcome, Warn, 25, 12)
  }

  function OutcomeSemantic(request: Request, status: int, e: Evaluation): SemanticResult {
    if !AsksEvaluator(request, status) then NO_SEMANTIC
    else
      match e
      case NotConfigured => NO_SEMANTIC.(failed := true)
      case Failed => SemanticResult(true, false, 0, true)
      case Answered(passed, score) => SemanticResult(true, passed, score, false)
  }

  // ------------------------------------------------- the report before its verdict

  function ProbeOf(exit: Exit): ProbeResult {
    match exit
    case Unreachable => NO_PROBE
    case NotDemanded(answer) => NO_PROBE.(status := answer.status)
    case BadChallenge(answer, _) => NO_PROBE.(status := answer.status)
    case _ =>
      ProbeResult(402, exit.received.challenge.version, exit.received.transport,
                  Summaries(exit.received.challenge.accepts))
  }

  function Summaries(options: seq<Payment.Requirement>): (r: seq<Summary>)
    ensures |r| == |options| && forall i :: 0 <= i < |r| ==> r[i] == SummaryOf(options[i])
  {
    seq(|options|, i requires 0 <= i < |options| => SummaryOf(options[i]))
  }

  function PaymentOf(exit: Exit, requested: bool): PaymentResult {
    PaymentResult(
      requested, Spent(exit),
      if HasSelection(exit) then Some(SummaryOf(exit.option)) else None,
      if Spent(exit) then exit.authorized.payer else "",
      if Spent(exit) then exit.received.authorizationHeader else "",
      if exit.Delivered? then exit.answer.status else 0,
      exit.NotAuthorized? || exit.Unanswered?)
  }

  function SemanticOf(exit: Exit, request: Request, e: Evaluation): SemanticResult {
    if exit.NotDemanded? || exit.Delivered? then OutcomeSemantic(request, exit.answer.status, e) else NO_SEMANTIC
  }

  function TierOf(exit: Exit): Tier {
    if exit.Delivered? then Verified else Probe
  }

  function Filled(exit: Exit, id: string, verb: Method, request: Request, e: Evaluation): Report {
    Blank(id, verb, request.pay).(
      tier := TierOf(exit), probe := ProbeOf(exit), payment := PaymentOf(exit, request.pay),
      semantic := SemanticOf(exit, request, e), checks := Ledger(exit, request, e))
  }

  /** The report once the target has answered. */
  function Reached(id: string, verb: Method, answer: Response, requested: bool): Report {
    Blank(id, verb, requested).(
      probe := NO_PROBE.(status := answer.status), checks := [Check(Reachability, Pass, 10, 10)])
  }

  /** The report once a valid challenge has been read and payment is to be tried. */
  function Challenged(id: string, verb: Method, received: Payment.Received): Report {
    Blank(id, verb, true).(
      probe := ProbeOf(ProbeOnly(received)),
      checks := [Check(Reachability, Pass, 10, 10), Check(X402Challenge, Pass, 30, 30)])
  }

  /** The report once an option has been selected. */
  function Selected(id: string, verb: Method, received: Payment.Received, option: Payment.Requirement): Report {
    var before := Challenged(id, verb, received);
    before.(payment := before.payment.(selected := Some(SummaryOf(option))),
            checks := before.checks + [Check(PaymentBudget, Pass, 10, 10)])
  }

  function ChallengeOf(exit: Exit): Option<Payment.Challenge> {
    if HasChallenge(exit) then Some(exit.received.challenge) else None
  }

  // ----------------------------------------------------------- score and verdict

  function Total(checks: seq<Check>): nat {
    if checks == [] then 0 else Total(checks[..|checks| - 1]) + checks[|checks| - 1].weight
  }

  function Assessed(checks: seq<Check>): nat {
    if checks == [] then 0
    else
      var last := checks[|checks| - 1];
      Assessed(checks[..|checks| - 1]) + if last.status.Skip? then 0 else last.weight
  }

  function Earned(checks: seq<Check>): nat {
    if checks == [] then 0
    else
      var last := checks[|checks| - 1];
      Earned(checks[..|checks| - 1]) + if last.status.Skip? then 0 else last.points
  }

  predicate Any(checks: seq<Check>, status: CheckStatus) {
    exists c :: c in checks && c.status == status
  }

  function Percent(part: nat, whole: nat): nat {
    if whole > 0 then part * 100 / whole else 0
  }

  function Score(checks: seq<Check>): nat { Percent(Earned(checks), Assessed(checks)) }

  function Coverage(checks: seq<Check>): nat { Percent(Assessed(checks), Total(checks)) }

  function VerdictOf(checks: seq<Check>, tier: Tier): Verdict {
    if Any(checks, Fail) then FAIL
    else if tier.Probe? then if Any(checks, Warn) then PROBE_PASS_WITH_WARNINGS else PROBE_PASS
    else if Any(checks, Warn) then PASS_WITH_WARNINGS
    else PASS
  }

  function Judged(report: Report): Report {
    report.(score := Score(report.checks), coverage := Coverage(report.checks),
            verdict := VerdictOf(report.checks, report.tier))
  }

  ghost function Reviewed(request: Request, exit: Exit, target: Url, verb: Method, a: Answers): Option<Review> {
    if request.specReview then Some(Readiness.FinalReview(a.docs, ChallengeOf(exit), target, verb, a.out)) else None
  }

  function WithReview(report: Report, review: Option<Review>): Report {
    match review
    case None => report
    case Some(r) => report.(specReview := review, checks := report.checks + SpecChecks(r, report.verb))
  }

  // ---------------------------------------------------------------- the whole run

  function Asks(asked: seq<Authorization.TypedData>): (events: seq<Event>)
    ensures |events| == |asked| && forall i :: 0 <= i < |asked| ==> events[i] == Asked(asked[i])
  {
    seq(|asked|, i requires 0 <= i < |asked| => Asked(asked[i]))
  }

  function Sending(name: string, value: string): Event {
    Sent(if value != "" then Some((name, value)) else None)
  }

  function Trace(exit: Exit, a: Answers): seq<Event> {
    [Sent(None)]
    + (if HasSelection(exit) then Asks(exit.asked) else [])
    + if Spent(exit) then [Sending(exit.received.authorizationHeader, a.encode(exit.authorized.envelope))] else []
  }

  datatype Run = Run(result: Result<Report, AuditError>, log: seq<Event>)

  ghost function Audited(request: Request, config: Config, a: Answers): Run {
    match Validation(request, config, a)
    case Err(error) => Run(Err(Invalid(error)), [])
    case Ok((target, verb)) =>
      if a.id.None? then Run(Err(NoId), [])
      else
        var report := Concluded(request, config, a, target, verb);
        Run(if a.saved then Ok(report) else Err(NotSaved), Trace(ExitOf(request, config, a), a) + [Saved(report)])
  }

  ghost function Concluded(request: Request, config: Config, a: Answers, target: Url, verb: Method): Report
    requires a.id.Some?
  {
    var exit := ExitOf(request, config, a);
    Judged(WithReview(Filled(exit, a.id.value, verb, request, a.evaluation), Reviewed(request, exit, target, verb, a)))
  }

  // ------------------------------------------------------- the source's own steps

  class AuditReport {
    const id: string
    const verb: Method
    var tier: Tier
    var verdict: Verdict
    var score: nat
    var coverage: nat
    var checks: seq<Check>
    var probe: ProbeResult
    var payment: PaymentResult
    var semantic: SemanticResult
    var specReview: Option<Review>

    constructor (id: string, verb: Method, requested: bool)
      ensures View() == Blank(id, verb, requested)
    {
      this.id, this.verb := id, verb;
      tier, verdict, score, coverage, checks := Probe, UNDECIDED, 0, 0, [];
      probe, semantic, specReview := NO_PROBE, NO_SEMANTIC, None;
      payment := PaymentResult(requested, false, None, "", "", 0, false);
    }

    function View(): Report
      reads this
    {
      Report(id, verb, tier, verdict, score, coverage, probe, payment, semantic, checks, specReview)
    }

    /** finalizeReport. */
    method FinalizeReport()
      requires score == 0 && coverage == 0
      modifies this
      ensures View() == Judged(old(View()))
    {
      hide Percent;
      var totalWeight, assessedWeight, points := 0, 0, 0;
      var hasFailure, hasWarning := false, false;
      for n := 0 to |checks|
        invariant View() == old(View())
        invariant totalWeight == Total(checks[..n])
        invariant assessedWeight == Assessed(checks[..n])
        invariant points == Earned(checks[..n])
        invariant hasFailure <==> Any(checks[..n], Fail)
        invariant hasWarning <==> Any(checks[..n], Warn)
      {
        var check := checks[n];
        assert checks[..n + 1][..n] == checks[..n];
        AnyMore(checks, n, Fail);
        AnyMore(checks, n, Warn);
        totalWeight := totalWeight + check.weight;
        if check.status != Skip {
          assessedWeight := assessedWeight + check.weight;
          points := points + check.points;
        }
        if check.status == Fail {
          hasFailure := true;
        }
        if check.status == Warn {
          hasWarning := true;
        }
      }
      assert checks[..|checks|] == checks;
      PercentIs(points, assessedWeight);
      PercentIs(assessedWeight, totalWeight);
      if assessedWeight > 0 {
        score := points * 100 / assessedWeight;
      }
      if totalWeight > 0 {
        coverage := assessedWeight * 100 / totalWeight;
      }
      if hasFailure {
        verdict := FAIL;
      } else if tier == Probe && hasWarning {
        verdict := PROBE_PASS_WITH_WARNINGS;
      } else if tier == Probe {
        verdict := PROBE_PASS;
      } else if hasWarning {
        verdict := PASS_WITH_WARNINGS;
      } else {
        verdict := PASS;
      }
    }

    method EvaluateOutcome(request: Request, status: int, evaluation: Evaluation)
      requires semantic == NO_SEMANTIC
      modifies this
      ensures View() == old(View()).(
                          semantic := OutcomeSemantic(request, status, evaluation),
                          checks := old(checks) + [OutcomeCheck(request, status, evaluation)])
    {
      hide TrimSpace;
      var statusPassed := (request.expectedStatus == 0 && 200 <= status < 300) || request.expectedStatus == status;
      if !statusPassed {
        checks := checks + [Check(TaskOutcome, Fail, 25, 0)];
        return;
      }
      if TrimSpace(request.expectation) == "" {
        checks := checks + [Check(TaskOutcome, Pass, 25, 25)];
        return;
      }
      match evaluation {
        case NotConfigured =>
          semantic := semantic.(failed := true);
          checks := checks + [Check(TaskOutcome, Warn, 25, 12)];
        case Failed =>
          semantic := SemanticResult(true, false, 0, true);
          checks := checks + [Check(TaskOutcome, Warn, 25, 12)];
        case Answered(passed, mark) =>
          semantic := SemanticResult(true, passed, mark, false);
          checks := checks + [SemanticCheck(passed, mark)];
      }
    }
  }

  lemma AnyMore(checks: seq<Check>, n: nat, status: CheckStatus)
    requires n < |checks|
    ensures Any(checks[..n + 1], status) <==> Any(checks[..n], status) || checks[n].status == status
  {
    assert checks[..n + 1] == checks[..n] + [checks[n]];
    if checks[n].status == status { assert checks[n] in checks[..n + 1]; }
  }

  lemma PercentIs(part: nat, whole: nat)
    ensures Percent(part, whole) == if whole > 0 then part * 100 / whole else 0
  {
  }

  class Auditor {
    const config: Config
    var log: seq<Event>

    constructor (config: Config)
      ensures this.config == config && log == []
    {
      this.config := config;
      log := [];
    }

    /** send: None when the request cannot be made or gets no response. */
    method Send(request: Request, name: string, value: string, answer: Option<Response>) returns (r: Option<Response>)
      modifies this
      ensures SendRefuses(request, name, value) ==> r == None && log == old(log)
      ensures !SendRefuses(request, name, value) ==> r == answer && log == old(log) + [Sending(name, value)]
    {
      hide TrimSpace;
      if |request.body| > 0 {
        var contentType := TrimSpace(request.contentType);
        if contentType == "" {
          contentType := JSON_TYPE;
        }
        if contentType != JSON_TYPE {
          return None;
        }
      }
      if value != "" {
        if name != Payment.SIGNATURE_HEADER && name != Payment.LEGACY_HEADER {
          return None;
        }
      }
      log := log + [Sending(name, value)];
      return answer;
    }

    /** From the unpaid request to the challenge, and on to the payment if asked. */
    method Examine(report: AuditReport, request: Request, a: Answers) returns (challenge: Option<Payment.Challenge>)
      requires report.View() == Blank(report.id, report.verb, request.pay)
      requires Validation(request, config, a).Ok?
      modifies this, report
      ensures var exit := ExitOf(request, config, a);
              && report.View() == Filled(exit, report.id, report.verb, request, a.evaluation)
              && log == old(log) + Trace(exit, a)
              && challenge == ChallengeOf(exit)
    {
      hide TrimSpace, Payment.ParseResponse, PaidExit, OutcomeCheck, OutcomeSemantic, SendRefuses, Validation, Asks,
        Summaries;
      ghost var exit := ExitOf(request, config, a);
      ValidRequestsAreSent(request, config, a, "", [], "");
      var answer := Send(request, "", "", a.probe);
      if answer.None? {
        report.checks := report.checks + [
          Check(Reachability, Fail, 10, 0), Check(X402Challenge, Skip, 30, 0), Check(PaymentBudget, Skip, 10, 0),
          Check(PaidDelivery, Skip, 25, 0), Check(TaskOutcome, Skip, 25, 0)];
        return None;
      }
      report.probe := report.probe.(status := answer.value.status);
      report.checks := report.checks + [Check(Reachability, Pass, 10, 10)];
      challenge := Read(report, answer.value, request, a);
    }

    /** From an answer to the unpaid request. */
    method Read(report: AuditReport, answer: Response, request: Request, a: Answers)
      returns (challenge: Option<Payment.Challenge>)
      requires report.View() == Reached(report.id, report.verb, answer, request.pay)
      requires a.probe == Some(answer) && Validation(request, config, a).Ok?
      modifies this, report
      ensures var exit := ExitOf(request, config, a);
              && report.View() == Filled(exit, report.id, report.verb, request, a.evaluation)
              && old(log) <= log && [Sent(None)] + log[|old(log)|..] == Trace(exit, a)
              && challenge == ChallengeOf(exit)
    {
      hide TrimSpace, Payment.ParseResponse, PaidExit, OutcomeCheck, OutcomeSemantic, Validation, Asks, Summaries;
      if answer.status != 402 {
        report.checks := report.checks + [
          Check(X402Challenge, Fail, 30, 0), Check(PaymentBudget, Skip, 10, 0), Check(PaidDelivery, Skip, 25, 0)];
        report.EvaluateOutcome(request, answer.status, a.evaluation);
        return None;
      }
      var parsed := Payment.ParseResponse(answer.challengeHeader, answer.body, a.decode);
      if parsed.Err? {
        report.checks := report.checks + [
          Check(X402Challenge, Fail, 30, 0), Check(PaymentBudget, Skip, 10, 0),
          Check(PaidDelivery, Skip, 25, 0), Check(TaskOutcome, Skip, 25, 0)];
        return None;
      }
      var received := parsed.value;
      report.probe := report.probe.(version := received.challenge.version, transport := received.transport,
                                    options := Summaries(received.challenge.accepts));
      report.checks := report.checks + [Check(X402Challenge, Pass, 30, 30)];
      if !request.pay {
        report.checks := report.checks + [
          Check(PaymentBudget, Skip, 10, 0), Check(PaidDelivery, Skip, 25, 0), Check(TaskOutcome, Skip, 25, 0)];
        return Some(received.challenge);
      }
      PaidExitKeeps(received, request, config, a);
      Pay(report, received, request, a);
      return Some(received.challenge);
    }

    /** From the valid challenge to the paid response. */
    method Pay(report: AuditReport, received: Payment.Received, request: Request, a: Answers)
      requires report.View() == Challenged(report.id, report.verb, received)
      requires request.pay && Validation(request, config, a).Ok?
      requires a.probe.Some? && a.probe.value.status == 402
      requires Payment.ParseResponse(a.probe.value.challengeHeader, a.probe.value.body, a.decode) == Ok(received)
      modifies this, report
      ensures var exit := PaidExit(received, request, config, a);
              && report.View() == Filled(exit, report.id, report.verb, request, a.evaluation)
              && old(log) <= log && [Sent(None)] + log[|old(log)|..] == Trace(exit, a)
    {
      hide TrimSpace, Payment.ParseResponse, Payment.Selection, Authorization.Authorize, OutcomeCheck, OutcomeSemantic,
        SendRefuses, Validation;
      var selected := Payment.SelectPayment(received.challenge.accepts, request.terms, config.policy);
      if selected.Err? {
        report.checks := report.checks + [
          Check(PaymentBudget, Fail, 10, 0), Check(PaidDelivery, Skip, 25, 0), Check(TaskOutcome, Skip, 25, 0)];
        return;
      }
      var option := selected.value;
      report.payment := report.payment.(selected := Some(SummaryOf(option)));
      report.checks := report.checks + [Check(PaymentBudget, Pass, 10, 10)];
      var run := Authorization.Authorize(config.policy, config.max, option, received.challenge.extensions, a.signer);
      log := log + Asks(run.asked);
      if run.result.Err? {
        report.payment := report.payment.(failed := true);
        report.checks := report.checks + [Check(PaidDelivery, Fail, 25, 0), Check(TaskOutcome, Skip, 25, 0)];
        return;
      }
      Deliver(report, received, option, run.asked, run.result.value, request, a);
    }

    /** The paid request, with the authorization in hand. */
    method Deliver(report: AuditReport, received: Payment.Received, option: Payment.Requirement,
                   ghost asked: seq<Authorization.TypedData>, authorized: Authorization.Authorized,
                   request: Request, a: Answers)
      requires report.View() == Selected(report.id, report.verb, received, option)
      requires request.pay && Validation(request, config, a).Ok?
      requires a.probe.Some? && Payment.ParseResponse(a.probe.value.challengeHeader, a.probe.value.body, a.decode) ==
               Ok(received)
      modifies this, report
      ensures var exit := match a.paid
                          case None => Unanswered(received, option, asked, authorized)
                          case Some(answer) => Delivered(received, option, asked, authorized, answer);
              report.View() == Filled(exit, report.id, report.verb, request, a.evaluation)
      ensures log == old(log) + [Sending(received.authorizationHeader, a.encode(authorized.envelope))]
    {
      hide TrimSpace, Payment.ParseResponse, OutcomeCheck, OutcomeSemantic, SendRefuses, Validation, Sending;
      report.payment := report.payment.(attempted := true, payer := authorized.payer,
                                        authorizationHeader := received.authorizationHeader);
      ValidRequestsAreSent(request, config, a, a.probe.value.challengeHeader, a.probe.value.body,
                           a.encode(authorized.envelope));
      var answer := Send(request, received.authorizationHeader, a.encode(authorized.envelope), a.paid);
      if answer.None? {
        report.payment := report.payment.(failed := true);
        report.checks := report.checks + [Check(PaidDelivery, Fail, 25, 0), Check(TaskOutcome, Skip, 25, 0)];
        return;
      }
      report.tier := Verified;
      report.payment := report.payment.(status := answer.value.status);
      if answer.value.status >= 200 && answer.value.status < 300 {
        report.checks := report.checks + [Check(PaidDelivery, Pass, 25, 25)];
      } else {
        report.checks := report.checks + [Check(PaidDelivery, Fail, 25, 0)];
      }
      report.EvaluateOutcome(request, answer.value.status, a.evaluation);
    }

    /** complete and persist. */
    method Complete(report: AuditReport, inspection: SpecInspection?, target: Url, challenge: Option<Payment.Challenge>,
                    a: Answers) returns (r: Result<Report, AuditError>)
      requires report.score == 0 && report.coverage == 0
      requires inspection != null ==> inspection.result == Inspected(a.docs, target, report.verb, a.out)
      modifies this, report, if inspection == null then {} else {inspection}
      ensures report.View() == Judged(WithReview(
                                        old(report.View()),
                                        if inspection == null then None
                                        else
                                          Some(Readiness.FinalReview(a.docs, challenge, target, report.verb, a.out))))
      ensures log == old(log) + [Saved(report.View())]
      ensures r == if a.saved then Ok(report.View()) else Err(NotSaved)
    {
      hide Judged, Finalized, SpecChecks, OpenapiUsable, OperationFacts, WithCodes, DiscoveryCodes;
      if inspection != null {
        var checks := inspection.Finalize(target, challenge, report.verb, a.out);
        report.specReview := Some(inspection.result);
        report.checks := report.checks + checks;
      }
      report.FinalizeReport();
      log := log + [Saved(report.View())];
      return if a.saved then Ok(report.View()) else Err(NotSaved);
    }

    /** One audit, start to end. */
    method Audit(request: Request, a: Answers) returns (r: Result<Report, AuditError>)
      modifies this
      ensures old(log) <= log && Run(r, log[|old(log)|..]) == Audited(request, config, a)
    {
      hide Validation, ExitOf, Judged, Inspected, Trace;
      var valid := Validation(request, config, a);
      if valid.Err? {
        return Err(Invalid(valid.error));
      }
      var (target, verb) := valid.value;
      if a.id.None? {
        return Err(NoId);
      }
      var report := new AuditReport(a.id.value, verb, request.pay);
      var inspection: SpecInspection? := null;
      if request.specReview {
        inspection := new SpecInspection();
        inspection.Inspect(a.docs, target, verb, a.out);
      }
      var challenge := Examine(report, request, a);
      r := Complete(report, inspection, target, challenge, a);
    }
  }
}

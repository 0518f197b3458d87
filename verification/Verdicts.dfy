/** What every audit run keeps: its ledger, its spending, its arithmetic, its verdict. */
module Verdicts {
  import opened Text
  import opened Checks
  import opened SpecReview
  import opened Audit
  import opened PaymentTerms
  import Amounts
  import Authorization
  import Headers
  import Json
  import Payment
  import Readiness

  // ----------------------------------------------------- sums over any list of checks

  lemma {:induction false} SumsAppend(a: seq<Check>, b: seq<Check>)
    ensures Total(a + b) == Total(a) + Total(b)
    ensures Assessed(a + b) == Assessed(a) + Assessed(b)
    ensures Earned(a + b) == Earned(a) + Earned(b)
    decreases |b|
  {
    if b == [] {
      assert a + b == a;
    } else {
      var n := |b| - 1;
      assert (a + b)[..|a| + n] == a + b[..n];
      SumsAppend(a, b[..n]);
    }
  }

  lemma OneCheck(c: Check)
    ensures Total([c]) == c.weight
    ensures Assessed([c]) == if c.status.Skip? then 0 else c.weight
    ensures Earned([c]) == if c.status.Skip? then 0 else c.points
  {
    assert [c][..0] == [];
  }

  lemma TwoChecks(c: Check, d: Check)
    ensures Total([c, d]) == c.weight + d.weight
    ensures Assessed([c, d]) == Assessed([c]) + Assessed([d])
    ensures Earned([c, d]) == Earned([c]) + Earned([d])
  {
    assert [c, d] == [c] + [d];
    SumsAppend([c], [d]);
    OneCheck(c);
    OneCheck(d);
  }

  lemma FiveChecks(c: Check, d: Check, e: Check, f: Check, g: Check)
    ensures Total([c, d, e, f, g]) == c.weight + d.weight + e.weight + f.weight + g.weight
    ensures Assessed([c, d, e, f, g]) == Assessed([c]) + Assessed([d]) + Assessed([e]) + Assessed([f]) + Assessed([g])
    ensures Earned([c, d, e, f, g]) == Earned([c]) + Earned([d]) + Earned([e]) + Earned([f]) + Earned([g])
  {
    hide Total, Assessed, Earned;
    assert [c, d, e, f, g] == [c, d] + [e, f] + [g];
    SumsAppend([c, d], [e, f]);
    SumsAppend([c, d] + [e, f], [g]);
    TwoChecks(c, d);
    TwoChecks(e, f);
    OneCheck(g);
  }

  predicate Sound(checks: seq<Check>) {
    forall i :: 0 <= i < |checks| ==> checks[i].points <= checks[i].weight && checks[i].weight > 0
  }

  lemma {:induction false} SumsAreOrdered(checks: seq<Check>)
    requires Sound(checks)
    ensures Earned(checks) <= Assessed(checks) <= Total(checks)
    ensures Assessed(checks) == Total(checks) <==> !Any(checks, Skip)
  {
    if checks == [] {
    } else {
      var n := |checks| - 1;
      SumsAreOrdered(checks[..n]);
      AnyMore(checks, n, Skip);
      assert checks[..n + 1] == checks;
    }
  }

  lemma {:induction false} TimesKeepsOrder(p: nat, q: nat, w: nat)
    requires p <= q
    ensures p * w <= q * w
    decreases w
  {
    if w > 0 { TimesKeepsOrder(p, q, w - 1); }
  }

  lemma QuotientBounds(x: nat, w: nat, q: nat)
    requires w > 0 && q * w <= x < q * w + w
    ensures x <= 100 * w ==> q <= 100
    ensures x < 100 * w ==> q < 100
    ensures x == 100 * w ==> q == 100
  {
    if q > 100 {
      TimesKeepsOrder(101, q, w);
    } else if q == 100 {
      assert q * w == 100 * w;
    } else {
      TimesKeepsOrder(q, 99, w);
    }
  }

  lemma Division(x: nat, w: nat)
    requires w > 0
    ensures x / w * w <= x < x / w * w + w
  {
  }

  lemma PercentBounds(part: nat, whole: nat)
    requires part <= whole
    ensures Percent(part, whole) <= 100
    ensures whole > 0 ==> (Percent(part, whole) == 100 <==> part == whole)
  {
    if whole > 0 {
      var q := part * 100 / whole;
      Division(part * 100, whole);
      QuotientBounds(part * 100, whole, q);
    }
  }

  /** On any sound list: percentages are percentages, and full coverage means that
      nothing was skipped. */
  lemma PercentagesOf(checks: seq<Check>)
    requires Sound(checks) && checks != []
    ensures Score(checks) <= 100 && Coverage(checks) <= 100
    ensures Coverage(checks) == 100 <==> !Any(checks, Skip)
  {
    hide Percent;
    SumsAreOrdered(checks);
    PercentBounds(Earned(checks), Assessed(checks));
    PercentBounds(Assessed(checks), Total(checks));
    var n := |checks| - 1;
    assert Total(checks) >= checks[n].weight;
  }

  // -------------------------------------------------------------- anatomy of a report

  function SpecPart(review: Option<Review>, verb: Method): seq<Check> {
    match review
    case None => []
    case Some(r) => SpecChecks(r, verb)
  }

  /** A report is its exit's ledger, then the specification checks, then the verdict. */
  lemma Anatomy(request: Request, config: Config, a: Answers, report: Report) returns (target: Url)
    requires Audited(request, config, a).result == Ok(report)
    ensures Validation(request, config, a) == Ok((target, report.verb))
    ensures var exit := ExitOf(request, config, a);
            && report.specReview == Reviewed(request, exit, target, report.verb, a)
            && report.checks == Ledger(exit, request, a.evaluation) + SpecPart(report.specReview, report.verb)
            && report.tier == TierOf(exit) && report.payment == PaymentOf(exit, request.pay)
            && report.probe == ProbeOf(exit)
            && report == Judged(report)
            && Audited(request, config, a).log == Trace(exit, a) + [Saved(report)]
  {
    hide Validation, ExitOf, Ledger, PaymentOf, ProbeOf, SemanticOf, Trace, SpecChecks, Finalized, Inspected, Score,
      Coverage, VerdictOf;
    var exit := ExitOf(request, config, a);
    target := Validation(request, config, a).value.0;
    var ledger := Ledger(exit, request, a.evaluation);
    assert ledger + [] == ledger;
  }

  function Names(checks: seq<Check>): (names: seq<CheckName>)
    ensures |names| == |checks| && forall i :: 0 <= i < |names| ==> names[i] == checks[i].name
  {
    seq(|checks|, i requires 0 <= i < |checks| => checks[i].name)
  }

  function Weights(checks: seq<Check>): (weights: seq<nat>)
    ensures |weights| == |checks| && forall i :: 0 <= i < |weights| ==> weights[i] == checks[i].weight
  {
    seq(|checks|, i requires 0 <= i < |checks| => checks[i].weight)
  }

  /** Full points for a pass, 7 of 15 for a warning of the review, none for what failed or
      was skipped; the outcome check alone has marks of its own. */
  predicate Marked(checks: seq<Check>) {
    forall i :: 0 <= i < |checks| && checks[i].name != TaskOutcome ==>
                  checks[i].points == match checks[i].status
                                      case Pass => checks[i].weight
                                      case Warn => 7
                                      case Fail => 0
                                      case Skip => 0
  }

  const FIVE := [Reachability, X402Challenge, PaymentBudget, PaidDelivery, TaskOutcome]
  const REVIEW_CHECKS := [ServiceDiscovery, RequestContract]

  lemma LedgerSums(exit: Exit, request: Request, e: Evaluation)
    ensures var ledger := Ledger(exit, request, e);
            && Sound(ledger) && Total(ledger) == 100 && Names(ledger) == FIVE
            && Weights(ledger) == [10, 30, 10, 25, 25] && Marked(ledger)
  {
    hide OutcomeCheck, Total;
    var task := TaskCheck(exit, request, e);
    OutcomePoints(exit, request, e);
    FiveChecks(ReachabilityCheck(exit), ChallengeCheck(exit), BudgetCheck(exit), DeliveryCheck(exit), task);
  }

  lemma OutcomePoints(exit: Exit, request: Request, e: Evaluation)
    ensures var task := TaskCheck(exit, request, e);
            && task.name == TaskOutcome && task.weight == 25 && task.points <= 25
            && (task.status.Pass? ==> task.points >= 12)
            && (task.status.Warn? ==> task.points <= 12)
            && (task.status.Skip? <==> !exit.NotDemanded? && !exit.Delivered?)
  {
    hide TrimSpace;
  }

  lemma ReviewSums(review: Option<Review>, verb: Method)
    ensures var part := SpecPart(review, verb);
            && Sound(part) && !Any(part, Fail) && !Any(part, Skip)
            && Weights(part) == (if review.Some? then [15, 15] else []) && Marked(part)
            && Total(part) == Assessed(part) == (if review.Some? then 30 else 0)
            && Names(part) == (if review.Some? then REVIEW_CHECKS else [])
            && (Any(part, Warn) <==> !Readiness.AllPass(part))
            && Earned(part) == (if review.None? then 0 else part[0].points + part[1].points)
            && (review.Some? ==> |part| == 2 && 7 <= part[0].points && 7 <= part[1].points)
            && (review.Some? && Readiness.AllPass(part) ==> part[0].points == 15 && part[1].points == 15)
  {
    hide DiscoveryReady, ContractReady, Total, Assessed, Earned;
    var part := SpecPart(review, verb);
    if review.Some? {
      TwoChecks(part[0], part[1]);
      OneCheck(part[0]);
      OneCheck(part[1]);
      assert part == [part[0], part[1]];
      assert part[0] in part && part[1] in part;
    } else {
      assert Total([]) == Assessed([]) == Earned([]) == 0 by { NoChecks(); }
    }
  }

  lemma NoChecks()
    ensures Total([]) == Assessed([]) == Earned([]) == 0
  {
  }

  /** Every completed run leaves the whole ledger: each check once, in one order, with
      fixed weights. */
  lemma LedgerIsComplete(request: Request, config: Config, a: Answers, report: Report)
    requires Audited(request, config, a).result == Ok(report)
    ensures Names(report.checks) == FIVE + (if request.specReview then REVIEW_CHECKS else [])
    ensures Weights(report.checks) == [10, 30, 10, 25, 25] + (if request.specReview then [15, 15] else [])
    ensures Total(report.checks) == if request.specReview then 130 else 100
    ensures Sound(report.checks)
    ensures Marked(report.checks)
  {
    hide Audited, ExitOf, Ledger, SpecPart, Judged, Total, TierOf, PaymentOf, ProbeOf, Trace, Validation,
      Readiness.FinalReview, Any, Assessed, Earned, Readiness.AllPass;
    var target := Anatomy(request, config, a, report);
    var exit := ExitOf(request, config, a);
    var ledger := Ledger(exit, request, a.evaluation);
    var part := SpecPart(report.specReview, report.verb);
    LedgerSums(exit, request, a.evaluation);
    ReviewSums(report.specReview, report.verb);
    SumsAppend(ledger, part);
  }

  // ------------------------------------------------------------ spending discipline

  function SendCount(log: seq<Event>): nat {
    if log == [] then 0 else SendCount(log[1..]) + if log[0].Sent? then 1 else 0
  }

  function AskCount(log: seq<Event>): nat {
    if log == [] then 0 else AskCount(log[1..]) + if log[0].Asked? then 1 else 0
  }

  /** The atomic units a signing request would let the seller take. */
  function Value(data: Authorization.TypedData): int {
    match Amounts.ParseInt(data.message.value) case Some(z) => z case None => 0
  }

  /** Everything put up for signature in a run. */
  function Committed(log: seq<Event>): int {
    if log == [] then 0 else (if log[0].Asked? then Value(log[0].data) else 0) + Committed(log[1..])
  }

  /** The request's own cap. */
  function RequestCap(request: Request): Option<int> {
    Payment.PositiveInt(TrimSpace(request.terms.maxPaymentAtomic))
  }

  /** The unpaid request, then at most one signing request, then at most one paid request
      that nothing but a signature precedes. */
  predicate Disciplined(trace: seq<Event>) {
    && 1 <= |trace| <= 3 && trace[0] == Sent(None)
    && (|trace| >= 2 ==> trace[1].Asked?)
    && (|trace| == 3 ==> trace[2].Sent?)
  }

  lemma AskedOnce(policy: Payment.Policy, max: int, option: Payment.Requirement, extensions: Json.Object,
                  signer: Authorization.SignerAnswers)
    ensures var run := Authorization.Authorize(policy, max, option, extensions, signer);
            |run.asked| <= 1 && (run.result.Ok? ==> |run.asked| == 1)
  {
    hide Authorization.Guard, Authorization.Eip3009Domain, Authorization.EchoExtensionInfo;
  }

  lemma SelectedExit(request: Request, config: Config, a: Answers)
    requires HasSelection(ExitOf(request, config, a))
    ensures var exit := ExitOf(request, config, a);
            && request.pay
            && a.probe.Some? && a.probe.value.status == 402
            && Payment.ParseResponse(a.probe.value.challengeHeader, a.probe.value.body, a.decode) == Ok(exit.received)
            && Payment.Selection(exit.received.challenge.accepts, request.terms, config.policy) == Ok(exit.option)
            && var run := Authorization.Authorize(config.policy, config.max, exit.option,
                                                  exit.received.challenge.extensions, a.signer);
               exit.asked == run.asked && (Spent(exit) <==> run.result.Ok?)
                 && (Spent(exit) ==> exit.authorized == run.result.value)
  {
    hide Payment.ParseResponse, Payment.Selection, Authorization.Authorize;
  }

  lemma TraceShape(request: Request, config: Config, a: Answers)
    ensures var exit := ExitOf(request, config, a);
            var trace := Trace(exit, a);
            && Disciplined(trace) && (|trace| == 3 <==> Spent(exit))
            && (|trace| >= 2 ==> HasSelection(exit) && exit.asked == [trace[1].data])
            && (|trace| == 3 ==>
                  trace[2] == Sending(exit.received.authorizationHeader, a.encode(exit.authorized.envelope)))
  {
    hide ExitOf, Authorization.Authorize, Payment.Selection, Payment.ParseResponse;
    var exit := ExitOf(request, config, a);
    if HasSelection(exit) {
      SelectedExit(request, config, a);
      AskedOnce(config.policy, config.max, exit.option, exit.received.challenge.extensions, a.signer);
      assert |exit.asked| == 1 ==> Asks(exit.asked) == [Asked(exit.asked[0])] && exit.asked == [exit.asked[0]];
      assert |exit.asked| == 0 ==> Asks(exit.asked) == [];
    }
  }

  lemma {:induction false} CountsAppend(trace: seq<Event>, last: Event)
    ensures SendCount(trace + [last]) == SendCount(trace) + if last.Sent? then 1 else 0
    ensures AskCount(trace + [last]) == AskCount(trace) + if last.Asked? then 1 else 0
    ensures Committed(trace + [last]) == Committed(trace) + if last.Asked? then Value(last.data) else 0
  {
    hide Value;
    if trace == [] {
      assert trace + [last] == [last];
    } else {
      assert (trace + [last])[1..] == trace[1..] + [last];
      CountsAppend(trace[1..], last);
    }
  }

  lemma DisciplinedCounts(trace: seq<Event>)
    requires Disciplined(trace)
    ensures SendCount(trace) == if |trace| == 3 then 2 else 1
    ensures AskCount(trace) == if |trace| >= 2 then 1 else 0
    ensures Committed(trace) == if |trace| >= 2 then Value(trace[1].data) else 0
  {
    hide Value;
    CountsAppend([], trace[0]);
    assert [] + [trace[0]] == [trace[0]] == trace[..1];
    if |trace| >= 2 {
      CountsAppend(trace[..1], trace[1]);
      assert trace[..1] + [trace[1]] == trace[..2];
    }
    if |trace| == 3 {
      CountsAppend(trace[..2], trace[2]);
      assert trace[..2] + [trace[2]] == trace;
    } else {
      assert trace == trace[..|trace|];
    }
  }

  /** The log of any run: nothing at all, or the trace of its exit and one saved report. */
  lemma LogOf(request: Request, config: Config, a: Answers) returns (trace: seq<Event>)
    ensures var log := Audited(request, config, a).log;
            if log == [] then trace == []
            else trace == Trace(ExitOf(request, config, a), a) && |log| == |trace| + 1 && log[..|trace|] == trace
                 && log[|trace|].Saved? && log == trace + [log[|trace|]]
                 && (Audited(request, config, a).result.Ok? ==>
                     log[|trace|] == Saved(Audited(request, config, a).result.value))
  {
    hide Validation, ExitOf, Trace, Concluded;
    var log := Audited(request, config, a).log;
    trace := if log == [] then [] else Trace(ExitOf(request, config, a), a);
  }

  /** However a run ends, even if its report cannot be stored: at most two requests to
      the target and one signing request, in that order, nothing signed unless payment was
      asked for, a valid challenge received and one option selected; and what is stored is
      what is returned, once, at the end. */
  lemma SpendIsDisciplined(request: Request, config: Config, a: Answers)
    ensures var log := Audited(request, config, a).log;
            && (log == [] || (Disciplined(log[..|log| - 1]) && log[|log| - 1].Saved?))
            && SendCount(log) <= 2 && AskCount(log) <= 1 && SendCount(log) <= AskCount(log) + 1
            && (Audited(request, config, a).result.Ok? ==>
                  log != [] && log[|log| - 1] == Saved(Audited(request, config, a).result.value))
    ensures AskCount(Audited(request, config, a).log) > 0 ==>
              && request.pay
              && a.probe.Some? && a.probe.value.status == 402
              && var parsed := Payment.ParseResponse(a.probe.value.challengeHeader, a.probe.value.body, a.decode);
                 parsed.Ok? && Payment.Selection(parsed.value.challenge.accepts, request.terms, config.policy).Ok?
  {
    hide ExitOf, Trace, Disciplined, Payment.ParseResponse, Payment.Selection, Authorization.Authorize, Validation,
      Concluded;
    var log := Audited(request, config, a).log;
    var trace := LogOf(request, config, a);
    if log != [] {
      TraceShape(request, config, a);
      DisciplinedCounts(trace);
      CountsAppend(trace, log[|trace|]);
      if |trace| >= 2 { SelectedExit(request, config, a); }
      assert log[..|log| - 1] == trace;
    }
  }

  lemma AskedTerms(policy: Payment.Policy, max: int, option: Payment.Requirement, extensions: Json.Object,
                   signer: Authorization.SignerAnswers)
    requires Authorization.Authorize(policy, max, option, extensions, signer).asked != []
    ensures var run := Authorization.Authorize(policy, max, option, extensions, signer);
            var asked := run.asked[0];
            && asked.message.value == option.amount && asked.message.to == option.payTo
            && asked.domain.verifyingContract == option.asset
            && Payment.NormalizeNetwork(option.network).Some?
            && asked.domain.chainId == Payment.NormalizeNetwork(option.network).value.id
            && (run.result.Ok? ==>
                  && run.result.value.payer == asked.message.from
                  && run.result.value.envelope.authorization == asked.message)
    ensures 0 < Value(Authorization.Authorize(policy, max, option, extensions, signer).asked[0]) <= max
  {
    hide Payment.NormalizeNetwork, Amounts.ParseInt, Authorization.Eip3009Domain, Authorization.EchoExtensionInfo,
      Payment.IsAddress, EqualFold;
  }

  lemma SelectedWithinCaps(options: seq<Payment.Requirement>, terms: Payment.Terms, policy: Payment.Policy)
    requires Payment.Selection(options, terms, policy).Ok?
    ensures var amount := Amounts.ParseInt(Payment.Selection(options, terms, policy).value.amount);
            var cap := Payment.PositiveInt(TrimSpace(terms.maxPaymentAtomic));
            amount.Some? && cap.Some? && 0 < amount.value <= cap.value
  {
    hide Payment.Matches, Payment.Reasons, Payment.NormalizeNetwork, Amounts.ParseInt, Lower, Payment.IsAddress,
      TrimSpace;
    Payment.SelectionIsExact(options, terms, policy);
    var i: nat :| Payment.OnlySafe(options, i, policy, Payment.LimitsOf(terms, policy).value);
  }

  /** Whatever happens, what is put up for signature in one run never exceeds the request's
      cap or the operator's, and is nothing unless payment was asked for. */
  lemma BudgetIsKept(request: Request, config: Config, a: Answers)
    ensures var committed := Committed(Audited(request, config, a).log);
            && 0 <= committed
            && (committed > 0 ==> request.pay && RequestCap(request).Some? && committed <= RequestCap(request).value
                                  && committed <= config.max)
  {
    hide ExitOf, Trace, Payment.ParseResponse, Payment.Selection, Authorization.Authorize, Validation, Concluded, Value,
      TrimSpace, Payment.PositiveInt;
    var log := Audited(request, config, a).log;
    var trace := LogOf(request, config, a);
    if log != [] {
      var exit := ExitOf(request, config, a);
      TraceShape(request, config, a);
      DisciplinedCounts(trace);
      CountsAppend(trace, log[|trace|]);
      if |trace| >= 2 {
        SelectedExit(request, config, a);
        AskedTerms(config.policy, config.max, exit.option, exit.received.challenge.extensions, a.signer);
        SelectedWithinCaps(exit.received.challenge.accepts, request.terms, config.policy);
        assert Value(trace[1].data) == Amounts.ParseInt(exit.option.amount).value by { ValueIs(trace[1].data); }
      }
    }
  }

  lemma ValueIs(data: Authorization.TypedData)
    ensures Amounts.ParseInt(data.message.value).Some? ==> Value(data) == Amounts.ParseInt(data.message.value).value
  {
  }

  /** A report that says a payment was attempted names the option, within both caps, and
      what was signed is that option: its amount, payee, asset and chain. */
  lemma AttemptedIsRecorded(request: Request, config: Config, a: Answers, report: Report)
    requires Audited(request, config, a).result == Ok(report)
    ensures var log := Audited(request, config, a).log;
            && (report.payment.attempted <==> SendCount(log) == 2)
            && (report.payment.attempted ==>
                  && |log| == 4 && log[1].Asked? && report.payment.requested
                  && report.payment.selected.Some?
                  && var (chosen, signed) := (report.payment.selected.value, log[1].data);
                  && signed.message.value == chosen.amount && signed.message.to == chosen.payTo
                  && signed.domain.verifyingContract == chosen.asset
                  && Payment.NormalizeNetwork(chosen.network).Some?
                  && signed.domain.chainId == Payment.NormalizeNetwork(chosen.network).value.id
                  && report.payment.payer == signed.message.from
                  && 0 < Value(signed) <= config.max
                  && RequestCap(request).Some? && Value(signed) <= RequestCap(request).value)
  {
    hide ExitOf, Trace, Payment.ParseResponse, Payment.Selection, Authorization.Authorize, Validation, Concluded, Value,
      TrimSpace, Payment.PositiveInt, Ledger, Reviewed, SpecPart, Judged, ProbeOf, Payment.NormalizeNetwork,
      Payment.Transfer;
    var target := Anatomy(request, config, a, report);
    var log := Audited(request, config, a).log;
    var trace := LogOf(request, config, a);
    var exit := ExitOf(request, config, a);
    TraceShape(request, config, a);
    DisciplinedCounts(trace);
    CountsAppend(trace, log[|trace|]);
    if Spent(exit) {
      SelectedExit(request, config, a);
      AskedTerms(config.policy, config.max, exit.option, exit.received.challenge.extensions, a.signer);
      SelectedWithinCaps(exit.received.challenge.accepts, request.terms, config.policy);
      ValueIs(trace[1].data);
      assert log[1] == trace[1];
    }
  }

  /** Under the operator's own configuration the authorizer's guards never stop a selected
      payment: only the signer or the random source can. */
  lemma GuardsNeverFire(request: Request, config: Config, a: Answers)
    requires Operates(config) && HasSelection(ExitOf(request, config, a))
    ensures ExitOf(request, config, a).NotAuthorized? <==>
            a.signer.address.None? || a.signer.nonce.None? || a.signer.signature.None?
  {
    hide ExitOf, Payment.ParseResponse, Payment.Selection, Authorization.Guard, Authorization.Configured;
    var exit := ExitOf(request, config, a);
    SelectedExit(request, config, a);
    Authorization.SelectedOptionsAreAuthorized(exit.received.challenge.accepts, request.terms, config.policy,
                                               config.max);
  }

  // ------------------------------------------------------- tier, verdict, arithmetic

  lemma AnyAppend(x: seq<Check>, y: seq<Check>, status: CheckStatus)
    ensures Any(x + y, status) <==> Any(x, status) || Any(y, status)
  {
    forall c ensures c in x + y <==> c in x || c in y { }
  }

  /** A paid answer in the 200s whose outcome was not failed. */
  predicate PaidWell(exit: Exit, request: Request, e: Evaluation) {
    exit.Delivered? && Success(exit.answer.status) && !OutcomeCheck(request, exit.answer.status, e).status.Fail?
  }

  lemma LedgerStatuses(exit: Exit, request: Request, e: Evaluation)
    ensures var ledger := Ledger(exit, request, e);
            && (Any(ledger, Skip) <==> !exit.Delivered?)
            && (Any(ledger, Fail) <==> !exit.ProbeOnly? && !PaidWell(exit, request, e))
            && (Any(ledger, Warn) <==> ledger[4].status.Warn?)
  {
    hide OutcomeCheck;
    var ledger := Ledger(exit, request, e);
    OutcomePoints(exit, request, e);
    NotSkipped(request, if exit.NotDemanded? || exit.Delivered? then exit.answer.status else 0, e);
    assert forall i :: 0 <= i < 5 ==> ledger[i] in ledger;
    assert forall c :: c in ledger ==>
                         c == ledger[0] || c == ledger[1] || c == ledger[2] || c == ledger[3] || c == ledger[4];
  }

  lemma NotSkipped(request: Request, status: int, e: Evaluation)
    ensures !OutcomeCheck(request, status, e).status.Skip?
  {
    hide TrimSpace;
  }

  /** Score and coverage are percentages, and everything was assessed exactly when the
      audit reached a paid response. */
  lemma CoverageTellsTheTier(request: Request, config: Config, a: Answers, report: Report)
    requires Audited(request, config, a).result == Ok(report)
    ensures report.score <= 100 && report.coverage <= 100
    ensures report.coverage == 100 <==> report.tier.Verified?
  {
    hide Audited, ExitOf, Ledger, SpecPart, Total, Assessed, Earned, PaymentOf, ProbeOf, Trace, Reviewed, Sound, Any,
      Percent, Score, Coverage, VerdictOf;
    var target := Anatomy(request, config, a, report);
    var exit := ExitOf(request, config, a);
    LedgerIsComplete(request, config, a, report);
    LedgerStatuses(exit, request, a.evaluation);
    ReviewSums(report.specReview, report.verb);
    AnyAppend(Ledger(exit, request, a.evaluation), SpecPart(report.specReview, report.verb), Skip);
    assert |report.checks| >= 5 by { assert |Names(report.checks)| == |report.checks|; }
    PercentagesOf(report.checks);
  }

  /** No complaint about the published contract, if it was reviewed. */
  predicate Clean(report: Report) {
    Readiness.AllPass(SpecPart(report.specReview, report.verb))
  }

  /** Every verdict, exactly. */
  lemma VerdictsExactly(request: Request, config: Config, a: Answers, report: Report)
    requires Audited(request, config, a).result == Ok(report)
    ensures var exit := ExitOf(request, config, a);
            report.verdict ==
            if exit.ProbeOnly? then if Clean(report) then PROBE_PASS else PROBE_PASS_WITH_WARNINGS
            else if !PaidWell(exit, request, a.evaluation) then FAIL
            else if Clean(report) && OutcomeCheck(request, exit.answer.status, a.evaluation).status.Pass? then PASS
            else PASS_WITH_WARNINGS
  {
    hide Audited, ExitOf, SpecPart, PaymentOf, ProbeOf, Trace, Reviewed, Any, Score, Coverage, Readiness.AllPass,
      OutcomeCheck;
    var target := Anatomy(request, config, a, report);
    var exit := ExitOf(request, config, a);
    var ledger, part := Ledger(exit, request, a.evaluation), SpecPart(report.specReview, report.verb);
    LedgerStatuses(exit, request, a.evaluation);
    ReviewSums(report.specReview, report.verb);
    AnyAppend(ledger, part, Fail);
    AnyAppend(ledger, part, Warn);
    if exit.Delivered? { NotSkipped(request, exit.answer.status, a.evaluation); }
  }

  /** The outcome check by its status. An unexpected status is worth nothing whatever the
      evaluator would say; a mark of 100 is worth 25; a missing evaluation is worth exactly
      what the lowest passing mark is. */
  lemma TaskOutcomeIsExact(request: Request, status: int, e: Evaluation)
    ensures var task := OutcomeCheck(request, status, e);
            var asked := AsksEvaluator(request, status);
            && (task.status.Fail? <==> !StatusExpected(request, status) || (asked && e.Answered? && !e.passed))
            && (task.status.Pass? <==>
                  StatusExpected(request, status) && (asked ==> e.Answered? && e.passed && e.score >= 50))
            && (!StatusExpected(request, status) ==> task.points == 0)
            && (StatusExpected(request, status) && !asked ==> task.points == 25)
            && (asked && e.Answered? ==> (task.points == 25 <==> e.score == 100))
            && (asked && !e.Answered? ==> task == SemanticCheck(true, 50).(status := Warn))
            && (OutcomeSemantic(request, status, e).attempted <==> asked && !e.NotConfigured?)
  {
    hide TrimSpace, Utf8Length;
    if AsksEvaluator(request, status) && e.Answered? {
      assert e.score * 25 / 100 == 25 <==> e.score == 100;
    }
  }

  lemma AssessedLedger(exit: Exit, request: Request, e: Evaluation)
    ensures var ledger := Ledger(exit, request, e);
            && (exit.ProbeOnly? ==> Assessed(ledger) == 40 && Earned(ledger) == 40)
            && (exit.Delivered? && Success(exit.answer.status) ==>
                  Assessed(ledger) == 100 && Earned(ledger) == 75 + OutcomeCheck(request, exit.answer.status, e).points)
  {
    hide OutcomeCheck, Assessed, Earned, Total;
    var ledger := Ledger(exit, request, e);
    FiveChecks(ledger[0], ledger[1], ledger[2], ledger[3], ledger[4]);
    OneCheck(ledger[0]);
    OneCheck(ledger[1]);
    OneCheck(ledger[2]);
    OneCheck(ledger[3]);
    OneCheck(ledger[4]);
    OutcomePoints(exit, request, e);
  }

  lemma ProbesAreUnpaid(request: Request, config: Config, a: Answers)
    ensures ExitOf(request, config, a).ProbeOnly? ==> !request.pay
  {
    hide Payment.ParseResponse, Payment.Selection, Authorization.Authorize;
  }

  lemma PercentValues(points: nat, more: nat)
    requires points <= 25
    ensures Percent(75 + points, 100) == 75 + points
    ensures Percent(105 + points, 130) >= 80 && (points >= 12 ==> Percent(105 + points, 130) >= 90)
    ensures more >= 14 ==> Percent(75 + points + more, 130) >= 68
    ensures Percent(40, 40) == Percent(70, 70) == 100
    ensures Percent(40, 100) == 40 && Percent(70, 130) == 53
  {
  }

  lemma ReportScores(request: Request, config: Config, a: Answers, report: Report)
    requires Audited(request, config, a).result == Ok(report)
    ensures var exit := ExitOf(request, config, a);
            && (exit.ProbeOnly? ==> report.coverage == if request.specReview then 53 else 40)
            && (exit.ProbeOnly? && Clean(report) ==> report.score == 100)
            && (exit.Delivered? && Success(exit.answer.status) ==>
                  var points := OutcomeCheck(request, exit.answer.status, a.evaluation).points;
                  && points <= 25
                  && (!request.specReview ==> report.score == 75 + points)
                  && (request.specReview ==> report.score >= 68)
                  && (request.specReview && Clean(report) && points >= 12 ==> report.score >= 90))
  {
    hide Audited, ExitOf, SpecPart, Trace, Any, Total, Assessed, Earned, VerdictOf, OutcomeCheck, Percent, Ledger,
      PaymentOf, ProbeOf, Sound, Readiness.AllPass, Readiness.FinalReview;
    var target := Anatomy(request, config, a, report);
    var exit := ExitOf(request, config, a);
    var ledger, part := Ledger(exit, request, a.evaluation), SpecPart(report.specReview, report.verb);
    ReviewSums(report.specReview, report.verb);
    LedgerSums(exit, request, a.evaluation);
    AssessedLedger(exit, request, a.evaluation);
    SumsAppend(ledger, part);
    var points := if exit.Delivered? then OutcomeCheck(request, exit.answer.status, a.evaluation).points else 0;
    if exit.Delivered? { TaskPoints(exit, request, a.evaluation); }
    PercentValues(points, Earned(part));
  }

  lemma TaskPoints(exit: Exit, request: Request, e: Evaluation)
    requires exit.Delivered?
    ensures var task := OutcomeCheck(request, exit.answer.status, e);
            Ledger(exit, request, e)[4] == task && task.points <= 25 && (task.status.Pass? ==> task.points >= 12)
  {
    hide OutcomeCheck;
    OutcomePoints(exit, request, e);
  }

  /** The probe verdicts are given to unpaid runs with a valid challenge, and their
      numbers say so. */
  lemma ProbeVerdicts(request: Request, config: Config, a: Answers, report: Report)
    requires Audited(request, config, a).result == Ok(report)
    requires report.verdict.PROBE_PASS? || report.verdict.PROBE_PASS_WITH_WARNINGS?
    ensures !request.pay && report.tier.Probe? && ChallengeOf(ExitOf(request, config, a)).Some?
    ensures SendCount(Audited(request, config, a).log) == 1 && AskCount(Audited(request, config, a).log) == 0
    ensures report.coverage == if request.specReview then 53 else 40
    ensures report.verdict.PROBE_PASS? ==> report.score == 100
  {
    hide Audited, ExitOf, SpecPart, Trace, VerdictOf, OutcomeCheck, Score, Coverage, Ledger, ProbeOf, Clean, Validation,
      Payment.ParseResponse, Payment.Selection, SendCount, AskCount, Reviewed;
    var target := Anatomy(request, config, a, report);
    VerdictsExactly(request, config, a, report);
    ReportScores(request, config, a, report);
    ProbesAreUnpaid(request, config, a);
    SpendIsDisciplined(request, config, a);
    AttemptedIsRecorded(request, config, a, report);
    SendsAtLeastOnce(request, config, a, report);
  }

  lemma SendsAtLeastOnce(request: Request, config: Config, a: Answers, report: Report)
    requires Audited(request, config, a).result == Ok(report)
    ensures SendCount(Audited(request, config, a).log) >= 1
  {
    hide ExitOf, Trace, Validation, Concluded, SendCount, AskCount, Committed;
    var log := Audited(request, config, a).log;
    var trace := LogOf(request, config, a);
    TraceShape(request, config, a);
    DisciplinedCounts(trace);
    CountsAppend(trace, log[|trace|]);
  }

  /** The passing verdicts are given to paid deliveries in the 200s, and their scores are
      never low: the outcome check carries 12..25 points on a pass. */
  lemma PassVerdicts(request: Request, config: Config, a: Answers, report: Report)
    requires Audited(request, config, a).result == Ok(report)
    requires report.verdict.PASS? || report.verdict.PASS_WITH_WARNINGS?
    ensures request.pay && report.tier.Verified? && report.payment.attempted && Success(report.payment.status)
    ensures !request.specReview ==>
              report.score == 75 + OutcomeCheck(request, report.payment.status, a.evaluation).points
    ensures report.verdict.PASS? ==> report.score >= if request.specReview then 90 else 87
    ensures report.verdict.PASS_WITH_WARNINGS? ==> report.score >= if request.specReview then 68 else 75
  {
    hide Audited, ExitOf, SpecPart, Trace, VerdictOf, OutcomeCheck, Score, Coverage, Ledger, ProbeOf, Clean, Validation,
      Payment.ParseResponse, Payment.Selection, Authorization.Authorize, Reviewed;
    var target := Anatomy(request, config, a, report);
    var exit := ExitOf(request, config, a);
    VerdictsExactly(request, config, a, report);
    ReportScores(request, config, a, report);
    SelectedExit(request, config, a);
    TaskPoints(exit, request, a.evaluation);
  }

  /** The signer and the random source both answered. */
  predicate Signs(signer: Authorization.SignerAnswers) {
    signer.address.Some? && signer.nonce.Some? && signer.signature.Some?
  }

  /** The probe brought a challenge from which one option could be selected. */
  predicate Offers(request: Request, config: Config, a: Answers) {
    a.probe.Some? && a.probe.value.status == 402
    && match Payment.ParseResponse(a.probe.value.challengeHeader, a.probe.value.body, a.decode)
       case Ok(received) => Payment.Selection(received.challenge.accepts, request.terms, config.policy).Ok?
       case Err(_) => false
  }

  /** The paid request was answered in the 200s, with an outcome that is not failed. */
  predicate Delivers(request: Request, a: Answers) {
    a.paid.Some? && Success(a.paid.value.status)
    && !OutcomeCheck(request, a.paid.value.status, a.evaluation).status.Fail?
  }

  /** A report is returned iff the request is valid, an id was drawn and the store took it. */
  lemma ReportsExactly(request: Request, config: Config, a: Answers)
    ensures Audited(request, config, a).result.Ok? <==> Validation(request, config, a).Ok? && a.id.Some? && a.saved
  {
    hide Validation, ExitOf, Concluded, Trace;
  }

  /** What it takes to be passed, told from what the seller, the signer and the evaluator
      did: nothing else can stop a payment that was asked for. */
  lemma PassesExactly(request: Request, config: Config, a: Answers, report: Report)
    requires Operates(config) && Audited(request, config, a).result == Ok(report)
    ensures report.verdict.PASS? || report.verdict.PASS_WITH_WARNINGS? <==>
            request.pay && Offers(request, config, a) && Signs(a.signer) && Delivers(request, a)
  {
    hide Audited, OutcomeCheck, Clean, Payment.ParseResponse, Payment.Selection, Authorization.Authorize, Operates,
      Success;
    var exit := ExitOf(request, config, a);
    VerdictsExactly(request, config, a, report);
    if HasSelection(exit) { GuardsNeverFire(request, config, a); }
  }

  // ----------------------------------------------------------- READY and the verdict

  /** A READY review passes both of its checks whenever a valid challenge was seen, and
      on no run at all does it move the verdict: that is the one the five checks of the
      audit itself would give. */
  lemma ReadyNeverMovesTheVerdict(request: Request, config: Config, a: Answers, report: Report)
    requires Audited(request, config, a).result == Ok(report)
    requires report.specReview.Some? && report.specReview.value.status.Ready?
    ensures Clean(report) <==> HasChallenge(ExitOf(request, config, a))
    ensures |report.checks| == 7 && report.verdict == VerdictOf(report.checks[..5], report.tier)
  {
    hide Audited, ExitOf, SpecPart, PaymentOf, ProbeOf, Trace, Any, Score, Coverage, Readiness.AllPass, OutcomeCheck,
      Readiness.FinalReview;
    var target := Anatomy(request, config, a, report);
    var exit := ExitOf(request, config, a);
    var ledger, part := Ledger(exit, request, a.evaluation), SpecPart(report.specReview, report.verb);
    Readiness.ReadyAgreesWithChecks(a.docs, ChallengeOf(exit), target, report.verb, a.out);
    assert part == SpecChecks(report.specReview.value, report.verb) by {
      SpecPartIs(report.specReview.value, report.verb);
    }
    LedgerStatuses(exit, request, a.evaluation);
    ReviewSums(report.specReview, report.verb);
    AnyAppend(ledger, part, Fail);
    AnyAppend(ledger, part, Warn);
    assert report.checks[..5] == ledger;
  }

  lemma SpecPartIs(review: Review, verb: Method)
    ensures SpecPart(Some(review), verb) == SpecChecks(review, verb)
  {
  }

  /** The promise of READY to a probe: a valid challenge, no payment, full marks. */
  lemma ReadyProbesPass(request: Request, config: Config, a: Answers, report: Report)
    requires Audited(request, config, a).result == Ok(report)
    requires report.specReview.Some? && report.specReview.value.status.Ready?
    requires !request.pay && ChallengeOf(ExitOf(request, config, a)).Some?
    ensures report.verdict.PROBE_PASS? && report.score == 100 && report.coverage == 53
  {
    hide Audited, Clean, Readiness.FinalReview, OutcomeCheck, VerdictOf;
    var target := Anatomy(request, config, a, report);
    ReadyNeverMovesTheVerdict(request, config, a, report);
    VerdictsExactly(request, config, a, report);
    ProbeVerdicts(request, config, a, report);
  }

  lemma CleanUnreviewed(report: Report)
    requires report.specReview.None?
    ensures Clean(report)
  {
  }

  // ------------------------------------------- from the seller's words to the signature

  /** The JSON the probe's answer carried as its challenge, if it decodes. */
  function ChallengeJson(a: Answers): Option<Payment.RawChallenge> {
    match a.probe
    case None => None
    case Some(answer) =>
      if TrimSpace(answer.challengeHeader) == "" then a.decode(answer.body)
      else
        match Headers.DecodePaymentHeader(TrimSpace(answer.challengeHeader))
        case None => None
        case Some(bytes) => a.decode(bytes)
  }

  /** The typed data pays what the raw option says, to whom it says, in the token and on
      the chain it says, and as the request's filters want it. */
  ghost predicate PaysAsOffered(item: Json.Object, terms: Payment.Terms, data: Authorization.TypedData) {
    && ReadsText(item, "payTo", data.message.to) && ReadsText(item, "asset", data.domain.verifyingContract)
    && IsPrice(PriceText(item)) && Amounts.ParseInt(data.message.value) == Amounts.ParseInt(PriceText(item).value)
    && exists network ::
         ReadsText(item, "network", network) && OnChain(network, data.domain.chainId)
         && MeetsFilters(terms, network, data.domain.verifyingContract)
  }

  predicate OnChain(network: string, id: int) {
    Payment.NormalizeNetwork(network).Some? && Payment.NormalizeNetwork(network).value.id == id
  }

  lemma ReceivedIsRead(a: Answers)
    requires a.probe.Some?
    requires Payment.ParseResponse(a.probe.value.challengeHeader, a.probe.value.body, a.decode).Ok?
    ensures ChallengeJson(a).Some?
    ensures Payment.Parsed(ChallengeJson(a)) ==
            Ok(Payment.ParseResponse(a.probe.value.challengeHeader, a.probe.value.body, a.decode).value.challenge)
  {
    hide Payment.Parsed, TrimSpace, Headers.DecodePaymentHeader;
    TransportsAre(a.probe.value.challengeHeader, a.probe.value.body, a.decode);
    NothingParsed();
  }

  lemma NothingParsed()
    ensures Payment.Parsed(None).Err?
  {
  }

  /** On every run whatever is put up for signature is one option of the seller's own
      challenge, read member by member, and one the request's filters admit. */
  lemma SignedAsOffered(request: Request, config: Config, a: Answers, data: Authorization.TypedData)
    requires Asked(data) in Audited(request, config, a).log
    ensures ChallengeJson(a).Some?
    ensures exists i :: 0 <= i < |ChallengeJson(a).value.accepts|
                        && PaysAsOffered(ChallengeJson(a).value.accepts[i], request.terms, data)
  {
    hide ExitOf, Trace, Payment.ParseResponse, Payment.Selection, Authorization.Authorize, Validation, Concluded,
      Payment.Parsed, Payment.Safe, Payment.LimitsOf, ChallengeJson, PaysAsOffered, Payment.NormalizeNetwork;
    var exit := ExitOf(request, config, a);
    var trace := LogOf(request, config, a);
    TraceShape(request, config, a);
    assert |trace| >= 2 && trace[1] == Asked(data);
    SelectedExit(request, config, a);
    AskedTerms(config.policy, config.max, exit.option, exit.received.challenge.extensions, a.signer);
    ReceivedIsRead(a);
    ChallengesAreRead(ChallengeJson(a));
    var options := exit.received.challenge.accepts;
    Payment.SelectionIsExact(options, request.terms, config.policy);
    var i: nat :| Payment.OnlySafe(options, i, config.policy, Payment.LimitsOf(request.terms, config.policy).value);
    SafeExactly(options[i], request.terms, config.policy);
    Authorization.NormalizedTwice(options[i].network);
    var item := ChallengeJson(a).value.accepts[i];
    assert exit.option == Payment.Normalized(options[i]);
    OfferIsPaid(item, options[i], request.terms, data);
  }

  lemma OfferIsPaid(item: Json.Object, option: Payment.Requirement, terms: Payment.Terms, data: Authorization.TypedData)
    requires Reads(item, option) && MeetsFilters(terms, option.network, option.asset)
    requires data.message.to == option.payTo && data.domain.verifyingContract == option.asset
    requires data.message.value == option.amount && OnChain(option.network, data.domain.chainId)
    ensures PaysAsOffered(item, terms, data)
  {
    hide MeetsFilters, ReadsText, OnChain;
    assert ReadsText(item, "network", option.network);
  }

  // --------------------------------------------------------------- the expected status

  /** The outcome check fails on a status exactly if the caller named another one, or
      named none and it is not in the 200s. (No answer has the status 0.) */
  lemma ExpectedStatusIsExact(request: Request, status: int, e: Evaluation)
    requires status != 0
    ensures var met := if request.expectedStatus == 0 then 200 <= status <= 299 else status == request.expectedStatus;
            && (!met ==> OutcomeCheck(request, status, e) == Check(TaskOutcome, Fail, 25, 0))
            && (met && TrimSpace(request.expectation) == "" ==>
                  OutcomeCheck(request, status, e) == Check(TaskOutcome, Pass, 25, 25))
            && (met && TrimSpace(request.expectation) != "" ==>
                  OutcomeCheck(request, status, e) ==
                  match e
                  case NotConfigured => Check(TaskOutcome, Warn, 25, 12)
                  case Failed => Check(TaskOutcome, Warn, 25, 12)
                  case Answered(passed, score) =>
                    var status := if !passed then Fail else if score < 50 then Warn else Pass;
                    Check(TaskOutcome, status, 25, score * 25 / 100))
  {
    hide TrimSpace;
  }

  /** No run passes on a status other than the one the caller expects, and none on one
      outside the 200s. */
  lemma PassesMeetTheExpectedStatus(request: Request, config: Config, a: Answers, report: Report)
    requires Audited(request, config, a).result == Ok(report)
    requires report.verdict.PASS? || report.verdict.PASS_WITH_WARNINGS?
    ensures 200 <= report.payment.status <= 299
    ensures request.expectedStatus != 0 ==> report.payment.status == request.expectedStatus
    ensures a.paid.Some? && a.paid.value.status == report.payment.status
  {
    hide Audited, OutcomeCheck, Clean, SpecPart, Reviewed, Trace, Ledger, ProbeOf, Score, Coverage, VerdictOf,
      Payment.ParseResponse, Payment.Selection, Authorization.Authorize, Validation;
    var target := Anatomy(request, config, a, report);
    VerdictsExactly(request, config, a, report);
    var status := ExitOf(request, config, a).answer.status;
    ExpectedStatusIsExact(request, status, a.evaluation);
  }

  // ---------------------------------------------------------- what the report repeats

  predicate Repeats(item: Json.Object, summary: Summary) {
    && ReadsText(item, "scheme", summary.scheme) && ReadsText(item, "network", summary.network)
    && ReadsText(item, "asset", summary.asset) && ReadsText(item, "payTo", summary.payTo)
    && Amounts.Canonical(summary.amount) && IsPrice(PriceText(item))
    && Amounts.ParseInt(summary.amount) == Amounts.ParseInt(PriceText(item).value)
    && (if "extra" in item && item["extra"].Obj? then
          ReadsText(item["extra"].fields, "assetTransferMethod", summary.transfer)
        else summary.transfer == "")
  }

  lemma SummariesRepeat(item: Json.Object, option: Payment.Requirement)
    requires Reads(item, option)
    ensures Repeats(item, SummaryOf(option))
  {
    hide Amounts.Canonical, Amounts.ParseInt, PriceText, ReadsTimeout;
  }

  /** The report of a run with a valid challenge repeats every option as the seller wrote
      it, in the seller's order. */
  lemma OffersAreReported(request: Request, config: Config, a: Answers, report: Report)
    requires Audited(request, config, a).result == Ok(report) && HasChallenge(ExitOf(request, config, a))
    ensures report.probe.status == 402 && report.probe.version == 2
    ensures ChallengeJson(a).Some? && |report.probe.options| == |ChallengeJson(a).value.accepts|
    ensures forall i :: 0 <= i < |report.probe.options| ==>
                          Repeats(ChallengeJson(a).value.accepts[i], report.probe.options[i])
  {
    hide Audited, Payment.ParseResponse, Payment.Parsed, PaidExit, ChallengeJson, Repeats, SummaryOf, Reads, Ledger,
      SpecPart, Reviewed, Trace, Score, Coverage, VerdictOf, Validation;
    var target := Anatomy(request, config, a, report);
    var exit := ExitOf(request, config, a);
    ReceivedExit(request, config, a);
    ReceivedIsRead(a);
    ChallengesAreRead(ChallengeJson(a));
    var options := exit.received.challenge.accepts;
    forall i | 0 <= i < |options| ensures Repeats(ChallengeJson(a).value.accepts[i], SummaryOf(options[i])) {
      SummariesRepeat(ChallengeJson(a).value.accepts[i], options[i]);
    }
  }

  lemma ReceivedExit(request: Request, config: Config, a: Answers)
    requires HasChallenge(ExitOf(request, config, a))
    ensures a.probe.Some? && a.probe.value.status == 402
    ensures Payment.ParseResponse(a.probe.value.challengeHeader, a.probe.value.body, a.decode) ==
            Ok(ExitOf(request, config, a).received)
  {
    hide Payment.ParseResponse, PaidExit;
    if a.probe.Some? && Payment.ParseResponse(a.probe.value.challengeHeader, a.probe.value.body, a.decode).Ok? {
      PaidExitKeeps(
        Payment.ParseResponse(a.probe.value.challengeHeader, a.probe.value.body, a.decode).value, request, config, a);
    }
  }

  /** The other facts a report states of its run. */
  lemma FactsAreReported(request: Request, config: Config, a: Answers, report: Report)
    requires Audited(request, config, a).result == Ok(report)
    ensures a.id == Some(report.id)
    ensures report.payment.requested == request.pay
    ensures report.probe.status == if a.probe.Some? then a.probe.value.status else 0
    ensures report.payment.status != 0 ==> a.paid.Some? && report.payment.status == a.paid.value.status
    ensures var exit := ExitOf(request, config, a);
            && (report.payment.failed <==> exit.NotAuthorized? || exit.Unanswered?)
            && (report.payment.selected.Some? <==> HasSelection(exit))
            && (report.semantic.attempted <==>
                  && (exit.NotDemanded? || exit.Delivered?)
                  && AsksEvaluator(request, exit.answer.status) && !a.evaluation.NotConfigured?)
            && (report.semantic.attempted && a.evaluation.Answered? ==>
                  report.semantic == SemanticResult(true, a.evaluation.passed, a.evaluation.score, false))
            && (a.evaluation.Answered? ==> !report.semantic.failed)
  {
    hide Validation, PaidExit, Payment.ParseResponse, Ledger, Trace, Judged, Reviewed, AsksEvaluator;
    ReportParts(request, config, a, report);
    if a.probe.Some? && Payment.ParseResponse(a.probe.value.challengeHeader, a.probe.value.body, a.decode).Ok? {
      PaidExitKeeps(
        Payment.ParseResponse(a.probe.value.challengeHeader, a.probe.value.body, a.decode).value, request, config, a);
    }
    if ExitOf(request, config, a).Delivered? { PaidAnswer(request, config, a); }
  }

  lemma ReportParts(request: Request, config: Config, a: Answers, report: Report)
    requires Audited(request, config, a).result == Ok(report)
    ensures var exit := ExitOf(request, config, a);
            && a.id == Some(report.id) && report.probe == ProbeOf(exit)
            && report.payment == PaymentOf(exit, request.pay)
            && report.semantic == SemanticOf(exit, request, a.evaluation)
  {
    hide Validation, ExitOf, Ledger, PaymentOf, ProbeOf, SemanticOf, Trace, SpecChecks, Finalized, Inspected, Score,
      Coverage, VerdictOf;
  }

  lemma PaidAnswer(request: Request, config: Config, a: Answers)
    requires ExitOf(request, config, a).Delivered?
    ensures a.paid == Some(ExitOf(request, config, a).answer)
  {
    hide Payment.ParseResponse, Payment.Selection, Authorization.Authorize;
  }
}

/** Payment terms: parsing a challenge, selecting one safe option, authorizing it. */
module Payment {
  import opened Text
  import opened Json
  import opened Amounts
  import opened Headers

  datatype Requirement = Requirement(
    scheme: string, network: string, amount: string, asset: string, payTo: string,
    maxTimeoutSeconds: int, extra: Option<Object>)

  datatype Challenge = Challenge(version: int, resource: string, accepts: seq<Requirement>, extensions: Object)

  // --------------------------------------------------------------- the challenge

  /** What decoding the JSON text of a challenge yields, before it is judged. */
  datatype RawChallenge = RawChallenge(version: int, resource: Json, accepts: seq<Object>, extensions: Object)

  datatype ChallengeError =
    | NotJson
    | UnsupportedVersion(version: int)
    | NoOptions
    | InvalidAmount(option: nat)
    | InvalidTimeout(option: nat)
    | InvalidHeader

  const MAX_TIMEOUT := 86_400
  const DEFAULT_TIMEOUT := 60

  function Field(item: Object, key: string): Option<Json> {
    if key in item then Some(item[key]) else None
  }

  function ResourceUrl(raw: Json): string {
    match raw
    case Str(s) => s
    case Obj(m) => StringField(m, "url")
    case _ => ""
  }

  /** amount, or else maxAmountRequired. */
  function AmountOf(item: Object): Option<string> {
    var amount := AtomicString(Field(item, "amount"));
    if amount.Some? then amount else AtomicString(Field(item, "maxAmountRequired"))
  }

  function TimeoutOf(item: Object): Option<int> {
    if "maxTimeoutSeconds" !in item then Some(DEFAULT_TIMEOUT)
    else
      match IntegerValue(Field(item, "maxTimeoutSeconds"))
      case Some(n) => if 1 <= n <= MAX_TIMEOUT then Some(n) else None
      case None => None
  }

  predicate UsableOption(item: Object) {
    AmountOf(item).Some? && TimeoutOf(item).Some?
  }

  function OptionOf(item: Object): Requirement
    requires UsableOption(item)
  {
    Requirement(StringField(item, "scheme"), StringField(item, "network"), AmountOf(item).value,
                StringField(item, "asset"), StringField(item, "payTo"), TimeoutOf(item).value,
                ObjectField(item, "extra"))
  }

  /** A challenge is accepted iff it is version 2, has options and all are usable;
      otherwise the first fault is reported. */
  method ParseChallenge(decoded: Option<RawChallenge>) returns (r: Result<Challenge, ChallengeError>)
    ensures r.Ok? <==> decoded.Some? && decoded.value.version == 2 && decoded.value.accepts != []
                       && forall i :: 0 <= i < |decoded.value.accepts| ==> UsableOption(decoded.value.accepts[i])
    ensures r == Parsed(decoded)
  {
    hide AtomicString, IntegerValue, FirstFault;
    if decoded.None? {
      return Err(NotJson);
    }
    var raw := decoded.value;
    if raw.version != 2 {
      return Err(UnsupportedVersion(raw.version));
    }
    if |raw.accepts| == 0 {
      return Err(NoOptions);
    }
    var accepts: seq<Requirement> := [];
    for index := 0 to |raw.accepts|
      invariant forall i :: 0 <= i < index ==> UsableOption(raw.accepts[i])
      invariant |accepts| == index && forall i :: 0 <= i < index ==> accepts[i] == OptionOf(raw.accepts[i])
    {
      var item := raw.accepts[index];
      var amount := AtomicString(Field(item, "amount"));
      if amount.None? {
        amount := AtomicString(Field(item, "maxAmountRequired"));
      }
      if amount.None? {
        FirstFaultIs(raw.accepts, index);
        return Err(InvalidAmount(index + 1));
      }
      var timeout := DEFAULT_TIMEOUT;
      if "maxTimeoutSeconds" in item {
        var parsed := IntegerValue(Field(item, "maxTimeoutSeconds"));
        if parsed.None? || parsed.value < 1 || parsed.value > MAX_TIMEOUT {
          FirstFaultIs(raw.accepts, index);
          return Err(InvalidTimeout(index + 1));
        }
        timeout := parsed.value;
      }
      accepts := accepts + [Requirement(StringField(item, "scheme"), StringField(item, "network"), amount.value,
                                        StringField(item, "asset"), StringField(item, "payTo"), timeout,
                                        ObjectField(item, "extra"))];
    }
    NoFault(raw.accepts);
    assert accepts == OptionsOf(raw.accepts);
    return Ok(Challenge(raw.version, ResourceUrl(raw.resource), accepts, raw.extensions));
  }

  /** The index of the first unusable option. */
  function FirstFault(items: seq<Object>): (n: nat)
    ensures n <= |items|
    ensures n < |items| ==> !UsableOption(items[n])
    ensures forall i :: 0 <= i < n ==> UsableOption(items[i])
  {
    if items == [] || !UsableOption(items[0]) then 0 else 1 + FirstFault(items[1..])
  }

  lemma FirstFaultIs(items: seq<Object>, n: nat)
    requires n < |items| && !UsableOption(items[n]) && forall i :: 0 <= i < n ==> UsableOption(items[i])
    ensures FirstFault(items) == n
  {
  }

  lemma NoFault(items: seq<Object>)
    requires forall i :: 0 <= i < |items| ==> UsableOption(items[i])
    ensures FirstFault(items) == |items|
  {
  }

  function OptionsOf(items: seq<Object>): (options: seq<Requirement>)
    requires forall i :: 0 <= i < |items| ==> UsableOption(items[i])
    ensures |options| == |items| && forall i :: 0 <= i < |items| ==> options[i] == OptionOf(items[i])
  {
    seq(|items|, i requires 0 <= i < |items| => OptionOf(items[i]))
  }

  function Parsed(decoded: Option<RawChallenge>): Result<Challenge, ChallengeError> {
    if decoded.None? then Err(NotJson)
    else
      var raw := decoded.value;
      var fault := FirstFault(raw.accepts);
      if raw.version != 2 then Err(UnsupportedVersion(raw.version))
      else if raw.accepts == [] then Err(NoOptions)
      else if fault < |raw.accepts| then
        Err(if AmountOf(raw.accepts[fault]).None? then InvalidAmount(fault + 1) else InvalidTimeout(fault + 1))
      else
        Ok(Challenge(2, ResourceUrl(raw.resource), OptionsOf(raw.accepts), raw.extensions))
  }

  predicate WellFormed(challenge: Challenge) {
    && challenge.version == 2
    && challenge.accepts != []
    && forall i :: 0 <= i < |challenge.accepts| ==>
                     Canonical(challenge.accepts[i].amount)
                       && 1 <= challenge.accepts[i].maxTimeoutSeconds <= MAX_TIMEOUT
  }

  /** Every accepted challenge offers something, at canonical prices, with sane timeouts. */
  lemma ParsedChallengesAreWellFormed(decoded: Option<RawChallenge>)
    ensures Parsed(decoded).Ok? ==> WellFormed(Parsed(decoded).value)
  {
    if Parsed(decoded).Ok? {
      var items := decoded.value.accepts;
      forall i | 0 <= i < |items| ensures Canonical(AmountOf(items[i]).value) {
        AmountsAreExact(Field(items[i], "amount"));
        AmountsAreExact(Field(items[i], "maxAmountRequired"));
      }
    }
  }

  const HEADER_TRANSPORT := "PAYMENT-REQUIRED"
  const BODY_TRANSPORT := "json-body"
  const SIGNATURE_HEADER := "PAYMENT-SIGNATURE"
  const LEGACY_HEADER := "X-PAYMENT"

  datatype Received = Received(challenge: Challenge, transport: string, authorizationHeader: string)

  /** The header wins over the body when present; `decode` reads JSON text. */
  function ParseResponse(header: string, body: seq<Byte>, decode: seq<Byte> -> Option<RawChallenge>)
    : Result<Received, ChallengeError>
  {
    var encoded := TrimSpace(header);
    if encoded != "" then
      match DecodePaymentHeader(encoded)
      case None => Err(InvalidHeader)
      case Some(bytes) =>
        match Parsed(decode(bytes))
        case Ok(challenge) => Ok(Received(challenge, HEADER_TRANSPORT, SIGNATURE_HEADER))
        case Err(error) => Err(error)
    else
      match Parsed(decode(body))
      case Ok(challenge) => Ok(Received(challenge, BODY_TRANSPORT, LEGACY_HEADER))
      case Err(error) => Err(error)
  }

  /** A challenge sent in the header under any encoding is read as sent. */
  lemma HeaderChallengeIsRead(e: Encoding, bytes: seq<Byte>, header: string, body: seq<Byte>,
                              decode: seq<Byte> -> Option<RawChallenge>)
    requires TrimSpace(header) == Encode(e, bytes) && bytes != []
    ensures ParseResponse(header, body, decode) ==
            match Parsed(decode(bytes))
            case Ok(challenge) => Ok(Received(challenge, HEADER_TRANSPORT, SIGNATURE_HEADER))
            case Err(error) => Err(error)
  {
    HeaderRoundTrip(e, bytes);
    assert Encode(e, bytes) != "";
  }

  // ------------------------------------------------------------------- selection

  datatype Chain = Chain(network: string, id: int)

  const BASE := Chain("eip155:8453", 8453)
  const BASE_SEPOLIA := Chain("eip155:84532", 84532)

  function NormalizeNetwork(value: string): Option<Chain> {
    var name := Lower(TrimSpace(value));
    if name == "base" || name == "eip155:8453" || name == "8453" then Some(BASE)
    else if name == "base-sepolia" || name == "eip155:84532" || name == "84532" then Some(BASE_SEPOLIA)
    else None
  }

  datatype Policy = Policy(maxAtomicAmount: string, allowedNetworks: map<string, int>,
                           allowedAssets: map<string, string>)

  /** The payment fields of an audit request. */
  datatype Terms = Terms(maxPaymentAtomic: string, paymentNetwork: string, paymentAsset: string)

  datatype Reason =
    | UnsupportedNetwork(value: string)
    | NetworkNotAllowed(network: string)
    | UnsupportedScheme
    | UnsupportedTransfer(transfer: string)
    | InvalidAddress
    | AssetNotConfigured(network: string)
    | AmountInvalid
    | AmountOverCap

  datatype SelectError =
    | RequestCapInvalid
    | OperatorCapInvalid
    | RequestCapTooHigh
    | WantedNetworkUnsupported
    | NothingMatches
    | NothingSafe(reasons: seq<Reason>)
    | Ambiguous

  predicate IsHexDigit(c: char) {
    IsDigit(c) || 'a' <= c <= 'f' || 'A' <= c <= 'F'
  }

  predicate IsAddress(s: string) {
    |s| == 42 && s[0] == '0' && s[1] == 'x' && forall i :: 2 <= i < 42 ==> IsHexDigit(s[i])
  }

  function Transfer(requirement: Requirement): string {
    if requirement.extra.Some? then StringField(requirement.extra.value, "assetTransferMethod") else ""
  }

  function AllowedAsset(policy: Policy, network: string): string {
    if network in policy.allowedAssets then policy.allowedAssets[network] else ""
  }

  /** What a selection is held to. */
  datatype Limits = Limits(requestMax: int, systemMax: int, network: string, asset: string)

  function PositiveInt(s: string): Option<int> {
    match ParseInt(s)
    case Some(z) => if z > 0 then Some(z) else None
    case None => None
  }

  function LimitsOf(terms: Terms, policy: Policy): Result<Limits, SelectError> {
    var requestMax := PositiveInt(TrimSpace(terms.maxPaymentAtomic));
    var systemMax := PositiveInt(TrimSpace(policy.maxAtomicAmount));
    var wanted := if TrimSpace(terms.paymentNetwork) != "" then NormalizeNetwork(terms.paymentNetwork) else None;
    if requestMax.None? then Err(RequestCapInvalid)
    else if systemMax.None? then Err(OperatorCapInvalid)
    else if requestMax.value > systemMax.value then Err(RequestCapTooHigh)
    else if TrimSpace(terms.paymentNetwork) != "" && wanted.None? then Err(WantedNetworkUnsupported)
    else
      Ok(Limits(requestMax.value, systemMax.value, if wanted.Some? then wanted.value.network else "",
                Lower(TrimSpace(terms.paymentAsset))))
  }

  /** The full safety predicate of an option. */
  predicate Safe(requirement: Requirement, policy: Policy, limits: Limits) {
    var chain := NormalizeNetwork(requirement.network);
    var amount := ParseInt(requirement.amount);
    && chain.Some?
    && chain.value.network in policy.allowedNetworks
    && (limits.network == "" || limits.network == chain.value.network)
    && requirement.scheme == "exact"
    && (Transfer(requirement) == "" || Transfer(requirement) == "eip3009")
    && IsAddress(requirement.asset) && IsAddress(requirement.payTo)
    && (limits.asset == "" || limits.asset == Lower(requirement.asset))
    && (AllowedAsset(policy, chain.value.network) == ""
        || Lower(AllowedAsset(policy, chain.value.network)) == Lower(requirement.asset))
    && amount.Some? && 0 < amount.value <= limits.requestMax && amount.value <= limits.systemMax
  }

  /** The option with a supported network spelled canonically. */
  function Normalized(requirement: Requirement): Requirement {
    match NormalizeNetwork(requirement.network)
    case Some(chain) => requirement.(network := chain.network)
    case None => requirement
  }

  datatype Judgement = Match(requirement: Requirement) | Skip | Reject(reason: Reason)

  /** One turn of the selection loop, its tests in the source's order. */
  method Judge(requirement: Requirement, policy: Policy, limits: Limits) returns (j: Judgement)
    ensures j == Judged(requirement, policy, limits)
    ensures j.Match? <==> Safe(requirement, policy, limits)
    ensures j.Match? ==> j.requirement == Normalized(requirement)
  {
    var chain := NormalizeNetwork(requirement.network);
    if chain.None? {
      return Reject(UnsupportedNetwork(requirement.network));
    }
    var network := chain.value.network;
    if network !in policy.allowedNetworks {
      return Reject(NetworkNotAllowed(network));
    }
    if limits.network != "" && network != limits.network {
      return Skip;
    }
    if requirement.scheme != "exact" {
      return Reject(UnsupportedScheme);
    }
    var transfer := Transfer(requirement);
    if transfer != "" && transfer != "eip3009" {
      return Reject(UnsupportedTransfer(transfer));
    }
    var asset := Lower(requirement.asset);
    if !IsAddress(requirement.asset) || !IsAddress(requirement.payTo) {
      return Reject(InvalidAddress);
    }
    if limits.asset != "" && asset != limits.asset {
      return Skip;
    }
    var allowedAsset := AllowedAsset(policy, network);
    if allowedAsset != "" && asset != Lower(allowedAsset) {
      return Reject(AssetNotConfigured(network));
    }
    var amount := ParseInt(requirement.amount);
    if amount.None? || amount.value <= 0 {
      return Reject(AmountInvalid);
    }
    if amount.value > limits.requestMax || amount.value > limits.systemMax {
      return Reject(AmountOverCap);
    }
    return Match(requirement.(network := network));
  }

  /** An unsafe option is passed over in silence when the caller's own filter excludes
      it and nothing tested before the filter does; otherwise it gives a reason. */
  function Judged(requirement: Requirement, policy: Policy, limits: Limits): Judgement {
    if Safe(requirement, policy, limits) then Match(Normalized(requirement))
    else
      var chain := NormalizeNetwork(requirement.network);
      if chain.None? then Reject(UnsupportedNetwork(requirement.network))
      else if chain.value.network !in policy.allowedNetworks then Reject(NetworkNotAllowed(chain.value.network))
      else if limits.network != "" && limits.network != chain.value.network then Skip
      else if requirement.scheme != "exact" then Reject(UnsupportedScheme)
      else if Transfer(requirement) != "" && Transfer(requirement) != "eip3009" then
        Reject(UnsupportedTransfer(Transfer(requirement)))
      else if !IsAddress(requirement.asset) || !IsAddress(requirement.payTo) then Reject(InvalidAddress)
      else if limits.asset != "" && limits.asset != Lower(requirement.asset) then Skip
      else if AllowedAsset(policy, chain.value.network) != ""
              && Lower(AllowedAsset(policy, chain.value.network)) != Lower(requirement.asset) then
        Reject(AssetNotConfigured(chain.value.network))
      else if PositiveInt(requirement.amount).None? then Reject(AmountInvalid)
      else Reject(AmountOverCap)
  }

  function Matches(requirements: seq<Requirement>, policy: Policy, limits: Limits): seq<Requirement> {
    if requirements == [] then []
    else
      var n := |requirements| - 1;
      var before := Matches(requirements[..n], policy, limits);
      match Judged(requirements[n], policy, limits)
      case Match(r) => before + [r]
      case _ => before
  }

  function Reasons(requirements: seq<Requirement>, policy: Policy, limits: Limits): seq<Reason> {
    if requirements == [] then []
    else
      var n := |requirements| - 1;
      var before := Reasons(requirements[..n], policy, limits);
      match Judged(requirements[n], policy, limits)
      case Reject(reason) => before + [reason]
      case _ => before
  }

  function Selection(requirements: seq<Requirement>, terms: Terms, policy: Policy): Result<Requirement, SelectError> {
    match LimitsOf(terms, policy)
    case Err(error) => Err(error)
    case Ok(limits) =>
      var matches, reasons := Matches(requirements, policy, limits), Reasons(requirements, policy, limits);
      if |matches| == 1 then Ok(matches[0])
      else if matches != [] then Err(Ambiguous)
      else if reasons == [] then Err(NothingMatches)
      else Err(NothingSafe(Unique(reasons)))
  }

  method SelectPayment(requirements: seq<Requirement>, terms: Terms, policy: Policy)
    returns (r: Result<Requirement, SelectError>)
    ensures r == Selection(requirements, terms, policy)
  {
    hide LimitsOf, Matches, Reasons;
    var checked := LimitsOf(terms, policy);
    if checked.Err? {
      return Err(checked.error);
    }
    var matches, reasons := JudgeAll(requirements, policy, checked.value);
    if |matches| == 0 {
      if |reasons| == 0 {
        return Err(NothingMatches);
      }
      var unique := UniqueReasons(reasons);
      return Err(NothingSafe(unique));
    }
    if |matches| > 1 {
      return Err(Ambiguous);
    }
    return Ok(matches[0]);
  }

  /** The loop over the options. */
  method JudgeAll(requirements: seq<Requirement>, policy: Policy, limits: Limits)
    returns (matches: seq<Requirement>, reasons: seq<Reason>)
    ensures matches == Matches(requirements, policy, limits) && reasons == Reasons(requirements, policy, limits)
  {
    hide Judged, Safe, Normalized;
    matches, reasons := [], [];
    for n := 0 to |requirements|
      invariant matches == Matches(requirements[..n], policy, limits)
      invariant reasons == Reasons(requirements[..n], policy, limits)
    {
      var judgement := Judge(requirements[n], policy, limits);
      assert requirements[..n + 1][..n] == requirements[..n];
      match judgement {
        case Match(requirement) => matches := matches + [requirement];
        case Reject(reason) => reasons := reasons + [reason];
        case Skip =>
      }
    }
    assert requirements[..|requirements|] == requirements;
  }

  /** The first occurrences, in order. */
  function Unique(values: seq<Reason>): (r: seq<Reason>)
    ensures forall x :: x in r <==> x in values
    ensures forall i, j :: 0 <= i < j < |r| ==> r[i] != r[j]
  {
    if values == [] then []
    else
      var n := |values| - 1;
      assert forall x :: x in values <==> x in values[..n] || x == values[n];
      if values[n] in values[..n] then Unique(values[..n]) else Unique(values[..n]) + [values[n]]
  }

  method UniqueReasons(values: seq<Reason>) returns (r: seq<Reason>)
    ensures r == Unique(values)
  {
    var seen: set<Reason> := {};
    r := [];
    for n := 0 to |values|
      invariant r == Unique(values[..n])
      invariant forall x :: x in seen <==> x in values[..n]
    {
      assert values[..n + 1][..n] == values[..n];
      if values[n] !in seen {
        seen := seen + {values[n]};
        r := r + [values[n]];
      }
    }
    assert values[..|values|] == values;
  }

  // ---------------------------------------------------------- selection is exact

  lemma {:induction false} MatchesAppend(a: seq<Requirement>, b: seq<Requirement>, policy: Policy, limits: Limits)
    ensures Matches(a + b, policy, limits) == Matches(a, policy, limits) + Matches(b, policy, limits)
    decreases |b|
  {
    hide Judged;
    if b == [] {
      assert a + b == a;
    } else {
      var n := |b| - 1;
      assert (a + b)[..|a| + n] == a + b[..n];
      MatchesAppend(a, b[..n], policy, limits);
    }
  }

  lemma MatchesOne(r: Requirement, policy: Policy, limits: Limits)
    ensures Matches([r], policy, limits) == if Safe(r, policy, limits) then [Normalized(r)] else []
  {
    hide Safe, Judged;
    JudgedMatch(r, policy, limits);
    assert [r][..0] == [];
  }

  lemma {:induction false} NoMatches(requirements: seq<Requirement>, policy: Policy, limits: Limits)
    ensures Matches(requirements, policy, limits) == [] <==>
            forall i :: 0 <= i < |requirements| ==> !Safe(requirements[i], policy, limits)
  {
    hide Safe, Judged;
    if requirements == [] {
    } else {
      var n := |requirements| - 1;
      NoMatches(requirements[..n], policy, limits);
      JudgedMatch(requirements[n], policy, limits);
      assert forall i :: 0 <= i < n ==> requirements[..n][i] == requirements[i];
    }
  }

  lemma JudgedMatch(r: Requirement, policy: Policy, limits: Limits)
    ensures Judged(r, policy, limits).Match? <==> Safe(r, policy, limits)
    ensures Safe(r, policy, limits) ==> Judged(r, policy, limits) == Match(Normalized(r))
  {
    hide Safe;
  }

  /** The option at index i is safe and no other is. */
  predicate OnlySafe(requirements: seq<Requirement>, i: nat, policy: Policy, limits: Limits) {
    && i < |requirements| && Safe(requirements[i], policy, limits)
    && forall j :: 0 <= j < |requirements| && j != i ==> !Safe(requirements[j], policy, limits)
  }

  lemma SplitMatches(requirements: seq<Requirement>, i: nat, policy: Policy, limits: Limits)
    requires i < |requirements|
    ensures Matches(requirements, policy, limits) ==
            Matches(requirements[..i], policy, limits)
            + (if Safe(requirements[i], policy, limits) then [Normalized(requirements[i])] else [])
            + Matches(requirements[i + 1..], policy, limits)
  {
    assert requirements == requirements[..i] + [requirements[i]] + requirements[i + 1..];
    MatchesAppend(requirements[..i] + [requirements[i]], requirements[i + 1..], policy, limits);
    MatchesAppend(requirements[..i], [requirements[i]], policy, limits);
    MatchesOne(requirements[i], policy, limits);
  }

  lemma OnlySafeMatches(requirements: seq<Requirement>, i: nat, policy: Policy, limits: Limits)
    requires i < |requirements| && Safe(requirements[i], policy, limits)
    ensures |Matches(requirements, policy, limits)| == 1 <==> OnlySafe(requirements, i, policy, limits)
    ensures OnlySafe(requirements, i, policy, limits) ==>
              Matches(requirements, policy, limits) == [Normalized(requirements[i])]
  {
    hide Safe, Matches;
    SplitMatches(requirements, i, policy, limits);
    var a, b := requirements[..i], requirements[i + 1..];
    NoMatches(a, policy, limits);
    NoMatches(b, policy, limits);
    forall j | 0 <= j < |requirements| && j != i
      ensures (j < i ==> requirements[j] == a[j]) && (j > i ==> requirements[j] == b[j - i - 1])
    {
    }
    if OnlySafe(requirements, i, policy, limits) {
      assert Matches(a, policy, limits) == [] && Matches(b, policy, limits) == [];
    } else {
      assert Matches(a, policy, limits) != [] || Matches(b, policy, limits) != [];
    }
  }

  /** Selection succeeds iff the limits are valid and exactly one option is safe, and
      returns that option with nothing but its network normalized. */
  lemma SelectionIsExact(requirements: seq<Requirement>, terms: Terms, policy: Policy)
    ensures Selection(requirements, terms, policy).Ok? <==>
            LimitsOf(terms, policy).Ok? && exists i: nat ::
              OnlySafe(requirements, i, policy, LimitsOf(terms, policy).value)
    ensures LimitsOf(terms, policy).Ok? ==>
              forall i: nat :: OnlySafe(requirements, i, policy, LimitsOf(terms, policy).value) ==>
                            Selection(requirements, terms, policy) == Ok(Normalized(requirements[i]))
  {
    hide Safe, Matches, Reasons, LimitsOf, Normalized;
    if LimitsOf(terms, policy).Ok? {
      var limits := LimitsOf(terms, policy).value;
      NoMatches(requirements, policy, limits);
      forall i: nat | OnlySafe(requirements, i, policy, limits)
        ensures Matches(requirements, policy, limits) == [Normalized(requirements[i])]
      {
        OnlySafeMatches(requirements, i, policy, limits);
      }
      if |Matches(requirements, policy, limits)| == 1 {
        var i :| 0 <= i < |requirements| && Safe(requirements[i], policy, limits);
        OnlySafeMatches(requirements, i, policy, limits);
      }
    }
  }

  function Without(q: seq<Requirement>, i: nat): seq<Requirement>
    requires i < |q|
  {
    q[..i] + q[i + 1..]
  }

  lemma WithoutMultiset(q: seq<Requirement>, i: nat)
    requires i < |q|
    ensures multiset(q) == multiset{q[i]} + multiset(Without(q, i))
  {
    assert q == q[..i] + [q[i]] + q[i + 1..];
  }

  lemma MatchesWithout(q: seq<Requirement>, i: nat, policy: Policy, limits: Limits)
    requires i < |q|
    ensures multiset(Matches(q, policy, limits)) ==
            multiset(Matches([q[i]], policy, limits)) + multiset(Matches(Without(q, i), policy, limits))
  {
    hide Matches, Safe;
    SplitMatches(q, i, policy, limits);
    MatchesOne(q[i], policy, limits);
    MatchesAppend(q[..i], q[i + 1..], policy, limits);
  }

  lemma {:induction false} PermutedMatches(a: seq<Requirement>, b: seq<Requirement>, policy: Policy, limits: Limits)
    requires multiset(a) == multiset(b)
    ensures multiset(Matches(a, policy, limits)) == multiset(Matches(b, policy, limits))
    decreases |a|
  {
    hide Matches, Safe;
    assert |multiset(a)| == |a| && |multiset(b)| == |b|;
    if a == [] {
    } else {
      assert a[0] in multiset(b);
      var i :| 0 <= i < |b| && b[i] == a[0];
      WithoutMultiset(a, 0);
      WithoutMultiset(b, i);
      assert multiset(Without(a, 0)) == multiset(a) - multiset{a[0]};
      assert multiset(Without(b, i)) == multiset(b) - multiset{a[0]};
      PermutedMatches(Without(a, 0), Without(b, i), policy, limits);
      MatchesWithout(a, 0, policy, limits);
      MatchesWithout(b, i, policy, limits);
    }
  }

  // ------------------------------------------------------------ failures are exact

  predicate Rejected(requirements: seq<Requirement>, i: nat, reason: Reason, policy: Policy, limits: Limits) {
    i < |requirements| && Judged(requirements[i], policy, limits) == Reject(reason)
  }

  /** The reasons collected are those of the rejected options. */
  lemma {:induction false} ReasonsAre(requirements: seq<Requirement>, policy: Policy, limits: Limits)
    ensures forall reason :: reason in Reasons(requirements, policy, limits) <==>
                             exists i: nat :: Rejected(requirements, i, reason, policy, limits)
  {
    hide Judged;
    if requirements == [] {
    } else {
      var n := |requirements| - 1;
      var before := requirements[..n];
      ReasonsAre(before, policy, limits);
      forall reason
        ensures reason in Reasons(requirements, policy, limits) <==>
                exists i: nat :: Rejected(requirements, i, reason, policy, limits)
      {
        if i: nat :| Rejected(requirements, i, reason, policy, limits) {
          assert i < n ==> Rejected(before, i, reason, policy, limits);
        }
        if reason in Reasons(requirements, policy, limits) {
          if reason in Reasons(before, policy, limits) {
            var i: nat :| Rejected(before, i, reason, policy, limits);
            assert Rejected(requirements, i, reason, policy, limits);
          } else {
            assert Rejected(requirements, n, reason, policy, limits);
          }
        }
      }
    }
  }

  lemma NoReasons(requirements: seq<Requirement>, policy: Policy, limits: Limits)
    ensures Reasons(requirements, policy, limits) == [] <==>
            forall i :: 0 <= i < |requirements| ==> !Judged(requirements[i], policy, limits).Reject?
  {
    hide Judged, Reasons;
    ReasonsAre(requirements, policy, limits);
    var reasons := Reasons(requirements, policy, limits);
    if reasons != [] {
      assert reasons[0] in reasons;
      var i: nat :| Rejected(requirements, i, reasons[0], policy, limits);
    }
    if i :| 0 <= i < |requirements| && Judged(requirements[i], policy, limits).Reject? {
      var reason := Judged(requirements[i], policy, limits).reason;
      assert Rejected(requirements, i, reason, policy, limits);
      assert reason in reasons;
    }
  }

  predicate TwoSafe(requirements: seq<Requirement>, policy: Policy, limits: Limits) {
    exists i, j ::
      0 <= i < j < |requirements| && Safe(requirements[i], policy, limits) && Safe(requirements[j], policy, limits)
  }

  lemma ManyMatches(requirements: seq<Requirement>, policy: Policy, limits: Limits)
    ensures |Matches(requirements, policy, limits)| > 1 <==> TwoSafe(requirements, policy, limits)
  {
    hide Safe, Matches;
    NoMatches(requirements, policy, limits);
    if i :| 0 <= i < |requirements| && Safe(requirements[i], policy, limits) {
      OnlySafeMatches(requirements, i, policy, limits);
      if !OnlySafe(requirements, i, policy, limits) {
        var j :| 0 <= j < |requirements| && j != i && Safe(requirements[j], policy, limits);
        assert TwoSafe(requirements, policy, limits);
      }
    }
  }

  /** An option is passed over in silence only where the caller's own filter excludes it. */
  lemma SkippedIsFiltered(requirement: Requirement, policy: Policy, limits: Limits)
    requires Judged(requirement, policy, limits).Skip?
    ensures var chain := NormalizeNetwork(requirement.network);
            && chain.Some? && chain.value.network in policy.allowedNetworks
            && ((limits.network != "" && limits.network != chain.value.network)
                || (limits.asset != "" && limits.asset != Lower(requirement.asset)))
  {
    hide NormalizeNetwork, Lower, IsAddress, ParseInt;
  }

  /** Each way to fail, exactly: invalid limits first; two safe options are ambiguous; if
      all are passed over nothing matches; otherwise none is safe, and the reasons given
      are those of the rejected options. */
  lemma FailuresExactly(requirements: seq<Requirement>, terms: Terms, policy: Policy)
    ensures LimitsOf(terms, policy).Err? ==>
              Selection(requirements, terms, policy) == Err(LimitsOf(terms, policy).error)
    ensures LimitsOf(terms, policy).Ok? ==>
              var result, limits := Selection(requirements, terms, policy), LimitsOf(terms, policy).value;
              var silent := forall i :: 0 <= i < |requirements| ==> Judged(requirements[i], policy, limits).Skip?;
              && (result == Err(Ambiguous) <==> TwoSafe(requirements, policy, limits))
              && (result == Err(NothingMatches) <==> silent)
              && (result.Err? && result.error.NothingSafe? <==>
                    !silent && forall i :: 0 <= i < |requirements| ==> !Safe(requirements[i], policy, limits))
              && (result.Err? ==> result.error in {Ambiguous, NothingMatches} || result.error.NothingSafe?)
              && (result.Err? && result.error.NothingSafe? ==>
                    forall reason :: reason in result.error.reasons <==>
                                     exists i: nat :: Rejected(requirements, i, reason, policy, limits))
  {
    hide Safe, Judged, Matches, Reasons, LimitsOf;
    if LimitsOf(terms, policy).Ok? {
      var limits := LimitsOf(terms, policy).value;
      ManyMatches(requirements, policy, limits);
      NoMatches(requirements, policy, limits);
      NoReasons(requirements, policy, limits);
      ReasonsAre(requirements, policy, limits);
      forall i | 0 <= i < |requirements|
        ensures Judged(requirements[i], policy, limits).Match? <==> Safe(requirements[i], policy, limits)
      {
        JudgedMatch(requirements[i], policy, limits);
      }
    }
  }

  /** The same result up to the order in which reasons are listed. */
  ghost predicate SameResult(x: Result<Requirement, SelectError>, y: Result<Requirement, SelectError>) {
    if x.Err? && y.Err? && x.error.NothingSafe? && y.error.NothingSafe? then
      forall reason :: reason in x.error.reasons <==> reason in y.error.reasons
    else x == y
  }

  lemma PermutedReasons(a: seq<Requirement>, b: seq<Requirement>, policy: Policy, limits: Limits)
    requires multiset(a) == multiset(b)
    ensures forall reason :: reason in Reasons(a, policy, limits) ==> reason in Reasons(b, policy, limits)
  {
    hide Judged, Reasons;
    ReasonsAre(a, policy, limits);
    ReasonsAre(b, policy, limits);
    forall reason | reason in Reasons(a, policy, limits) ensures reason in Reasons(b, policy, limits) {
      var i: nat :| Rejected(a, i, reason, policy, limits);
      assert a[i] in multiset(b);
      var j: nat :| j < |b| && b[j] == a[i];
      assert Rejected(b, j, reason, policy, limits);
    }
  }

  /** The order in which the seller lists the options never matters: not to what is
      selected, not to how the selection fails, and not to the set of reasons given. */
  lemma SelectionIgnoresOrder(a: seq<Requirement>, b: seq<Requirement>, terms: Terms, policy: Policy)
    requires multiset(a) == multiset(b)
    ensures SameResult(Selection(a, terms, policy), Selection(b, terms, policy))
    ensures Selection(a, terms, policy).Ok? ==> Selection(b, terms, policy) == Selection(a, terms, policy)
  {
    hide Matches, Safe, Reasons, LimitsOf;
    if LimitsOf(terms, policy).Ok? {
      var limits := LimitsOf(terms, policy).value;
      PermutedMatches(a, b, policy, limits);
      PermutedReasons(a, b, policy, limits);
      PermutedReasons(b, a, policy, limits);
      var m, n := Matches(a, policy, limits), Matches(b, policy, limits);
      assert |n| == |multiset(n)| == |multiset(m)| == |m|;
      if |m| == 1 {
        assert n[0] in multiset(n);
        assert m == [m[0]] && n == [n[0]];
      }
      var x, y := Reasons(a, policy, limits), Reasons(b, policy, limits);
      assert x != [] ==> x[0] in x;
      assert y != [] ==> y[0] in y;
    }
  }
}

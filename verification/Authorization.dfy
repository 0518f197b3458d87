/** The authorizer's own guards, the message it asks to be signed, and its envelope. */
module Authorization {
  import opened Text
  import opened Json
  import opened Amounts
  import opened Payment

  // ---------------------------------------------------------------- configuration

  predicate OwnChain(network: string, id: int) {
    (network == BASE.network && id == BASE.id) || (network == BASE_SEPOLIA.network && id == BASE_SEPOLIA.id)
  }

  /** The networks a setting names, or both if it is blank. */
  function NetworksNamed(setting: string): set<string> {
    if TrimSpace(setting) == "" then {BASE.network, BASE_SEPOLIA.network}
    else NetworksIn(Split(TrimSpace(setting), ','))
  }

  function NetworksIn(values: seq<string>): set<string> {
    set v | v in values && NormalizeNetwork(TrimSpace(v)).Some? :: NormalizeNetwork(TrimSpace(v)).value.network
  }

  lemma OneMoreNetwork(values: seq<string>, n: nat)
    requires n < |values| && NormalizeNetwork(TrimSpace(values[n])).Some?
    ensures NetworksIn(values[..n + 1]) ==
            NetworksIn(values[..n]) + {NormalizeNetwork(TrimSpace(values[n])).value.network}
  {
    hide NormalizeNetwork, TrimSpace;
    assert values[..n + 1] == values[..n] + [values[n]];
    var more := NetworksIn(values[..n + 1]);
    forall v | v in values[..n + 1] ensures v in values[..n] || v == values[n] { }
    assert values[n] in values[..n + 1];
    forall v | v in values[..n] ensures v in values[..n + 1] { }
  }

  /** CANARY_ALLOWED_NETWORKS: exactly the networks it names. */
  method AllowedNetworksFromEnv(setting: string) returns (allowed: Option<map<string, int>>)
    ensures allowed.Some? ==> allowed.value.Keys == NetworksNamed(setting) && allowed.value != map[]
    ensures allowed.Some? ==> forall n :: n in allowed.value ==> OwnChain(n, allowed.value[n])
    ensures allowed.None? <==>
            TrimSpace(setting) != ""
            && exists v :: v in Split(TrimSpace(setting), ',') && NormalizeNetwork(TrimSpace(v)).None?
  {
    hide NormalizeNetwork, TrimSpace;
    var raw := TrimSpace(setting);
    if raw == "" {
      allowed := Some(BothNetworks());
    } else {
      allowed := NetworksFrom(Split(raw, ','));
    }
  }

  function BothNetworks(): (both: map<string, int>)
    ensures both.Keys == {BASE.network, BASE_SEPOLIA.network} && both != map[]
    ensures forall n :: n in both ==> OwnChain(n, both[n])
  {
    DistinctNetworks();
    assert BASE.network in map[BASE.network := BASE.id, BASE_SEPOLIA.network := BASE_SEPOLIA.id];
    map[BASE.network := BASE.id, BASE_SEPOLIA.network := BASE_SEPOLIA.id]
  }

  /** The loop over the comma-separated names. */
  method NetworksFrom(values: seq<string>) returns (allowed: Option<map<string, int>>)
    requires values != []
    ensures allowed.Some? ==> allowed.value.Keys == NetworksIn(values) && allowed.value != map[]
    ensures allowed.Some? ==> forall n :: n in allowed.value ==> OwnChain(n, allowed.value[n])
    ensures allowed.None? <==> exists v :: v in values && NormalizeNetwork(TrimSpace(v)).None?
  {
    hide NormalizeNetwork, TrimSpace, NetworksIn;
    var networks: map<string, int> := map[];
    NoNetworks();
    for i := 0 to |values|
      invariant i > 0 ==> networks != map[]
      invariant networks.Keys == NetworksIn(values[..i])
      invariant forall n :: n in networks ==> OwnChain(n, networks[n])
      invariant forall j :: 0 <= j < i ==> NormalizeNetwork(TrimSpace(values[j])).Some?
    {
      var chain := NormalizeNetwork(TrimSpace(values[i]));
      if chain.None? {
        assert values[i] in values;
        return None;
      }
      OnlyTwoChains(TrimSpace(values[i]));
      OneMoreNetwork(values, i);
      networks := networks[chain.value.network := chain.value.id];
      assert chain.value.network in networks;
    }
    assert values[..|values|] == values;
    return Some(networks);
  }

  lemma NoNetworks()
    ensures NetworksIn([]) == {}
  {
  }

  lemma DistinctNetworks()
    ensures BASE.network != BASE_SEPOLIA.network
  {
    assert |BASE.network| != |BASE_SEPOLIA.network|;
  }

  lemma OnlyTwoChains(value: string)
    requires NormalizeNetwork(value).Some?
    ensures NormalizeNetwork(value).value == BASE || NormalizeNetwork(value).value == BASE_SEPOLIA
  {
  }

  /** Every allowed network is listed with its own chain id, as configuration leaves it. */
  predicate Configured(policy: Policy) {
    forall n :: n in policy.allowedNetworks ==> OwnChain(n, policy.allowedNetworks[n])
  }

  /** NewPaymentAuthorizer: the operator's cap, or no authorizer at all. */
  function OperatorCap(policy: Policy): Option<int> {
    PositiveInt(policy.maxAtomicAmount)
  }

  // ----------------------------------------------------------------------- guards

  datatype AuthorizeError =
    | NetworkUnsupported
    | NetworkRefused
    | AmountRefused
    | SchemeRefused
    | TransferRefused
    | AddressRefused
    | AssetRefused
    | SignerUnavailable
    | NonceUnavailable
    | SignatureRefused

  /** The guards in order; None lets the payment through. */
  function Guard(policy: Policy, max: int, requirement: Requirement): Option<AuthorizeError> {
    match NormalizeNetwork(requirement.network)
    case None => Some(NetworkUnsupported)
    case Some(chain) =>
      if chain.network !in policy.allowedNetworks || policy.allowedNetworks[chain.network] != chain.id then
        Some(NetworkRefused)
      else if PositiveInt(requirement.amount).None? || PositiveInt(requirement.amount).value > max then
        Some(AmountRefused)
      else if requirement.scheme != "exact" then Some(SchemeRefused)
      else if Transfer(requirement) != "" && Transfer(requirement) != "eip3009" then Some(TransferRefused)
      else if !IsAddress(requirement.asset) || !IsAddress(requirement.payTo) then Some(AddressRefused)
      else if AllowedAsset(policy, chain.network) != ""
              && !EqualFold(AllowedAsset(policy, chain.network), requirement.asset) then Some(AssetRefused)
      else None
  }

  // --------------------------------------------------------- what is signed and sent

  datatype Domain = Domain(name: string, version: string, chainId: int, verifyingContract: string)

  datatype TransferMessage = TransferMessage(
    from: string, to: string, value: string, validAfter: string, validBefore: string, nonce: string)

  datatype TypedData = TypedData(domain: Domain, message: TransferMessage)

  datatype Envelope = Envelope(
    accepted: Requirement, signature: string, authorization: TransferMessage, extensions: Object)

  datatype Authorized = Authorized(envelope: Envelope, payer: string)

  /** Answers of the signer, the random source and the clock. */
  datatype SignerAnswers = SignerAnswers(
    address: Option<string>, nonce: Option<string>, validBefore: string, signature: Option<string>)

  function Eip3009Domain(requirement: Requirement, network: string): (string, string) {
    var advertised := if requirement.extra.Some? then ObjectField(requirement.extra.value, "eip712Domain") else None;
    if advertised.Some? && StringField(advertised.value, "name") != "" && StringField(advertised.value, "version") != ""
    then (StringField(advertised.value, "name"), StringField(advertised.value, "version"))
    else if network == BASE.network then ("USD Coin", "2")
    else ("USDC", "2")
  }

  /** Only the "info" member of each extension is echoed to the seller. */
  function EchoExtensionInfo(extensions: Object): (echoed: Object)
    ensures forall name :: name in echoed ==>
              name in extensions && extensions[name].Obj? && echoed[name].Obj?
              && echoed[name].fields.Keys == {"info"} && "info" in extensions[name].fields
              && echoed[name].fields["info"] == extensions[name].fields["info"]
    ensures forall name ::
              name in extensions && extensions[name].Obj? && "info" in extensions[name].fields ==> name in echoed
  {
    map name | name in extensions && extensions[name].Obj? && "info" in extensions[name].fields ::
      Obj(map["info" := extensions[name].fields["info"]])
  }

  /** The outcome, and the typed data the signer was asked to sign, if it was. */
  datatype AuthorizeRun = AuthorizeRun(result: Result<Authorized, AuthorizeError>, asked: seq<TypedData>)

  function Authorize(policy: Policy, max: int, requirement: Requirement, extensions: Object, signer: SignerAnswers)
    : AuthorizeRun
  {
    var guard := Guard(policy, max, requirement);
    if guard.Some? then AuthorizeRun(Err(guard.value), [])
    else if signer.address.None? then AuthorizeRun(Err(SignerUnavailable), [])
    else if signer.nonce.None? then AuthorizeRun(Err(NonceUnavailable), [])
    else
      var chain := NormalizeNetwork(requirement.network).value;
      var (name, version) := Eip3009Domain(requirement, chain.network);
      var message := TransferMessage(signer.address.value, requirement.payTo, requirement.amount, "0",
                                     signer.validBefore, signer.nonce.value);
      var data := TypedData(Domain(name, version, chain.id, requirement.asset), message);
      if signer.signature.None? then AuthorizeRun(Err(SignatureRefused), [data])
      else
        AuthorizeRun(
          Ok(Authorized(Envelope(requirement, signer.signature.value, message, EchoExtensionInfo(extensions)),
                        signer.address.value)),
          [data])
  }

  // ------------------------------------------------- selection refines the guards

  /** On addresses the two case-insensitive comparisons agree. */
  lemma {:induction false} FoldedIffLowered(allowed: string, asset: string)
    requires IsAddress(asset)
    ensures EqualFold(allowed, asset) <==> Lower(allowed) == Lower(asset)
  {
    forall i | 0 <= i < |asset|
      ensures |allowed| == |asset| ==>
                (FoldChar(allowed[i]) == FoldChar(asset[i]) <==> LowerChar(allowed[i]) == LowerChar(asset[i]))
    {
      assert asset[i] == 'x' || IsHexDigit(asset[i]);
      if |allowed| == |asset| { FoldIsLower(allowed[i], asset[i]); }
    }
    if Lower(allowed) == Lower(asset) {
      forall i | 0 <= i < |asset| ensures LowerChar(allowed[i]) == LowerChar(asset[i]) {
        assert Lower(allowed)[i] == Lower(asset)[i];
      }
    }
  }

  lemma FoldIsLower(c: char, d: char)
    requires d == 'x' || IsHexDigit(d)
    ensures FoldChar(c) == FoldChar(d) <==> LowerChar(c) == LowerChar(d)
  {
  }

  /** Trimming or not, the operator cap is the same number. */
  lemma CapsAgree(policy: Policy, max: int)
    requires OperatorCap(policy) == Some(max)
    ensures PositiveInt(TrimSpace(policy.maxAtomicAmount)) == Some(max)
  {
    ParsedIsTrimmed(policy.maxAtomicAmount);
  }

  lemma NormalizedTwice(value: string)
    requires NormalizeNetwork(value).Some?
    ensures NormalizeNetwork(NormalizeNetwork(value).value.network) == NormalizeNetwork(value)
  {
    CanonicalNetworks();
    OnlyTwoChains(value);
  }

  lemma CanonicalNetworks()
    ensures NormalizeNetwork(BASE.network) == Some(BASE)
    ensures NormalizeNetwork(BASE_SEPOLIA.network) == Some(BASE_SEPOLIA)
  {
    hide Lower, TrimSpace;
    AlreadyLower(BASE.network);
    AlreadyLower(BASE_SEPOLIA.network);
  }

  lemma AlreadyLower(s: string)
    requires s != "" && forall i :: 0 <= i < |s| ==> s[i] == ':' || s[i] == '-' || IsDigit(s[i]) || 'a' <= s[i] <= 'z'
    ensures TrimSpace(s) == s && Lower(s) == s
  {
    hide Lower;
    assert !IsSpace(s[0]) && !IsSpace(s[|s| - 1]);
    forall i | 0 <= i < |s| ensures LowerChar(s[i]) == s[i] { }
    assert Lower(s) == s;
  }

  /** A safe option passes every guard but one: the policy must list its network under
      the network's own chain id, which selection does not look at. */
  lemma SafeOptionsPassTheGuards(requirement: Requirement, policy: Policy, limits: Limits, max: int)
    requires Safe(requirement, policy, limits) && limits.systemMax == max
    ensures var chain := NormalizeNetwork(requirement.network).value;
            Guard(policy, max, Normalized(requirement)) ==
            if policy.allowedNetworks[chain.network] == chain.id then None else Some(NetworkRefused)
  {
    hide NormalizeNetwork, ParseInt, Lower, EqualFold, IsAddress;
    NormalizedTwice(requirement.network);
    FoldedIffLowered(AllowedAsset(policy, NormalizeNetwork(requirement.network).value.network), requirement.asset);
  }

  /** Whatever SelectPayment returns under a configured policy, the authorizer of the
      same policy accepts. */
  lemma SelectedOptionsAreAuthorized(requirements: seq<Requirement>, terms: Terms, policy: Policy, max: int)
    requires Selection(requirements, terms, policy).Ok?
    requires OperatorCap(policy) == Some(max) && Configured(policy)
    ensures Guard(policy, max, Selection(requirements, terms, policy).value) == None
  {
    hide Safe, Matches, Reasons, Guard;
    var limits := LimitsOf(terms, policy).value;
    SelectionIsExact(requirements, terms, policy);
    var i: nat :| OnlySafe(requirements, i, policy, limits);
    CapsAgree(policy, max);
    SafeOptionsPassTheGuards(requirements[i], policy, limits, max);
    SafeNetwork(requirements[i], policy, limits);
  }

  lemma SafeNetwork(requirement: Requirement, policy: Policy, limits: Limits)
    requires Safe(requirement, policy, limits) && Configured(policy)
    ensures NormalizeNetwork(requirement.network).Some?
    ensures var chain := NormalizeNetwork(requirement.network).value;
            chain.network in policy.allowedNetworks && policy.allowedNetworks[chain.network] == chain.id
  {
    OnlyTwoChains(requirement.network);
    DistinctNetworks();
  }

  /** What is signed and sent for a selection: one signing request; the seller's payee,
      asset and price untouched; the price within both caps; the chain of the option. */
  lemma SignedTermsAreTheSelectedTerms(requirements: seq<Requirement>, terms: Terms, policy: Policy, max: int,
                                       i: nat, extensions: Object, signer: SignerAnswers)
    requires Selection(requirements, terms, policy).Ok?
    requires OperatorCap(policy) == Some(max) && Configured(policy)
    requires OnlySafe(requirements, i, policy, LimitsOf(terms, policy).value)
    requires signer.address.Some? && signer.nonce.Some?
    ensures var option := requirements[i];
            var chain := NormalizeNetwork(option.network);
            var run := Authorize(policy, max, Selection(requirements, terms, policy).value, extensions, signer);
            && chain.Some? && |run.asked| == 1
            && run.asked[0].domain.chainId == chain.value.id
            && run.asked[0].domain.verifyingContract == option.asset
            && run.asked[0].message.to == option.payTo
            && run.asked[0].message.value == option.amount
            && run.asked[0].message.from == signer.address.value
            && (run.result.Ok? <==> signer.signature.Some?)
            && (run.result.Ok? ==>
                  && run.result.value.envelope.accepted == option.(network := chain.value.network)
                  && run.result.value.envelope.authorization == run.asked[0].message
                  && run.result.value.payer == run.asked[0].message.from)
    ensures var amount := ParseInt(requirements[i].amount);
            && amount.Some? && 0 < amount.value <= max
            && amount.value <= ParseInt(TrimSpace(terms.maxPaymentAtomic)).value
  {
    hide Matches, Reasons, Guard, NormalizeNetwork, Eip3009Domain, EchoExtensionInfo, Lower, IsAddress, TrimSpace;
    SelectionIsExact(requirements, terms, policy);
    SelectedOptionsAreAuthorized(requirements, terms, policy, max);
    CapsAgree(policy, max);
    NormalizedTwice(requirements[i].network);
  }
}

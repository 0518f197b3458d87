/** Payment terms in the words of the challenge, the request and the policy: what is read
    from which member, which caps and filters bind, and what goes into the signature. */
module PaymentTerms {
  import opened Text
  import opened Json
  import opened Amounts
  import opened Payment
  import opened Authorization
  import Headers

  // ------------------------------------------------------------ reading an option

  /** The text of a string member; absent and other members read as empty. */
  predicate ReadsText(item: Object, key: string, text: string) {
    text == if key in item && item[key].Str? then item[key].text else ""
  }

  /** The member's text, if it is a string or a number. */
  function NumberText(item: Object, key: string): Option<string> {
    if key !in item then None
    else if item[key].Str? then Some(item[key].text)
    else if item[key].Num? then Some(item[key].literal)
    else None
  }

  predicate Denotes(text: Option<string>, n: nat) {
    text.Some? && ParseInt(text.value) == Some(n)
  }

  predicate IsPrice(text: Option<string>) {
    text.Some? && ParseInt(text.value).Some? && ParseInt(text.value).value >= 0
  }

  /** "amount" if it denotes a non-negative integer, otherwise "maxAmountRequired". */
  function PriceText(item: Object): Option<string> {
    if IsPrice(NumberText(item, "amount")) then NumberText(item, "amount") else NumberText(item, "maxAmountRequired")
  }

  predicate ReadsTimeout(item: Object, seconds: int) {
    if "maxTimeoutSeconds" !in item then seconds == 60
    else 1 <= seconds <= 86_400 && Denotes(NumberText(item, "maxTimeoutSeconds"), seconds)
  }

  predicate Reads(item: Object, option: Requirement) {
    && ReadsText(item, "scheme", option.scheme) && ReadsText(item, "network", option.network)
    && ReadsText(item, "asset", option.asset) && ReadsText(item, "payTo", option.payTo)
    && Canonical(option.amount) && IsPrice(PriceText(item))
    && ParseInt(option.amount) == ParseInt(PriceText(item).value)
    && ReadsTimeout(item, option.maxTimeoutSeconds)
    && option.extra == (if "extra" in item && item["extra"].Obj? then Some(item["extra"].fields) else None)
  }

  predicate Usable(item: Object) {
    && IsPrice(PriceText(item))
    && ("maxTimeoutSeconds" in item ==>
          exists seconds :: 1 <= seconds <= 86_400 && Denotes(NumberText(item, "maxTimeoutSeconds"), seconds))
  }

  lemma TextsAre(item: Object, key: string)
    ensures NumberText(item, key) == AmountText(Field(item, key))
    ensures ReadsText(item, key, StringField(item, key))
  {
  }

  lemma PricesAre(item: Object)
    ensures AmountOf(item).Some? <==> IsPrice(PriceText(item))
    ensures AmountOf(item).Some? ==>
              Canonical(AmountOf(item).value) && ParseInt(AmountOf(item).value) == ParseInt(PriceText(item).value)
  {
    hide AtomicString, ParseInt, Canonical;
    TextsAre(item, "amount");
    TextsAre(item, "maxAmountRequired");
    AmountsAreExact(Field(item, "amount"));
    AmountsAreExact(Field(item, "maxAmountRequired"));
  }

  lemma TimeoutsAre(item: Object)
    ensures TimeoutOf(item).Some? ==> ReadsTimeout(item, TimeoutOf(item).value)
    ensures TimeoutOf(item).None? <==>
            "maxTimeoutSeconds" in item
            && !exists seconds :: 1 <= seconds <= 86_400 && Denotes(NumberText(item, "maxTimeoutSeconds"), seconds)
  {
    hide IntegerValue, ParseInt;
    TextsAre(item, "maxTimeoutSeconds");
    IntegersAre(Field(item, "maxTimeoutSeconds"));
    if TimeoutOf(item).Some? && "maxTimeoutSeconds" in item {
      assert Denotes(NumberText(item, "maxTimeoutSeconds"), TimeoutOf(item).value);
    }
  }

  lemma OptionsAre(item: Object)
    ensures UsableOption(item) <==> Usable(item)
    ensures UsableOption(item) ==> Reads(item, OptionOf(item))
  {
    hide AmountOf, TimeoutOf, Canonical, ParseInt, PriceText, ReadsTimeout;
    PricesAre(item);
    TimeoutsAre(item);
    TextsAre(item, "scheme");
    TextsAre(item, "network");
    TextsAre(item, "asset");
    TextsAre(item, "payTo");
  }

  /** A challenge is accepted iff it is decoded, of version 2, not empty and usable item by
      item; and every accepted option says what the raw item at its place says: scheme,
      network, asset and payee each from the member of that name, the price and the
      timeout as the numbers they denote. */
  lemma ChallengesAreRead(decoded: Option<RawChallenge>)
    ensures Parsed(decoded).Ok? <==>
            decoded.Some? && decoded.value.version == 2 && decoded.value.accepts != []
            && forall i :: 0 <= i < |decoded.value.accepts| ==> Usable(decoded.value.accepts[i])
    ensures Parsed(decoded).Ok? ==>
              var raw, challenge := decoded.value, Parsed(decoded).value;
              && challenge.version == 2 && challenge.extensions == raw.extensions
              && challenge.resource == (match raw.resource
                                        case Str(s) => s
                                        case Obj(m) => if "url" in m && m["url"].Str? then m["url"].text else ""
                                        case _ => "")
              && |challenge.accepts| == |raw.accepts|
              && forall i :: 0 <= i < |raw.accepts| ==> Reads(raw.accepts[i], challenge.accepts[i])
  {
    hide UsableOption, Usable, OptionOf, Reads;
    if decoded.Some? {
      var items := decoded.value.accepts;
      forall i | 0 <= i < |items|
        ensures UsableOption(items[i]) <==> Usable(items[i])
        ensures UsableOption(items[i]) ==> Reads(items[i], OptionOf(items[i]))
      {
        OptionsAre(items[i]);
      }
      if forall i :: 0 <= i < |items| ==> UsableOption(items[i]) { NoFault(items); }
    }
  }

  /** A header that is not blank is the challenge and asks for PAYMENT-SIGNATURE; without
      one the body is, and X-PAYMENT is asked for. */
  lemma TransportsAre(header: string, body: seq<Headers.Byte>, decode: seq<Headers.Byte> -> Option<RawChallenge>)
    ensures ParseResponse(header, body, decode).Ok? ==>
              var received := ParseResponse(header, body, decode).value;
              if TrimSpace(header) == "" then
                && Parsed(decode(body)) == Ok(received.challenge)
                && received.transport == "json-body" && received.authorizationHeader == "X-PAYMENT"
              else
                && Headers.DecodePaymentHeader(TrimSpace(header)).Some?
                && Parsed(decode(Headers.DecodePaymentHeader(TrimSpace(header)).value)) == Ok(received.challenge)
                && received.transport == "PAYMENT-REQUIRED" && received.authorizationHeader == "PAYMENT-SIGNATURE"
  {
    hide Parsed, TrimSpace, Headers.DecodePaymentHeader;
  }

  // --------------------------------------------------------- networks and addresses

  /** The names of the two networks, whatever their case and the white space around. */
  lemma NetworksAre(value: string)
    ensures NormalizeNetwork(value) ==
            if Lower(TrimSpace(value)) in {"base", "eip155:8453", "8453"} then Some(Chain("eip155:8453", 8453))
            else if Lower(TrimSpace(value)) in {"base-sepolia", "eip155:84532", "84532"} then
              Some(Chain("eip155:84532", 84532))
            else None
  {
    hide Lower, TrimSpace;
  }

  const HEX := "0123456789abcdefABCDEF"

  lemma HexDigitsAre(c: char)
    ensures IsHexDigit(c) <==> c in HEX
  {
    HexAt();
    if IsHexDigit(c) {
      var i := if c <= '9' then c as int - 48 else if c <= 'F' then c as int - 49 else c as int - 87;
      assert HEX[i] == c;
    }
  }

  lemma HexAt()
    ensures |HEX| == 22
    ensures forall i :: 0 <= i < 10 ==> HEX[i] == (48 + i) as char
    ensures forall i :: 10 <= i < 16 ==> HEX[i] == (87 + i) as char
    ensures forall i :: 16 <= i < 22 ==> HEX[i] == (49 + i) as char
  {
  }

  /** An address is "0x" and forty hexadecimal digits of either case. */
  lemma AddressesAre(s: string)
    ensures IsAddress(s) <==> |s| == 42 && s[..2] == "0x" && forall i :: 2 <= i < |s| ==> s[i] in HEX
  {
    hide IsHexDigit;
    forall c: char ensures IsHexDigit(c) <==> c in HEX { HexDigitsAre(c); }
    if |s| == 42 { assert s[..2] == [s[0], s[1]]; }
  }

  // ----------------------------------------------------------------- caps and filters

  predicate IsCap(text: string, n: int) {
    n > 0 && ParseInt(TrimSpace(text)) == Some(n)
  }

  /** A cap that is no positive integer refuses the payment, and so do a request cap above
      the operator's and a filter that names no supported network; otherwise both caps
      bind, and the filters as given, a blank one not at all. */
  lemma LimitsExactly(terms: Terms, policy: Policy)
    ensures LimitsOf(terms, policy) == Err(RequestCapInvalid) <==> !exists n :: IsCap(terms.maxPaymentAtomic, n)
    ensures LimitsOf(terms, policy).Ok? <==>
            && (exists m, n :: IsCap(terms.maxPaymentAtomic, m) && IsCap(policy.maxAtomicAmount, n) && m <= n)
            && (TrimSpace(terms.paymentNetwork) == "" || NormalizeNetwork(terms.paymentNetwork).Some?)
    ensures LimitsOf(terms, policy) == Err(OperatorCapInvalid) <==>
            (exists m :: IsCap(terms.maxPaymentAtomic, m)) && !exists n :: IsCap(policy.maxAtomicAmount, n)
    ensures LimitsOf(terms, policy) == Err(RequestCapTooHigh) <==>
            exists m, n :: IsCap(terms.maxPaymentAtomic, m) && IsCap(policy.maxAtomicAmount, n) && m > n
    ensures LimitsOf(terms, policy).Err? ==>
              LimitsOf(terms, policy).error in
              {RequestCapInvalid, OperatorCapInvalid, RequestCapTooHigh, WantedNetworkUnsupported}
    ensures LimitsOf(terms, policy).Ok? ==>
              var limits := LimitsOf(terms, policy).value;
              && IsCap(terms.maxPaymentAtomic, limits.requestMax) && IsCap(policy.maxAtomicAmount, limits.systemMax)
              && limits.network == (if TrimSpace(terms.paymentNetwork) == "" then ""
                                    else NormalizeNetwork(terms.paymentNetwork).value.network)
              && limits.asset == Lower(TrimSpace(terms.paymentAsset))
  {
    hide ParseInt, NormalizeNetwork, TrimSpace, Lower;
    var m, n := PositiveInt(TrimSpace(terms.maxPaymentAtomic)), PositiveInt(TrimSpace(policy.maxAtomicAmount));
    assert m.Some? ==> IsCap(terms.maxPaymentAtomic, m.value);
    assert n.Some? ==> IsCap(policy.maxAtomicAmount, n.value);
  }

  /** The option meets the caller's network and asset filters; a blank filter is met by
      every option. */
  predicate MeetsFilters(terms: Terms, network: string, asset: string) {
    && (TrimSpace(terms.paymentNetwork) != "" ==>
          && NormalizeNetwork(terms.paymentNetwork).Some? && NormalizeNetwork(network).Some?
          && NormalizeNetwork(terms.paymentNetwork).value == NormalizeNetwork(network).value)
    && (TrimSpace(terms.paymentAsset) != "" ==> Lower(asset) == Lower(TrimSpace(terms.paymentAsset)))
  }

  predicate TransferAllowed(extra: Option<Object>) {
    extra.Some? && "assetTransferMethod" in extra.value && extra.value["assetTransferMethod"].Str? ==>
      extra.value["assetTransferMethod"].text in {"", "eip3009"}
  }

  /** An asset configured for the network is the only one allowed there. */
  predicate AssetAllowed(policy: Policy, network: string, asset: string) {
    network in policy.allowedAssets && policy.allowedAssets[network] != "" ==>
      Lower(asset) == Lower(policy.allowedAssets[network])
  }

  lemma SameNetworkSameChain(v: string, w: string)
    requires NormalizeNetwork(v).Some? && NormalizeNetwork(w).Some?
    ensures NormalizeNetwork(v).value.network == NormalizeNetwork(w).value.network <==>
            NormalizeNetwork(v).value == NormalizeNetwork(w).value
    ensures NormalizeNetwork(v).value.network != ""
  {
    OnlyTwoChains(v);
    OnlyTwoChains(w);
    DistinctNetworks();
  }

  lemma LowerOfNothing(s: string)
    ensures Lower(s) == "" <==> s == ""
  {
  }

  /** Safety in full, from the option, the request's terms and the policy alone. */
  lemma SafeExactly(option: Requirement, terms: Terms, policy: Policy)
    requires LimitsOf(terms, policy).Ok?
    ensures Safe(option, policy, LimitsOf(terms, policy).value) <==>
            && NormalizeNetwork(option.network).Some?
            && NormalizeNetwork(option.network).value.network in policy.allowedNetworks
            && MeetsFilters(terms, option.network, option.asset)
            && option.scheme == "exact" && TransferAllowed(option.extra)
            && IsAddress(option.asset) && IsAddress(option.payTo)
            && AssetAllowed(policy, NormalizeNetwork(option.network).value.network, option.asset)
            && exists n, m, k :: ParseInt(option.amount) == Some(n) && 0 < n <= m && n <= k
                                 && IsCap(terms.maxPaymentAtomic, m) && IsCap(policy.maxAtomicAmount, k)
  {
    hide ParseInt, NormalizeNetwork, TrimSpace, Lower, IsAddress, LimitsOf;
    LimitsExactly(terms, policy);
    LowerOfNothing(TrimSpace(terms.paymentAsset));
    if NormalizeNetwork(option.network).Some? && NormalizeNetwork(terms.paymentNetwork).Some? {
      SameNetworkSameChain(terms.paymentNetwork, option.network);
    }
    var limits := LimitsOf(terms, policy).value;
    assert ParseInt(option.amount).Some? && 0 < ParseInt(option.amount).value <= limits.requestMax
           && ParseInt(option.amount).value <= limits.systemMax ==>
             IsCap(terms.maxPaymentAtomic, limits.requestMax) && IsCap(policy.maxAtomicAmount, limits.systemMax);
  }

  /** Whatever is selected is on the network and in the asset the caller asked for, and is
      named by the network's own name. */
  lemma SelectionMeetsTheFilters(options: seq<Requirement>, terms: Terms, policy: Policy)
    requires Selection(options, terms, policy).Ok?
    ensures var chosen := Selection(options, terms, policy).value;
            && MeetsFilters(terms, chosen.network, chosen.asset)
            && NormalizeNetwork(chosen.network).Some?
            && chosen.network == NormalizeNetwork(chosen.network).value.network
            && (TrimSpace(terms.paymentNetwork) != "" ==>
                  chosen.network == NormalizeNetwork(terms.paymentNetwork).value.network)
  {
    hide ParseInt, NormalizeNetwork, TrimSpace, Lower, IsAddress, LimitsOf, Safe, Matches, Reasons;
    SelectionIsExact(options, terms, policy);
    var i: nat :| OnlySafe(options, i, policy, LimitsOf(terms, policy).value);
    SafeExactly(options[i], terms, policy);
    NormalizedTwice(options[i].network);
  }

  /** Without filters nothing is passed over: "no option matches" is then said of an empty
      offer only. */
  lemma BlankFiltersExcludeNothing(options: seq<Requirement>, terms: Terms, policy: Policy)
    requires TrimSpace(terms.paymentNetwork) == "" && TrimSpace(terms.paymentAsset) == ""
    ensures Selection(options, terms, policy) == Err(NothingMatches) ==> options == []
  {
    hide ParseInt, NormalizeNetwork, TrimSpace, Lower, LimitsOf, Judged, Matches, Reasons;
    LimitsExactly(terms, policy);
    LowerOfNothing(TrimSpace(terms.paymentAsset));
    FailuresExactly(options, terms, policy);
    if LimitsOf(terms, policy).Ok? && options != [] && Selection(options, terms, policy) == Err(NothingMatches) {
      SkippedIsFiltered(options[0], policy, LimitsOf(terms, policy).value);
    }
  }

  // -------------------------------------------------------------- signing and sending

  /** What the seller advertises for the signature's domain, if both parts are given. */
  predicate Advertises(extra: Option<Object>, name: string, version: string) {
    && extra.Some? && "eip712Domain" in extra.value && extra.value["eip712Domain"].Obj?
    && var domain := extra.value["eip712Domain"].fields;
       && "name" in domain && domain["name"] == Str(name) && name != ""
       && "version" in domain && domain["version"] == Str(version) && version != ""
  }

  /** The domain is the advertised one, or the token's own name on the option's chain. */
  lemma DomainsAre(option: Requirement, network: string)
    ensures forall name, version :: Advertises(option.extra, name, version) ==>
                                      Eip3009Domain(option, network) == (name, version)
    ensures (forall name, version :: !Advertises(option.extra, name, version)) ==>
              Eip3009Domain(option, network) == (if network == "eip155:8453" then "USD Coin" else "USDC", "2")
  {
    var (name, version) := Eip3009Domain(option, network);
    if option.extra.Some? && ObjectField(option.extra.value, "eip712Domain").Some? {
      var domain := ObjectField(option.extra.value, "eip712Domain").value;
      if StringField(domain, "name") != "" && StringField(domain, "version") != "" {
        assert Advertises(option.extra, StringField(domain, "name"), StringField(domain, "version"));
      }
    }
  }

  /** The envelope that is sent holds the option as accepted, the signer's signature, and
      the very message that was signed: from the signer, to the payee, valid from the start
      to the given time, under the given nonce. */
  lemma EnvelopesAre(policy: Policy, max: int, option: Requirement, extensions: Object, signer: SignerAnswers)
    requires Authorize(policy, max, option, extensions, signer).result.Ok?
    ensures var run := Authorize(policy, max, option, extensions, signer);
            var envelope := run.result.value.envelope;
            && signer.address.Some? && signer.nonce.Some? && signer.signature.Some?
            && envelope.accepted == option && envelope.signature == signer.signature.value
            && envelope.extensions == EchoExtensionInfo(extensions)
            && envelope.authorization == TransferMessage(signer.address.value, option.payTo, option.amount, "0",
                                                         signer.validBefore, signer.nonce.value)
            && |run.asked| == 1 && run.asked[0].message == envelope.authorization
            && NormalizeNetwork(option.network).Some?
            && var (name, version) := Eip3009Domain(option, NormalizeNetwork(option.network).value.network);
               run.asked[0].domain == Domain(name, version, NormalizeNetwork(option.network).value.id, option.asset)
  {
    hide NormalizeNetwork, Eip3009Domain, EchoExtensionInfo, IsAddress, ParseInt, EqualFold;
  }

  /** The authorizer's guards, taken together. */
  lemma GuardsExactly(policy: Policy, max: int, option: Requirement)
    ensures Guard(policy, max, option) == None <==>
            && NormalizeNetwork(option.network).Some?
            && var chain := NormalizeNetwork(option.network).value;
               && chain.network in policy.allowedNetworks && policy.allowedNetworks[chain.network] == chain.id
               && (exists n :: ParseInt(option.amount) == Some(n) && 0 < n <= max)
               && option.scheme == "exact" && TransferAllowed(option.extra)
               && IsAddress(option.asset) && IsAddress(option.payTo)
               && AssetAllowed(policy, chain.network, option.asset)
  {
    hide NormalizeNetwork, ParseInt, Lower, EqualFold, IsAddress;
    if NormalizeNetwork(option.network).Some? && IsAddress(option.asset) {
      FoldedIffLowered(AllowedAsset(policy, NormalizeNetwork(option.network).value.network), option.asset);
    }
  }

  // ------------------------------------------------------------- why it is refused

  /** What a reason says of the option it was given for: that this is wrong with it, and
      that nothing tested before is. */
  ghost predicate Justified(reason: Reason, option: Requirement, terms: Terms, policy: Policy) {
    var chain := NormalizeNetwork(option.network);
    if reason.UnsupportedNetwork? then chain.None? && reason.value == option.network
    else
      && chain.Some?
      && var network := chain.value.network;
         var wanted := TrimSpace(terms.paymentNetwork) == ""
                       || NormalizeNetwork(terms.paymentNetwork) == chain;
         var admitted := network in policy.allowedNetworks && wanted && option.scheme == "exact"
                         && TransferAllowed(option.extra);
         var addressed := admitted && IsAddress(option.asset) && IsAddress(option.payTo)
                          && MeetsFilters(terms, option.network, option.asset);
         match reason
         case NetworkNotAllowed(named) => named == network && network !in policy.allowedNetworks
         case UnsupportedScheme => network in policy.allowedNetworks && wanted && option.scheme != "exact"
         case UnsupportedTransfer(transfer) =>
           && network in policy.allowedNetworks && wanted && option.scheme == "exact"
           && option.extra.Some? && "assetTransferMethod" in option.extra.value
           && option.extra.value["assetTransferMethod"] == Str(transfer) && transfer != "" && transfer != "eip3009"
         case InvalidAddress => admitted && !(IsAddress(option.asset) && IsAddress(option.payTo))
         case AssetNotConfigured(named) => addressed && named == network && !AssetAllowed(policy, network, option.asset)
         case AmountInvalid =>
           && addressed && AssetAllowed(policy, network, option.asset)
           && !exists n :: ParseInt(option.amount) == Some(n) && n > 0
         case AmountOverCap =>
           && addressed && AssetAllowed(policy, network, option.asset)
           && exists n, m :: ParseInt(option.amount) == Some(n) && n > 0 && n > m
                             && (IsCap(terms.maxPaymentAtomic, m) || IsCap(policy.maxAtomicAmount, m))
         case _ => false
  }

  /** Every reason for passing an option over is true of that option. */
  lemma ReasonsAreTrue(option: Requirement, terms: Terms, policy: Policy, reason: Reason)
    requires LimitsOf(terms, policy).Ok? && Judged(option, policy, LimitsOf(terms, policy).value) == Reject(reason)
    ensures Justified(reason, option, terms, policy)
  {
    hide ParseInt, NormalizeNetwork, TrimSpace, Lower, IsAddress, LimitsOf;
    LimitsExactly(terms, policy);
    var limits := LimitsOf(terms, policy).value;
    LowerOfNothing(TrimSpace(terms.paymentAsset));
    if NormalizeNetwork(option.network).Some? && NormalizeNetwork(terms.paymentNetwork).Some? {
      SameNetworkSameChain(terms.paymentNetwork, option.network);
    }
    if reason.AmountOverCap? {
      var n := ParseInt(option.amount).value;
      assert n > limits.requestMax || n > limits.systemMax;
      assert IsCap(terms.maxPaymentAtomic, limits.requestMax) && IsCap(policy.maxAtomicAmount, limits.systemMax);
    }
  }

  /** An option is passed over in silence iff it is on an allowed network and either not on
      the one asked for, or sound but for not being in the asset asked for. */
  lemma SkippedExactly(option: Requirement, terms: Terms, policy: Policy)
    requires LimitsOf(terms, policy).Ok?
    ensures Judged(option, policy, LimitsOf(terms, policy).value).Skip? <==>
            && NormalizeNetwork(option.network).Some?
            && NormalizeNetwork(option.network).value.network in policy.allowedNetworks
            && var wanted := TrimSpace(terms.paymentNetwork) == ""
                             || NormalizeNetwork(terms.paymentNetwork) == NormalizeNetwork(option.network);
               !wanted
               || (option.scheme == "exact" && TransferAllowed(option.extra)
                   && IsAddress(option.asset) && IsAddress(option.payTo)
                   && TrimSpace(terms.paymentAsset) != ""
                   && Lower(option.asset) != Lower(TrimSpace(terms.paymentAsset)))
  {
    hide ParseInt, NormalizeNetwork, TrimSpace, Lower, IsAddress, LimitsOf;
    LimitsExactly(terms, policy);
    LowerOfNothing(TrimSpace(terms.paymentAsset));
    if NormalizeNetwork(option.network).Some? && NormalizeNetwork(terms.paymentNetwork).Some? {
      SameNetworkSameChain(terms.paymentNetwork, option.network);
    }
  }

  /** What the authorizer says when it refuses: that this is so, and that no guard before
      it failed. */
  ghost predicate Refuses(error: AuthorizeError, policy: Policy, max: int, option: Requirement) {
    var chain := NormalizeNetwork(option.network);
    if error.NetworkUnsupported? then chain.None?
    else
      && chain.Some?
      && var listed := chain.value.network in policy.allowedNetworks
                       && policy.allowedNetworks[chain.value.network] == chain.value.id;
         var priced := listed && exists n :: ParseInt(option.amount) == Some(n) && 0 < n <= max;
         var typed := priced && option.scheme == "exact";
         var sent := typed && TransferAllowed(option.extra);
         match error
         case NetworkRefused => !listed
         case AmountRefused => listed && !priced
         case SchemeRefused => priced && option.scheme != "exact"
         case TransferRefused => typed && !TransferAllowed(option.extra)
         case AddressRefused => sent && !(IsAddress(option.asset) && IsAddress(option.payTo))
         case AssetRefused =>
           && sent && IsAddress(option.asset) && IsAddress(option.payTo)
           && !AssetAllowed(policy, chain.value.network, option.asset)
         case _ => false
  }

  lemma RefusalsAreTrue(policy: Policy, max: int, option: Requirement)
    requires Guard(policy, max, option).Some?
    ensures Refuses(Guard(policy, max, option).value, policy, max, option)
  {
    hide NormalizeNetwork, ParseInt, Lower, EqualFold, IsAddress;
    if NormalizeNetwork(option.network).Some? && IsAddress(option.asset) {
      FoldedIffLowered(AllowedAsset(policy, NormalizeNetwork(option.network).value.network), option.asset);
    }
  }

  /** Once the guards pass, only what is missing among the signer's answers refuses, the
      address before the nonce before the signature; and without the first two nothing is
      put up for signature. */
  lemma SignerFailuresAre(policy: Policy, max: int, option: Requirement, extensions: Object, signer: SignerAnswers)
    requires Guard(policy, max, option) == None
    ensures var run := Authorize(policy, max, option, extensions, signer);
            && (run.result == Err(SignerUnavailable) <==> signer.address.None?)
            && (run.result == Err(NonceUnavailable) <==> signer.address.Some? && signer.nonce.None?)
            && (run.result == Err(SignatureRefused) <==>
                  signer.address.Some? && signer.nonce.Some? && signer.signature.None?)
            && (run.asked == [] <==> signer.address.None? || signer.nonce.None?)
  {
    hide Eip3009Domain, EchoExtensionInfo;
    GuardsExactly(policy, max, option);
  }

  /** The fault reported for a challenge: not JSON, not version 2, no options, or the first
      unusable option by its number from one, its price before its timeout. */
  lemma FaultsAre(decoded: Option<RawChallenge>)
    requires Parsed(decoded).Err?
    ensures match Parsed(decoded).error
            case NotJson => decoded.None?
            case UnsupportedVersion(version) =>
              decoded.Some? && decoded.value.version == version && version != 2
            case NoOptions => decoded.Some? && decoded.value.version == 2 && decoded.value.accepts == []
            case InvalidAmount(n) =>
              && decoded.Some? && decoded.value.version == 2 && 1 <= n <= |decoded.value.accepts|
              && (forall i :: 0 <= i < n - 1 ==> Usable(decoded.value.accepts[i]))
              && !IsPrice(PriceText(decoded.value.accepts[n - 1]))
            case InvalidTimeout(n) =>
              && decoded.Some? && decoded.value.version == 2 && 1 <= n <= |decoded.value.accepts|
              && (forall i :: 0 <= i < n - 1 ==> Usable(decoded.value.accepts[i]))
              && IsPrice(PriceText(decoded.value.accepts[n - 1])) && !Usable(decoded.value.accepts[n - 1])
            case InvalidHeader => false
  {
    hide UsableOption, Usable, IsPrice, PriceText, AmountOf;
    if decoded.Some? {
      var items := decoded.value.accepts;
      forall i | 0 <= i < |items|
        ensures UsableOption(items[i]) <==> Usable(items[i])
        ensures AmountOf(items[i]).Some? <==> IsPrice(PriceText(items[i]))
      {
        OptionsAre(items[i]);
        PricesAre(items[i]);
      }
    }
  }
}

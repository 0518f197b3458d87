# Canary402, modelled and proved in Dafny

Canary402 audits paid HTTP endpoints: it reviews a seller's public specification, probes
the endpoint for an x402 payment challenge, may make one strictly budgeted payment, and
publishes a report with a verdict. This project models its deterministic engine and proves
what the engine is relied on for. `dafny verify dfyconfig.toml` checks everything.

The network, the signer, the evaluator, the clock and the random source appear as answers
a run is given: every theorem holds for all of them. Text is a sequence of Unicode code
points (their order is the byte order of UTF-8, so sorting agrees), integers are unbounded
as `big.Int` is, and JSON documents start from the decoded tree with number literals kept
as text.

| module | what it models |
|---|---|
| `Text`, `Json` | strings, sorting, splitting; JSON trees and the canonical sorted-key printer |
| `Inference`, `InferredForm`, `Acceptance`, `SchemaSize` | schema inference, its result spelled out, an independent JSON Schema validator, what inference keeps and forgets, its size bound |
| `References`, `Concreteness` | local `$ref` resolution, JSON Pointer (RFC 6901), the fuelled concreteness test against the least fixed point |
| `Paths`, `KeySearch` | path templates, choice of the OpenAPI path, bounded key search |
| `Amounts`, `Headers`, `Payment`, `Authorization`, `PaymentTerms` | atomic amounts, four-way base64 (RFC 4648), challenges, selection, the authorizer's own guards and what is signed, and all of it in terms of the raw members |
| `Checks`, `SpecReview`, `Readiness`, `Contract` | findings, the specification review as the source's mutable object, the READY status, and both checks and every finding in terms of the raw members |
| `Audit`, `Requests`, `Verdicts` | one audit as the source's steps over a mutable report, its exits, ledger, log, tier, score and verdict |
| `Samples` | concrete documents and runs, paid and unpaid, that show the theorems are about something |
| `Store` | publication of reports by concurrent handlers with crashes and readers |

Where the source changes something in place the model is a class whose methods are proved
against a specification function (`SpecInspection`, `AuditReport`, `Auditor`, `FileStore`);
loops over local values are methods with invariants; recursions are functions; the
concurrent store is a state machine over its file-system steps. Two of the source's own
expectations hold only under a condition, and that condition is proved exactly:

* **`oneOf` in inferred schemas.** Read as JSON Schema defines it (exactly one variant,
  section 10.2.1.3 of JSON Schema Core draft 2020-12), a schema inferred from `[1, 1.5]`
  rejects its own example, because 1 is both an integer and a number. Read as "at least
  one", soundness is unconditional within the inference limits. The validator takes the
  reading as a parameter; `AcceptsIffFits` says for each reading which values any inferred
  schema accepts, `ExactIffNoOverlap` and `ScalarArraysExactly` when an array satisfies its
  own schema under the strict one, `DroppedKeysAreRefused` and `LongArraysExactly` what
  happens beyond the limits.
* **READY without a challenge.** A review can be READY although no valid challenge was
  seen (the missing challenge is only an "info" finding), and then its contract check does
  not pass (`Samples.ReadyWithoutChallenge`). READY and the checks agree if and only if a
  challenge was seen; the verdict is never affected, because such a run has already failed.

## Model

| member | source | states |
|---|---|---|
| Json.MarshalInjective | internal/canary/specsmith.go:651-652 | the canonical sorted-key encoding used as a deduplication key never gives two different values the same text |
| Json.WriteUnique | internal/canary/specsmith.go:651-652 | printed values are self-delimiting: a text begins with the encoding of at most one value, so the printer has an inverse |
| Json.EscapesAre | internal/canary/specsmith.go:651-652 | the exact escapes inside strings, and which characters stand for themselves |
| Json.ArrayTexts | internal/canary/specsmith.go:651-652 | arrays are written with brackets and commas |
| Json.MembersText | internal/canary/specsmith.go:651-652 | objects are written with the lesser key first |
| Json.PlainIffNoParts | internal/canary/specsmith.go:672-676 | a literal is plain iff it has neither fraction nor exponent, and iff none of `.`, `e`, `E` occurs in it, whatever its sign |
| Text.LessByFirstDifference | internal/canary/specsmith.go:632 | the order keys and encodings are sorted by: a proper prefix first, otherwise the first difference |
| Inference.VariantCount | internal/canary/specsmith.go:648-655 | the map keyed by encodings has exactly as many entries as there are distinct item schemas |
| Inference.OrderedLists | internal/canary/specsmith.go:659-669 | the emitted variants list every distinct item schema, once each, and nothing else |
| Inference.VariantsAreOrdered | internal/canary/specsmith.go:659-669 | whichever schema each key ended up holding and in whatever order the map was filled, reading it in key order gives the one canonical list for the set of item schemas |
| Inference.SchemaForValue | internal/canary/specsmith.go:621-686 | the recursive inference, loops and maps included, computes `Infer`, which depends only on the value and the depth |
| Inference.SchemaForObject | internal/canary/specsmith.go:626-642 | the first 64 keys in order, without those over 128 bytes, become the properties |
| Inference.SchemasForKeys | internal/canary/specsmith.go:636-641 | each kept key maps to the schema of its value one level deeper |
| Inference.SchemaForArray | internal/canary/specsmith.go:643-671 | the array schema is a function of the set of schemas of the first 16 items |
| Inference.SchemaForVariants | internal/canary/specsmith.go:654-670 | no item schema gives the empty schema, one gives itself, several give `oneOf` |
| Inference.ListVariants | internal/canary/specsmith.go:660-668 | the loop over sorted keys yields the canonical list of the set of schemas |
| InferredForm.NumbersByTheirLiterals | internal/canary/specsmith.go:672-676 | every number above the depth limit, negative ones included, is "integer" iff its literal has no fraction and no exponent, otherwise "number" |
| InferredForm.ScalarsByTheirKinds | internal/canary/specsmith.go:677-681 | the schemas of strings, booleans and null, spelled out |
| InferredForm.KeptExactly | internal/canary/specsmith.go:628-639 | a key is kept iff fewer than 64 keys of its object precede it and it takes at most 128 bytes; overlong keys count among the 64 |
| InferredForm.ObjectsByTheirKeys | internal/canary/specsmith.go:626-642 | an object's schema has exactly the kept keys, each with its value's schema one level down, and admits no others |
| InferredForm.ArraysByTheirItems | internal/canary/specsmith.go:643-671 | an array's schema says nothing of no items, the one schema its first 16 items show, or lists all they show once each in the order of their encodings |
| InferredForm.ScalarSchemasAreConcrete | internal/canary/specsmith.go:317-344 | the schema inferred from any scalar passes the review's own concreteness test, in every document and at every depth it reaches |
| InferredForm.ObjectSchemasAreConcrete | internal/canary/specsmith.go:337-339 | that of an object passes iff some key of it is kept |
| Acceptance.SameSchemaIffSameOutline | internal/canary/specsmith.go:621-686 | two values get the same schema iff they have the same outline: kept keys, scalar kinds, and the outlines shown by the first 16 items |
| Acceptance.ScalarsDoNotReachTheSchema | internal/canary/specsmith.go:672-681 | replacing strings, booleans and numbers by others of their kind never changes the schema, at any depth |
| Acceptance.ItemOrderIsIrrelevant | internal/canary/specsmith.go:643-671 | order and repetition of the first 16 items never change the schema |
| Acceptance.AcceptsIffFits | internal/canary/specsmith.go:621-686 | for both readings of `oneOf`, an independent validator accepts a value under an inferred schema iff the value fits the outline of the example |
| Acceptance.InferredSchemaIsSound | internal/canary/specsmith.go:611-686 | every value within the limits validates against its own schema with `oneOf` as at least one, and as exactly one when no array mixes overlapping outlines |
| Acceptance.DroppedKeysAreRefused | internal/canary/specsmith.go:633-642 | beyond the limits: an object above the depth limit with a key that is not kept fails its own schema under both readings |
| Acceptance.LongArraysExactly | internal/canary/specsmith.go:644-649 | an array of any length satisfies its own schema iff each item fits the outlines its first 16 items show |
| Acceptance.OverlapNeverExact | internal/canary/specsmith.go:654-670 | an item that also fits an item of another outline makes the array fail its own schema under the strict reading |
| Acceptance.ExactIffNoOverlap | internal/canary/specsmith.go:654-670 | when each item satisfies its own schema, the array satisfies its own strictly iff no item fits an item of another outline |
| Acceptance.ScalarArraysExactly | internal/canary/specsmith.go:654-676 | an array of scalars satisfies its own schema strictly iff it does not show an integer literal beside a fractional or exponent literal |
| Acceptance.IntegerBesideNumberNeverExact | internal/canary/specsmith.go:672-676 | the same failure in any array, whatever else it holds |
| Acceptance.EmptyObjectBesideObjectNeverExact | internal/canary/specsmith.go:642-670 | an empty object beside an object with a key makes the array fail strictly |
| Acceptance.OneAndOneAndAHalf | internal/canary/specsmith.go:643-676 | the concrete input `[1, 1.5]` separates the two readings |
| Acceptance.SiblingsCanStandIn | internal/canary/specsmith.go:643-671 | an array can satisfy its own schema strictly although an item does not satisfy its own: a sibling's schema accepts it |
| Acceptance.SiblingStandsInForOne | internal/canary/specsmith.go:643-676 | `[[1, 1.5], ["a", 1.5]]` is one |
| SchemaSize.InferredNodes | internal/canary/specsmith.go:621-686 | a schema inferred at any depth has at most N(depth) nodes, `oneOf` wrappers included |
| SchemaSize.SchemaSizeIsBounded | internal/canary/specsmith.go:16-22 | no input of any size yields more than (64^7 - 1) / 63 schema nodes |
| References.TwoPassesDecode | internal/canary/specsmith.go:308 | the two nested replacements equal one left-to-right decoder (section 4 of RFC 6901) on every string |
| References.DecodeEscape | internal/canary/specsmith.go:308 | escaping `~` then `/` and decoding gives back any key |
| References.PointerLeadsToItsPath | internal/canary/specsmith.go:302-314 | a printed pointer to any non-empty path resolves to what lies at that path, to nothing if that is no object, and to the referring object if the path dangles |
| References.FuelIsExact | internal/canary/specsmith.go:290-315 | a chain that ends after n hops resolves from depth d iff d + n is at most 8, and then to its end |
| References.EndUnique | internal/canary/specsmith.go:290-315 | a chain of references has at most one end |
| References.CyclesNeverResolve | internal/canary/specsmith.go:290-315 | a chain that revisits a value gives no object from any depth |
| References.ResolveIsIdempotent | internal/canary/specsmith.go:290-301 | resolving a resolved object returns it unchanged at every depth up to 8 |
| References.NotLocalStays | internal/canary/specsmith.go:295-301 | an object without a reference into the document stands for itself at every depth up to 8 |
| Concreteness.LeavesExactly | internal/canary/specsmith.go:335-348 | without references and variants the test goes by the type: properties for an object, items one level down for an array, always for the five scalar types, else an enumeration or constant |
| Concreteness.VariantsSuffice | internal/canary/specsmith.go:325-334 | a concrete variant under any of the three keywords is enough |
| Concreteness.ConcreteUnfolds | internal/canary/specsmith.go:317-349 | the unbounded notion of a concrete schema satisfies its defining equation |
| Concreteness.ConcreteIsLeast | internal/canary/specsmith.go:317-349 | and is contained in every predicate closed under it: it is the least fixed point |
| Concreteness.TestIsExact | internal/canary/specsmith.go:317-349 | the fuelled test of a resolved node is true iff some finite derivation to a concrete leaf fits in the fuel, cycles or not |
| Concreteness.ObjectTestIsExact | internal/canary/specsmith.go:321-324 | the same for an object handed to the test directly, although it is resolved twice |
| Concreteness.TestIsSound | internal/canary/specsmith.go:317-349 | a true answer means concrete in the unbounded sense, on every document |
| Concreteness.MoreFuelKeepsTrue | internal/canary/specsmith.go:317-349 | true at depth d + 1 implies true at depth d |
| Concreteness.RefFreeDecision | internal/canary/specsmith.go:317-349 | without references the test holds iff a concrete leaf lies at most 8 - depth levels down |
| Concreteness.ShallowSchemasAreDecided | internal/canary/specsmith.go:317-349 | so it decides every reference-free schema nested at most 8 levels |
| Concreteness.DeepSchemasAreMissed | internal/canary/specsmith.go:318-320 | and is false on concrete array schemas of every deeper nesting |
| Paths.PathTemplateMatches | internal/canary/specsmith.go:209-231 | the loop with its shortcut computes segment-wise matching |
| Paths.MatchesItself | internal/canary/specsmith.go:210-212 | the equality shortcut is redundant |
| Paths.MatchesIffSubstitutes | internal/canary/specsmith.go:213-230 | a template matches iff some non-empty slash-free values for its `{name}` parts make the slash-trimmed paths equal |
| Paths.BracedNamesMatch | internal/canary/specsmith.go:220-225 | a name in braces matches exactly the non-empty segments |
| Paths.OthersMatchThemselves | internal/canary/specsmith.go:226-228 | every other segment, `{}` included, matches only itself |
| Paths.CandidatesAre | internal/canary/specsmith.go:188-205 | a key is a candidate iff it holds an object and its trimmed segments match those of the request path, an empty one being "/" |
| Paths.FindOpenAPIPath | internal/canary/specsmith.go:187-207 | the exact key if it matches and holds an object, otherwise the least matching key that does, and nothing iff there is none |
| Paths.ExactKeyWins | internal/canary/specsmith.go:188-193 | the requested path itself is preferred to every template |
| KeySearch.SearchIsExact | internal/canary/specsmith.go:516-544 | the search is true iff the key occurs in an object reached by at most six steps through keys and indices below 64 |
| KeySearch.OnlySixtyFourItems | internal/canary/specsmith.go:532-541 | arrays are searched in their first 64 items only |
| Amounts.AmountsAreExact | internal/canary/payment.go:480-492 | exactly the optionally signed spellings of non-negative integers are amounts; the result is canonical, denotes the same integer and is a fixed point |
| Amounts.SameAmountIffSameInteger | internal/canary/payment.go:480-492 | two fields give the same amount text iff they denote the same integer, at any size |
| Amounts.CanonicalIsNatString | internal/canary/payment.go:484-489 | an integer has only one canonical spelling |
| Amounts.ParsedIsTrimmed | internal/canary/payment.go:153-157 | trimming never changes a string that parses as an integer |
| Amounts.SignsAre | internal/canary/payment.go:483-489 | digits denote their value, with a plus sign too, with a minus sign the negative; nothing else is a number |
| Amounts.IntegersAre | internal/canary/payment.go:494-504 | a timeout field is read iff it denotes a non-negative integer of 64 bits, and then as that |
| Headers.DecodersAgree | internal/canary/payment.go:138-148 | any string two of the four base64 decoders accept they decode to the same bytes |
| Headers.TrialOrderIsIrrelevant | internal/canary/payment.go:138-148 | trying the four decoders in any other order gives the same answer on every header value |
| Headers.HeaderRoundTrip | internal/canary/payment.go:134-150 | for every byte string and each of the four encoders, decoding the encoding returns the bytes |
| Headers.AlphabetsAre | internal/canary/payment.go:138-143 | the alphabets are tables 1 and 2 of RFC 4648 |
| Headers.LineEndsAreSkipped | internal/canary/payment.go:145 | carriage returns and line feeds anywhere in a value change nothing |
| Headers.AcceptedExactly | internal/canary/payment.go:138-148 | once line ends are gone, a decoder accepts exactly symbols of its alphabet with the padding that completes the last group, or without padding anything but one symbol over |
| Headers.BracesAreTakenRaw | internal/canary/payment.go:135-137 | a value whose first character after white space is a brace is taken as it stands, as its UTF-8 bytes |
| Headers.OthersAreBase64 | internal/canary/payment.go:135-149 | every other value is base64 or nothing |
| Headers.Utf8IsInjective | internal/canary/payment.go:136 | no two texts have the same UTF-8 bytes |
| Payment.ParseChallenge | internal/canary/payment.go:54-102 | a challenge is accepted iff it is version 2, has options and every option is usable; otherwise the first fault in order is reported |
| Payment.ParsedChallengesAreWellFormed | internal/canary/payment.go:66-101 | every accepted challenge has an option, every price is canonical, every timeout is in 1..86400 |
| Payment.HeaderChallengeIsRead | internal/canary/payment.go:115-132 | a challenge sent in the header under any of the encodings is read as sent, whatever the body says |
| PaymentTerms.ChallengesAreRead | internal/canary/payment.go:54-102 | accepted iff version 2, not empty and usable item by item; every option has scheme, network, asset and payee from the raw members of those names, and price and timeout as the numbers its members denote |
| PaymentTerms.FaultsAre | internal/canary/payment.go:64-88 | the fault reported is the first there is, by the option's number, price before timeout |
| PaymentTerms.TransportsAre | internal/canary/payment.go:115-132 | which transport and which authorization header go with a header and with a body challenge |
| PaymentTerms.NetworksAre | internal/canary/payment.go:469-478 | the six names of the two networks, whatever their case and surrounding space |
| PaymentTerms.AddressesAre | internal/canary/payment.go:22 | an address is `0x` and forty hexadecimal digits of either case |
| PaymentTerms.LimitsExactly | internal/canary/payment.go:153-173 | when the caps or the filter are refused, from the two cap texts and the filter alone, and what otherwise binds |
| PaymentTerms.SafeExactly | internal/canary/payment.go:177-221 | the safety predicate in full from the option, the request's terms and the policy |
| PaymentTerms.SkippedExactly | internal/canary/payment.go:188-207 | an option is passed over in silence iff it is not on the network asked for, or sound but not in the asset asked for |
| PaymentTerms.SelectionMeetsTheFilters | internal/canary/payment.go:165-207 | what is selected is on the network and in the asset the caller asked for |
| PaymentTerms.BlankFiltersExcludeNothing | internal/canary/payment.go:188-225 | without filters "no option matches" is said of an empty offer only |
| PaymentTerms.ReasonsAreTrue | internal/canary/payment.go:178-219 | every reason given for passing an option over is true of it |
| Payment.Judge | internal/canary/payment.go:177-222 | one turn of the selection loop matches iff the full safety predicate holds, and changes nothing but the spelling of the network |
| Payment.JudgeAll | internal/canary/payment.go:175-222 | the loop collects exactly the safe options and the reasons of the rejected ones, in order |
| Payment.SelectPayment | internal/canary/payment.go:152-233 | the loop computes the specified selection, errors included |
| Payment.UniqueReasons | internal/canary/payment.go:511-522 | reasons are reported once each, in order of first occurrence |
| Payment.Unique | internal/canary/payment.go:511-522 | deduplication keeps exactly the set of reasons and no repetition |
| Payment.SelectionIsExact | internal/canary/payment.go:152-233 | selection succeeds iff the caps and filter are valid and exactly one option is safe, and returns that option with only its network normalized |
| Payment.FailuresExactly | internal/canary/payment.go:153-231 | each way selection fails, exactly: invalid limits, two safe options (ambiguous), all options passed over in silence (nothing matches), otherwise none safe, with exactly the reasons of the rejected options |
| Payment.SkippedIsFiltered | internal/canary/payment.go:188-207 | an option is passed over in silence only where the caller's own network or asset filter excludes it |
| Payment.SelectionIgnoresOrder | internal/canary/payment.go:177-232 | under every permutation of the options the same option is selected, or the same error given, with the same set of reasons |
| Authorization.AllowedNetworksFromEnv | internal/canary/config.go:60-73 | the configured networks are exactly those the setting names, both for a blank one, each under its own chain id; it is refused iff some entry is unknown |
| Authorization.CapsAgree | internal/canary/payment.go:157-160 | the cap selection reads is the number the authorizer was built with |
| Authorization.FoldedIffLowered | internal/canary/payment.go:370-372 | on addresses the authorizer's case folding and selection's lower-casing decide the same |
| Authorization.SafeOptionsPassTheGuards | internal/canary/payment.go:347-372 | a safe option passes all guards of the authorizer iff its network is listed under its own chain id |
| Authorization.SelectedOptionsAreAuthorized | internal/canary/payment.go:347-372 | under a policy as configuration builds it, whatever selection returns passes every guard |
| Authorization.SignedTermsAreTheSelectedTerms | internal/canary/payment.go:374-438 | the one message signed and the envelope sent carry the seller's payee, asset, price and chain, and the price is within both caps |
| PaymentTerms.GuardsExactly | internal/canary/payment.go:348-372 | the authorizer's guards taken together, from option and policy |
| PaymentTerms.RefusalsAreTrue | internal/canary/payment.go:348-372 | the refusal names a guard that fails |
| PaymentTerms.DomainsAre | internal/canary/payment.go:441-453 | the signature's domain is the advertised one if whole, otherwise the token's own name on the option's chain |
| PaymentTerms.EnvelopesAre | internal/canary/payment.go:382-438 | the envelope holds the option, the signer's signature and the very message signed, with nonce and validity |
| PaymentTerms.SignerFailuresAre | internal/canary/payment.go:374-414 | past the guards only a missing signer answer refuses, and nothing is put up for signature without address and nonce |
| SpecReview.QueryParameterContract | internal/canary/specsmith.go:351-368 | reports whether there are query parameters and whether all of them are named and typed |
| SpecReview.SpecInspection.AddFinding | internal/canary/specsmith.go:546-556 | appends unless 64 are there or the code was reported before |
| SpecReview.SpecInspection.AnalyzeOpenAPI | internal/canary/specsmith.go:126-141 | the review moves to the facts and findings of the located operation, or to the one finding about what is missing |
| SpecReview.SpecInspection.AnalyzeOperation | internal/canary/specsmith.go:142-185 | all facts of an operation and all its findings, in order |
| SpecReview.SpecInspection.AnalyzeRequest | internal/canary/specsmith.go:150-171 | the request side: a missing shape excludes a generic one |
| SpecReview.SpecInspection.ReadRequest | internal/canary/specsmith.go:151-163 | body schema for POST, query parameters for GET with a query, nothing to document otherwise |
| SpecReview.SpecInspection.AnalyzeResponse | internal/canary/specsmith.go:173-184 | the response side: first successful response in key order that has JSON |
| SpecReview.SpecInspection.AnalyzeRegistration | internal/canary/specsmith.go:383-423 | registration findings, and validity exactly when the document decodes |
| SpecReview.SpecInspection.IsListed | internal/canary/specsmith.go:405-416 | the loop with its break decides whether any endpoint covers the route |
| SpecReview.SpecInspection.AnalyzeSkillDocument | internal/canary/specsmith.go:425-435 | skill findings, and validity exactly when present, whole and not blank |
| SpecReview.SpecInspection.Inspect | internal/canary/specsmith.go:33-66 | the mutable inspection of the three documents ends in the specified review |
| SpecReview.SpecInspection.AnalyzeChallenge | internal/canary/specsmith.go:466-499 | challenge facts and findings together |
| SpecReview.SpecInspection.AnalyzeResource | internal/canary/specsmith.go:467-483 | at most one finding about the advertised resource, whether it is the requested one, and its redacted form whenever it is readable |
| SpecReview.SpecInspection.AnalyzeReadable | internal/canary/specsmith.go:475-481 | an insecure resource is reported as that and not also as a mismatch |
| SpecReview.SpecInspection.AnalyzeBazaar | internal/canary/specsmith.go:484-498 | Bazaar facts and findings |
| SpecReview.SpecInspection.Finalize | internal/canary/specsmith.go:437-464 | status and the two checks, from the whole review |
| SpecReview.SpecInspection.SetStatus | internal/canary/specsmith.go:443-449 | the loop with its break: READY unless some finding is an error or a warning |
| SpecReview.WithCodesAppend | internal/canary/specsmith.go:546-556 | reporting codes in two batches is reporting them in one |
| Readiness.TidyIsBelowTheCap | internal/canary/specsmith.go:546-549 | with one finding per code there are at most 29 findings, so the cap of 64 never acts |
| Readiness.NothingIsDropped | internal/canary/specsmith.go:546-556 | every reported code ends up among the findings, once, with its severity |
| Readiness.ReviewFindings | internal/canary/specsmith.go:437-499 | the findings of a whole review are exactly the codes its conditions call for, at most 29 |
| Readiness.ReadyExactly | internal/canary/specsmith.go:437-449 | a review is READY iff each listed condition on the operation, registration, skill document and challenge holds |
| Readiness.ReadyAgreesWithChecks | internal/canary/specsmith.go:443-463 | a READY review passes discovery always, and both checks iff a valid challenge was seen |
| Contract.ChecksExactly | internal/canary/specsmith.go:450-462 | for every review, READY or not, when each of the two checks passes, from the members of the documents and of the challenge |
| Contract.FindingsExactly | internal/canary/specsmith.go:33-66 | each of the 29 findings is reported iff what it says is so |
| Contract.BodySchemaIsRead | internal/canary/specsmith.go:233-242 | which schema documents a request body |
| Contract.ResponseSchemaIsRead | internal/canary/specsmith.go:244-267 | the response schema is that of the least successful key that carries JSON |
| Contract.MediaAre | internal/canary/specsmith.go:269-288 | the JSON media object: `application/json` if that is an object, otherwise the least key ending in `+json` in any case |
| Contract.FactsAreConcrete | internal/canary/specsmith.go:126-185 | when request and response of a located operation count as concrete |
| Contract.OtherFactsAre | internal/canary/specsmith.go:145-176 | when they count as documented at all, and what summary is taken |
| Contract.ResourcesDifferByPart | internal/canary/specsmith.go:501-514 | two resources are compared part by part: scheme and host up to case, path with none as "/", query exactly, nothing else |
| Contract.EndpointsCover | internal/canary/specsmith.go:407-414 | which routes a registered endpoint covers |
| Contract.SeveritiesAre | internal/canary/specsmith.go:33-66 | the severity of every code |
| Audit.ValidRequestsAreSent | internal/canary/auditor.go:226-252 | the content-type and header guards of `send` can never fire in an audit |
| Requests.MethodsAre | internal/canary/auditor.go:191-197 | which texts are GET, POST or refused, by their letters in any case |
| Requests.AdmittedExactly | internal/canary/auditor.go:190-224 | a request is admitted iff none of the nine things is wrong with it, and a refusal names one that is |
| Audit.AuditReport.EvaluateOutcome | internal/canary/auditor.go:275-303 | appends the one outcome check and records the evaluation |
| Audit.AuditReport.FinalizeReport | internal/canary/auditor.go:344-383 | the loop's accumulators and flags give the score, coverage and verdict of the whole list of checks |
| Audit.Auditor.Send | internal/canary/auditor.go:226-273 | a refused request leaves no trace; otherwise exactly one request is logged, with its payment header |
| Audit.Auditor.Examine | internal/canary/auditor.go:64-126 | report, log and challenge of the run up to and including the payment are those of its exit |
| Audit.Auditor.Read | internal/canary/auditor.go:89-126 | the same from an answer on: no challenge unless the status is 402 and a challenge parses, no payment unless asked for |
| Audit.Auditor.Pay | internal/canary/auditor.go:128-152 | from a valid challenge to the paid exits: selection, authorization, nothing sent unless authorized |
| Audit.Auditor.Deliver | internal/canary/auditor.go:153-186 | one paid request is sent; payer and header are reported whether or not it is answered; the tier changes only on an answer |
| Audit.Auditor.Complete | internal/canary/auditor.go:327-342 | review checks are added, the verdict computed, one report stored; a failed store yields no report |
| Audit.Auditor.Audit | internal/canary/auditor.go:42-188 | the whole run, all exits, equals the specified result and log |
| Verdicts.LedgerIsComplete | internal/canary/auditor.go:64-187 | every completed run has the five named checks once each in order (and the two of the review), weights 10, 30, 10, 25, 25 (15, 15), and marks in full for a pass, none for failed or skipped |
| Verdicts.SpendIsDisciplined | internal/canary/auditor.go:64-187 | on every run, stored or not: at most two target requests and one signing request, in that order; signing only if payment was asked for, a challenge parsed and an option was selected; the stored report is the returned one |
| Verdicts.BudgetIsKept | internal/canary/auditor.go:128-156 | the total put up for signature in a run is zero, or within the request's cap and the operator's |
| Verdicts.AttemptedIsRecorded | internal/canary/auditor.go:137-156 | attempted iff a paid request went out, and then the recorded selection is what was signed, within both caps |
| Verdicts.SignedAsOffered | internal/canary/auditor.go:99-156 | over all runs: whatever is put up for signature pays, by raw member, the payee, asset, price and chain of one option of the seller's own challenge, and one the request's filters admit |
| Verdicts.OffersAreReported | internal/canary/auditor.go:109-113 | the report repeats every option as the seller wrote it, in order |
| Verdicts.FactsAreReported | internal/canary/auditor.go:51-83 | the other facts of the report: statuses, failure, selection and evaluation |
| Verdicts.GuardsNeverFire | internal/canary/auditor.go:144-152 | under configured policies authorization of a selected option fails iff the signer or the random source does |
| Verdicts.PercentagesOf | internal/canary/auditor.go:360-365 | on any list of sound checks both percentages are in 0..100, and coverage is 100 iff nothing was skipped |
| Verdicts.CoverageTellsTheTier | internal/canary/auditor.go:344-365 | on every run score and coverage are in 0..100 and coverage is 100 iff the tier is verified |
| Verdicts.VerdictsExactly | internal/canary/auditor.go:366-382 | each verdict holds iff the run ended in one described way |
| Verdicts.ExpectedStatusIsExact | internal/canary/auditor.go:275-303 | the outcome check written out with the expected status, 200..299, the expectation and the evaluator's answer |
| Verdicts.PassesMeetTheExpectedStatus | internal/canary/auditor.go:276-284 | no run passes on a status other than the one the caller expects, or outside the 200s |
| Verdicts.ProbeVerdicts | internal/canary/auditor.go:370-375 | both probe verdicts mean an unpaid run with a valid challenge, one request, coverage 40 (53 with review); PROBE_PASS means score 100 |
| Verdicts.PassVerdicts | internal/canary/auditor.go:376-381 | PASS and PASS_WITH_WARNINGS mean an attempted payment answered in the 200s; PASS scores at least 87 (90 with review), PASS_WITH_WARNINGS at least 75 (68 with review) |
| Verdicts.PassesExactly | internal/canary/auditor.go:64-188 | under configured policies a run is passed iff payment was asked for, the probe offered one safe option, the signer answered, and the paid answer was in the 200s with an outcome that did not fail: nothing else can stop it |
| Verdicts.ReadyNeverMovesTheVerdict | internal/canary/auditor.go:334-383 | with a READY review every run gets the verdict its five own checks give, and the review's checks pass iff a challenge was seen |
| Verdicts.ReadyProbesPass | internal/canary/auditor.go:119-126 | READY, a valid challenge and no payment: PROBE_PASS with score 100 and coverage 53 |
| Samples.ReadyWithoutChallenge | internal/canary/specsmith.go:437-463 | a concrete document is READY without a challenge and does not pass both checks |
| Samples.ReadyProbeOccurs | internal/canary/auditor.go:119-126 | a concrete reviewed probe is READY and ends PROBE_PASS with score 100 |
| Samples.PaidRunOccurs | internal/canary/auditor.go:128-188 | a concrete run under an operator's configuration selects, signs, pays and ends PASS, reviewed READY or not |
| Store.IdsAre | internal/canary/store.go:13 | report ids are 32 lower-case hexadecimal digits |
| Store.NamesAre | internal/canary/store.go:40-61 | how reports and temp files are named, and that they never share a name |
| Store.FileStore.Save | internal/canary/store.go:31-65 | a save publishes the whole encoding or leaves every other name as it was, whichever step fails |
| Store.FileStore.Get | internal/canary/store.go:67-83 | answers the decoded report published under a well-formed id; not found iff there is none, and otherwise the read or decoding error |
| Store.StepKeepsInv | internal/canary/store.go:31-83 | every step of every handler and reader, and a crash at any point, keeps the invariant |
| Store.RunKeepsInv | internal/canary/store.go:31-83 | so does every interleaving |
| Store.RenameKeeps | internal/canary/store.go:61-63 | the rename keeps the invariant and makes the whole document visible under the report name |
| Store.RemoveKeeps | internal/canary/store.go:45 | of all names exactly the handler's own temp name disappears, if it is there: no report, no temp name of another handler, and after a successful rename nothing at all |
| Store.AcquireKeeps | internal/canary/httpapi.go:75-81 | entering takes a slot only below the limit |
| Store.ReleaseKeeps | internal/canary/httpapi.go:77 | every exit gives back exactly its own slot |
| Store.ReportsAreAlwaysWhole | internal/canary/store.go:31-83 | in every interleaving a report name exists iff a report was renamed to it and then leads to the whole of the last one; every Get answers a published report; no file a Get has open bears a temp name; without crashes and failed removals live temp files are at most the handlers in flight, at most MaxConcurrent |
| Store.PublicationsStay | internal/canary/store.go:45-63 | a report once visible stays visible in everything that follows, crashes and failing saves included |
| Store.ReaderStays | internal/canary/store.go:71 | the file a Get has open keeps its content whatever the others do meanwhile |
| Store.GetAnswersTheLatest | internal/canary/store.go:61-83 | on every run a Get that finds a report when it opens answers the whole of the last document renamed to its id by then, whatever is renamed before or meanwhile |
| Store.GetAnswersTheLastRename | internal/canary/store.go:61-83 | in particular, opened after a rename with no later rename to that id between, it finds the file and answers exactly that document |
| Store.SaveIsARun | internal/canary/store.go:31-65 | every outcome of `FileStore.Save`, whichever step fails and whether or not the removal does, is the end of a run of one handler's steps in the concurrent model |
| Store.ReusedTempNamesTearReports | internal/canary/store.go:40-45 | if a temp name may be used again there is an interleaving that publishes an incomplete report: freshness is needed |

## Left out

- HTTP, DNS, dialing, TLS, timeouts and latency: a request is answered or not; `isSafePublicIP` and the URL checks of the target client are the given function `validateUrl`.
- URL parsing, JSON text decoding, `safeSpecText` and the reading of registration and skill bodies are given functions or decoded inputs; the JSON printer needed for deduplication is modelled, apart from its byte-level replacement of invalid UTF-8, which decoded documents no longer contain.
- `truncateText` on the advertised resource URL (2048 characters), evidence and summary wording, previews, digests, content types, latencies and report times.
- `buildSpecRepairs`: constant templates around the inferred schema.
- Signatures, nonces, digests, report ids and the encoding of envelopes and reports are opaque values; EIP-712 itself is not modelled.
- `RemoteSigner` (address cache, mutex, validation of its responses) is the signer's answer.
- Case mapping and folding are modelled for the code points that can reach ASCII; other letters stay as they are, which no comparison made here can tell apart from the source.
- Durability after power loss: `Save` does not sync the directory, so only what is visible is claimed. Rename is atomic and temp names are never reused within a run, as the operating system and `os.CreateTemp` provide; `ReusedTempNamesTearReports` shows what the second is for.
- Published reports are opaque bytes and decoding them is a given function; that it gives back the report encoded is not modelled.
- Panics and cancellation inside a handler appear only as leaving at any step, with the deferred removal and release still taken, or as a crash.
- The landing page, health, the service's own OpenAPI description, logging, environment parsing other than the allowed networks, scripts and deployment files.
- Acceptance.InferredSchemaIsSound: the strict reading is proved under the condition that no array mixes overlapping outlines; `Acceptance.AcceptsIffFits` gives the exact condition for every value, which for nested arrays has no simpler form because an item can satisfy a sibling's schema but not its own (`Acceptance.SiblingsCanStandIn`).
- Verdicts.SpendIsDisciplined: counts the requests of the audit itself; the three discovery fetches of a review are inputs and are not in the log.
- Audit.Auditor.Deliver: says what the report holds afterwards, not that payer and header were recorded before the request was sent; nothing outside sees the report in between.

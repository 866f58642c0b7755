# A model of the vault's policy, protocol and harness

The system is a Bitcoin vault guarded by a federation of policy nodes. A spend needs the
user's signature and a threshold of node signatures; each node signs only what its policy
core accepts, meters hot outflow in a rolling window, and always holds a user-signed escape
sweep with a ladder of higher-fee replacements. An attack harness plays the compromised
minority and argues from silence: what its wiretap did not hear was not sent.

This project models the parts where the difficulty lies and proves what they promise:

- `Policy`, `PolicyTheorems`, `VaultRuns`: descriptors as chains of scripts, the five ordered
  checks, the class scan and the Hot meter; what they guarantee jointly; whole runs of
  deposits and accepted spends.
- `Template`, `TemplateText`: the vault descriptor as a miniscript tree whose `multi` counts
  slots, the validator, and the printer as text.
- `TxSize`, `Ladder`: finalized sizes, the coordinator's greedy fee ladder, and the node's
  structural check of a submitted ladder.
- `HotBudget`, `Federation`: one node's ledger, and the routing bound over all honest ledgers.
- `Envelope`, `ChannelRead`, `Json`, `Wiretap`, `WiretapMeaning`, `Barrier`: the signed
  encoding, the chunked reader, the record and what it says of the JSON sent, and the listener
  as a concurrent step system.
- `Silence`: the oracle that compares response bodies.
- `Compose`: the spend and its mandatory escape, composed over one prepared view.
- `MedianTime`: the mining loop that matures the recovery lock.

`Basics` holds the machine integers (unbounded `nat` cut to u16, u32 or u64, with saturating
and checked operations written out) and the failure-carrying datatypes.

Loops of the source are methods proved against a specification function or predicate;
objects the source mutates (`HotBudgetLedger`, `Wiretap`) are classes; the lemmas are about
the specifications. Verify with `dafny verify dfyconfig.toml`.

## Where the code falls short of a general promise

Each of these keeps the code as it is, gives a concrete witness and states the exact
condition under which the promise holds.

- The meter saturates, so a per-transaction cap of u64::MAX bounds nothing
  (`SaturatedCapDoesNotBound`); a cap bounds what accepted spends pay to hot wallets, one by
  one and over whole runs, exactly when it is below that (`CapBoundsIff`, `HotIsMeteredIff`,
  `ErosionIsBoundedIff`).
- The ledger's window sum saturates too, and the node accepts u64::MAX as a window cap: one
  ledger then admits any number of maximal spends up to its entry limit, and the federation's
  routing bound fails for every n, t and c (`TwoMaximalClaims`, `RoutingOverflows`). Both
  bounds hold exactly for the caps below it (`CapHoldsIff`, `RoutingBoundIff`).
- The ladder's sums saturate, so it can break the ten percent fee cap when the inputs exceed a
  u64 (`OverflowingInputsBreakPolicy`); a rung is accepted exactly when the escape has room
  for its multiplier, and the ladder exactly when it has room for the largest one kept
  (`RungAdmittedIff`, `LadderAdmittedIff`). Inputs within a u64 always have it
  (`LadderPreservesPolicy`).
- `push_var` cuts a length to 32 bits. A preimage decodes, with whatever follows it, exactly
  when no field outgrows that (`DecodableIffFits`). Binding needs less: with nonces of one
  length, as the channel's always are, equal preimages mean equal envelopes at any payload
  length exactly when every message type fits (`BindingIff`). A textual message type of 2^32
  bytes breaks it (`OverlongFieldsCollide`); the two message types that are counted do not
  come near (`PreimageFixesCount`).
- The printer writes an empty key list and a list of one empty key alike
  (`EmptyListCollides`); that is its only ambiguity (`PrinterInjective`).
- The body reader keeps whatever the closing read delivered, so bytes past the declared length
  make the result depend on fragmentation (`SurplusDependsOnChunking`); its documentation says
  it reads exactly the declared length. It also tests its header limit only after a read, so
  one read that carries a header's end over the limit saves a request that smaller reads
  abandon (`LateDepends`). `IndependentIff` is the exact condition over all byte streams.
- A composed ladder over a transaction with a nonzero lock time is refused by the node, which
  the composer does not check (`NodeAdmitsComposedLadder`, an equivalence).

One promise is kept with room to spare: the median-time advance mines thirteen blocks so that
the median clears the lock, and six would do on every chain, though fewer never do on an
ordinary one (`SixBlocksSuffice`, `SixBlocksAreNeeded`).

## Model

| member | source | states |
|---|---|---|
| `Policy.DerivesWithin` | crates/policy-core/src/lib.rs:169-194 | the bounded nested scan finds a script exactly when some chain derives it at some index within the bound (a definite chain at index 0 alone) |
| `PolicyTheorems.DerivesExactly` | crates/policy-core/src/lib.rs:169-194 | deriving means: some chain of the expansion is definite with that script, or ranged with it at some index from 0 to the bound |
| `Policy.CheckPsbtConsistency` | crates/policy-core/src/lib.rs:277-324 | passes exactly on PSBTs with inputs, outputs, matching maps and a witness value on every input |
| `Policy.CheckInputs` | crates/policy-core/src/lib.rs:332-355 | passes exactly when every declared prevout script re-derives from the vault |
| `Policy.CheckDestinations` | crates/policy-core/src/lib.rs:368-410 | passes exactly when every output is allowed or vault change; otherwise the first stranger's label picks the refusal |
| `Policy.HotOutflow` | crates/policy-core/src/lib.rs:522-540 | the running saturating sum is the exact value paid outside vault and escape wallet, cut off at u64::MAX |
| `Policy.CheckHotBudget` | crates/policy-core/src/lib.rs:555-569 | refuses exactly when that reading exceeds the per-transaction cap |
| `Policy.Evaluate` | crates/policy-core/src/lib.rs:262-269 | passes exactly on one order-free condition, and otherwise names the first violation of the ordered chain |
| `PolicyTheorems.InputRefusals` | crates/policy-core/src/lib.rs:271-355 | exactly which PSBTs are refused as inconsistent, and which for an unknown input |
| `PolicyTheorems.OutputRefusals` | crates/policy-core/src/lib.rs:357-410 | exactly which are refused for unverified change and which for a destination, by the first stranger's own label |
| `PolicyTheorems.AmountRefusals` | crates/policy-core/src/lib.rs:542-606 | exactly which are refused for the budget, for outputs over inputs and for the fee, in that order, and which pass |
| `Policy.SortOutput` | crates/policy-core/src/lib.rs:444-471 | an output's place: vault before escape before allowlist |
| `Policy.Classify` | crates/policy-core/src/lib.rs:434-505 | the scan's buckets and sum give the documented class: change ignored, strangers and hot-escape mixes refused |
| `PolicyTheorems.PaidPartition` | crates/policy-core/src/lib.rs:507-521 | vault, escape and metered value partition every output total |
| `PolicyTheorems.ClassAgreesWithMeter` | crates/policy-core/src/lib.rs:434-540 | a granted class reports the meter's own reading, the true hot sum cut at u64::MAX, and zero unless Hot; a Refresh pays only the vault |
| `PolicyTheorems.ClassFailsOnlyOnMix` | crates/policy-core/src/lib.rs:426-431 | after a passing evaluation the class is refused exactly when one output is hot and another is escape |
| `PolicyTheorems.SaturatedCapDoesNotBound` | crates/policy-core/src/lib.rs:522-569 | for any vault and hot script, an accepted spend of two distinct coins that pays twice a cap of u64::MAX |
| `PolicyTheorems.CapBoundsIff` | crates/policy-core/src/lib.rs:542-569 | the cap bounds what every accepted spend pays to hot wallets exactly when it is below u64::MAX |
| `PolicyTheorems.ShapeInvariance` | crates/policy-core/src/lib.rs:434-606 | acceptance, refusal, class and outflow depend on the outputs only through the non-vault scripts reached, the metered sum and the total |
| `PolicyTheorems.PermutingOutputs` | crates/policy-core/src/lib.rs:434-606 | reordering outputs leaves acceptance, class and outflow as they were, and the refusal too, except which of the two names an unrecognised output gets |
| `PolicyTheorems.SplittingAnOutput` | crates/policy-core/src/lib.rs:434-606 | splitting an output to the same script and total leaves acceptance, class and outflow as they were, and the refusal up to that name, so no cap is passed by splitting |
| `PolicyTheorems.MovingVaultChange` | crates/policy-core/src/lib.rs:434-606 | moving change among vault outputs leaves acceptance, class and outflow as they were, and the refusal up to that name |
| `PolicyTheorems.LabelsCarryNoAuthority` | crates/policy-core/src/lib.rs:357-410 | PSBTs differing only in bip32 hints agree on acceptance, class and refusal, except which of the two names an unrecognised output gets, and that only if the first stranger's label changed |
| `PolicyTheorems.FeeArithmeticIsExact` | crates/policy-core/src/lib.rs:575-606 | with at most 2^57 inputs and outputs the 128-bit fee check is the exact one |
| `VaultRuns.SpendEffect` | crates/policy-core/src/lib.rs:262-269 | one accepted spend conserves value, strays none, moves at most a cap to hot wallets and at most a tenth to fees |
| `VaultRuns.ValueIsConserved` | crates/policy-core/src/lib.rs:332-410 | over every accepted run vault + escape + hot + fees is the start plus deposits, every coin left is the vault's and nothing strays |
| `VaultRuns.HotIsMetered` | crates/policy-core/src/lib.rs:542-569 | over k accepted spends at most k caps reach hot wallets, for every cap below u64::MAX |
| `VaultRuns.HotIsMeteredIff` | crates/policy-core/src/lib.rs:542-569 | that holds over all runs of a vault that can pay a hot wallet exactly when the cap is below u64::MAX |
| `VaultRuns.ErosionIsBounded` | crates/policy-core/src/lib.rs:542-606 | after k spends vault and escape keep at least (9/10)^k of their value less k caps, for every cap below u64::MAX |
| `VaultRuns.ErosionIsBoundedIff` | crates/policy-core/src/lib.rs:542-606 | that holds over all runs of such a vault exactly when the cap is below u64::MAX |
| `Template.CheckKeys` | crates/policy-core/src/template.rs:205-253 | the walk with a seen set passes exactly on definite pairwise distinct keys, and otherwise names the fault of the first key that is ranged or repeats an earlier one |
| `Template.ParseVaultTemplate` | crates/policy-core/src/template.rs:126-272 | accepts exactly the trees built from valid pieces and returns exactly those pieces; otherwise the first of shape, lock, keyset, keys and threshold that is wrong is named |
| `Template.SlotsCountPeopleIffDistinct` | crates/policy-core/src/template.rs:197-204 | slot count equals signer count for every signer set exactly when the keys are distinct |
| `Template.DuplicateRecoveryKeyWeakens` | crates/policy-core/src/template.rs:197-204 | a repeated recovery key lets its holder open a 2-of-3 alone, and nobody open it without them |
| `Template.AcceptedTemplateMeaning` | crates/policy-core/src/template.rs:115-126 | an accepted script is satisfied exactly by the user and t distinct nodes, or after 30375·512 seconds two distinct recovery keyholders |
| `Template.NormalBranchNeedsQuorum` | crates/policy-core/src/template.rs:197-263 | before the lock matures any satisfying set holds at least t + 1 different signers |
| `Template.TimeLockNotBlockLock` | crates/policy-core/src/template.rs:39-67 | the sealed argument is the type-flagged time lock; the bare unit count would be a height lock |
| `Template.LockKinds` | crates/policy-core/src/template.rs:43-53 | the relative lock of BIP 68 in its three kinds: off, in 512-second units, in blocks |
| `TemplateText.PrinterRendersTemplate` | crates/policy-core/src/template.rs:80-94 | the printed string is the miniscript notation of the tree the validator accepts |
| `TemplateText.DecimalReadsBack` | crates/policy-core/src/template.rs:86-93 | numbers print as plain decimals: digits alone, no leading zero, and read back by position they are the number |
| `TemplateText.OlderTailText` | crates/policy-core/src/template.rs:86-93 | every descriptor's middle is the raw lock argument 4224679 and the 2 of the recovery keyset |
| `TemplateText.RenderSplit` | crates/policy-core/src/template.rs:69-79 | the notation is unambiguous: no text begins with the notations of two different trees |
| `TemplateText.PrintedMeansTemplate` | crates/policy-core/src/template.rs:69-94 | of all descriptors with delimiter-free keys, only the tree of the printed pieces has the printed string for its notation, so validating it returns exactly them |
| `TemplateText.PrinterInjective` | crates/policy-core/src/template.rs:80-94 | over delimiter-free keys two tuples print alike exactly when equal, up to an empty list against one empty key |
| `TemplateText.ValidPiecesPrintApart` | crates/policy-core/src/template.rs:69-94 | different valid pieces with nodes never print the same descriptor |
| `TemplateText.EmptyListCollides` | crates/policy-core/src/template.rs:86-93 | the one ambiguity of the printer is real |
| `TxSize.ShapeFixesSize` | crates/vault-node/src/lib.rs:3854-3877 | the finalized size depends on input count and output scripts alone |
| `TxSize.WeightIsExact` | crates/vault-node/src/lib.rs:3866-3869 | a transaction's weight is four units a byte of its serialisation, and two more if it has no input |
| `TxSize.FinalizedSizeIsExact` | crates/vault-node/src/lib.rs:3854-3895 | the finalized size is weight, marker, flag and one satisfaction and unit an input, in quarters rounded up, absent exactly on overflow; the replacement minimum is a satoshi for each byte of it |
| `Ladder.LargestOutput` | crates/vault-cli/src/fed.rs:319-334 | the largest output, the first among equals |
| `Ladder.KeepRungs` | crates/vault-cli/src/fed.rs:358-385 | the loop's rungs are the greedy selection over the whole multiplier list |
| `Ladder.EscapeFeeLadder` | crates/vault-cli/src/fed.rs:306-393 | unknown values, no output or no rung return the escape untouched; a size overflow is the only error; otherwise base and greedy rungs over a largest output |
| `Ladder.KeptAt` | crates/vault-cli/src/fed.rs:363-385 | every kept fee is exactly a multiple on offer, unsaturated, and above the previous one by the minimum |
| `Ladder.GreedIsOptimal` | crates/vault-cli/src/fed.rs:358-385 | no admissible choice from an ascending list has more rungs than the loop keeps |
| `Ladder.LadderIsWellFormed` | crates/vault-cli/src/fed.rs:275-305 | each rung keeps the base's coins and scripts, lowers one output to no less than the dust floor, pays exactly multiplier times the base fee, clears the rung below by the minimum and stays within one percent |
| `Ladder.LadderPreservesPolicy` | crates/vault-cli/src/fed.rs:343-392 | an accepted escape with inputs within a u64 stays accepted, classed Escape and without hot outflow, as base and as every rung |
| `Ladder.RungAdmittedIff` | crates/vault-cli/src/fed.rs:335-385 | for any inputs, the rung at multiplier m of an accepted escape is accepted exactly when the escape's true fee plus m − 1 saturated base fees is under the cap |
| `Ladder.LadderAdmittedIff` | crates/vault-cli/src/fed.rs:335-392 | the whole ladder is accepted exactly when that holds for the largest multiplier kept |
| `Ladder.OverflowingInputsBreakPolicy` | crates/vault-cli/src/fed.rs:310-385 | an accepted escape over u64::MAX whose composed first rung, at the node's own minimum step for any satisfaction weight to 30000, the policy refuses |
| `Ladder.CheckReplaces` | crates/vault-node/src/lib.rs:7615-7789 | one bump passes exactly when it keeps coins and scripts, raises no output and clears the fee below by its relay cost |
| `Ladder.EnsureEscapeLadder` | crates/vault-node/src/lib.rs:7615-7789 | admits exactly the empty ladder and the final, signalling, climbing ones that are not self-paired |
| `Ladder.AdmittedExactly` | crates/vault-node/src/lib.rs:7615-7789 | an admitted ladder, spelled out: final and signalling throughout, each rung with the base's version, outpoints and scripts in order, no output above the rung below, and a fee over it by its own finalized size |
| `Ladder.SignalsWithoutLock` | crates/vault-cli/src/fed.rs:243-247 | the ladder's sequence signals replacement by BIP 125 and switches the relative lock of BIP 68 off |
| `Ladder.NodeAdmitsComposedLadder` | crates/vault-node/src/lib.rs:3879-3895 | a composed ladder is admitted exactly when the escape's lock time is zero: composer and node share one minimum and cannot drift |
| `HotBudget.HotBudgetLedger.WindowSum` | crates/vault-node/src/channel.rs:2265-2272 | the saturating sum over live reservations, in any visiting order |
| `HotBudget.HotBudgetLedger.Prune` | crates/vault-node/src/channel.rs:2286-2290 | keeps exactly the reservations either clock calls live |
| `HotBudget.HotBudgetLedger.Claim` | crates/vault-node/src/channel.rs:2303-2341 | prunes, hits an existing claim, or tests window then count before inserting; keeps the whole book within the cap |
| `HotBudget.SurvivesIff` | crates/vault-node/src/channel.rs:2216-2290 | a held reservation survives a claim untouched exactly while the window since it was taken, or its own wall expiry, still covers it |
| `HotBudget.StaleBookFrees` | crates/vault-node/src/channel.rs:2303-2341 | once both clocks are past every reservation a claim within the cap is inserted into an otherwise empty book |
| `HotBudget.AddsOnlyItself` | crates/vault-node/src/channel.rs:2303-2341 | whatever is in the book after a claim was there before, unchanged, or is that claim as inserted |
| `HotBudget.HotBudgetLedger.Release` | crates/vault-node/src/channel.rs:2343-2347 | removes exactly that reservation; a no-op on others |
| `HotBudget.ReserveKeepsCap` | crates/vault-node/src/channel.rs:2303-2341 | at any readings of either clock a claim leaves the exact total of the whole book, not just its live part, within the cap, or within a full book of maximal claims when the cap is u64::MAX |
| `HotBudget.CapHoldsIff` | crates/vault-node/src/channel.rs:2303-2341 | over every history of claims on an empty ledger its exact total stays within the cap exactly when the cap is below u64::MAX |
| `Federation.NothingAdmittedAgesOut` | crates/vault-node/src/channel.rs:2216-2263 | no claim inside a window prunes anything of that window still in the ledger |
| `Federation.StepKeepsMetering` | crates/vault-node/src/channel.rs:2444-2458 | accept, refuse, expose, return-unexposed and evict all keep in the ledger, at its own outflow, everything admitted whose share has left or may yet |
| `Federation.EachCountedOften` | crates/vault-cli/src/attack.rs:3385-3392 | counting every completed spend once per honest share, q shares each give q times the total |
| `Federation.RoutingBound` | crates/vault-cli/src/attack.rs:35-44 | over every interleaving within a window, and for every cap, (t−c) times the completed outflow is at most one ledger's ceiling for each of the n−c honest nodes; the ceiling is the cap below u64::MAX |
| `Federation.RoutingOverflows` | crates/vault-node/src/lib.rs:1643-1671 | at a window cap of u64::MAX, a run from empty ledgers of any federation that completes more than n−c caps |
| `Federation.RoutingBoundIff` | crates/vault-cli/src/attack.rs:35-44 | the bound in caps holds over all runs exactly when the cap is below u64::MAX |
| `Federation.ProductionBounds` | crates/vault-cli/src/demo.rs:140-149 | at n = 2t−1, for every cap: at most t ledger ceilings at c = t−1, and (2−1/t) of one, strictly under two, at c = 0 |
| `Federation.RoutingBoundIsTight` | crates/vault-cli/src/attack.rs:3385-3505 | a run from empty ledgers that completes exactly t caps beside t−1 compromised signers |
| `Envelope.PushVar` | crates/vault-proto/src/lib.rs:264-267 | appends the length cut to 32 bits, then the bytes |
| `Envelope.EnvelopePreimage` | crates/vault-cli/src/adversary.rs:119-144 | the nine fields in order, three length-prefixed, integers little-endian |
| `Envelope.PreimageLayout` | crates/vault-cli/src/adversary.rs:133-143 | where every field sits in the preimage, byte by byte from its start |
| `Envelope.LeByte` | crates/vault-cli/src/adversary.rs:135-142 | byte i of an integer is its i-th digit to base 256, least significant first |
| `Envelope.DecodableIffFits` | crates/vault-cli/src/adversary.rs:119-144 | a decoder recovers every field and the untouched suffix exactly when no field outgrows its 32-bit length |
| `Envelope.PreimagesArePrefixFree` | crates/vault-cli/src/adversary.rs:119-144 | no preimage begins another, for fields that fit 32-bit lengths |
| `Envelope.PreimageBindsFields` | crates/vault-cli/src/adversary.rs:119-144 | equal preimages mean equal envelopes in all nine fields, at any payload length, for message types that fit and nonces of one length |
| `Envelope.BindingIff` | crates/vault-cli/src/adversary.rs:119-144 | for any nonce length, preimages bind all fields, of all envelopes and already of textual ones, exactly when message types are below 2^32 bytes |
| `Envelope.OverlongFieldsCollide` | crates/vault-proto/src/lib.rs:264-267 | around any textual fixed fields and any nonce, two different envelopes of textual message type and payload with one preimage, one message type being 2^32 bytes |
| `ChannelRead.HeaderEndExactly` | crates/vault-cli/src/adversary.rs:966-968 | the body starts just past the first CR LF CR LF, and nowhere if there is none |
| `ChannelRead.ReadHeaderBlock` | crates/vault-cli/src/adversary.rs:958-972 | the header loop stops at the terminator, the end or the 8 MiB limit, with exactly the bytes delivered so far |
| `ChannelRead.ReadChannelBody` | crates/vault-cli/src/adversary.rs:955-996 | the two loops compute the specified reading of a stream of chunks, failures included |
| `ChannelRead.ReadsToBoundary` | crates/vault-cli/src/adversary.rs:988-995 | for any fragmentation, the body is what the reads up to the completing one delivered past the header |
| `ChannelRead.ChunkingIndependent` | crates/vault-cli/src/adversary.rs:951-996 | without surplus bytes every fragmentation into nonempty reads gives the same body; a failed read before the end is a failure |
| `ChannelRead.SurplusDependsOnChunking` | crates/vault-cli/src/adversary.rs:988-995 | with surplus bytes two deliveries of the same stream read differently |
| `ChannelRead.IndependentIff` | crates/vault-cli/src/adversary.rs:951-996 | for all byte streams, all complete deliveries agree exactly when the bytes have no blank line, or a header that ends by the limit and no surplus, or a later one that no read can carry past the limit with anything after it |
| `ChannelRead.NothingIffNothingSent` | crates/vault-cli/src/adversary.rs:973-981 | only a connection that closes without a byte is taken for an empty poke |
| `Json.ShapesDetermine` | crates/vault-cli/src/attack.rs:4063-4069 | a JSON value is determined by what its nodes show along every path |
| `Silence.NormalizeRequestDependent` | crates/vault-cli/src/attack.rs:4114-4124 | the in-place loop blanks the two named paths where present and creates neither |
| `Silence.PinInvariantBody` | crates/vault-cli/src/attack.rs:4029-4061 | succeeds exactly on covered JSON and returns the blanked form; otherwise the first thing wrong is named |
| `Silence.CoveredExactly` | crates/vault-cli/src/attack.rs:4031-4058 | covered means: no accepted member, or an object whose commitment_id is the derived string and whose first_seen is a number of the in-flight interval |
| `Silence.OracleIsExact` | crates/vault-cli/src/attack.rs:4025-4071 | covered bodies compare equal exactly when they agree at every path outside the two fields |
| `Silence.RefusalsCompareWhole` | crates/vault-cli/src/attack.rs:4114-4117 | a body without an acceptance compares equal only to itself |
| `Wiretap.Wiretap.constructor` | crates/vault-cli/src/adversary.rs:563-577 | a fresh record is empty |
| `Wiretap.Wiretap.RecordUnreadable` | crates/vault-cli/src/adversary.rs:643-649 | adds one undecoded entry and nothing else, keeping the record the replay of its log |
| `Wiretap.Wiretap.Record` | crates/vault-cli/src/adversary.rs:747-862 | appends exactly the envelope's judgement to the log and stores it in the one place it names, keeping the record the replay of its log |
| `Wiretap.Wiretap.HonestPartialsFor` | crates/vault-cli/src/adversary.rs:580-593 | every partial accounted for under the id since the record was made, each once and in arrival order, however the calls were interleaved |
| `Wiretap.Wiretap.Undecoded` | crates/vault-cli/src/adversary.rs:639-641 | how many of all the bodies accounted for since the record was made could not be decoded |
| `Wiretap.ServeOne` | crates/vault-cli/src/adversary.rs:998-1048 | a connection is accounted for once: pokes and barriers leave no entry, read failures and bad JSON an undecoded one; only a barrier is echoed its token |
| `WiretapMeaning.FieldsExactly` | crates/vault-cli/src/adversary.rs:651-705 | an envelope's nine signed fields are what stands, well typed, under their own nine keys |
| `WiretapMeaning.AuthenticatesExactly` | crates/vault-cli/src/adversary.rs:651-745 | authentication passes exactly on an envelope signed by the sender it names, over the preimage of its fields, for this listener, with a base64 payload |
| `WiretapMeaning.PartialExactly` | crates/vault-cli/src/adversary.rs:747-836 | an envelope is counted as a partial exactly when it authenticates as one and the payload has each of the partial's nine fields under its own key |
| `WiretapMeaning.RequestExactly` | crates/vault-cli/src/adversary.rs:837-862 | ... and as a request exactly when its payload has a nonce in its spend, or without a spend in its refresh |
| `WiretapMeaning.BarrierExactly` | crates/vault-cli/src/adversary.rs:1018-1027 | a body is a barrier exactly when it is an object of that one member holding a string |
| `Wiretap.StoredMeansEndorsed` | crates/vault-cli/src/adversary.rs:651-862 | after any bodies, each stored partial came in one particular body of them, for that id, signed over its nine fields by the sender it is attributed to, another manifest member, for this node, wallet and manifest |
| `Wiretap.PreimageFixesCount` | crates/vault-cli/src/adversary.rs:651-745 | two counted envelopes over one signed preimage agree in all nine fields, at any payload length |
| `Wiretap.ReplayCountsOnce` | crates/vault-cli/src/adversary.rs:747-862 | the record is exactly the log sorted into its three places, each entry once and in order |
| `Barrier.StepTallied` | crates/vault-cli/src/adversary.rs:934-949 | every step keeps the counter equal to the running handlers plus one the loop has counted but not spawned |
| `Barrier.StepBooked` | crates/vault-cli/src/adversary.rs:871-923 | every step keeps the record the replay of a log in which each settled connection has exactly the entry it owes |
| `Barrier.RunKeepsInv` | crates/vault-cli/src/adversary.rs:871-949 | the whole invariant holds in every state of every interleaving |
| `Barrier.AheadIsCountedOnce` | crates/vault-cli/src/adversary.rs:276-316 | once the barrier's connection has a handler and the counter reads zero, everything ahead of it has exactly its one entry, or none if it was a poke or a barrier |
| `Barrier.AbsenceIsSound` | crates/vault-cli/src/attack.rs:1681-1754 | in every interleaving, barrier answered, then idle, then nothing undecoded and nothing under an id mean every connection ahead finished and carried no partial for it |
| `Barrier.NoPartialWasSentAhead` | crates/vault-cli/src/adversary.rs:1008-1048 | the same over the byte streams sent, in any fragmentation: every body ahead is a barrier, a request or a partial for another commitment, and none is a signed partial whose payload names this one under commitment_id |
| `Barrier.IdleAloneIsUnsound` | crates/vault-cli/src/adversary.rs:282-287 | without the barrier any payload can wait in the backlog, or in the loop's hands, behind a live, idle, clean listener |
| `Barrier.DeadLoopLoses` | crates/vault-cli/src/adversary.rs:881-893 | a loop that dies with a connection in hand loses it behind an idle counter and a clean record, and only the liveness flag tells |
| `Barrier.QueueDrains` | crates/vault-cli/src/adversary.rs:871-923 | any connections whatever can be served in order to an idle counter and the record of exactly what they owe |
| `Barrier.AwaitQuiet` | crates/vault-cli/src/attack.rs:1702-1740 | the polling loop returns at the first poll that ends an unbroken alive and idle stretch of 100 ms, and gives up on a dead listener or at the deadline only if no such stretch came before |
| `Barrier.AssertWiretapDecoded` | crates/vault-cli/src/attack.rs:1686-1754 | passes only after all barriers, such a stretch and no undecoded entry; each refusal names the missing reading |
| `Barrier.PassedDrainIsSound` | crates/vault-cli/src/attack.rs:1681-1754 | when a drain passes on readings taken from each listener's own run, every connection queued ahead of that listener's barrier finished and carried no partial for an id absent afterwards |
| `Compose.BaseEscapeDerives` | crates/vault-cli/src/compose.rs:183-205 | the base escape script always re-derives from its descriptor within any bound |
| `Compose.BaseEscapeExactly` | crates/vault-cli/src/compose.rs:183-205 | the base escape script is what the descriptor's first branch gives at index 0, and exists only then |
| `Compose.AttachParents` | crates/vault-cli/src/compose.rs:148-161 | succeeds exactly when every parent is held, giving each input its own parent and SIGHASH_ALL and changing nothing else |
| `Compose.SumInputs` | crates/vault-cli/src/compose.rs:89-94 | the exact input sum, or an overflow exactly when it exceeds a u64 |
| `Compose.FinalPolicy` | crates/vault-cli/src/compose.rs:162-176 | passes exactly on an admissible PSBT of the expected class |
| `Compose.PrimaryVerdict` | crates/vault-cli/src/compose.rs:162-176 | the primary is an admissible hot spend exactly when the change is the vault's, the destination hot and within cap and the fee under ten percent; its outflow is the amount |
| `Compose.SweepVerdict` | crates/vault-cli/src/compose.rs:162-176 | the sweep is an admissible escape exactly when its script is an allowed escape and its fee under ten percent |
| `Compose.ComposePrepared` | crates/vault-cli/src/compose.rs:83-181 | succeeds exactly when funds, dust, coverage, sizes, parents and policy conditions on the request hold, and returns the two exact shapes; otherwise the first of them that fails is named |
| `Compose.ComposeSpend` | crates/vault-cli/src/compose.rs:53-181 | the whole seam refuses exactly for a bad destination, no escape wallet or script, no view of those scripts, or one of those conditions; the pair pays the requested destination exactly the amount, the vault its change and the base escape the sweep |
| `Compose.ComposedPairIsSound` | crates/vault-cli/src/compose.rs:106-181 | the pair spends the same ordered coins, inputs = amount + change + fee = sweep + escape fee, coverage is met and the hot outflow is exactly the amount |
| `Compose.ComposedFees` | crates/vault-cli/src/compose.rs:95-127 | the primary pays exactly the rate for its size, the escape the higher of that rate and the sealed floor for its own, and no output is under its script's dust |
| `Compose.ComposedForm` | crates/vault-cli/src/compose.rs:136-161 | both are version 2, lock 0, final on the coins in order, with coin, witness script, parent and SIGHASH_ALL on each input, at the sizes they were priced at and no more than 100000 |
| `Compose.FinalizedVsizeExactly` | crates/vault-cli/src/inventory.rs:480-491 | a size passes exactly when the node's own bound gives it and it is at most 100000 |
| `Compose.PreflightedSizesHold` | crates/vault-cli/src/inventory.rs:438-491 | sizes measured on the zero-amount shapes hold at the final amounts |
| `Compose.NeverRefused` | crates/vault-cli/src/compose.rs:83-181 | a funded, dust-free, covered request to a hot destination within cap, with measured sizes and parents, is never refused; coverage of 90 percent makes the escape's fee check redundant |
| `MedianTime.MedianReaches` | crates/vault-cli/src/recovery.rs:296-300 | the median of the last eleven reaches a time exactly when six of them do |
| `MedianTime.AdvanceMtpPastRecoveryLock` | crates/vault-cli/src/recovery.rs:301-318 | from any chain of eleven blocks the loop appends thirteen and carries the median past the start by more than the lock |
| `MedianTime.BlocksAreStamped` | crates/vault-cli/src/recovery.rs:309-316 | on any chain the blocks carry the mocked clock itself, an hour past the lock and ten minutes apart, so their times strictly advance |
| `MedianTime.SixBlocksSuffice` | crates/vault-cli/src/recovery.rs:309-316 | six rounds already do it on any chain |
| `MedianTime.SixBlocksAreNeeded` | crates/vault-cli/src/recovery.rs:296-300 | on a chain not itself that far ahead, exactly the counts of six and more do |
| `MedianTime.AdvanceMaturesLock` | crates/vault-cli/src/recovery.rs:296-318 | afterwards every coin whose reference median is at or below the start satisfies the recovery lock |

## Left out

- Cryptography and codecs: descriptor derivation, ECDSA, SHA-256, hex, base64, UTF-8, DER and JSON text are given functions; authentication is a predicate over them.
- rust-miniscript's text parser, type rules and finalizer: the tree, its satisfaction and its notation are modelled, not the library; in particular not its own rule k ≤ n, nor any abbreviation in its notation other than pk.
- Refusal messages: violations carry their code and check name but no detail text.
- Policy.CheckFee: has no contract of its own, because its meaning is stated by `FeeArithmeticIsExact` and `Evaluate`.
- Compose.ComposeSpend: the inventory is a given function from the three scripts to a view of them; its scanning, tip brackets, rates and parent fetching over RPC are not part of this model. The dust minimum of a script is a given function.
- Ladder.EnsureEscapeLadder: has the node's one refusal code and not its message; the node's later residual and coverage checks at fire time are not part of this model. The multiplier list is any list, not only 4, 16, 64.
- Federation: the candidate registry, arming, release scheduling and expiry are reduced to which ids a node holds, admitted and exposed; when a candidate is exposed or dropped is left free, so the bound covers every schedule.
- HotBudget.HotBudgetLedger.Claim: is the source's `reserve` under a name apart from its specification `Reserve`; the lock it runs under is not modelled, each call being one step.
- Silence.PinInvariantBody: returns the blanked value instead of its serialised text, which is taken to be injective on values.
- ChannelRead.ReadChannelBody: finding the declared length in the header bytes is a given function of them; socket timeouts are read failures.
- Barrier.AbsenceIsSound: excludes a handler thread that panics, and assumes connections are accepted in the order they completed. A failed write of the answer is the handler dropping without it.
- Barrier.AssertWiretapDecoded: the readings are given, long enough to reach the timeout; `PassedDrainIsSound` ties them to the listeners' runs.
- MedianTime.AdvanceMtpPastRecoveryLock: assumes the regtest miner stamps a block with the mocked time, or the least time consensus admits if that is later.
- PIN evaluation, duress arming, the fire loop, watchtower, setup ceremony, sealed files and the coordinator's signed request encoding are not modelled.
- Network-kind checks of descriptors, RPC decoding, process and port plumbing, latency statistics and the scenario scripts are not modelled.

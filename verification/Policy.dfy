// The pure policy core: descriptors, PSBTs, the bounded re-derivation scan, the
// five checks run in order, the transaction class and the Hot-budget meter.
module Policy {
  import opened Basics

  // ----- descriptors

  /** One single-path descriptor. A definite one has a single script (absent when
      it does not derive); a ranged one has a script per index, possibly absent. */
  datatype Chain = Definite(only: Option<Script>) | Ranged(at: u32 -> Option<Script>)

  /** A descriptor after its multipath expansion, or one that does not expand. */
  datatype Descriptor = Unsplittable | Chains(singles: seq<Chain>)

  function ScriptAt(chain: Chain, index: u32): Option<Script> {
    match chain
    case Definite(only) => only
    case Ranged(at) => at(index)
  }

  function LastIndex(chain: Chain, max: u32): u32 {
    if chain.Ranged? then max else 0
  }

  ghost predicate ChainDerives(chain: Chain, spk: Script, max: u32) {
    exists i: u32 :: i <= LastIndex(chain, max) && ScriptAt(chain, i) == Some(spk)
  }

  /** spk is a script of the descriptor at some index within the bound, on some chain. */
  ghost predicate Derives(d: Descriptor, spk: Script, max: u32) {
    d.Chains? && exists c :: 0 <= c < |d.singles| && ChainDerives(d.singles[c], spk, max)
  }

  method DerivesWithin(d: Descriptor, spk: Script, max: u32) returns (found: bool)
    ensures found <==> Derives(d, spk, max)
  {
    if d.Unsplittable? { return false; }
    var c := 0;
    while c < |d.singles|
      invariant 0 <= c <= |d.singles|
      invariant forall k :: 0 <= k < c ==> !ChainDerives(d.singles[k], spk, max)
    {
      var single := d.singles[c];
      var last: nat := LastIndex(single, max);
      var index: nat := 0;
      while index <= last
        invariant 0 <= index <= last + 1
        invariant forall i: u32 :: i < index ==> ScriptAt(single, i) != Some(spk)
      {
        if ScriptAt(single, index) == Some(spk) {
          assert ChainDerives(d.singles[c], spk, max);
          return true;
        }
        index := index + 1;
      }
      c := c + 1;
    }
    return false;
  }

  // ----- transactions

  datatype OutPoint = OutPoint(txid: nat, vout: nat)

  datatype TxOut = TxOut(value: u64, script: Script)

  datatype TxIn = TxIn(prevout: OutPoint, sequence: u32)

  datatype Tx = Tx(version: nat, lockTime: nat, ins: seq<TxIn>, outs: seq<TxOut>)

  datatype Sighash = SighashAll | OtherSighash

  datatype InputMap = InputMap(
    witnessUtxo: Option<TxOut>,
    witnessScript: Option<Script>,
    nonWitnessUtxo: Option<Tx>,
    sighash: Option<Sighash>)

  /** The bip32 hints an output map carries; a nonempty one labels the output change. */
  datatype OutputMap = OutputMap(bip32: set<nat>)

  datatype Psbt = Psbt(tx: Tx, inputs: seq<InputMap>, outputs: seq<OutputMap>)

  datatype Params = Params(
    vault: Descriptor,
    allowed: seq<Descriptor>,
    escape: Option<Descriptor>,
    max: u32,
    hotMaxPerTx: u64)

  datatype ViolationCode =
    | UnknownInput | DestNotAllowed | ChangeNotDerivable
    | FeeExceedsCap | PsbtInconsistent | HotBudgetExceeded

  datatype Check =
    | PsbtConsistency | InputOwnership | DestinationAllowlist | VerifiedChange
    | HotBudget | FeeCap | TransactionClass

  datatype Violation = Violation(code: ViolationCode, check: Check)

  datatype TxClass = Refresh | Escape | Hot

  datatype Classification = Classification(txClass: TxClass, hotOutflow: u64)

  const MAX_FEE_PERCENT: nat := 10

  // ----- where a script belongs

  ghost predicate IsVault(p: Params, s: Script) { Derives(p.vault, s, p.max) }

  ghost predicate MatchesEscape(p: Params, s: Script) {
    p.escape.Some? && Derives(p.escape.value, s, p.max)
  }

  ghost predicate IsAllowed(p: Params, s: Script) {
    exists k :: 0 <= k < |p.allowed| && Derives(p.allowed[k], s, p.max)
  }

  ghost predicate IsEscape(p: Params, s: Script) { !IsVault(p, s) && MatchesEscape(p, s) }

  ghost predicate IsHot(p: Params, s: Script) {
    !IsVault(p, s) && !MatchesEscape(p, s) && IsAllowed(p, s)
  }

  ghost predicate Recognised(p: Params, s: Script) { IsAllowed(p, s) || IsVault(p, s) }

  ghost function VaultScripts(p: Params): iset<Script> { iset s | IsVault(p, s) }

  ghost function EscapeScripts(p: Params): iset<Script> { iset s | IsEscape(p, s) }

  ghost function HotScripts(p: Params): iset<Script> { iset s | IsHot(p, s) }

  /** Scripts that belong nowhere: not the vault's, not escape, not allowed. */
  ghost function StrangerScripts(p: Params): iset<Script> {
    iset s | !Recognised(p, s) && !IsEscape(p, s)
  }

  /** Everything that is neither the vault nor the escape wallet: what the meter counts. */
  ghost function MeteredScripts(p: Params): iset<Script> {
    iset s | !IsVault(p, s) && !MatchesEscape(p, s)
  }

  // ----- exact sums

  /** The exact value the outputs pay to the given scripts. */
  ghost function Paid(outs: seq<TxOut>, to: iset<Script>): nat {
    if outs == [] then 0
    else
      var last := outs[|outs| - 1];
      Paid(outs[..|outs| - 1], to) + if last.script in to then last.value else 0
  }

  function Total(outs: seq<TxOut>): nat {
    if outs == [] then 0 else Total(outs[..|outs| - 1]) + outs[|outs| - 1].value
  }

  /** Sum of the witness values present; an input without one contributes nothing. */
  function TotalIn(inputs: seq<InputMap>): nat {
    if inputs == [] then 0
    else
      var last := inputs[|inputs| - 1];
      TotalIn(inputs[..|inputs| - 1]) +
      if last.witnessUtxo.Some? then last.witnessUtxo.value.value else 0
  }

  // ----- what the checks mean

  predicate Consistent(psbt: Psbt) {
    && |psbt.tx.ins| > 0
    && |psbt.tx.outs| > 0
    && |psbt.inputs| == |psbt.tx.ins|
    && |psbt.outputs| == |psbt.tx.outs|
    && forall i :: 0 <= i < |psbt.inputs| ==> psbt.inputs[i].witnessUtxo.Some?
  }

  ghost predicate InputsOwned(psbt: Psbt, p: Params) {
    forall i :: 0 <= i < |psbt.inputs| ==>
      psbt.inputs[i].witnessUtxo.Some? && IsVault(p, psbt.inputs[i].witnessUtxo.value.script)
  }

  ghost predicate OutputsRecognised(psbt: Psbt, p: Params) {
    forall i :: 0 <= i < |psbt.tx.outs| ==> Recognised(p, psbt.tx.outs[i].script)
  }

  ghost predicate WithinHotBudget(psbt: Psbt, p: Params) {
    Saturate(Paid(psbt.tx.outs, MeteredScripts(p))) <= p.hotMaxPerTx
  }

  predicate FeeWithinCap(psbt: Psbt) {
    && Total(psbt.tx.outs) <= TotalIn(psbt.inputs)
    && (TotalIn(psbt.inputs) - Total(psbt.tx.outs)) * 100 <= MAX_FEE_PERCENT * TotalIn(psbt.inputs)
  }

  /** The whole policy, as one order-free condition on a PSBT. */
  ghost predicate Admissible(psbt: Psbt, p: Params) {
    && Consistent(psbt)
    && InputsOwned(psbt, p)
    && OutputsRecognised(psbt, p)
    && WithinHotBudget(psbt, p)
    && FeeWithinCap(psbt)
  }

  /** The first output at or after i that nothing recognises, or the output count. */
  ghost function FirstStranger(outs: seq<TxOut>, p: Params, i: nat): (k: nat)
    requires i <= |outs|
    ensures i <= k <= |outs|
    ensures forall j :: i <= j < k ==> Recognised(p, outs[j].script)
    ensures k < |outs| ==> !Recognised(p, outs[k].script)
    decreases |outs| - i
  {
    if i == |outs| || !Recognised(p, outs[i].script) then i else FirstStranger(outs, p, i + 1)
  }

  function StrangerViolation(hint: OutputMap): Violation {
    if hint.bip32 != {} then Violation(ChangeNotDerivable, VerifiedChange)
    else Violation(DestNotAllowed, DestinationAllowlist)
  }

  /** The verdict of the ordered chain of checks: the first violation wins. */
  ghost function Verdict(psbt: Psbt, p: Params): Outcome<Violation> {
    if !Consistent(psbt) then Fail(Violation(PsbtInconsistent, PsbtConsistency))
    else if !InputsOwned(psbt, p) then Fail(Violation(UnknownInput, InputOwnership))
    else if !OutputsRecognised(psbt, p) then
      var k := FirstStranger(psbt.tx.outs, p, 0);
      assert k < |psbt.tx.outs|;
      Fail(StrangerViolation(psbt.outputs[k]))
    else if !WithinHotBudget(psbt, p) then Fail(Violation(HotBudgetExceeded, HotBudget))
    else if Total(psbt.tx.outs) > TotalIn(psbt.inputs) then Fail(Violation(PsbtInconsistent, FeeCap))
    else if !FeeWithinCap(psbt) then Fail(Violation(FeeExceedsCap, FeeCap))
    else Pass
  }

  // ----- the checks as the source runs them

  method CheckPsbtConsistency(psbt: Psbt) returns (r: Outcome<Violation>)
    ensures r == if Consistent(psbt) then Pass else Fail(Violation(PsbtInconsistent, PsbtConsistency))
  {
    var refused := Fail(Violation(PsbtInconsistent, PsbtConsistency));
    if |psbt.tx.ins| == 0 { return refused; }
    if |psbt.tx.outs| == 0 { return refused; }
    if |psbt.inputs| != |psbt.tx.ins| { return refused; }
    if |psbt.outputs| != |psbt.tx.outs| { return refused; }
    for i := 0 to |psbt.inputs|
      invariant forall k :: 0 <= k < i ==> psbt.inputs[k].witnessUtxo.Some?
    {
      if psbt.inputs[i].witnessUtxo.None? { return refused; }
    }
    return Pass;
  }

  method CheckInputs(psbt: Psbt, p: Params) returns (r: Outcome<Violation>)
    requires Consistent(psbt)
    ensures r == if InputsOwned(psbt, p) then Pass else Fail(Violation(UnknownInput, InputOwnership))
  {
    for i := 0 to |psbt.inputs|
      invariant forall k :: 0 <= k < i ==> IsVault(p, psbt.inputs[k].witnessUtxo.value.script)
    {
      var owned := DerivesWithin(p.vault, psbt.inputs[i].witnessUtxo.value.script, p.max);
      if !owned { return Fail(Violation(UnknownInput, InputOwnership)); }
    }
    return Pass;
  }

  method AnyAllowed(p: Params, spk: Script) returns (found: bool)
    ensures found <==> IsAllowed(p, spk)
  {
    for k := 0 to |p.allowed|
      invariant forall j :: 0 <= j < k ==> !Derives(p.allowed[j], spk, p.max)
    {
      var hit := DerivesWithin(p.allowed[k], spk, p.max);
      if hit { return true; }
    }
    return false;
  }

  method PaysEscape(p: Params, spk: Script) returns (found: bool)
    ensures found <==> MatchesEscape(p, spk)
  {
    if p.escape.None? { return false; }
    found := DerivesWithin(p.escape.value, spk, p.max);
  }

  method CheckDestinations(psbt: Psbt, p: Params) returns (r: Outcome<Violation>)
    requires Consistent(psbt)
    ensures r.Pass? <==> OutputsRecognised(psbt, p)
    ensures r.Fail? ==>
      var k := FirstStranger(psbt.tx.outs, p, 0);
      k < |psbt.outputs| && r.error == StrangerViolation(psbt.outputs[k])
  {
    for i := 0 to |psbt.tx.outs|
      invariant forall k :: 0 <= k < i ==> Recognised(p, psbt.tx.outs[k].script)
      invariant FirstStranger(psbt.tx.outs, p, 0) == FirstStranger(psbt.tx.outs, p, i)
    {
      var spk := psbt.tx.outs[i].script;
      var allowed := AnyAllowed(p, spk);
      if allowed { continue; }
      var change := DerivesWithin(p.vault, spk, p.max);
      if change { continue; }
      return Fail(StrangerViolation(psbt.outputs[i]));
    }
    return Pass;
  }

  /** The meter: a saturating sum over every output outside vault and escape wallet. */
  method HotOutflow(psbt: Psbt, p: Params) returns (sat: u64)
    ensures sat == Saturate(Paid(psbt.tx.outs, MeteredScripts(p)))
  {
    sat := 0;
    var outs := psbt.tx.outs;
    for i := 0 to |outs|
      invariant sat == Saturate(Paid(outs[..i], MeteredScripts(p)))
    {
      assert outs[..i + 1][..i] == outs[..i];
      var vault := DerivesWithin(p.vault, outs[i].script, p.max);
      if vault { continue; }
      var escape := PaysEscape(p, outs[i].script);
      if escape { continue; }
      sat := SatAdd(sat, outs[i].value);
    }
    assert outs[..|outs|] == outs;
  }

  method CheckHotBudget(psbt: Psbt, p: Params) returns (r: Outcome<Violation>)
    ensures r == if WithinHotBudget(psbt, p) then Pass else Fail(Violation(HotBudgetExceeded, HotBudget))
  {
    var outflow := HotOutflow(psbt, p);
    if outflow > p.hotMaxPerTx { return Fail(Violation(HotBudgetExceeded, HotBudget)); }
    return Pass;
  }

  function CheckFee(psbt: Psbt): Outcome<Violation> {
    var totalIn := TotalIn(psbt.inputs);
    var totalOut := Total(psbt.tx.outs);
    if totalOut > totalIn then Fail(Violation(PsbtInconsistent, FeeCap))
    else if (totalIn - totalOut) * 100 > MAX_FEE_PERCENT * totalIn then
      Fail(Violation(FeeExceedsCap, FeeCap))
    else Pass
  }

  method Evaluate(psbt: Psbt, p: Params) returns (r: Outcome<Violation>)
    ensures r.Pass? <==> Admissible(psbt, p)
    ensures r == Verdict(psbt, p)
  {
    r := CheckPsbtConsistency(psbt);
    if r.Fail? { return; }
    r := CheckInputs(psbt, p);
    if r.Fail? { return; }
    r := CheckDestinations(psbt, p);
    if r.Fail? { return; }
    r := CheckHotBudget(psbt, p);
    if r.Fail? { return; }
    r := CheckFee(psbt);
  }

  // ----- the transaction class

  ghost predicate PaysAny(outs: seq<TxOut>, to: iset<Script>) {
    exists i :: 0 <= i < |outs| && outs[i].script in to
  }

  /** The class decision as the documentation states it: vault change is ignored, a
      stranger or a hot and escape mix has no class, otherwise the destinations decide. */
  ghost function ClassOf(psbt: Psbt, p: Params): Result<Classification, Violation> {
    var outs := psbt.tx.outs;
    var hot := PaysAny(outs, HotScripts(p));
    var escape := PaysAny(outs, EscapeScripts(p));
    if PaysAny(outs, StrangerScripts(p)) then
      Err(Violation(PsbtInconsistent, TransactionClass))
    else if hot && escape then Err(Violation(PsbtInconsistent, TransactionClass))
    else
      Ok(Classification(if hot then Hot else if escape then Escape else Refresh,
                        Saturate(Paid(outs, HotScripts(p)))))
  }

  datatype Bucket = VaultChange | EscapeOutput | HotOutput | Stranger

  ghost function BucketOf(p: Params, spk: Script): Bucket {
    if IsVault(p, spk) then VaultChange
    else if MatchesEscape(p, spk) then EscapeOutput
    else if IsAllowed(p, spk) then HotOutput
    else Stranger
  }

  /** One output's place: the vault first, then the escape wallet, then the allowlist. */
  method SortOutput(p: Params, spk: Script) returns (b: Bucket)
    ensures b == BucketOf(p, spk)
  {
    var vault := DerivesWithin(p.vault, spk, p.max);
    if vault { return VaultChange; }
    var escape := PaysEscape(p, spk);
    if escape { return EscapeOutput; }
    var allowed := AnyAllowed(p, spk);
    return if allowed then HotOutput else Stranger;
  }

  method Classify(psbt: Psbt, p: Params) returns (r: Result<Classification, Violation>)
    ensures r == ClassOf(psbt, p)
  {
    var outs := psbt.tx.outs;
    var escapeOutputs: seq<nat>, hotOutputs: seq<nat>, unrecognised: seq<nat> := [], [], [];
    var hotSat: u64 := 0;
    for i := 0 to |outs|
      invariant escapeOutputs != [] <==> PaysAny(outs[..i], EscapeScripts(p))
      invariant hotOutputs != [] <==> PaysAny(outs[..i], HotScripts(p))
      invariant unrecognised != [] <==> PaysAny(outs[..i], StrangerScripts(p))
      invariant hotSat == Saturate(Paid(outs[..i], HotScripts(p)))
    {
      ScanExtend(outs, i, p);
      var bucket := SortOutput(p, outs[i].script);
      match bucket {
        case VaultChange =>
        case EscapeOutput => escapeOutputs := escapeOutputs + [i];
        case HotOutput =>
          hotOutputs := hotOutputs + [i];
          hotSat := SatAdd(hotSat, outs[i].value);
        case Stranger => unrecognised := unrecognised + [i];
      }
    }
    assert outs[..|outs|] == outs;
    if unrecognised != [] { return Err(Violation(PsbtInconsistent, TransactionClass)); }
    match (hotOutputs == [], escapeOutputs == []) {
      case (true, true) => return Ok(Classification(Refresh, hotSat));
      case (true, false) => return Ok(Classification(Escape, hotSat));
      case (false, true) => return Ok(Classification(Hot, hotSat));
      case (false, false) => return Err(Violation(PsbtInconsistent, TransactionClass));
    }
  }

  /** What one more output adds to each of the scan's readings. */
  lemma ScanExtend(outs: seq<TxOut>, i: nat, p: Params)
    requires i < |outs|
    ensures
      var before, after, bucket := outs[..i], outs[..i + 1], BucketOf(p, outs[i].script);
      && (PaysAny(after, EscapeScripts(p)) <==> PaysAny(before, EscapeScripts(p)) || bucket.EscapeOutput?)
      && (PaysAny(after, HotScripts(p)) <==> PaysAny(before, HotScripts(p)) || bucket.HotOutput?)
      && (PaysAny(after, StrangerScripts(p)) <==> PaysAny(before, StrangerScripts(p)) || bucket.Stranger?)
      && Paid(after, HotScripts(p)) == Paid(before, HotScripts(p)) + if bucket.HotOutput? then outs[i].value else 0
  {
    assert outs[..i + 1][..i] == outs[..i];
    PaysAnyExtend(outs, i, EscapeScripts(p));
    PaysAnyExtend(outs, i, HotScripts(p));
    PaysAnyExtend(outs, i, StrangerScripts(p));
  }

  lemma PaysAnyExtend(outs: seq<TxOut>, i: nat, to: iset<Script>)
    requires i < |outs|
    ensures PaysAny(outs[..i + 1], to) <==> PaysAny(outs[..i], to) || outs[i].script in to
  {
    var longer, shorter := outs[..i + 1], outs[..i];
    if PaysAny(longer, to) {
      var k :| 0 <= k < |longer| && longer[k].script in to;
      assert k == i || shorter[k].script in to;
    }
    if PaysAny(shorter, to) {
      var k :| 0 <= k < |shorter| && shorter[k].script in to;
      assert longer[k].script in to;
    }
    assert longer[i] == outs[i];
  }
}

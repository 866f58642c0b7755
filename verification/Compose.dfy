// Composing the deterministic Spend and its mandatory base Escape over the prepared view:
// the pair a node can combine, and exactly when composition refuses.
module Compose {
  import opened Basics
  import opened Policy
  import opened PolicyTheorems
  import opened TxSize

  datatype Utxo = Utxo(outpoint: OutPoint, txout: TxOut)

  /** The destination, the vault change and the base escape. */
  datatype Scripts = Scripts(destination: Script, change: Script, escape: Script)

  /** The stable view of the chain: the canonical coins and scripts, the sizes and rate the
      fees are priced at, and the verified previous transactions. */
  datatype Prepared = Prepared(
    utxos: seq<Utxo>,
    witnessScript: Script,
    scripts: Scripts,
    primaryVsize: u64,
    escapeVsize: u64,
    satPerVb: u64,
    satisfaction: u64,
    parents: map<nat, Tx>)

  /** What was sealed: the policy, the one vault script, and the escape's floor and coverage. */
  datatype Vault = Vault(params: Params, script: Script, escapeFeerateFloor: u64, escapeCoveragePct: byte)

  datatype ComposeError =
    | BadDestination | NoEscapeWallet | NoBaseEscape | NotPrepared | InputOverflow | FeeOverflow
    | Insufficient | Dust | UnderCovered | SizeDrift | MissingParent | PolicyRefusal(v: Violation) | WrongClass

  const MAX_COMPOSER_VSIZE: nat := 100_000
  const FINAL_SEQUENCE: u32 := 0xFFFF_FFFF

  /** What the inventory guarantees: some coin, and every coin paying the one vault script. */
  predicate FromInventory(view: Prepared) {
    && view.utxos != []
    && forall i :: 0 <= i < |view.utxos| ==> view.utxos[i].txout.script == view.scripts.change
  }

  /** Index 0 of the first branch of the escape descriptor, if it derives. */
  function BaseEscapeScript(escape: Descriptor): Option<Script> {
    if escape.Unsplittable? || escape.singles == [] then None else ScriptAt(escape.singles[0], 0)
  }

  /** The base script always re-derives from its descriptor, whatever the index bound. */
  lemma BaseEscapeDerives(escape: Descriptor, max: u32)
    requires BaseEscapeScript(escape).Some?
    ensures Derives(escape, BaseEscapeScript(escape).value, max)
  {
    assert ChainDerives(escape.singles[0], BaseEscapeScript(escape).value, max);
  }

  /** The base script is the one the first branch gives at index 0, and exists only then. */
  lemma BaseEscapeExactly(escape: Descriptor, s: Script)
    ensures BaseEscapeScript(escape) == Some(s) <==>
      && escape.Chains? && |escape.singles| > 0
      && match escape.singles[0]
         case Definite(only) => only == Some(s)
         case Ranged(at) => at(0) == Some(s)
  {}

  // ----- the two shapes

  function SumUtxos(utxos: seq<Utxo>): nat {
    if utxos == [] then 0 else SumUtxos(utxos[..|utxos| - 1]) + utxos[|utxos| - 1].txout.value
  }

  function BuildSpend(utxos: seq<Utxo>, witnessScript: Script, outs: seq<TxOut>): Psbt {
    Psbt(
      Tx(2, 0, seq(|utxos|, i requires 0 <= i < |utxos| => TxIn(utxos[i].outpoint, FINAL_SEQUENCE)), outs),
      seq(|utxos|, i requires 0 <= i < |utxos| => InputMap(Some(utxos[i].txout), Some(witnessScript), None, None)),
      seq(|outs|, i => OutputMap({})))
  }

  function Primary(view: Prepared, amount: u64, change: u64): Psbt {
    BuildSpend(view.utxos, view.witnessScript,
               [TxOut(amount, view.scripts.destination), TxOut(change, view.scripts.change)])
  }

  function Sweep(view: Prepared, swept: u64): Psbt {
    BuildSpend(view.utxos, view.witnessScript, [TxOut(swept, view.scripts.escape)])
  }

  function FinalizedVsize(satisfaction: u64, tx: Tx): Option<u64> {
    var vsize := MaximumFinalizedVsize(satisfaction, tx);
    if vsize.Some? && vsize.value > MAX_COMPOSER_VSIZE then None else vsize
  }

  /** A size is final exactly when the node's own bound gives it and it is at most 100000. */
  lemma FinalizedVsizeExactly(satisfaction: u64, tx: Tx, v: u64)
    ensures FinalizedVsize(satisfaction, tx) == Some(v) <==> MaximumFinalizedVsize(satisfaction, tx) == Some(v) && v <= 100_000
  {}

  predicate ParentsKnown(psbt: Psbt, parents: map<nat, Tx>) {
    forall i :: 0 <= i < |psbt.tx.ins| ==> psbt.tx.ins[i].prevout.txid in parents
  }

  function WithParents(psbt: Psbt, parents: map<nat, Tx>): Psbt
    requires |psbt.inputs| == |psbt.tx.ins| && ParentsKnown(psbt, parents)
  {
    psbt.(inputs := seq(|psbt.inputs|, i requires 0 <= i < |psbt.inputs| =>
      Attached(psbt.inputs[i], parents[psbt.tx.ins[i].prevout.txid])))
  }

  function Attached(input: InputMap, parent: Tx): InputMap {
    input.(nonWitnessUtxo := Some(parent), sighash := Some(SighashAll))
  }

  method AttachParents(psbt: Psbt, parents: map<nat, Tx>) returns (r: Option<Psbt>)
    requires |psbt.inputs| == |psbt.tx.ins|
    ensures r == if ParentsKnown(psbt, parents) then Some(WithParents(psbt, parents)) else None
  {
    var inputs := psbt.inputs;
    for i := 0 to |psbt.inputs|
      invariant |inputs| == |psbt.inputs|
      invariant forall j :: 0 <= j < i ==> psbt.tx.ins[j].prevout.txid in parents
      invariant forall j :: 0 <= j < i ==> inputs[j] == Attached(psbt.inputs[j], parents[psbt.tx.ins[j].prevout.txid])
      invariant forall j :: i <= j < |inputs| ==> inputs[j] == psbt.inputs[j]
    {
      var txid := psbt.tx.ins[i].prevout.txid;
      if txid !in parents { return None; }
      inputs := inputs[i := inputs[i].(nonWitnessUtxo := Some(parents[txid]), sighash := Some(SighashAll))];
    }
    assert psbt.(inputs := inputs) == WithParents(psbt, parents);
    return Some(psbt.(inputs := inputs));
  }

  method SumInputs(utxos: seq<Utxo>) returns (total: Option<u64>)
    ensures total == if SumUtxos(utxos) <= U64_MAX then Some(SumUtxos(utxos)) else None
  {
    var sum: u64 := 0;
    for i := 0 to |utxos|
      invariant sum == SumUtxos(utxos[..i])
    {
      assert utxos[..i + 1][..i] == utxos[..i];
      var next := CheckedAdd(sum, utxos[i].txout.value);
      if next.None? {
        SumGrows(utxos, i + 1);
        return None;
      }
      sum := next.value;
    }
    assert utxos[..|utxos|] == utxos;
    return Some(sum);
  }

  lemma {:induction false} SumGrows(utxos: seq<Utxo>, i: nat)
    requires i <= |utxos|
    ensures SumUtxos(utxos[..i]) <= SumUtxos(utxos)
    decreases |utxos| - i
  {
    if i == |utxos| {
      assert utxos[..i] == utxos;
    } else {
      assert utxos[..i + 1][..i] == utxos[..i];
      SumGrows(utxos, i + 1);
    }
  }

  // ----- the numbers

  function Max(a: u64, b: u64): u64 { if a >= b then a else b }

  function PrimaryFee(view: Prepared): nat { view.satPerVb * view.primaryVsize }

  function EscapeFee(vault: Vault, view: Prepared): nat {
    Max(view.satPerVb, vault.escapeFeerateFloor) * view.escapeVsize
  }

  /** The vault covers the amount and both fees, in 64-bit arithmetic. */
  predicate Funded(vault: Vault, view: Prepared, amount: u64) {
    && SumUtxos(view.utxos) <= U64_MAX
    && PrimaryFee(view) <= U64_MAX && EscapeFee(vault, view) <= U64_MAX
    && amount + PrimaryFee(view) <= SumUtxos(view.utxos)
    && EscapeFee(vault, view) <= SumUtxos(view.utxos)
  }

  function ChangeValue(view: Prepared, amount: u64): nat
    requires amount + PrimaryFee(view) <= SumUtxos(view.utxos)
  {
    SumUtxos(view.utxos) - amount - PrimaryFee(view)
  }

  function SweepValue(vault: Vault, view: Prepared): nat
    requires EscapeFee(vault, view) <= SumUtxos(view.utxos)
  {
    SumUtxos(view.utxos) - EscapeFee(vault, view)
  }

  predicate NoDust(vault: Vault, view: Prepared, amount: u64, dust: Script -> u64)
    requires Funded(vault, view, amount)
  {
    && amount >= dust(view.scripts.destination)
    && ChangeValue(view, amount) >= dust(view.scripts.change)
    && SweepValue(vault, view) >= dust(view.scripts.escape)
  }

  predicate CoverageMet(vault: Vault, view: Prepared, amount: u64)
    requires Funded(vault, view, amount)
  {
    SweepValue(vault, view) * 100 >= SumUtxos(view.utxos) * vault.escapeCoveragePct
  }

  predicate SizesHold(vault: Vault, view: Prepared, amount: u64)
    requires Funded(vault, view, amount)
  {
    && FinalizedVsize(view.satisfaction, Primary(view, amount, ChangeValue(view, amount)).tx) == Some(view.primaryVsize)
    && FinalizedVsize(view.satisfaction, Sweep(view, SweepValue(vault, view)).tx) == Some(view.escapeVsize)
  }

  predicate ParentsHeld(view: Prepared) {
    forall i :: 0 <= i < |view.utxos| ==> view.utxos[i].outpoint.txid in view.parents
  }

  /** The policy's side: the coins and change are the vault's, the destination is hot and
      within its budget, the escape script is an allowed escape, both fees under the cap. */
  ghost predicate PolicyMet(vault: Vault, view: Prepared, amount: u64) {
    var p := vault.params;
    && IsVault(p, view.scripts.change)
    && IsHot(p, view.scripts.destination) && amount <= p.hotMaxPerTx
    && IsEscape(p, view.scripts.escape) && IsAllowed(p, view.scripts.escape)
    && PrimaryFee(view) * 100 <= MAX_FEE_PERCENT * SumUtxos(view.utxos)
    && EscapeFee(vault, view) * 100 <= MAX_FEE_PERCENT * SumUtxos(view.utxos)
  }

  ghost predicate Composable(vault: Vault, view: Prepared, amount: u64, dust: Script -> u64) {
    && Funded(vault, view, amount)
    && NoDust(vault, view, amount, dust)
    && CoverageMet(vault, view, amount)
    && SizesHold(vault, view, amount)
    && ParentsHeld(view)
    && PolicyMet(vault, view, amount)
  }

  /** What each refusal means, in the order the conditions are tried. */
  ghost predicate RefusedFor(vault: Vault, view: Prepared, amount: u64, dust: Script -> u64, error: ComposeError) {
    match error
    case InputOverflow => SumUtxos(view.utxos) > U64_MAX
    case FeeOverflow => SumUtxos(view.utxos) <= U64_MAX && (PrimaryFee(view) > U64_MAX || EscapeFee(vault, view) > U64_MAX)
    case Insufficient =>
      && SumUtxos(view.utxos) <= U64_MAX && PrimaryFee(view) <= U64_MAX && EscapeFee(vault, view) <= U64_MAX
      && (amount + PrimaryFee(view) > SumUtxos(view.utxos) || EscapeFee(vault, view) > SumUtxos(view.utxos))
    case Dust => Funded(vault, view, amount) && !NoDust(vault, view, amount, dust)
    case UnderCovered =>
      Funded(vault, view, amount) && NoDust(vault, view, amount, dust) && !CoverageMet(vault, view, amount)
    case _ =>
      && Funded(vault, view, amount) && NoDust(vault, view, amount, dust) && CoverageMet(vault, view, amount)
      && LateRefusal(vault, view, amount, error)
  }

  ghost predicate LateRefusal(vault: Vault, view: Prepared, amount: u64, error: ComposeError)
    requires Funded(vault, view, amount)
  {
    match error
    case SizeDrift => !SizesHold(vault, view, amount)
    case MissingParent => SizesHold(vault, view, amount) && !ParentsHeld(view)
    case PolicyRefusal(_) => SizesHold(vault, view, amount) && ParentsHeld(view) && !PolicyMet(vault, view, amount)
    case WrongClass => SizesHold(vault, view, amount) && ParentsHeld(view) && !PolicyMet(vault, view, amount)
    case _ => false
  }

  // ----- the policy's verdict on the two shapes

  lemma {:induction false} InputsSum(inputs: seq<InputMap>, utxos: seq<Utxo>)
    requires |inputs| == |utxos| && forall i :: 0 <= i < |utxos| ==> inputs[i].witnessUtxo == Some(utxos[i].txout)
    ensures TotalIn(inputs) == SumUtxos(utxos)
  {
    if inputs != [] { InputsSum(inputs[..|inputs| - 1], utxos[..|utxos| - 1]); }
  }

  /** A shape over the view's coins, with whatever else its input maps carry. */
  predicate Over(psbt: Psbt, view: Prepared) {
    && |psbt.tx.ins| == |psbt.inputs| == |view.utxos|
    && |psbt.outputs| == |psbt.tx.outs|
    && forall i :: 0 <= i < |view.utxos| ==> psbt.inputs[i].witnessUtxo == Some(view.utxos[i].txout)
  }

  lemma InputsOwnedIff(psbt: Psbt, view: Prepared, p: Params)
    requires Over(psbt, view) && FromInventory(view)
    ensures InputsOwned(psbt, p) <==> IsVault(p, view.scripts.change)
  {
    assert psbt.inputs[0].witnessUtxo == Some(view.utxos[0].txout);
  }

  lemma PaidOne(out: TxOut, to: iset<Script>)
    ensures Paid([out], to) == (if out.script in to then out.value else 0) && Total([out]) == out.value
  {
    assert [out][..0] == [];
  }

  lemma PaidTwo(a: TxOut, b: TxOut, to: iset<Script>)
    ensures Paid([a, b], to) == (if a.script in to then a.value else 0) + if b.script in to then b.value else 0
    ensures Total([a, b]) == a.value + b.value
  {
    assert [a, b][..1] == [a];
    PaidOne(a, to);
  }

  lemma PrimaryVerdict(psbt: Psbt, view: Prepared, p: Params, amount: u64, change: u64)
    requires Over(psbt, view) && FromInventory(view)
    requires psbt.tx.outs == [TxOut(amount, view.scripts.destination), TxOut(change, view.scripts.change)]
    requires amount + change <= SumUtxos(view.utxos)
    ensures Admissible(psbt, p) && ClassOf(psbt, p).Ok? && ClassOf(psbt, p).value.txClass == Hot <==>
      && IsVault(p, view.scripts.change)
      && IsHot(p, view.scripts.destination) && amount <= p.hotMaxPerTx
      && (SumUtxos(view.utxos) - amount - change) * 100 <= MAX_FEE_PERCENT * SumUtxos(view.utxos)
    ensures Admissible(psbt, p) && IsHot(p, view.scripts.destination) ==>
      ClassOf(psbt, p) == Ok(Classification(Hot, amount))
  {
    var outs := psbt.tx.outs;
    InputsSum(psbt.inputs, view.utxos);
    InputsOwnedIff(psbt, view, p);
    PaidTwo(outs[0], outs[1], MeteredScripts(p));
    PaidTwo(outs[0], outs[1], HotScripts(p));
    assert PaysAny(outs, HotScripts(p)) <==> IsHot(p, outs[0].script) || IsHot(p, outs[1].script);
    assert PaysAny(outs, EscapeScripts(p)) <==> IsEscape(p, outs[0].script) || IsEscape(p, outs[1].script);
  }

  lemma SweepVerdict(psbt: Psbt, view: Prepared, p: Params, swept: u64)
    requires Over(psbt, view) && FromInventory(view)
    requires psbt.tx.outs == [TxOut(swept, view.scripts.escape)] && swept <= SumUtxos(view.utxos)
    ensures Admissible(psbt, p) && ClassOf(psbt, p).Ok? && ClassOf(psbt, p).value.txClass == Escape <==>
      && IsVault(p, view.scripts.change)
      && IsEscape(p, view.scripts.escape) && IsAllowed(p, view.scripts.escape)
      && (SumUtxos(view.utxos) - swept) * 100 <= MAX_FEE_PERCENT * SumUtxos(view.utxos)
  {
    var outs := psbt.tx.outs;
    InputsSum(psbt.inputs, view.utxos);
    InputsOwnedIff(psbt, view, p);
    PaidOne(outs[0], MeteredScripts(p));
    PaidOne(outs[0], HotScripts(p));
    assert PaysAny(outs, HotScripts(p)) <==> IsHot(p, outs[0].script);
    assert PaysAny(outs, EscapeScripts(p)) <==> IsEscape(p, outs[0].script);
  }

  method FinalPolicy(psbt: Psbt, p: Params, expected: TxClass) returns (r: Outcome<ComposeError>)
    ensures r.Pass? <==> Admissible(psbt, p) && ClassOf(psbt, p).Ok? && ClassOf(psbt, p).value.txClass == expected
    ensures r.Fail? ==> r.error.PolicyRefusal? || r.error.WrongClass?
    ensures r == Fail(WrongClass) <==>
      Admissible(psbt, p) && ClassOf(psbt, p).Ok? && ClassOf(psbt, p).value.txClass != expected
    ensures forall v :: r == Fail(PolicyRefusal(v)) <==>
      Verdict(psbt, p) == Fail(v) || (Admissible(psbt, p) && ClassOf(psbt, p) == Err(v))
  {
    var verdict := Evaluate(psbt, p);
    if verdict.Fail? { return Fail(PolicyRefusal(verdict.error)); }
    var class_ := Classify(psbt, p);
    if class_.Err? { return Fail(PolicyRefusal(class_.error)); }
    if class_.value.txClass != expected { return Fail(WrongClass); }
    return Pass;
  }

  // ----- composition

  /** Everything after the view is prepared. It succeeds exactly on what Composable names,
      and returns the two shapes at their final amounts with parents and sighash attached. */
  method ComposePrepared(vault: Vault, view: Prepared, amount: u64, dust: Script -> u64)
    returns (r: Result<(Psbt, Psbt), ComposeError>)
    requires FromInventory(view)
    ensures r.Ok? <==> Composable(vault, view, amount, dust)
    ensures r.Ok? ==>
      && r.value.0 == WithParents(Primary(view, amount, ChangeValue(view, amount)), view.parents)
      && r.value.1 == WithParents(Sweep(view, SweepValue(vault, view)), view.parents)
    ensures r.Err? ==> RefusedFor(vault, view, amount, dust, r.error)
  {
    var total := SumInputs(view.utxos);
    if total.None? { return Err(InputOverflow); }
    var primaryFee := CheckedMul(view.satPerVb, view.primaryVsize);
    if primaryFee.None? { return Err(FeeOverflow); }
    var escapeFee := CheckedMul(Max(view.satPerVb, vault.escapeFeerateFloor), view.escapeVsize);
    if escapeFee.None? { return Err(FeeOverflow); }
    var rest := CheckedSub(total.value, amount);
    if rest.None? { return Err(Insufficient); }
    var change := CheckedSub(rest.value, primaryFee.value);
    if change.None? { return Err(Insufficient); }
    var sweep := CheckedSub(total.value, escapeFee.value);
    if sweep.None? { return Err(Insufficient); }
    assert Funded(vault, view, amount);
    var dusty := amount < dust(view.scripts.destination) || change.value < dust(view.scripts.change)
      || sweep.value < dust(view.scripts.escape);
    if dusty { return Err(Dust); }
    if sweep.value * 100 < total.value * vault.escapeCoveragePct { return Err(UnderCovered); }
    r := Finish(vault, view, amount, change.value, sweep.value);
  }

  /** The tail of composition: sizes, parents and the final policy over both shapes. */
  method Finish(vault: Vault, view: Prepared, amount: u64, change: u64, sweep: u64)
    returns (r: Result<(Psbt, Psbt), ComposeError>)
    requires FromInventory(view) && Funded(vault, view, amount)
    requires change == ChangeValue(view, amount) && sweep == SweepValue(vault, view)
    ensures r.Ok? <==> SizesHold(vault, view, amount) && ParentsHeld(view) && PolicyMet(vault, view, amount)
    ensures r.Err? ==> LateRefusal(vault, view, amount, r.error)
    ensures r.Ok? ==>
      && r.value.0 == WithParents(Primary(view, amount, change), view.parents)
      && r.value.1 == WithParents(Sweep(view, sweep), view.parents)
  {
    var primary, escape := Primary(view, amount, change), Sweep(view, sweep);
    if FinalizedVsize(view.satisfaction, primary.tx) != Some(view.primaryVsize) { return Err(SizeDrift); }
    if FinalizedVsize(view.satisfaction, escape.tx) != Some(view.escapeVsize) { return Err(SizeDrift); }
    r := AttachAndJudge(vault, view, primary, escape, amount, change, sweep);
  }

  /** Attaches the parents to both shapes and takes the policy's verdict on the result. */
  method AttachAndJudge(vault: Vault, view: Prepared, primary: Psbt, escape: Psbt, amount: u64, change: u64, sweep: u64)
    returns (r: Result<(Psbt, Psbt), ComposeError>)
    requires FromInventory(view) && primary == Primary(view, amount, change) && escape == Sweep(view, sweep)
    requires amount + change + PrimaryFee(view) == SumUtxos(view.utxos) == sweep + EscapeFee(vault, view)
    ensures r.Ok? <==> ParentsHeld(view) && PolicyMet(vault, view, amount)
    ensures r == Err(MissingParent) <==> !ParentsHeld(view)
    ensures r.Err? && ParentsHeld(view) ==> r.error.PolicyRefusal? || r.error.WrongClass?
    ensures r.Ok? ==> r.value == (WithParents(primary, view.parents), WithParents(escape, view.parents))
  {
    ParentsIff(view, primary);
    ParentsIff(view, escape);
    var p := AttachParents(primary, view.parents);
    if p.None? { return Err(MissingParent); }
    var e := AttachParents(escape, view.parents);
    if e.None? { return Err(MissingParent); }
    var judged := JudgePair(vault, view, p.value, e.value, amount, change, sweep);
    if judged.Fail? { return Err(judged.error); }
    return Ok((p.value, e.value));
  }

  /** The final policy over both shapes, the primary first. */
  method JudgePair(vault: Vault, view: Prepared, primary: Psbt, escape: Psbt, amount: u64, change: u64, sweep: u64)
    returns (r: Outcome<ComposeError>)
    requires FromInventory(view) && Over(primary, view) && Over(escape, view)
    requires primary.tx.outs == [TxOut(amount, view.scripts.destination), TxOut(change, view.scripts.change)]
    requires escape.tx.outs == [TxOut(sweep, view.scripts.escape)]
    requires amount + change + PrimaryFee(view) == SumUtxos(view.utxos) == sweep + EscapeFee(vault, view)
    ensures r.Pass? <==> PolicyMet(vault, view, amount)
    ensures r.Fail? ==> r.error.PolicyRefusal? || r.error.WrongClass?
  {
    PrimaryVerdict(primary, view, vault.params, amount, change);
    SweepVerdict(escape, view, vault.params, sweep);
    r := FinalPolicy(primary, vault.params, Hot);
    if r.Fail? { return; }
    r := FinalPolicy(escape, vault.params, Escape);
  }

  lemma ParentsIff(view: Prepared, psbt: Psbt)
    requires |psbt.tx.ins| == |view.utxos|
    requires forall i :: 0 <= i < |view.utxos| ==> psbt.tx.ins[i].prevout == view.utxos[i].outpoint
    ensures ParentsKnown(psbt, view.parents) <==> ParentsHeld(view)
  {
    if ParentsHeld(view) {
      forall i | 0 <= i < |psbt.tx.ins| ensures psbt.tx.ins[i].prevout.txid in view.parents {
        assert view.utxos[i].outpoint.txid in view.parents;
      }
    }
    if ParentsKnown(psbt, view.parents) {
      forall i | 0 <= i < |view.utxos| ensures view.utxos[i].outpoint.txid in view.parents {
        assert psbt.tx.ins[i].prevout.txid in view.parents;
      }
    }
  }

  /** The inventory answers for the scripts it was asked about, and only with vault coins. */
  ghost predicate Honest(prepare: Scripts -> Option<Prepared>) {
    forall scripts :: prepare(scripts).Some? ==>
      prepare(scripts).value.scripts == scripts && FromInventory(prepare(scripts).value)
  }

  /** The three scripts a request is about: its destination, the sealed vault's own and the
      base escape's, if there is one. */
  function Canonical(vault: Vault, destination: Script): Option<Scripts> {
    if vault.params.escape.None? then None
    else
      match BaseEscapeScript(vault.params.escape.value)
      case None => None
      case Some(base) => Some(Scripts(destination, vault.script, base))
  }

  /** The whole seam, over the inventory's answer to three scripts. A composed pair pays the
      requested destination exactly the amount, the vault its change, and the base escape
      the sweep, and nothing else. */
  method ComposeSpend(
    vault: Vault, destination: Option<Script>, prepare: Scripts -> Option<Prepared>, amount: u64, dust: Script -> u64)
    returns (r: Result<(Psbt, Psbt), ComposeError>)
    requires Honest(prepare)
    ensures r.Ok? <==>
      && destination.Some? && Canonical(vault, destination.value).Some?
      && var view := prepare(Canonical(vault, destination.value).value);
         view.Some? && Composable(vault, view.value, amount, dust)
    ensures r.Ok? ==>
      var view := prepare(Canonical(vault, destination.value).value).value;
      && r.value.0 == WithParents(Primary(view, amount, ChangeValue(view, amount)), view.parents)
      && r.value.1 == WithParents(Sweep(view, SweepValue(vault, view)), view.parents)
      && r.value.0.tx.outs
        == [TxOut(amount, destination.value), TxOut(ChangeValue(view, amount), vault.script)]
      && r.value.1.tx.outs
        == [TxOut(SweepValue(vault, view), BaseEscapeScript(vault.params.escape.value).value)]
    ensures r == Err(BadDestination) <==> destination.None?
    ensures r == Err(NoEscapeWallet) <==> destination.Some? && vault.params.escape.None?
    ensures r == Err(NoBaseEscape) <==>
      destination.Some? && vault.params.escape.Some? && BaseEscapeScript(vault.params.escape.value).None?
    ensures r == Err(NotPrepared) <==>
      && destination.Some? && Canonical(vault, destination.value).Some?
      && prepare(Canonical(vault, destination.value).value).None?
  {
    if destination.None? { return Err(BadDestination); }
    if vault.params.escape.None? { return Err(NoEscapeWallet); }
    var base := BaseEscapeScript(vault.params.escape.value);
    if base.None? { return Err(NoBaseEscape); }
    var prepared := prepare(Scripts(destination.value, vault.script, base.value));
    if prepared.None? { return Err(NotPrepared); }
    r := ComposePrepared(vault, prepared.value, amount, dust);
  }

  // ----- what a composed pair guarantees

  /** A composed pair spends the same coins in the same order, splits them exactly, meets
      the coverage, moves exactly the amount to the hot wallet, and carries every parent
      under an explicit SIGHASH_ALL. */
  lemma ComposedPairIsSound(vault: Vault, view: Prepared, amount: u64, dust: Script -> u64, primary: Psbt, escape: Psbt)
    requires FromInventory(view) && Composable(vault, view, amount, dust)
    requires ParentsKnown(Primary(view, amount, ChangeValue(view, amount)), view.parents)
    requires ParentsKnown(Sweep(view, SweepValue(vault, view)), view.parents)
    requires primary == WithParents(Primary(view, amount, ChangeValue(view, amount)), view.parents)
    requires escape == WithParents(Sweep(view, SweepValue(vault, view)), view.parents)
    ensures primary.tx.ins == escape.tx.ins && |primary.tx.ins| == |view.utxos|
    ensures forall i :: 0 <= i < |view.utxos| ==> primary.tx.ins[i].prevout == view.utxos[i].outpoint
    ensures TotalIn(primary.inputs) == TotalIn(escape.inputs) == SumUtxos(view.utxos)
    ensures SumUtxos(view.utxos) == amount + ChangeValue(view, amount) + PrimaryFee(view)
    ensures SumUtxos(view.utxos) == Total(escape.tx.outs) + EscapeFee(vault, view)
    ensures Total(primary.tx.outs) == amount + ChangeValue(view, amount)
    ensures Total(escape.tx.outs) * 100 >= SumUtxos(view.utxos) * vault.escapeCoveragePct
    ensures Admissible(primary, vault.params) && ClassOf(primary, vault.params) == Ok(Classification(Hot, amount))
    ensures Admissible(escape, vault.params) && ClassOf(escape, vault.params) == Ok(Classification(Escape, 0))
    ensures forall i :: 0 <= i < |view.utxos| ==>
      primary.inputs[i] == escape.inputs[i] && primary.inputs[i].sighash == Some(SighashAll)
      && primary.inputs[i].nonWitnessUtxo == Some(view.parents[view.utxos[i].outpoint.txid])
  {
    InputsSum(primary.inputs, view.utxos);
    InputsSum(escape.inputs, view.utxos);
    ComposedVerdicts(vault, view, amount, primary, escape);
    PaidTwo(primary.tx.outs[0], primary.tx.outs[1], iset{});
    PaidOne(escape.tx.outs[0], iset{});
  }

  lemma ComposedVerdicts(vault: Vault, view: Prepared, amount: u64, primary: Psbt, escape: Psbt)
    requires FromInventory(view) && Funded(vault, view, amount) && PolicyMet(vault, view, amount)
    requires Over(primary, view) && Over(escape, view)
    requires primary.tx.outs == [TxOut(amount, view.scripts.destination), TxOut(ChangeValue(view, amount), view.scripts.change)]
    requires escape.tx.outs == [TxOut(SweepValue(vault, view), view.scripts.escape)]
    ensures Admissible(primary, vault.params) && ClassOf(primary, vault.params) == Ok(Classification(Hot, amount))
    ensures Admissible(escape, vault.params) && ClassOf(escape, vault.params) == Ok(Classification(Escape, 0))
  {
    PrimaryVerdict(primary, view, vault.params, amount, ChangeValue(view, amount));
    SweepVerdict(escape, view, vault.params, SweepValue(vault, view));
    ClassAgreesWithMeter(escape, vault.params);
  }

  /** The pair is what composition returns for this request. */
  ghost predicate ComposedAs(vault: Vault, view: Prepared, amount: u64, dust: Script -> u64, primary: Psbt, escape: Psbt) {
    && FromInventory(view) && Composable(vault, view, amount, dust)
    && ParentsKnown(Primary(view, amount, ChangeValue(view, amount)), view.parents)
    && ParentsKnown(Sweep(view, SweepValue(vault, view)), view.parents)
    && primary == WithParents(Primary(view, amount, ChangeValue(view, amount)), view.parents)
    && escape == WithParents(Sweep(view, SweepValue(vault, view)), view.parents)
  }

  /** What the pair pays in fees: the primary exactly the node's rate for its size, the escape
      the higher of that rate and the sealed floor for its own; and no output is dust. */
  lemma ComposedFees(vault: Vault, view: Prepared, amount: u64, dust: Script -> u64, primary: Psbt, escape: Psbt)
    requires ComposedAs(vault, view, amount, dust, primary, escape)
    ensures TotalIn(primary.inputs) - Total(primary.tx.outs) == view.satPerVb * view.primaryVsize
    ensures
      var fee := TotalIn(escape.inputs) - Total(escape.tx.outs);
      var atRate, atFloor := view.satPerVb * view.escapeVsize, vault.escapeFeerateFloor * view.escapeVsize;
      fee >= atRate && fee >= atFloor && (fee == atRate || fee == atFloor)
    ensures |primary.tx.outs| == 2 && |escape.tx.outs| == 1
    ensures primary.tx.outs[0].value >= dust(view.scripts.destination)
    ensures primary.tx.outs[1].value >= dust(view.scripts.change)
    ensures escape.tx.outs[0].value >= dust(view.scripts.escape)
  {
    ComposedPairIsSound(vault, view, amount, dust, primary, escape);
    if view.satPerVb >= vault.escapeFeerateFloor {
      Scale(vault.escapeFeerateFloor, view.satPerVb, view.escapeVsize);
    } else {
      Scale(view.satPerVb, vault.escapeFeerateFloor, view.escapeVsize);
    }
  }

  /** The pinned form of either transaction over the view's coins: version 2, lock time 0,
      final inputs on the coins in order, and for each its coin, the vault's witness script,
      its parent and SIGHASH_ALL. */
  predicate PinnedForm(view: Prepared, psbt: Psbt) {
    && psbt.tx.version == 2 && psbt.tx.lockTime == 0
    && |psbt.tx.ins| == |psbt.inputs| == |view.utxos|
    && (forall i :: 0 <= i < |view.utxos| ==>
      && psbt.tx.ins[i] == TxIn(view.utxos[i].outpoint, 0xFFFF_FFFF)
      && view.utxos[i].outpoint.txid in view.parents
      && psbt.inputs[i] == InputMap(Some(view.utxos[i].txout), Some(view.witnessScript),
                                    Some(view.parents[view.utxos[i].outpoint.txid]), Some(SighashAll)))
    && |psbt.outputs| == |psbt.tx.outs|
    && forall i :: 0 <= i < |psbt.outputs| ==> psbt.outputs[i].bip32 == {}
  }

  lemma ComposedForm(vault: Vault, view: Prepared, amount: u64, dust: Script -> u64, primary: Psbt, escape: Psbt)
    requires ComposedAs(vault, view, amount, dust, primary, escape)
    ensures PinnedForm(view, primary) && PinnedForm(view, escape)
    ensures MaximumFinalizedVsize(view.satisfaction, primary.tx) == Some(view.primaryVsize) && view.primaryVsize <= 100_000
    ensures MaximumFinalizedVsize(view.satisfaction, escape.tx) == Some(view.escapeVsize) && view.escapeVsize <= 100_000
  {}

  /** A view whose sizes were measured on the zero-amount shapes never drifts: the final
      amounts finalize at the sizes their fees were priced at. */
  lemma PreflightedSizesHold(vault: Vault, view: Prepared, amount: u64)
    requires Funded(vault, view, amount)
    requires FinalizedVsize(view.satisfaction, Primary(view, 0, 0).tx) == Some(view.primaryVsize)
    requires FinalizedVsize(view.satisfaction, Sweep(view, 0).tx) == Some(view.escapeVsize)
    ensures SizesHold(vault, view, amount)
  {
    ShapeFixesSize(view.satisfaction, Primary(view, 0, 0).tx, Primary(view, amount, ChangeValue(view, amount)).tx);
    ShapeFixesSize(view.satisfaction, Sweep(view, 0).tx, Sweep(view, SweepValue(vault, view)).tx);
  }

  /** Completeness in a caller's terms: a funded request with no dust, measured sizes and
      parents at hand, to a hot destination within its cap, from a vault whose sealed
      coverage is at least 90 percent and whose escape wallet is allowlisted and apart from
      the vault, is never refused once its primary fee is under the cap. The coverage
      alone keeps the escape's fee under the cap. */
  lemma NeverRefused(vault: Vault, view: Prepared, amount: u64, dust: Script -> u64, k: nat)
    requires FromInventory(view) && ParentsHeld(view)
    requires Funded(vault, view, amount) && NoDust(vault, view, amount, dust) && CoverageMet(vault, view, amount)
    requires FinalizedVsize(view.satisfaction, Primary(view, 0, 0).tx) == Some(view.primaryVsize)
    requires FinalizedVsize(view.satisfaction, Sweep(view, 0).tx) == Some(view.escapeVsize)
    requires vault.escapeCoveragePct >= 90
    requires vault.params.escape.Some? && BaseEscapeScript(vault.params.escape.value) == Some(view.scripts.escape)
    requires k < |vault.params.allowed| && vault.params.allowed[k] == vault.params.escape.value
    requires IsVault(vault.params, view.scripts.change) && !IsVault(vault.params, view.scripts.escape)
    requires IsHot(vault.params, view.scripts.destination) && amount <= vault.params.hotMaxPerTx
    requires PrimaryFee(view) * 100 <= MAX_FEE_PERCENT * SumUtxos(view.utxos)
    ensures Composable(vault, view, amount, dust)
  {
    PreflightedSizesHold(vault, view, amount);
    BaseEscapeDerives(vault.params.escape.value, vault.params.max);
    assert Derives(vault.params.allowed[k], view.scripts.escape, vault.params.max);
    CoverageCapsFee(SumUtxos(view.utxos), EscapeFee(vault, view), vault.escapeCoveragePct);
  }

  lemma CoverageCapsFee(total: nat, fee: nat, coverage: nat)
    requires fee <= total && (total - fee) * 100 >= total * coverage && coverage >= 90
    ensures fee * 100 <= MAX_FEE_PERCENT * total
  {
    assert total * coverage >= total * 90;
  }
}

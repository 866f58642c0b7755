// What the policy checks guarantee together: the class scan and the meter agree,
// the shape of the outputs carries no power, labels carry no authority, and the
// machine-width fee arithmetic is exact.
module PolicyTheorems {
  import opened Basics
  import opened Policy

  // ----- sums over outputs

  lemma {:induction false} PaidConcat(a: seq<TxOut>, b: seq<TxOut>, to: iset<Script>)
    ensures Paid(a + b, to) == Paid(a, to) + Paid(b, to)
  {
    if b == [] {
      assert a + b == a;
    } else {
      var n := |b| - 1;
      assert (a + b)[..|a + b| - 1] == a + b[..n];
      PaidConcat(a, b[..n], to);
    }
  }

  lemma {:induction false} TotalConcat(a: seq<TxOut>, b: seq<TxOut>)
    ensures Total(a + b) == Total(a) + Total(b)
  {
    if b == [] {
      assert a + b == a;
    } else {
      var n := |b| - 1;
      assert (a + b)[..|a + b| - 1] == a + b[..n];
      TotalConcat(a, b[..n]);
    }
  }

  /** Scripts outside a set pay nothing to it; scripts inside pay everything. */
  lemma {:induction false} PaidUniform(outs: seq<TxOut>, s: Script, to: iset<Script>)
    requires forall i :: 0 <= i < |outs| ==> outs[i].script == s
    ensures Paid(outs, to) == if s in to then Total(outs) else 0
  {
    if outs != [] { PaidUniform(outs[..|outs| - 1], s, to); }
  }

  /** Every satoshi goes to the vault, the escape wallet or what the meter counts. */
  lemma {:induction false} PaidPartition(outs: seq<TxOut>, p: Params)
    ensures Total(outs) ==
      Paid(outs, VaultScripts(p)) + Paid(outs, EscapeScripts(p)) + Paid(outs, MeteredScripts(p))
  {
    if outs != [] { PaidPartition(outs[..|outs| - 1], p); }
  }

  /** Two sets that agree on every script paid receive the same. */
  lemma {:induction false} PaidAgree(outs: seq<TxOut>, a: iset<Script>, b: iset<Script>)
    requires forall i :: 0 <= i < |outs| ==> (outs[i].script in a <==> outs[i].script in b)
    ensures Paid(outs, a) == Paid(outs, b)
  {
    if outs != [] { PaidAgree(outs[..|outs| - 1], a, b); }
  }

  lemma {:induction false} PaidNothing(outs: seq<TxOut>, to: iset<Script>)
    requires !PaysAny(outs, to)
    ensures Paid(outs, to) == 0
  {
    if outs != [] {
      var shorter := outs[..|outs| - 1];
      assert forall i :: 0 <= i < |shorter| ==> shorter[i].script == outs[i].script;
      PaidNothing(shorter, to);
    }
  }

  lemma Extract(outs: seq<TxOut>, k: nat, to: iset<Script>)
    requires k < |outs|
    ensures Paid(outs, to) ==
      Paid(outs[..k] + outs[k + 1..], to) + if outs[k].script in to then outs[k].value else 0
    ensures Total(outs) == Total(outs[..k] + outs[k + 1..]) + outs[k].value
    ensures multiset(outs) == multiset(outs[..k] + outs[k + 1..]) + multiset{outs[k]}
  {
    var front, back := outs[..k], outs[k + 1..];
    assert outs == front + ([outs[k]] + back);
    PaidConcat(front, [outs[k]] + back, to);
    PaidConcat([outs[k]], back, to);
    PaidConcat(front, back, to);
    TotalConcat(front, [outs[k]] + back);
    TotalConcat([outs[k]], back);
    TotalConcat(front, back);
    assert [outs[k]][..0] == [];
    assert Paid([outs[k]], to) == if outs[k].script in to then outs[k].value else 0;
  }

  lemma {:induction false} PermutationSums(a: seq<TxOut>, b: seq<TxOut>, to: iset<Script>)
    requires multiset(a) == multiset(b)
    ensures Paid(a, to) == Paid(b, to) && Total(a) == Total(b)
    decreases |a|
  {
    if a == [] {
      assert |multiset(b)| == 0;
    } else {
      var n := |a| - 1;
      assert a[n] in multiset(a);
      var k :| 0 <= k < |b| && b[k] == a[n];
      Extract(a, n, to);
      Extract(b, k, to);
      assert a[..n] + a[n + 1..] == a[..n];
      assert multiset(a[..n]) == multiset(a) - multiset{a[n]};
      assert multiset(b[..k] + b[k + 1..]) == multiset(b) - multiset{b[k]};
      PermutationSums(a[..n], b[..k] + b[k + 1..], to);
    }
  }

  // ----- derivation and the verdict, spelled out

  /** What a chain gives: a definite one its only script, a ranged one those of the indices
      up to the bound. */
  ghost predicate Gives(chain: Chain, spk: Script, max: u32) {
    match chain
    case Definite(only) => only == Some(spk)
    case Ranged(at) => exists i: u32 :: i <= max && at(i) == Some(spk)
  }

  lemma ChainDerivesExactly(chain: Chain, spk: Script, max: u32)
    ensures ChainDerives(chain, spk, max) <==> Gives(chain, spk, max)
  {
    match chain {
      case Definite(only) =>
        if only == Some(spk) { assert 0 <= LastIndex(chain, max) && ScriptAt(chain, 0) == Some(spk); }
      case Ranged(at) =>
        if i: u32 :| i <= max && at(i) == Some(spk) {
          assert i <= LastIndex(chain, max) && ScriptAt(chain, i) == Some(spk);
        }
        if i: u32 :| i <= LastIndex(chain, max) && ScriptAt(chain, i) == Some(spk) {
          assert i <= max && at(i) == Some(spk);
        }
    }
  }

  /** A descriptor derives a script exactly when it expands and one of its chains gives it. */
  lemma DerivesExactly(d: Descriptor, spk: Script, max: u32)
    ensures Derives(d, spk, max) <==> d.Chains? && exists c :: 0 <= c < |d.singles| && Gives(d.singles[c], spk, max)
  {
    if d.Chains? {
      forall c | 0 <= c < |d.singles|
        ensures ChainDerives(d.singles[c], spk, max) <==> Gives(d.singles[c], spk, max)
      {
        ChainDerivesExactly(d.singles[c], spk, max);
      }
    }
  }

  /** Nothing is wrong with the inputs: the first two checks pass. */
  ghost predicate InputsPass(psbt: Psbt, p: Params) {
    && |psbt.tx.ins| > 0 && |psbt.tx.outs| > 0
    && |psbt.inputs| == |psbt.tx.ins| && |psbt.outputs| == |psbt.tx.outs|
    && forall i :: 0 <= i < |psbt.inputs| ==>
      psbt.inputs[i].witnessUtxo.Some? && IsVault(p, psbt.inputs[i].witnessUtxo.value.script)
  }

  /** Output k is the first that neither an allowed wallet nor the vault derives. */
  ghost predicate FirstStrangerAt(psbt: Psbt, p: Params, k: nat) {
    && k < |psbt.tx.outs| && !IsAllowed(p, psbt.tx.outs[k].script) && !IsVault(p, psbt.tx.outs[k].script)
    && forall j :: 0 <= j < k ==> IsAllowed(p, psbt.tx.outs[j].script) || IsVault(p, psbt.tx.outs[j].script)
  }

  ghost predicate NoStranger(psbt: Psbt, p: Params) {
    forall j :: 0 <= j < |psbt.tx.outs| ==> IsAllowed(p, psbt.tx.outs[j].script) || IsVault(p, psbt.tx.outs[j].script)
  }

  /** When each refusal of the inputs is given. */
  lemma InputRefusals(psbt: Psbt, p: Params)
    ensures Verdict(psbt, p) == Fail(Violation(PsbtInconsistent, PsbtConsistency)) <==>
      || |psbt.tx.ins| == 0 || |psbt.tx.outs| == 0
      || |psbt.inputs| != |psbt.tx.ins| || |psbt.outputs| != |psbt.tx.outs|
      || exists i :: 0 <= i < |psbt.inputs| && psbt.inputs[i].witnessUtxo.None?
    ensures Verdict(psbt, p) == Fail(Violation(UnknownInput, InputOwnership)) <==>
      && |psbt.tx.ins| > 0 && |psbt.tx.outs| > 0
      && |psbt.inputs| == |psbt.tx.ins| && |psbt.outputs| == |psbt.tx.outs|
      && (forall i :: 0 <= i < |psbt.inputs| ==> psbt.inputs[i].witnessUtxo.Some?)
      && exists i :: 0 <= i < |psbt.inputs| && !IsVault(p, psbt.inputs[i].witnessUtxo.value.script)
  {}

  lemma StrangerIsFirst(psbt: Psbt, p: Params, k: nat)
    requires FirstStrangerAt(psbt, p, k)
    ensures FirstStranger(psbt.tx.outs, p, 0) == k && !OutputsRecognised(psbt, p)
  {
    var f := FirstStranger(psbt.tx.outs, p, 0);
    if f < k { assert Recognised(p, psbt.tx.outs[f].script); }
  }

  /** When each refusal of an output is given: by the first stranger's own label. */
  lemma OutputRefusals(psbt: Psbt, p: Params)
    ensures Verdict(psbt, p) == Fail(Violation(ChangeNotDerivable, VerifiedChange)) <==>
      InputsPass(psbt, p) && exists k: nat :: FirstStrangerAt(psbt, p, k) && psbt.outputs[k].bip32 != {}
    ensures Verdict(psbt, p) == Fail(Violation(DestNotAllowed, DestinationAllowlist)) <==>
      InputsPass(psbt, p) && exists k: nat :: FirstStrangerAt(psbt, p, k) && psbt.outputs[k].bip32 == {}
  {
    assert InputsPass(psbt, p) <==> Consistent(psbt) && InputsOwned(psbt, p);
    if InputsPass(psbt, p) {
      var f := FirstStranger(psbt.tx.outs, p, 0);
      if !OutputsRecognised(psbt, p) { assert FirstStrangerAt(psbt, p, f); }
      forall k: nat | FirstStrangerAt(psbt, p, k) ensures k == f && !OutputsRecognised(psbt, p) {
        StrangerIsFirst(psbt, p, k);
      }
    }
  }

  /** When each refusal of an amount is given, the budget before the fee. */
  lemma AmountRefusals(psbt: Psbt, p: Params)
    ensures
      var hot := Paid(psbt.tx.outs, MeteredScripts(p));
      var totalIn, totalOut := TotalIn(psbt.inputs), Total(psbt.tx.outs);
      var metered := if hot <= U64_MAX then hot else U64_MAX;
      var reached := InputsPass(psbt, p) && NoStranger(psbt, p);
      && (Verdict(psbt, p) == Fail(Violation(HotBudgetExceeded, HotBudget)) <==> reached && metered > p.hotMaxPerTx)
      && (Verdict(psbt, p) == Fail(Violation(PsbtInconsistent, FeeCap)) <==>
        reached && metered <= p.hotMaxPerTx && totalOut > totalIn)
      && (Verdict(psbt, p) == Fail(Violation(FeeExceedsCap, FeeCap)) <==>
        reached && metered <= p.hotMaxPerTx && totalOut <= totalIn && (totalIn - totalOut) * 10 > totalIn)
      && (Verdict(psbt, p) == Pass <==>
        reached && metered <= p.hotMaxPerTx && totalOut <= totalIn && (totalIn - totalOut) * 10 <= totalIn)
  {
    assert InputsPass(psbt, p) <==> Consistent(psbt) && InputsOwned(psbt, p);
    assert NoStranger(psbt, p) <==> OutputsRecognised(psbt, p);
  }

  // ----- the class scan and the meter

  /** Whenever a class is granted, the outflow it reports is the meter's reading; both
      are the true hot sum cut off at the largest u64, and only Hot reports one. */
  lemma ClassAgreesWithMeter(psbt: Psbt, p: Params)
    requires ClassOf(psbt, p).Ok?
    ensures ClassOf(psbt, p).value.hotOutflow == Saturate(Paid(psbt.tx.outs, MeteredScripts(p)))
    ensures ClassOf(psbt, p).value.hotOutflow == Saturate(Paid(psbt.tx.outs, HotScripts(p)))
    ensures ClassOf(psbt, p).value.txClass != Hot ==> Paid(psbt.tx.outs, MeteredScripts(p)) == 0
    ensures ClassOf(psbt, p).value.txClass == Refresh ==>
      Paid(psbt.tx.outs, VaultScripts(p)) == Total(psbt.tx.outs)
  {
    var outs := psbt.tx.outs;
    PaidAgree(outs, HotScripts(p), MeteredScripts(p));
    PaidPartition(outs, p);
    if !PaysAny(outs, HotScripts(p)) { PaidNothing(outs, HotScripts(p)); }
    if !PaysAny(outs, EscapeScripts(p)) { PaidNothing(outs, EscapeScripts(p)); }
  }

  /** After a passing evaluation the class can only be refused for a genuine mix: some
      output pays a hot wallet and some other output pays the escape wallet. */
  lemma ClassFailsOnlyOnMix(psbt: Psbt, p: Params)
    requires Admissible(psbt, p)
    ensures ClassOf(psbt, p).Err? <==>
      exists i, j :: 0 <= i < |psbt.tx.outs| && 0 <= j < |psbt.tx.outs|
        && IsHot(p, psbt.tx.outs[i].script) && IsEscape(p, psbt.tx.outs[j].script)
  {
    var outs := psbt.tx.outs;
    if ClassOf(psbt, p).Err? {
      var i :| 0 <= i < |outs| && outs[i].script in HotScripts(p);
      var j :| 0 <= j < |outs| && outs[j].script in EscapeScripts(p);
      assert IsHot(p, outs[i].script) && IsEscape(p, outs[j].script);
    }
    if exists i, j :: 0 <= i < |outs| && 0 <= j < |outs| && IsHot(p, outs[i].script) && IsEscape(p, outs[j].script) {
      var i, j :| 0 <= i < |outs| && 0 <= j < |outs| && IsHot(p, outs[i].script) && IsEscape(p, outs[j].script);
      assert outs[i].script in HotScripts(p) && outs[j].script in EscapeScripts(p);
    }
  }

  lemma TwoCoins(coin: InputMap)
    requires coin.witnessUtxo.Some?
    ensures TotalIn([coin, coin]) == 2 * coin.witnessUtxo.value.value
  {
    assert [coin, coin][..1] == [coin] && [coin][..0] == [];
    assert TotalIn([coin]) == coin.witnessUtxo.value.value;
  }

  lemma TwoPayments(paid: TxOut)
    ensures Total([paid, paid]) == 2 * paid.value
  {
    assert [paid, paid][..1] == [paid] && [paid][..0] == [];
    assert Total([paid]) == paid.value;
  }

  /** With the cap at the largest u64 the saturating meter no longer bounds the true sum:
      two vault coins of that size, spent together, pay twice the cap to a hot wallet. */
  lemma SaturatedCapDoesNotBound(p: Params, vault: Script, hot: Script) returns (psbt: Psbt)
    requires IsVault(p, vault) && IsHot(p, hot) && p.hotMaxPerTx == U64_MAX
    ensures Admissible(psbt, p) && ClassOf(psbt, p) == Ok(Classification(Hot, U64_MAX))
    ensures psbt.tx.ins == [TxIn(OutPoint(0, 0), 0), TxIn(OutPoint(0, 1), 0)] && |psbt.inputs| == 2
    ensures forall i :: 0 <= i < 2 ==> psbt.inputs[i].witnessUtxo == Some(TxOut(U64_MAX, vault))
    ensures Paid(psbt.tx.outs, MeteredScripts(p)) == Paid(psbt.tx.outs, HotScripts(p)) == 2 * p.hotMaxPerTx
  {
    var coin := InputMap(Some(TxOut(U64_MAX, vault)), None, None, None);
    var paid := TxOut(U64_MAX, hot);
    var tx := Tx(2, 0, [TxIn(OutPoint(0, 0), 0), TxIn(OutPoint(0, 1), 0)], [paid, paid]);
    psbt := Psbt(tx, [coin, coin], [OutputMap({}), OutputMap({})]);
    TwoCoins(coin);
    TwoPayments(paid);
    PaidUniform([paid, paid], hot, MeteredScripts(p));
    PaidUniform([paid, paid], hot, HotScripts(p));
    assert psbt.tx.outs[0].script in HotScripts(p);
  }

  /** The per-transaction cap bounds what accepted spends pay to hot wallets exactly when it
      is below the value the meter saturates to. */
  lemma CapBoundsIff(p: Params, vault: Script, hot: Script)
    requires IsVault(p, vault) && IsHot(p, hot)
    ensures (forall psbt :: Admissible(psbt, p) ==> Paid(psbt.tx.outs, MeteredScripts(p)) <= p.hotMaxPerTx)
      <==> p.hotMaxPerTx < U64_MAX
  {
    if p.hotMaxPerTx == U64_MAX {
      var psbt := SaturatedCapDoesNotBound(p, vault, hot);
      assert Admissible(psbt, p);
    }
  }

  // ----- the shape of the outputs

  /** Two PSBTs over the same inputs whose outputs reach the same non-vault scripts with
      the same metered sum and the same grand total. */
  ghost predicate SameSpend(a: Psbt, b: Psbt, p: Params) {
    && a.tx.ins == b.tx.ins
    && a.inputs == b.inputs
    && (a.tx.outs == [] <==> b.tx.outs == [])
    && (|a.outputs| == |a.tx.outs| <==> |b.outputs| == |b.tx.outs|)
    && (forall s :: !IsVault(p, s) ==> (PaysAny(a.tx.outs, iset{s}) <==> PaysAny(b.tx.outs, iset{s})))
    && Paid(a.tx.outs, MeteredScripts(p)) == Paid(b.tx.outs, MeteredScripts(p))
    && Total(a.tx.outs) == Total(b.tx.outs)
  }

  /** Equal verdicts, except that the two names for an unrecognised output are one. */
  predicate SameRefusal(a: Outcome<Violation>, b: Outcome<Violation>) {
    || a == b
    || (a.Fail? && b.Fail?
        && a.error.code in {ChangeNotDerivable, DestNotAllowed}
        && b.error.code in {ChangeNotDerivable, DestNotAllowed})
  }

  lemma PaysWitness(outs: seq<TxOut>, i: nat, s: Script)
    requires i < |outs| && outs[i].script == s
    ensures PaysAny(outs, iset{s})
  {
    assert outs[i].script in iset{s};
  }

  lemma SameSpendSymmetric(a: Psbt, b: Psbt, p: Params)
    requires SameSpend(a, b, p)
    ensures SameSpend(b, a, p)
  {
    forall s | !IsVault(p, s)
      ensures PaysAny(b.tx.outs, iset{s}) <==> PaysAny(a.tx.outs, iset{s}) {}
  }

  /** A non-vault script paid on one side is paid on the other. */
  lemma Mirror(a: Psbt, b: Psbt, p: Params, i: nat) returns (j: nat)
    requires SameSpend(a, b, p)
    requires i < |a.tx.outs| && !IsVault(p, a.tx.outs[i].script)
    ensures j < |b.tx.outs| && b.tx.outs[j].script == a.tx.outs[i].script
  {
    var s := a.tx.outs[i].script;
    PaysWitness(a.tx.outs, i, s);
    assert PaysAny(b.tx.outs, iset{s});
    j :| 0 <= j < |b.tx.outs| && b.tx.outs[j].script in iset{s};
  }

  lemma StrangerMirrored(a: Psbt, b: Psbt, p: Params)
    requires SameSpend(a, b, p)
    ensures OutputsRecognised(b, p) ==> OutputsRecognised(a, p)
    ensures PaysAny(a.tx.outs, StrangerScripts(p)) ==> PaysAny(b.tx.outs, StrangerScripts(p))
    ensures PaysAny(a.tx.outs, HotScripts(p)) ==> PaysAny(b.tx.outs, HotScripts(p))
    ensures PaysAny(a.tx.outs, EscapeScripts(p)) ==> PaysAny(b.tx.outs, EscapeScripts(p))
  {
    forall i | 0 <= i < |a.tx.outs| && !IsVault(p, a.tx.outs[i].script)
      ensures exists j :: 0 <= j < |b.tx.outs| && b.tx.outs[j].script == a.tx.outs[i].script
    {
      var j := Mirror(a, b, p, i);
    }
  }

  lemma SameAdmission(a: Psbt, b: Psbt, p: Params)
    requires SameSpend(a, b, p)
    ensures Consistent(a) <==> Consistent(b)
    ensures InputsOwned(a, p) <==> InputsOwned(b, p)
    ensures OutputsRecognised(a, p) <==> OutputsRecognised(b, p)
    ensures WithinHotBudget(a, p) <==> WithinHotBudget(b, p)
    ensures FeeWithinCap(a) <==> FeeWithinCap(b)
  {
    SameSpendSymmetric(a, b, p);
    StrangerMirrored(a, b, p);
    StrangerMirrored(b, a, p);
  }

  lemma SameClass(a: Psbt, b: Psbt, p: Params)
    requires SameSpend(a, b, p)
    ensures ClassOf(a, p) == ClassOf(b, p)
  {
    SameSpendSymmetric(a, b, p);
    StrangerMirrored(a, b, p);
    StrangerMirrored(b, a, p);
    if ClassOf(a, p).Ok? {
      PaidAgree(a.tx.outs, HotScripts(p), MeteredScripts(p));
      PaidAgree(b.tx.outs, HotScripts(p), MeteredScripts(p));
    }
  }

  /** The general statement: acceptance, refusal, class and outflow depend on the spend
      only through what SameSpend compares. */
  lemma ShapeInvariance(a: Psbt, b: Psbt, p: Params)
    requires SameSpend(a, b, p)
    ensures Admissible(a, p) <==> Admissible(b, p)
    ensures SameRefusal(Verdict(a, p), Verdict(b, p))
    ensures ClassOf(a, p) == ClassOf(b, p)
  {
    SameClass(a, b, p);
    SameAdmission(a, b, p);
    RefusalFollows(a, b, p);
  }

  lemma RefusalFollows(a: Psbt, b: Psbt, p: Params)
    requires Consistent(a) <==> Consistent(b)
    requires InputsOwned(a, p) <==> InputsOwned(b, p)
    requires OutputsRecognised(a, p) <==> OutputsRecognised(b, p)
    requires WithinHotBudget(a, p) <==> WithinHotBudget(b, p)
    requires FeeWithinCap(a) <==> FeeWithinCap(b)
    requires Total(a.tx.outs) == Total(b.tx.outs) && a.inputs == b.inputs
    ensures SameRefusal(Verdict(a, p), Verdict(b, p))
  {}

  /** Reordering the outputs (with any labels) changes nothing. */
  lemma PermutingOutputs(a: Psbt, b: Psbt, p: Params)
    requires a.tx.ins == b.tx.ins && a.inputs == b.inputs && |a.outputs| == |b.outputs|
    requires multiset(a.tx.outs) == multiset(b.tx.outs)
    ensures Admissible(a, p) <==> Admissible(b, p)
    ensures SameRefusal(Verdict(a, p), Verdict(b, p))
    ensures ClassOf(a, p) == ClassOf(b, p)
  {
    var x, y := a.tx.outs, b.tx.outs;
    PermutationSums(x, y, MeteredScripts(p));
    assert |x| == |multiset(x)| == |multiset(y)| == |y|;
    assert forall o :: o in x <==> o in multiset(x);
    assert forall o :: o in y <==> o in multiset(y);
    forall s ensures PaysAny(x, iset{s}) <==> PaysAny(y, iset{s}) {
      if i :| 0 <= i < |x| && x[i].script in iset{s} {
        assert x[i] in y;
        var j :| 0 <= j < |y| && y[j] == x[i];
        PaysWitness(y, j, s);
      }
      if i :| 0 <= i < |y| && y[i].script in iset{s} {
        assert y[i] in x;
        var j :| 0 <= j < |x| && x[j] == y[i];
        PaysWitness(x, j, s);
      }
    }
    ShapeInvariance(a, b, p);
  }

  /** Splitting one output into several to the same script with the same total changes
      nothing: a payment over the cap stays over the cap however it is cut up. */
  lemma SplittingAnOutput(a: Psbt, b: Psbt, p: Params, k: nat, parts: seq<TxOut>)
    requires a.tx.ins == b.tx.ins && a.inputs == b.inputs
    requires |a.outputs| == |a.tx.outs| && |b.outputs| == |b.tx.outs|
    requires k < |a.tx.outs| && parts != []
    requires forall i :: 0 <= i < |parts| ==> parts[i].script == a.tx.outs[k].script
    requires Total(parts) == a.tx.outs[k].value
    requires b.tx.outs == a.tx.outs[..k] + parts + a.tx.outs[k + 1..]
    ensures Admissible(a, p) <==> Admissible(b, p)
    ensures SameRefusal(Verdict(a, p), Verdict(b, p))
    ensures ClassOf(a, p) == ClassOf(b, p)
  {
    SplitSums(a.tx.outs, b.tx.outs, k, parts, MeteredScripts(p));
    forall s ensures PaysAny(a.tx.outs, iset{s}) <==> PaysAny(b.tx.outs, iset{s}) {
      SplitReaches(a.tx.outs, b.tx.outs, k, parts, s);
    }
    ShapeInvariance(a, b, p);
  }

  lemma SplitSums(x: seq<TxOut>, y: seq<TxOut>, k: nat, parts: seq<TxOut>, to: iset<Script>)
    requires k < |x| && Total(parts) == x[k].value
    requires forall i :: 0 <= i < |parts| ==> parts[i].script == x[k].script
    requires y == x[..k] + parts + x[k + 1..]
    ensures Paid(x, to) == Paid(y, to) && Total(x) == Total(y)
  {
    var front, back := x[..k], x[k + 1..];
    Extract(x, k, to);
    PaidUniform(parts, x[k].script, to);
    PaidConcat(front + parts, back, to);
    PaidConcat(front, parts, to);
    PaidConcat(front, back, to);
    TotalConcat(front + parts, back);
    TotalConcat(front, parts);
    TotalConcat(front, back);
  }

  lemma SplitReaches(x: seq<TxOut>, y: seq<TxOut>, k: nat, parts: seq<TxOut>, s: Script)
    requires k < |x| && parts != []
    requires forall i :: 0 <= i < |parts| ==> parts[i].script == x[k].script
    requires y == x[..k] + parts + x[k + 1..]
    ensures PaysAny(x, iset{s}) <==> PaysAny(y, iset{s})
  {
    if i :| 0 <= i < |x| && x[i].script in iset{s} {
      var j := if i <= k then i else i + |parts| - 1;
      assert y[j].script == x[i].script;
      PaysWitness(y, j, s);
    }
    if j :| 0 <= j < |y| && y[j].script in iset{s} {
      var i := if j < k then j else if j < k + |parts| then k else j - |parts| + 1;
      assert x[i].script == y[j].script;
      PaysWitness(x, i, s);
    }
  }

  /** Moving change between vault outputs, even to other vault scripts, changes nothing. */
  lemma MovingVaultChange(a: Psbt, b: Psbt, p: Params)
    requires a.tx.ins == b.tx.ins && a.inputs == b.inputs && |a.outputs| == |b.outputs|
    requires |a.tx.outs| == |b.tx.outs| && Total(a.tx.outs) == Total(b.tx.outs)
    requires forall i :: 0 <= i < |a.tx.outs| ==>
      || a.tx.outs[i] == b.tx.outs[i]
      || (IsVault(p, a.tx.outs[i].script) && IsVault(p, b.tx.outs[i].script))
    ensures Admissible(a, p) <==> Admissible(b, p)
    ensures SameRefusal(Verdict(a, p), Verdict(b, p))
    ensures ClassOf(a, p) == ClassOf(b, p)
  {
    ChangeIsUnmetered(a.tx.outs, b.tx.outs, p);
    forall s | !IsVault(p, s) ensures PaysAny(a.tx.outs, iset{s}) <==> PaysAny(b.tx.outs, iset{s}) {
      if i :| 0 <= i < |a.tx.outs| && a.tx.outs[i].script in iset{s} { PaysWitness(b.tx.outs, i, s); }
      if i :| 0 <= i < |b.tx.outs| && b.tx.outs[i].script in iset{s} { PaysWitness(a.tx.outs, i, s); }
    }
    ShapeInvariance(a, b, p);
  }

  lemma {:induction false} ChangeIsUnmetered(x: seq<TxOut>, y: seq<TxOut>, p: Params)
    requires |x| == |y|
    requires forall i :: 0 <= i < |x| ==>
      x[i] == y[i] || (IsVault(p, x[i].script) && IsVault(p, y[i].script))
    ensures Paid(x, MeteredScripts(p)) == Paid(y, MeteredScripts(p))
  {
    if x != [] { ChangeIsUnmetered(x[..|x| - 1], y[..|y| - 1], p); }
  }

  /** Labels carry no authority: PSBTs that differ only in their bip32 hints are accepted
      alike, classed alike and refused alike up to the name of an unrecognised output. */
  lemma LabelsCarryNoAuthority(a: Psbt, outputs: seq<OutputMap>, p: Params)
    requires |outputs| == |a.outputs|
    ensures Admissible(a, p) <==> Admissible(a.(outputs := outputs), p)
    ensures SameRefusal(Verdict(a, p), Verdict(a.(outputs := outputs), p))
    ensures ClassOf(a, p) == ClassOf(a.(outputs := outputs), p)
    ensures Verdict(a, p) != Verdict(a.(outputs := outputs), p) ==>
      var k := FirstStranger(a.tx.outs, p, 0);
      k < |outputs| && (a.outputs[k].bip32 == {} <==> outputs[k].bip32 != {})
  {
    ShapeInvariance(a, a.(outputs := outputs), p);
  }

  // ----- u128 arithmetic in the fee check

  const U128_SIZE: nat := 0x1_0000_0000_0000_0000_0000_0000_0000_0000
  const MANY: nat := 0x200_0000_0000_0000 // 2^57

  function Wrap(n: nat): nat { n % U128_SIZE }

  function WrappedTotal(outs: seq<TxOut>): nat {
    if outs == [] then 0 else Wrap(WrappedTotal(outs[..|outs| - 1]) + outs[|outs| - 1].value)
  }

  function WrappedTotalIn(inputs: seq<InputMap>): nat {
    if inputs == [] then 0
    else
      var last := inputs[|inputs| - 1];
      Wrap(WrappedTotalIn(inputs[..|inputs| - 1]) +
           if last.witnessUtxo.Some? then last.witnessUtxo.value.value else 0)
  }

  /** The fee check with every sum and product reduced to 128 bits. */
  function CheckFeeU128(psbt: Psbt): Outcome<Violation> {
    var totalIn := WrappedTotalIn(psbt.inputs);
    var totalOut := WrappedTotal(psbt.tx.outs);
    if totalOut > totalIn then Fail(Violation(PsbtInconsistent, FeeCap))
    else if Wrap((totalIn - totalOut) * 100) > Wrap(MAX_FEE_PERCENT * totalIn) then
      Fail(Violation(FeeExceedsCap, FeeCap))
    else Pass
  }

  lemma {:induction false} TotalIsExact(outs: seq<TxOut>)
    requires |outs| <= MANY
    ensures WrappedTotal(outs) == Total(outs) <= |outs| * U64_MAX
  {
    if outs != [] { TotalIsExact(outs[..|outs| - 1]); }
  }

  lemma {:induction false} TotalInIsExact(inputs: seq<InputMap>)
    requires |inputs| <= MANY
    ensures WrappedTotalIn(inputs) == TotalIn(inputs) <= |inputs| * U64_MAX
  {
    if inputs != [] { TotalInIsExact(inputs[..|inputs| - 1]); }
  }

  /** No sum or product of the fee check overflows: the 128-bit check is the exact one. */
  lemma FeeArithmeticIsExact(psbt: Psbt)
    requires |psbt.inputs| <= MANY && |psbt.tx.outs| <= MANY
    ensures CheckFeeU128(psbt) == CheckFee(psbt)
    ensures CheckFeeU128(psbt).Pass? <==> FeeWithinCap(psbt)
  {
    var totalIn, totalOut := TotalIn(psbt.inputs), Total(psbt.tx.outs);
    TotalIsExact(psbt.tx.outs);
    TotalInIsExact(psbt.inputs);
    assert totalIn <= MANY * U64_MAX && totalOut <= MANY * U64_MAX;
    NoWrap(MAX_FEE_PERCENT * totalIn);
    if totalOut <= totalIn { NoWrap((totalIn - totalOut) * 100); }
  }

  lemma NoWrap(n: nat)
    requires n <= MANY * U64_MAX * 100
    ensures Wrap(n) == n
  {}
}

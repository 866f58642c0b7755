// The escape's pre-signed fee-bump ladder: the coordinator's greedy composer, and the
// structural contract the node holds a submitted ladder to.
module Ladder {
  import opened Basics
  import opened Policy
  import opened PolicyTheorems
  import opened TxSize
  import Template

  const RBF_SEQUENCE: u32 := 0xFFFF_FFFD
  const MAX_FEE_PCT: u64 := 1
  const MIN_OUTPUT_SAT: u64 := 10_000
  const MULTIPLIERS: seq<u64> := [4, 16, 64]

  // ----- what the composer computes

  predicate Ascending(ms: seq<u64>) {
    forall i, j :: 0 <= i < j < |ms| ==> ms[i] < ms[j]
  }

  /** The numbers every rung is measured against. */
  datatype Terms = Terms(baseFee: u64, ceiling: u64, fund: u64, delta: u64)

  /** A fee a rung may pay: above the base, under the ceiling, leaving no dust. */
  predicate Eligible(t: Terms, fee: nat) {
    t.baseFee < fee <= t.ceiling && fee - t.baseFee + 10_000 <= t.fund
  }

  /** The fees the greedy pass keeps from these multipliers, after a rung paying last. */
  function Kept(t: Terms, ms: seq<u64>, last: u64): seq<u64> {
    if ms == [] then []
    else
      var fee := SatMul(t.baseFee, ms[0]);
      if Eligible(t, fee) && SatSub(fee, last) >= t.delta then [fee] + Kept(t, ms[1..], fee)
      else Kept(t, ms[1..], last)
  }

  predicate ValuesKnown(inputs: seq<InputMap>) {
    forall i :: 0 <= i < |inputs| ==> inputs[i].witnessUtxo.Some?
  }

  predicate IsFund(outs: seq<TxOut>, k: nat) {
    && k < |outs|
    && (forall i :: 0 <= i < |outs| ==> outs[i].value <= outs[k].value)
    && (forall i :: 0 <= i < k ==> outs[i].value < outs[k].value)
  }

  function BaseFee(psbt: Psbt): u64 {
    SatSub(Saturate(TotalIn(psbt.inputs)), Saturate(Total(psbt.tx.outs)))
  }

  function TermsOf(escape: Psbt, k: nat, delta: u64): Terms
    requires k < |escape.tx.outs|
  {
    Terms(BaseFee(escape), Saturate(TotalIn(escape.inputs)) / 100, escape.tx.outs[k].value, delta)
  }

  function Signalling(escape: Psbt): Psbt {
    var ins := escape.tx.ins;
    escape.(tx := escape.tx.(ins := seq(|ins|, i requires 0 <= i < |ins| => ins[i].(sequence := RBF_SEQUENCE))))
  }

  function Rung(base: Psbt, k: nat, t: Terms, fee: u64): Psbt
    requires k < |base.tx.outs|
  {
    var reduced := SatSub(t.fund, SatSub(fee, t.baseFee));
    base.(tx := base.tx.(outs := base.tx.outs[k := base.tx.outs[k].(value := reduced)]))
  }

  function Rungs(base: Psbt, k: nat, t: Terms, fees: seq<u64>): seq<Psbt>
    requires k < |base.tx.outs|
  {
    seq(|fees|, i requires 0 <= i < |fees| => Rung(base, k, t, fees[i]))
  }

  /** The composed rungs of an escape, before the empty case is set aside. */
  function RungsOf(escape: Psbt, k: nat, delta: u64, ms: seq<u64>): seq<Psbt>
    requires k < |escape.tx.outs|
  {
    var t := TermsOf(escape, k, delta);
    Rungs(Signalling(escape), k, t, Kept(t, ms, t.baseFee))
  }

  /** The composed pair: base and rungs, or the escape untouched when nothing is kept. */
  function Composed(escape: Psbt, k: nat, delta: u64, ms: seq<u64>): (Psbt, seq<Psbt>)
    requires k < |escape.tx.outs|
  {
    var rungs := RungsOf(escape, k, delta, ms);
    if rungs == [] then (escape, []) else (Signalling(escape), rungs)
  }

  /** The first output of the largest value. */
  method LargestOutput(outs: seq<TxOut>) returns (k: nat)
    requires outs != []
    ensures IsFund(outs, k)
  {
    k := 0;
    for i := 1 to |outs|
      invariant k < i
      invariant forall j :: 0 <= j < i ==> outs[j].value <= outs[k].value
      invariant forall j :: 0 <= j < k ==> outs[j].value < outs[k].value
    {
      if outs[i].value > outs[k].value { k := i; }
    }
  }

  method SaturatingInputs(inputs: seq<InputMap>) returns (total: Option<u64>)
    ensures total == if ValuesKnown(inputs) then Some(Saturate(TotalIn(inputs))) else None
  {
    var sum: u64 := 0;
    for i := 0 to |inputs|
      invariant ValuesKnown(inputs[..i]) && sum == Saturate(TotalIn(inputs[..i]))
    {
      if inputs[i].witnessUtxo.None? { return None; }
      sum := SatAdd(sum, inputs[i].witnessUtxo.value.value);
      assert inputs[..i + 1][..i] == inputs[..i];
    }
    assert inputs[..|inputs|] == inputs;
    return Some(sum);
  }

  method SaturatingOutputs(outs: seq<TxOut>) returns (sum: u64)
    ensures sum == Saturate(Total(outs))
  {
    sum := 0;
    for i := 0 to |outs|
      invariant sum == Saturate(Total(outs[..i]))
    {
      sum := SatAdd(sum, outs[i].value);
      assert outs[..i + 1][..i] == outs[..i];
    }
    assert outs[..|outs|] == outs;
  }

  /** Rewrites every input of a copy to signal replacement. */
  method SignalReplacement(escape: Psbt) returns (base: Psbt)
    ensures base == Signalling(escape)
  {
    var ins := escape.tx.ins;
    for i := 0 to |ins|
      invariant |ins| == |escape.tx.ins|
      invariant forall j :: 0 <= j < |ins| ==>
        ins[j] == if j < i then escape.tx.ins[j].(sequence := RBF_SEQUENCE) else escape.tx.ins[j]
    {
      ins := ins[i := ins[i].(sequence := RBF_SEQUENCE)];
    }
    base := escape.(tx := escape.tx.(ins := ins));
  }

  /** The greedy pass over the multipliers. */
  method KeepRungs(base: Psbt, k: nat, t: Terms, multipliers: seq<u64>) returns (rungs: seq<Psbt>)
    requires k < |base.tx.outs| && t.fund == base.tx.outs[k].value
    ensures rungs == Rungs(base, k, t, Kept(t, multipliers, t.baseFee))
  {
    ghost var fees: seq<u64> := [];
    rungs := [];
    var lastKept: u64 := t.baseFee;
    assert multipliers[0..] == multipliers;
    for i := 0 to |multipliers|
      invariant rungs == Rungs(base, k, t, fees)
      invariant fees + Kept(t, multipliers[i..], lastKept) == Kept(t, multipliers, t.baseFee)
    {
      assert multipliers[i..][1..] == multipliers[i + 1..];
      var fee, reduced := OfferRung(t, lastKept, multipliers[i]);
      if reduced.None? { continue; }
      var rung := base.(tx := base.tx.(outs := base.tx.outs[k := base.tx.outs[k].(value := reduced.value)]));
      rungs := rungs + [rung];
      assert fees + ([fee] + Kept(t, multipliers[i + 1..], fee)) == (fees + [fee]) + Kept(t, multipliers[i + 1..], fee);
      fees := fees + [fee];
      lastKept := fee;
    }
  }

  /** One multiplier's fee, and what its rung would leave of the funding output; nothing if
      the rung is not offered. */
  method OfferRung(t: Terms, lastKept: u64, multiplier: u64) returns (fee: u64, reduced: Option<u64>)
    ensures fee == SatMul(t.baseFee, multiplier)
    ensures reduced.Some? <==> Eligible(t, fee) && SatSub(fee, lastKept) >= t.delta
    ensures reduced.Some? ==> reduced.value == SatSub(t.fund, SatSub(fee, t.baseFee))
  {
    fee := SatMul(t.baseFee, multiplier);
    var extra := SatSub(fee, t.baseFee);
    if fee <= t.baseFee || fee > t.ceiling { return fee, None; }
    if SatSub(fee, lastKept) < t.delta { return fee, None; }
    reduced := CheckedSub(t.fund, extra);
    if reduced.None? { return; }
    if reduced.value < MIN_OUTPUT_SAT { return fee, None; }
  }

  /** Composes the ladder. An unknown input value or no output leaves the escape alone, as
      does a greedy pass that keeps nothing; a size overflow is the only error. */
  method EscapeFeeLadder(escape: Psbt, satisfaction: u64, multipliers: seq<u64>)
    returns (r: Option<(Psbt, seq<Psbt>)>)
    ensures !ValuesKnown(escape.inputs) || escape.tx.outs == [] ==> r == Some((escape, []))
    ensures ValuesKnown(escape.inputs) && escape.tx.outs != [] ==>
      match ReplacementMinFeeDelta(satisfaction, Signalling(escape).tx)
      case None => r == None
      case Some(delta) => exists k :: IsFund(escape.tx.outs, k) && r == Some(Composed(escape, k, delta, multipliers))
  {
    var totalIn := SaturatingInputs(escape.inputs);
    if totalIn.None? { return Some((escape, [])); }
    if escape.tx.outs == [] { return Some((escape, [])); }
    var k := LargestOutput(escape.tx.outs);
    var totalOut := SaturatingOutputs(escape.tx.outs);
    var baseFee := SatSub(totalIn.value, totalOut);
    var base := SignalReplacement(escape);
    var ceiling := SatMul(totalIn.value, MAX_FEE_PCT) / 100;
    var minimumDelta := ReplacementMinFeeDelta(satisfaction, base.tx);
    if minimumDelta.None? { return None; }
    var rungs := KeepRungs(base, k, Terms(baseFee, ceiling, base.tx.outs[k].value, minimumDelta.value), multipliers);
    assert rungs == Rungs(base, k, TermsOf(escape, k, minimumDelta.value),
                          Kept(TermsOf(escape, k, minimumDelta.value), multipliers, BaseFee(escape)));
    if rungs == [] { return Some((escape, [])); }
    return Some((base, rungs));
  }

  // ----- the kept fees

  /** The fee kept before the i-th one, or the fee below the whole ladder. */
  function Previous(fees: seq<u64>, last: u64, i: nat): u64
    requires i <= |fees|
  {
    if i == 0 then last else fees[i - 1]
  }

  /** Every fee still on offer that could be kept is higher than the last kept one. */
  predicate NotPassed(t: Terms, ms: seq<u64>, last: u64) {
    forall j :: 0 <= j < |ms| && Eligible(t, SatMul(t.baseFee, ms[j])) ==> last < SatMul(t.baseFee, ms[j])
  }

  lemma NextNotPassed(t: Terms, ms: seq<u64>)
    requires Ascending(ms) && ms != [] && t.ceiling < U64_MAX
    ensures Eligible(t, SatMul(t.baseFee, ms[0])) ==> NotPassed(t, ms[1..], SatMul(t.baseFee, ms[0]))
  {
    forall j | 0 < j < |ms| && t.baseFee > 0 ensures t.baseFee * ms[0] < t.baseFee * ms[j] {
      Monotone(t.baseFee, ms[0], ms[j]);
    }
  }

  lemma Monotone(b: nat, x: nat, y: nat)
    requires x < y && b > 0
    ensures b * x < b * y
  {}

  /** Each kept fee is exactly a multiple on offer, above the one before it by at least
      the minimum step, and none of them saturated. */
  lemma {:induction false} KeptAt(t: Terms, ms: seq<u64>, last: u64, i: nat) returns (m: u64)
    requires Ascending(ms) && t.ceiling < U64_MAX && NotPassed(t, ms, last) && i < |Kept(t, ms, last)|
    ensures m in ms && Kept(t, ms, last)[i] == t.baseFee * m
    ensures Eligible(t, Kept(t, ms, last)[i])
    ensures Kept(t, ms, last)[i] > Previous(Kept(t, ms, last), last, i)
    ensures Kept(t, ms, last)[i] >= Previous(Kept(t, ms, last), last, i) + t.delta
    decreases |ms|
  {
    var fee := SatMul(t.baseFee, ms[0]);
    if Eligible(t, fee) && SatSub(fee, last) >= t.delta {
      if i == 0 { return ms[0]; }
      NextNotPassed(t, ms);
      m := KeptAt(t, ms[1..], fee, i - 1);
    } else {
      m := KeptAt(t, ms[1..], last, i);
    }
  }

  // ----- greed is optimal

  /** Any other choice of multipliers, given by a mask, that respects the ceiling, the dust
      floor and the minimum step over a rung paying last. */
  predicate ValidChoice(t: Terms, ms: seq<u64>, mask: seq<bool>, last: nat)
    requires |mask| == |ms|
  {
    ms == [] ||
    if mask[0] then
      var fee := t.baseFee * ms[0];
      Eligible(t, fee) && fee >= last + t.delta && ValidChoice(t, ms[1..], mask[1..], fee)
    else ValidChoice(t, ms[1..], mask[1..], last)
  }

  function Chosen(mask: seq<bool>): nat {
    if mask == [] then 0 else (if mask[0] then 1 else 0) + Chosen(mask[1..])
  }

  /** Starting no higher than the rival, the greedy pass ends with at least as many. */
  lemma {:induction false} StaysAhead(t: Terms, ms: seq<u64>, mask: seq<bool>, last: u64, rival: nat)
    requires |mask| == |ms| && Ascending(ms) && t.ceiling < U64_MAX && ValidChoice(t, ms, mask, rival)
    requires last <= rival && NotPassed(t, ms, last)
    ensures |Kept(t, ms, last)| >= Chosen(mask)
    decreases |ms|
  {
    if ms != [] {
      var fee, tail := SatMul(t.baseFee, ms[0]), ms[1..];
      NextNotPassed(t, ms);
      if mask[0] {
        StaysAhead(t, tail, mask[1..], fee, fee);
      } else if Eligible(t, fee) && SatSub(fee, last) >= t.delta {
        OneBehind(t, tail, mask[1..], fee, rival);
      } else {
        StaysAhead(t, tail, mask[1..], last, rival);
      }
    }
  }

  /** Wherever the rival starts, the greedy pass from below every fee loses at most one. */
  lemma {:induction false} OneBehind(t: Terms, ms: seq<u64>, mask: seq<bool>, last: u64, rival: nat)
    requires |mask| == |ms| && Ascending(ms) && t.ceiling < U64_MAX && ValidChoice(t, ms, mask, rival)
    requires NotPassed(t, ms, last)
    ensures |Kept(t, ms, last)| + 1 >= Chosen(mask)
    decreases |ms|
  {
    if ms != [] {
      var fee, tail := SatMul(t.baseFee, ms[0]), ms[1..];
      NextNotPassed(t, ms);
      var keep := Eligible(t, fee) && SatSub(fee, last) >= t.delta;
      if mask[0] {
        StaysAhead(t, tail, mask[1..], if keep then fee else last, fee);
      } else {
        OneBehind(t, tail, mask[1..], if keep then fee else last, rival);
      }
    }
  }

  /** No admissible choice of rungs from an ascending list is longer than the composed one. */
  lemma GreedIsOptimal(escape: Psbt, k: nat, delta: u64, ms: seq<u64>, mask: seq<bool>)
    requires k < |escape.tx.outs| && Ascending(ms) && |mask| == |ms|
    requires ValidChoice(TermsOf(escape, k, delta), ms, mask, BaseFee(escape))
    ensures |Kept(TermsOf(escape, k, delta), ms, BaseFee(escape))| >= Chosen(mask)
  {
    StaysAhead(TermsOf(escape, k, delta), ms, mask, BaseFee(escape), BaseFee(escape));
  }

  // ----- the composed ladder is well formed

  lemma {:induction false} TotalUpdated(outs: seq<TxOut>, k: nat, v: u64)
    requires k < |outs|
    ensures Total(outs[k := outs[k].(value := v)]) + outs[k].value == Total(outs) + v
  {
    var n, after := |outs| - 1, outs[k := outs[k].(value := v)];
    if k == n {
      assert after[..n] == outs[..n];
    } else {
      assert after[..n] == outs[..n][k := outs[..n][k].(value := v)];
      TotalUpdated(outs[..n], k, v);
    }
  }

  /** What the fee of a rung comes to on the node's own arithmetic. */
  lemma RungFee(escape: Psbt, k: nat, delta: u64, fee: u64)
    requires k < |escape.tx.outs| && Eligible(TermsOf(escape, k, delta), fee) && BaseFee(escape) > 0
    ensures
      var t := TermsOf(escape, k, delta);
      var rung := Rung(Signalling(escape), k, t, fee);
      && BaseFee(rung) == fee
      && Total(rung.tx.outs) == Total(escape.tx.outs) - (fee - t.baseFee)
      && rung.tx.outs[k].value == escape.tx.outs[k].value - (fee - t.baseFee) >= MIN_OUTPUT_SAT
  {
    var t := TermsOf(escape, k, delta);
    TotalUpdated(escape.tx.outs, k, SatSub(t.fund, SatSub(fee, t.baseFee)));
  }

  /** One rung over the one below it: the base's coins and scripts, one output lowered to
      no less than the dust floor, a fee of exactly m times the base fee that clears the
      one below by the minimum and stays within one percent of the inputs. */
  ghost predicate WellFormedRung(escape: Psbt, k: nat, delta: u64, m: u64, below: Psbt, rung: Psbt) {
    && rung.inputs == escape.inputs && rung.outputs == escape.outputs
    && rung.tx.version == escape.tx.version && rung.tx.lockTime == escape.tx.lockTime
    && |rung.tx.ins| == |escape.tx.ins|
    && (forall j :: 0 <= j < |escape.tx.ins| ==> rung.tx.ins[j] == TxIn(escape.tx.ins[j].prevout, 0xFFFF_FFFD))
    && SameScripts(escape.tx.outs, rung.tx.outs)
    && k < |escape.tx.outs|
    && (forall j :: 0 <= j < |escape.tx.outs| && j != k ==> rung.tx.outs[j] == escape.tx.outs[j])
    && 10_000 <= rung.tx.outs[k].value < escape.tx.outs[k].value
    && Total(rung.tx.outs) + BaseFee(rung) == Total(escape.tx.outs) + BaseFee(escape)
    && BaseFee(rung) == BaseFee(escape) * m
    && 100 * BaseFee(rung) <= TotalIn(escape.inputs)
    && BaseFee(rung) >= BaseFee(below) + delta
  }

  function Below(base: Psbt, rungs: seq<Psbt>, i: nat): Psbt
    requires i <= |rungs|
  {
    if i == 0 then base else rungs[i - 1]
  }

  lemma RungIsWellFormed(escape: Psbt, k: nat, delta: u64, fee: u64, m: u64, below: Psbt)
    requires k < |escape.tx.outs| && Eligible(TermsOf(escape, k, delta), fee)
    requires fee == BaseFee(escape) * m && fee >= BaseFee(below) + delta
    ensures WellFormedRung(escape, k, delta, m, below, Rung(Signalling(escape), k, TermsOf(escape, k, delta), fee))
  {
    PositiveFee(BaseFee(escape), m, fee);
    RungFee(escape, k, delta, fee);
  }

  /** Everything promised of a composed ladder: each rung is well formed over the one
      below it, at a multiplier from the list. */
  lemma LadderIsWellFormed(escape: Psbt, k: nat, delta: u64, ms: seq<u64>, i: nat) returns (m: u64)
    requires k < |escape.tx.outs| && Ascending(ms) && i < |RungsOf(escape, k, delta, ms)|
    ensures m in ms
    ensures
      var rungs := RungsOf(escape, k, delta, ms);
      WellFormedRung(escape, k, delta, m, Below(Signalling(escape), rungs, i), rungs[i])
  {
    var t, base := TermsOf(escape, k, delta), Signalling(escape);
    var fees := Kept(t, ms, t.baseFee);
    m := KeptAt(t, ms, t.baseFee, i);
    if i > 0 {
      var below := KeptAt(t, ms, t.baseFee, i - 1);
      PositiveFee(t.baseFee, below, fees[i - 1]);
      RungFee(escape, k, delta, fees[i - 1]);
    }
    RungIsWellFormed(escape, k, delta, fees[i], m, Below(base, RungsOf(escape, k, delta, ms), i));
  }

  lemma PositiveFee(b: nat, m: nat, fee: nat)
    requires fee == b * m && fee > b
    ensures b > 0
  {}

  // ----- the ladder preserves the policy

  /** Lowering one output of an admissible escape, while its fee stays within a tenth of
      its inputs, leaves it an admissible escape. */
  lemma ReducedEscapeStaysEscape(escape: Psbt, other: Psbt, p: Params)
    requires Admissible(escape, p)
    requires ClassOf(escape, p).Ok? && ClassOf(escape, p).value.txClass == Escape
    requires other.inputs == escape.inputs && |other.tx.ins| == |escape.tx.ins|
    requires other.outputs == escape.outputs && SameScripts(escape.tx.outs, other.tx.outs)
    requires FeeWithinCap(other)
    ensures Admissible(other, p) && ClassOf(other, p) == Ok(Classification(Escape, 0))
  {
    SamePayees(escape.tx.outs, other.tx.outs, HotScripts(p));
    SamePayees(escape.tx.outs, other.tx.outs, EscapeScripts(p));
    assert OutputsRecognised(other, p);
    PaidNothing(other.tx.outs, HotScripts(p));
    assert ClassOf(other, p) == Ok(Classification(Escape, 0));
    ClassAgreesWithMeter(other, p);
  }

  lemma SamePayees(a: seq<TxOut>, b: seq<TxOut>, to: iset<Script>)
    requires SameScripts(a, b)
    ensures PaysAny(a, to) <==> PaysAny(b, to)
  {
    if i :| 0 <= i < |a| && a[i].script in to { assert b[i].script in to; }
    if i :| 0 <= i < |b| && b[i].script in to { assert a[i].script in to; }
  }

  /** An accepted escape whose inputs sum within a u64 stays accepted, and stays an escape
      with no hot outflow, as the rewritten base and as every rung of its ladder. */
  lemma LadderPreservesPolicy(escape: Psbt, k: nat, delta: u64, ms: seq<u64>, p: Params, i: nat)
    requires Admissible(escape, p) && TotalIn(escape.inputs) <= U64_MAX
    requires ClassOf(escape, p).Ok? && ClassOf(escape, p).value.txClass == Escape
    requires k < |escape.tx.outs| && Ascending(ms)
    ensures Admissible(Signalling(escape), p) && ClassOf(Signalling(escape), p) == Ok(Classification(Escape, 0))
    ensures i < |RungsOf(escape, k, delta, ms)| ==>
      var rung := RungsOf(escape, k, delta, ms)[i];
      Admissible(rung, p) && ClassOf(rung, p) == Ok(Classification(Escape, 0))
  {
    ReducedEscapeStaysEscape(escape, Signalling(escape), p);
    if i < |RungsOf(escape, k, delta, ms)| {
      var m := LadderIsWellFormed(escape, k, delta, ms, i);
      ReducedEscapeStaysEscape(escape, RungsOf(escape, k, delta, ms)[i], p);
    }
  }

  /** The escape can pay m times its saturated base fee: its true fee, raised by the extra,
      stays under the policy's cap. */
  predicate RoomFor(escape: Psbt, m: nat) {
    (TotalIn(escape.inputs) - Total(escape.tx.outs) + BaseFee(escape) * m - BaseFee(escape)) * 100
      <= MAX_FEE_PERCENT * TotalIn(escape.inputs)
  }

  /** Whatever the inputs sum to, the rung of an accepted escape at multiplier m is accepted
      exactly when the escape has room for m times its base fee. */
  lemma RungAdmittedIff(escape: Psbt, k: nat, delta: u64, ms: seq<u64>, p: Params, i: nat) returns (m: u64)
    requires Admissible(escape, p)
    requires ClassOf(escape, p).Ok? && ClassOf(escape, p).value.txClass == Escape
    requires k < |escape.tx.outs| && Ascending(ms) && i < |RungsOf(escape, k, delta, ms)|
    ensures m in ms && BaseFee(RungsOf(escape, k, delta, ms)[i]) == BaseFee(escape) * m
    ensures Admissible(RungsOf(escape, k, delta, ms)[i], p) <==> RoomFor(escape, m)
  {
    m := LadderIsWellFormed(escape, k, delta, ms, i);
    var rung := RungsOf(escape, k, delta, ms)[i];
    if FeeWithinCap(rung) { ReducedEscapeStaysEscape(escape, rung, p); }
  }

  lemma {:induction false} FeesAscend(t: Terms, ms: seq<u64>, i: nat, j: nat)
    requires Ascending(ms) && t.ceiling < U64_MAX && i <= j < |Kept(t, ms, t.baseFee)|
    ensures Kept(t, ms, t.baseFee)[i] <= Kept(t, ms, t.baseFee)[j]
    decreases j - i
  {
    if i < j {
      FeesAscend(t, ms, i, j - 1);
      var m := KeptAt(t, ms, t.baseFee, j);
    }
  }

  /** The whole ladder is accepted exactly when the escape has room for the last multiplier
      kept, which is the largest. */
  lemma LadderAdmittedIff(escape: Psbt, k: nat, delta: u64, ms: seq<u64>, p: Params) returns (top: u64)
    requires Admissible(escape, p)
    requires ClassOf(escape, p).Ok? && ClassOf(escape, p).value.txClass == Escape
    requires k < |escape.tx.outs| && Ascending(ms) && RungsOf(escape, k, delta, ms) != []
    ensures
      var fees := Kept(TermsOf(escape, k, delta), ms, BaseFee(escape));
      top in ms && fees[|fees| - 1] == BaseFee(escape) * top
    ensures (forall i :: 0 <= i < |RungsOf(escape, k, delta, ms)| ==> Admissible(RungsOf(escape, k, delta, ms)[i], p))
      <==> RoomFor(escape, top)
  {
    var t, rungs := TermsOf(escape, k, delta), RungsOf(escape, k, delta, ms);
    var fees, last := Kept(t, ms, t.baseFee), |rungs| - 1;
    top := RungAdmittedIff(escape, k, delta, ms, p, last);
    RungPays(escape, k, delta, ms, last);
    if RoomFor(escape, top) {
      forall i | 0 <= i < |rungs| ensures Admissible(rungs[i], p) {
        var m := RungAdmittedIff(escape, k, delta, ms, p, i);
        RungPays(escape, k, delta, ms, i);
        FeesAscend(t, ms, i, last);
      }
    }
  }

  lemma RungPays(escape: Psbt, k: nat, delta: u64, ms: seq<u64>, i: nat)
    requires k < |escape.tx.outs| && Ascending(ms) && i < |RungsOf(escape, k, delta, ms)|
    ensures BaseFee(RungsOf(escape, k, delta, ms)[i]) == Kept(TermsOf(escape, k, delta), ms, BaseFee(escape))[i]
  {
    var t := TermsOf(escape, k, delta);
    var m := KeptAt(t, ms, t.baseFee, i);
    PositiveFee(t.baseFee, m, Kept(t, ms, t.baseFee)[i]);
    RungFee(escape, k, delta, Kept(t, ms, t.baseFee)[i]);
  }

  /** The bound on the inputs is needed: past a u64 the saturated sums understate the base
      fee. Whatever the vault's satisfaction weight up to 30000, the ladder composed for this
      accepted escape has a first rung over the ten percent cap. */
  lemma OverflowingInputsBreakPolicy(satisfaction: u64) returns (escape: Psbt, p: Params)
    requires satisfaction <= 30_000
    ensures Admissible(escape, p) && ClassOf(escape, p) == Ok(Classification(Escape, 0))
    ensures ValuesKnown(escape.inputs) && TotalIn(escape.inputs) > U64_MAX && IsFund(escape.tx.outs, 0)
    ensures
      var delta := ReplacementMinFeeDelta(satisfaction, Signalling(escape).tx);
      delta.Some? &&
      var (base, rungs) := Composed(escape, 0, delta.value, MULTIPLIERS);
      rungs != [] && !Admissible(rungs[0], p)
  {
    escape, p := NineTenthsSwept(), OneWalletEach();
    SweepIsAccepted();
    SweepSums();
    SmallTransaction(satisfaction, Signalling(escape).tx);
    FirstRung(escape, ReplacementMinFeeDelta(satisfaction, Signalling(escape).tx).value);
  }

  /** Ten tenths in, nine out to the escape wallet. */
  function NineTenthsSwept(): Psbt {
    var a := InputMap(Some(TxOut(TENTH, [0])), None, None, None);
    var b := InputMap(Some(TxOut(9 * TENTH, [0])), None, None, None);
    var ins := [TxIn(OutPoint(0, 0), 0), TxIn(OutPoint(0, 1), 0)];
    Psbt(Tx(2, 0, ins, [TxOut(9 * TENTH, [1])]), [a, b], [OutputMap({})])
  }

  lemma SweepSums()
    ensures TotalIn(NineTenthsSwept().inputs) == 10 * TENTH && Total(NineTenthsSwept().tx.outs) == 9 * TENTH
  {
    var inputs, outs := NineTenthsSwept().inputs, NineTenthsSwept().tx.outs;
    assert inputs[..1] == [inputs[0]] && [inputs[0]][..0] == [] && outs[..0] == [];
    assert TotalIn([inputs[0]]) == TENTH;
  }

  lemma SweepIsAccepted()
    ensures Admissible(NineTenthsSwept(), OneWalletEach())
    ensures ClassOf(NineTenthsSwept(), OneWalletEach()) == Ok(Classification(Escape, 0))
  {
    var escape, p := NineTenthsSwept(), OneWalletEach();
    OneWalletEachSorts();
    SweepSums();
    PaidUniform(escape.tx.outs, [1], MeteredScripts(p));
    PaidUniform(escape.tx.outs, [1], HotScripts(p));
    assert escape.tx.outs[0].script in EscapeScripts(p);
    assert InputsOwned(escape, p) && OutputsRecognised(escape, p);
  }

  /** Nine of these fall 6000 short of u64::MAX and ten exceed it, so sweeping nine tenths of
      ten reads as a fee of 6000. */
  const TENTH: u64 := 2_049_638_230_412_171_735

  /** One vault script and one escape script, which is the only allowed destination. */
  function OneWalletEach(): Params {
    var vault, wallet := Chains([Definite(Some([0]))]), Chains([Definite(Some([1]))]);
    Params(vault, [wallet], Some(wallet), 0, 0)
  }

  lemma OneWalletEachSorts()
    ensures IsVault(OneWalletEach(), [0]) && IsEscape(OneWalletEach(), [1]) && IsAllowed(OneWalletEach(), [1])
  {
    var p := OneWalletEach();
    assert ScriptAt(p.vault.singles[0], 0) == Some([0]) && ScriptAt(p.allowed[0].singles[0], 0) == Some([1]);
    assert ChainDerives(p.vault.singles[0], [0], 0);
    assert ChainDerives(p.allowed[0].singles[0], [1], 0) && Derives(p.allowed[0], [1], 0);
    assert ChainDerives(p.escape.value.singles[0], [1], 0);
  }

  /** What replacing a transaction of two inputs and one one-byte script costs. */
  lemma SmallTransaction(satisfaction: u64, tx: Tx)
    requires satisfaction <= 30_000 && |tx.ins| == 2 && |tx.outs| == 1 && |tx.outs[0].script| == 1
    ensures ReplacementMinFeeDelta(satisfaction, tx) == Some((415 + 2 * satisfaction) / 4)
  {
    assert tx.outs[..0] == [];
    assert OutputsSize(tx.outs) == 10 && Weight(tx) == 408;
  }

  lemma FirstRung(escape: Psbt, delta: u64)
    requires |escape.tx.outs| == 1 && escape.tx.outs[0].value == 9 * TENTH && delta <= 18_000
    requires TotalIn(escape.inputs) == 10 * TENTH && Total(escape.tx.outs) == 9 * TENTH
    ensures RungsOf(escape, 0, delta, MULTIPLIERS) != []
    ensures !FeeWithinCap(RungsOf(escape, 0, delta, MULTIPLIERS)[0])
  {
    var t := TermsOf(escape, 0, delta);
    assert t.baseFee == 6_000 && SatMul(t.baseFee, MULTIPLIERS[0]) == 24_000 && Eligible(t, 24_000);
    assert Kept(t, MULTIPLIERS, t.baseFee)[0] == 24_000;
    RungFee(escape, 0, delta, 24_000);
  }

  // ----- the node's structural contract

  /** The node refuses every bad ladder with one code under one check name. */
  datatype LadderRefusal = BadLadder

  predicate SamePrevouts(a: Tx, b: Tx) {
    |a.ins| == |b.ins| && forall i :: 0 <= i < |a.ins| ==> a.ins[i].prevout == b.ins[i].prevout
  }

  predicate AllSignal(tx: Tx) {
    forall i :: 0 <= i < |tx.ins| ==> tx.ins[i].sequence == RBF_SEQUENCE
  }

  predicate NoneRaised(lower: seq<TxOut>, upper: seq<TxOut>) {
    forall i :: 0 <= i < |lower| && i < |upper| ==> upper[i].value <= lower[i].value
  }

  predicate FinalForm(tx: Tx, version: nat) {
    tx.version == version && tx.lockTime == 0 && AllSignal(tx)
  }

  /** A bump may replace the rung below it: same coins, same scripts, no output raised, and
      a fee higher by at least what relaying the replacement costs. */
  predicate Replaces(satisfaction: u64, base: Psbt, below: Psbt, bump: Psbt) {
    && SamePrevouts(base.tx, bump.tx)
    && SameScripts(base.tx.outs, bump.tx.outs)
    && NoneRaised(below.tx.outs, bump.tx.outs)
    && ValuesKnown(bump.inputs)
    && var delta := ReplacementMinFeeDelta(satisfaction, bump.tx);
       delta.Some? && BaseFee(bump) >= BaseFee(below) + delta.value
  }

  predicate LadderAdmitted(satisfaction: u64, escape: Psbt, bumps: seq<Psbt>, selfPaired: bool) {
    bumps == [] ||
      (&& !selfPaired
       && FinalForm(escape.tx, escape.tx.version)
       && ValuesKnown(escape.inputs)
       && (forall i :: 0 <= i < |bumps| ==> FinalForm(bumps[i].tx, escape.tx.version))
       && Climbs(satisfaction, escape, escape, bumps))
  }

  /** Each bump in turn replaces the one before it, the first replacing below. */
  predicate Climbs(satisfaction: u64, base: Psbt, below: Psbt, bumps: seq<Psbt>)
    decreases |bumps|
  {
    bumps == [] ||
      (Replaces(satisfaction, base, below, bumps[0]) && Climbs(satisfaction, base, bumps[0], bumps[1..]))
  }

  // ----- what the node admits, spelled out

  /** A replaceable sequence by BIP 125, with the relative lock of BIP 68 switched off. */
  lemma SignalsWithoutLock(age: Template.Age)
    ensures RBF_SEQUENCE < 0xFFFF_FFFE && Template.LockMatured(RBF_SEQUENCE, age)
  {}

  function FeeOf(psbt: Psbt): nat {
    var paid, kept := TotalIn(psbt.inputs), Total(psbt.tx.outs);
    var cappedIn, cappedOut := if paid < U64_MAX then paid else U64_MAX, if kept < U64_MAX then kept else U64_MAX;
    if cappedIn > cappedOut then cappedIn - cappedOut else 0
  }

  /** One rung over the one below: the base's version, coins in order and scripts in order,
      final and signalling, no output above the one below, and a fee that pays for relaying
      its own largest size once more. */
  predicate SoundBump(satisfaction: u64, base: Psbt, below: Psbt, bump: Psbt) {
    && bump.tx.version == base.tx.version && bump.tx.lockTime == 0
    && |bump.tx.ins| == |base.tx.ins| && |bump.tx.outs| == |base.tx.outs|
    && (forall i :: 0 <= i < |base.tx.ins| ==> bump.tx.ins[i] == TxIn(base.tx.ins[i].prevout, 0xFFFF_FFFD))
    && (forall i :: 0 <= i < |base.tx.outs| ==> bump.tx.outs[i].script == base.tx.outs[i].script)
    && (forall i :: 0 <= i < |base.tx.outs| && i < |below.tx.outs| ==> bump.tx.outs[i].value <= below.tx.outs[i].value)
    && (forall i :: 0 <= i < |bump.inputs| ==> bump.inputs[i].witnessUtxo.Some?)
    && var vsize := MaximumFinalizedVsize(satisfaction, bump.tx);
       vsize.Some? && FeeOf(bump) >= FeeOf(below) + vsize.value
  }

  predicate SoundBase(base: Psbt) {
    && base.tx.lockTime == 0
    && (forall i :: 0 <= i < |base.tx.ins| ==> base.tx.ins[i].sequence == 0xFFFF_FFFD)
    && forall i :: 0 <= i < |base.inputs| ==> base.inputs[i].witnessUtxo.Some?
  }

  /** The i-th bump is sound over the one below it, the first over start. */
  predicate SoundAt(satisfaction: u64, base: Psbt, start: Psbt, bumps: seq<Psbt>, i: nat)
    requires i < |bumps|
  {
    SoundBump(satisfaction, base, if i == 0 then start else bumps[i - 1], bumps[i])
  }

  lemma BumpExactly(satisfaction: u64, base: Psbt, below: Psbt, bump: Psbt)
    ensures FinalForm(bump.tx, base.tx.version) && Replaces(satisfaction, base, below, bump)
      <==> SoundBump(satisfaction, base, below, bump)
  {
    assert BaseFee(bump) == FeeOf(bump) && BaseFee(below) == FeeOf(below);
  }

  lemma {:induction false} ClimbsExactly(satisfaction: u64, base: Psbt, start: Psbt, bumps: seq<Psbt>)
    requires forall i :: 0 <= i < |bumps| ==> FinalForm(bumps[i].tx, base.tx.version)
    ensures Climbs(satisfaction, base, start, bumps) <==>
      forall i :: 0 <= i < |bumps| ==> SoundAt(satisfaction, base, start, bumps, i)
    decreases |bumps|
  {
    if bumps != [] {
      var rest := bumps[1..];
      BumpExactly(satisfaction, base, start, bumps[0]);
      ClimbsExactly(satisfaction, base, bumps[0], rest);
      forall i | 0 <= i < |rest|
        ensures SoundAt(satisfaction, base, bumps[0], rest, i) <==> SoundAt(satisfaction, base, start, bumps, i + 1)
      {}
      if forall i :: 0 <= i < |bumps| ==> SoundAt(satisfaction, base, start, bumps, i) {
        forall i | 0 <= i < |rest| ensures SoundAt(satisfaction, base, bumps[0], rest, i) {
          assert SoundAt(satisfaction, base, start, bumps, i + 1);
        }
        assert SoundAt(satisfaction, base, start, bumps, 0);
      }
      if Climbs(satisfaction, base, start, bumps) {
        forall i | 0 <= i < |bumps| ensures SoundAt(satisfaction, base, start, bumps, i) {
          if i > 0 { assert SoundAt(satisfaction, base, bumps[0], rest, i - 1); }
        }
      }
    }
  }

  /** The node admits a nonempty ladder exactly when it is not self-paired, its base is final
      and signals, and every bump is sound over the one below it. */
  lemma AdmittedExactly(satisfaction: u64, escape: Psbt, bumps: seq<Psbt>, selfPaired: bool)
    requires bumps != []
    ensures LadderAdmitted(satisfaction, escape, bumps, selfPaired) <==>
      && !selfPaired && SoundBase(escape)
      && forall i :: 0 <= i < |bumps| ==> SoundAt(satisfaction, escape, escape, bumps, i)
  {
    if forall i :: 0 <= i < |bumps| ==> FinalForm(bumps[i].tx, escape.tx.version) {
      ClimbsExactly(satisfaction, escape, escape, bumps);
    } else {
      var i :| 0 <= i < |bumps| && !FinalForm(bumps[i].tx, escape.tx.version);
      BumpExactly(satisfaction, escape, if i == 0 then escape else bumps[i - 1], bumps[i]);
      assert !SoundAt(satisfaction, escape, escape, bumps, i);
    }
  }

  method CheckFinalForm(tx: Tx, version: nat) returns (r: Outcome<LadderRefusal>)
    ensures r.Pass? <==> FinalForm(tx, version)
  {
    if tx.version != version { return Fail(BadLadder); }
    if tx.lockTime != 0 { return Fail(BadLadder); }
    for i := 0 to |tx.ins|
      invariant forall j :: 0 <= j < i ==> tx.ins[j].sequence == RBF_SEQUENCE
    {
      if tx.ins[i].sequence != RBF_SEQUENCE { return Fail(BadLadder); }
    }
    return Pass;
  }

  method CheckReplaces(satisfaction: u64, base: Psbt, below: Psbt, previousFee: u64, bump: Psbt)
    returns (r: Outcome<LadderRefusal>, fee: u64)
    requires previousFee == BaseFee(below)
    ensures r.Pass? <==> Replaces(satisfaction, base, below, bump)
    ensures r.Pass? ==> fee == BaseFee(bump)
  {
    var totalOut := SaturatingOutputs(bump.tx.outs);
    var totalIn := SaturatingInputs(bump.inputs);
    fee := 0;
    if !SamePrevouts(base.tx, bump.tx) { return Fail(BadLadder), fee; }
    if !SameScripts(base.tx.outs, bump.tx.outs) { return Fail(BadLadder), fee; }
    if !NoneRaised(below.tx.outs, bump.tx.outs) { return Fail(BadLadder), fee; }
    if totalIn.None? { return Fail(BadLadder), fee; }
    fee := SatSub(totalIn.value, totalOut);
    var minimum := ReplacementMinFeeDelta(satisfaction, bump.tx);
    if minimum.None? { return Fail(BadLadder), fee; }
    var step := CheckedSub(fee, previousFee);
    if step.None? { return Fail(BadLadder), fee; }
    if step.value < minimum.value { return Fail(BadLadder), fee; }
    return Pass, fee;
  }

  method EnsureEscapeLadder(satisfaction: u64, escape: Psbt, bumps: seq<Psbt>, selfPaired: bool)
    returns (r: Outcome<LadderRefusal>)
    ensures r.Pass? <==> LadderAdmitted(satisfaction, escape, bumps, selfPaired)
  {
    if bumps == [] { return Pass; }
    if selfPaired { return Fail(BadLadder); }
    r := CheckFinalForm(escape.tx, escape.tx.version);
    if r.Fail? { return; }
    r := CheckFinalForms(bumps, escape.tx.version);
    if r.Fail? { return; }
    var known := SaturatingInputs(escape.inputs);
    if known.None? { return Fail(BadLadder); }
    r := CheckSteps(satisfaction, escape, bumps);
  }

  method CheckFinalForms(bumps: seq<Psbt>, version: nat) returns (r: Outcome<LadderRefusal>)
    ensures r.Pass? <==> forall i :: 0 <= i < |bumps| ==> FinalForm(bumps[i].tx, version)
  {
    for i := 0 to |bumps|
      invariant forall j :: 0 <= j < i ==> FinalForm(bumps[j].tx, version)
    {
      r := CheckFinalForm(bumps[i].tx, version);
      if r.Fail? { return; }
    }
    return Pass;
  }

  method CheckSteps(satisfaction: u64, escape: Psbt, bumps: seq<Psbt>) returns (r: Outcome<LadderRefusal>)
    ensures r.Pass? <==> Climbs(satisfaction, escape, escape, bumps)
  {
    var below, previousFee := escape, BaseFee(escape);
    assert bumps[0..] == bumps;
    for i := 0 to |bumps|
      invariant previousFee == BaseFee(below)
      invariant Climbs(satisfaction, escape, escape, bumps) <==> Climbs(satisfaction, escape, below, bumps[i..])
    {
      assert bumps[i..][1..] == bumps[i + 1..];
      r, previousFee := CheckReplaces(satisfaction, escape, below, previousFee, bumps[i]);
      if r.Fail? { return; }
      below := bumps[i];
    }
    return Pass;
  }

  lemma ClimbsOneMore(satisfaction: u64, base: Psbt, below: Psbt, rungs: seq<Psbt>, i: nat)
    requires i < |rungs| && Replaces(satisfaction, base, below, rungs[i])
    requires Climbs(satisfaction, base, rungs[i], rungs[i + 1..])
    ensures Climbs(satisfaction, base, below, rungs[i..])
  {
    assert rungs[i..][0] == rungs[i] && rungs[i..][1..] == rungs[i + 1..];
  }

  lemma {:induction false} ComposedClimbs(satisfaction: u64, escape: Psbt, k: nat, delta: u64, ms: seq<u64>, i: nat)
    requires ValuesKnown(escape.inputs) && k < |escape.tx.outs| && Ascending(ms)
    requires ReplacementMinFeeDelta(satisfaction, Signalling(escape).tx) == Some(delta)
    requires i <= |RungsOf(escape, k, delta, ms)|
    ensures
      var rungs, base := RungsOf(escape, k, delta, ms), Signalling(escape);
      Climbs(satisfaction, base, Below(base, rungs, i), rungs[i..])
    decreases |RungsOf(escape, k, delta, ms)| - i
  {
    var rungs, base := RungsOf(escape, k, delta, ms), Signalling(escape);
    if i < |rungs| {
      ComposedClimbs(satisfaction, escape, k, delta, ms, i + 1);
      ComposedReplaces(satisfaction, escape, k, delta, ms, i);
      ClimbsOneMore(satisfaction, base, Below(base, rungs, i), rungs, i);
    }
  }

  lemma ComposedReplaces(satisfaction: u64, escape: Psbt, k: nat, delta: u64, ms: seq<u64>, i: nat)
    requires ValuesKnown(escape.inputs) && k < |escape.tx.outs| && Ascending(ms)
    requires ReplacementMinFeeDelta(satisfaction, Signalling(escape).tx) == Some(delta)
    requires i < |RungsOf(escape, k, delta, ms)|
    ensures
      var rungs, base := RungsOf(escape, k, delta, ms), Signalling(escape);
      Replaces(satisfaction, base, Below(base, rungs, i), rungs[i])
  {
    var t := TermsOf(escape, k, delta);
    var m := KeptAt(t, ms, t.baseFee, i);
    m := LadderIsWellFormed(escape, k, delta, ms, i);
    ShapeFixesSize(satisfaction, Signalling(escape).tx, RungsOf(escape, k, delta, ms)[i].tx);
  }

  /** The node admits every ladder the coordinator composes over a final transaction, and
      refuses it over any other: composer and node cannot drift. */
  lemma NodeAdmitsComposedLadder(satisfaction: u64, escape: Psbt, k: nat, ms: seq<u64>)
    requires ValuesKnown(escape.inputs) && k < |escape.tx.outs| && Ascending(ms)
    requires ReplacementMinFeeDelta(satisfaction, Signalling(escape).tx).Some?
    ensures
      var rungs := RungsOf(escape, k, ReplacementMinFeeDelta(satisfaction, Signalling(escape).tx).value, ms);
      rungs != [] ==>
        (LadderAdmitted(satisfaction, Signalling(escape), rungs, false) <==> escape.tx.lockTime == 0)
  {
    var delta := ReplacementMinFeeDelta(satisfaction, Signalling(escape).tx).value;
    ComposedClimbs(satisfaction, escape, k, delta, ms, 0);
    var rungs := RungsOf(escape, k, delta, ms);
    assert rungs[0..] == rungs;
  }
}

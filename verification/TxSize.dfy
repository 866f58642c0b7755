// Transaction weight, and the largest size a vault transaction can finalize to. Sizes
// depend on input counts and output scripts, never on amounts or sequences.
module TxSize {
  import opened Basics
  import opened Policy
  import Envelope

  function CompactSize(n: nat): nat {
    if n < 0xFD then 1 else if n <= 0xFFFF then 3 else if n <= 0xFFFF_FFFF then 5 else 9
  }

  function OutputsSize(outs: seq<TxOut>): nat {
    if outs == [] then 0
    else
      var n := |outs[|outs| - 1].script|;
      OutputsSize(outs[..|outs| - 1]) + 8 + CompactSize(n) + n
  }

  /** Weight of an unsigned transaction: version, lock time, 41 bytes an input and the
      outputs, four units a byte; two more for the segwit marker if it has no input. */
  function Weight(tx: Tx): nat {
    4 * (8 + CompactSize(|tx.ins|) + 41 * |tx.ins| + CompactSize(|tx.outs|) + OutputsSize(tx.outs))
    + if tx.ins == [] then 2 else 0
  }

  /** The size in vB once every input carries its largest satisfaction; absent when the
      64-bit arithmetic overflows. */
  function MaximumFinalizedVsize(satisfaction: u64, tx: Tx): Option<u64> {
    var perInput := CheckedAdd(satisfaction, 1);
    if perInput.None? || |tx.ins| > U64_MAX then None
    else
      var witnesses := perInput.value * |tx.ins|;
      var weight := Weight(tx) + 2 + witnesses + 3;
      if witnesses > U64_MAX || weight > U64_MAX then None else Some(weight / 4)
  }

  const INCREMENTAL_RELAY_SAT_VB: u64 := 1

  function ReplacementMinFeeDelta(satisfaction: u64, tx: Tx): Option<u64> {
    var vsize := MaximumFinalizedVsize(satisfaction, tx);
    if vsize.None? then None else Some(SatMul(vsize.value, INCREMENTAL_RELAY_SAT_VB))
  }

  predicate SameScripts(a: seq<TxOut>, b: seq<TxOut>) {
    |a| == |b| && forall i :: 0 <= i < |a| ==> a[i].script == b[i].script
  }

  lemma {:induction false} SameScriptsSameSize(a: seq<TxOut>, b: seq<TxOut>)
    requires SameScripts(a, b)
    ensures OutputsSize(a) == OutputsSize(b)
  {
    if a != [] { SameScriptsSameSize(a[..|a| - 1], b[..|b| - 1]); }
  }

  /** Neither amounts nor sequences move the finalized size. */
  lemma ShapeFixesSize(satisfaction: u64, a: Tx, b: Tx)
    requires |a.ins| == |b.ins| && SameScripts(a.outs, b.outs)
    ensures MaximumFinalizedVsize(satisfaction, a) == MaximumFinalizedVsize(satisfaction, b)
  {
    SameScriptsSameSize(a.outs, b.outs);
  }

  // ----- the bytes behind the sizes

  type Bytes = seq<byte>

  /** Bitcoin's variable-length count: one byte, or a marker and two, four or eight. */
  function Count(n: nat): Bytes {
    if n < 0xFD then [n]
    else if n <= 0xFFFF then [0xFD] + Envelope.Le(n, 2)
    else if n <= 0xFFFF_FFFF then [0xFE] + Envelope.Le(n, 4)
    else [0xFF] + Envelope.Le(n, 8)
  }

  /** An outpoint, an empty script and a sequence. */
  function InputBytes(i: TxIn): Bytes {
    Envelope.Le(i.prevout.txid, 32) + (Envelope.Le(i.prevout.vout, 4) + ([0] + Envelope.Le(i.sequence, 4)))
  }

  function OutputBytes(o: TxOut): Bytes { Envelope.Le(o.value, 8) + (Count(|o.script|) + o.script) }

  function AllInputs(ins: seq<TxIn>): Bytes {
    if ins == [] then [] else AllInputs(ins[..|ins| - 1]) + InputBytes(ins[|ins| - 1])
  }

  function AllOutputs(outs: seq<TxOut>): Bytes {
    if outs == [] then [] else AllOutputs(outs[..|outs| - 1]) + OutputBytes(outs[|outs| - 1])
  }

  /** The unsigned transaction as it is serialised without witnesses. */
  function Serialised(tx: Tx): Bytes {
    Envelope.Le(tx.version, 4) + (Count(|tx.ins|) + (AllInputs(tx.ins) +
      (Count(|tx.outs|) + (AllOutputs(tx.outs) + Envelope.Le(tx.lockTime, 4)))))
  }

  lemma {:induction false} InputsLength(ins: seq<TxIn>)
    ensures |AllInputs(ins)| == 41 * |ins|
  {
    if ins != [] {
      InputsLength(ins[..|ins| - 1]);
      assert |InputBytes(ins[|ins| - 1])| == 41;
    }
  }

  lemma {:induction false} OutputsLength(outs: seq<TxOut>)
    ensures |AllOutputs(outs)| == OutputsSize(outs)
  {
    if outs != [] { OutputsLength(outs[..|outs| - 1]); }
  }

  /** The weight is four units for every byte serialised, and two for the segwit marker and
      flag that a transaction without inputs is serialised with. */
  lemma WeightIsExact(tx: Tx)
    ensures Weight(tx) == 4 * |Serialised(tx)| + if tx.ins == [] then 2 else 0
  {
    InputsLength(tx.ins);
    OutputsLength(tx.outs);
  }

  /** The finalized size is the weight with marker and flag and, for every input, its largest
      satisfaction and one unit more, in quarters rounded up; it is absent exactly when the
      64-bit sums overflow. The replacement minimum is one satoshi for each of its bytes. */
  lemma FinalizedSizeIsExact(satisfaction: u64, tx: Tx)
    ensures
      var n := |tx.ins|;
      var full := Weight(tx) + 2 + (satisfaction + 1) * n;
      match MaximumFinalizedVsize(satisfaction, tx)
      case Some(v) => 4 * (v - 1) < full <= 4 * v && ReplacementMinFeeDelta(satisfaction, tx) == Some(v)
      case None =>
        && ReplacementMinFeeDelta(satisfaction, tx) == None
        && (satisfaction == U64_MAX || n > U64_MAX || (satisfaction + 1) * n > U64_MAX || full + 3 > U64_MAX)
  {}
}

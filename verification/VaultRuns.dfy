// Whole runs of the vault: deposits arrive and transactions that the policy accepts
// and classifies are confirmed. Value is conserved, none of it strays, and what the
// owner retains erodes no faster than the fee cap and the Hot budget allow.
module VaultRuns {
  import opened Basics
  import opened Policy
  import opened PolicyTheorems

  /** The vault's unspent coins, and the running totals of where value went. */
  datatype World = World(
    coins: map<OutPoint, TxOut>,
    escape: nat,
    hot: nat,
    stray: nat,
    fees: nat,
    deposits: nat)

  datatype Event = Deposit(at: OutPoint, coin: TxOut) | Spend(psbt: Psbt, txid: nat)

  ghost function Value(coins: map<OutPoint, TxOut>): nat
    decreases |coins|
  {
    if coins == map[] then 0
    else
      var k :| k in coins;
      coins[k].value + Value(coins - {k})
  }

  /** What the owner still commands: the vault and the escape wallet. */
  ghost function Retained(w: World): nat { Value(w.coins) + w.escape }

  function Prevouts(ins: seq<TxIn>): set<OutPoint> {
    set i | 0 <= i < |ins| :: ins[i].prevout
  }

  ghost predicate AllVault(coins: map<OutPoint, TxOut>, p: Params) {
    forall k :: k in coins ==> IsVault(p, coins[k].script)
  }

  /** The coins a confirmed transaction leaves: its vault outputs join the others. */
  ghost function WithOutputs(coins: map<OutPoint, TxOut>, outs: seq<TxOut>, txid: nat, p: Params)
    : map<OutPoint, TxOut>
  {
    if outs == [] then coins
    else
      var n := |outs| - 1;
      var rest := WithOutputs(coins, outs[..n], txid, p);
      if IsVault(p, outs[n].script) then rest[OutPoint(txid, n) := outs[n]] else rest
  }

  /** Each input names a distinct coin of the vault and declares that coin truly. */
  ghost predicate SpendsCoins(psbt: Psbt, coins: map<OutPoint, TxOut>) {
    && |psbt.inputs| == |psbt.tx.ins|
    && (forall i :: 0 <= i < |psbt.tx.ins| ==>
      && psbt.tx.ins[i].prevout in coins
      && psbt.inputs[i].witnessUtxo == Some(coins[psbt.tx.ins[i].prevout]))
    && (forall i, j :: 0 <= i < j < |psbt.tx.ins| ==> psbt.tx.ins[i].prevout != psbt.tx.ins[j].prevout)
  }

  ghost predicate Enabled(w: World, e: Event, p: Params) {
    match e
    case Deposit(at, coin) => at !in w.coins && IsVault(p, coin.script)
    case Spend(psbt, txid) =>
      && Admissible(psbt, p)
      && ClassOf(psbt, p).Ok?
      && SpendsCoins(psbt, w.coins)
      && forall k :: k in w.coins ==> k.txid != txid
  }

  ghost function Apply(w: World, e: Event, p: Params): World
    requires Enabled(w, e, p)
  {
    match e
    case Deposit(at, coin) =>
      w.(coins := w.coins[at := coin], deposits := w.deposits + coin.value)
    case Spend(psbt, txid) =>
      var outs := psbt.tx.outs;
      World(
        WithOutputs(w.coins - Prevouts(psbt.tx.ins), outs, txid, p),
        w.escape + Paid(outs, EscapeScripts(p)),
        w.hot + Paid(outs, HotScripts(p)),
        w.stray + Paid(outs, StrangerScripts(p)),
        w.fees + TotalIn(psbt.inputs) - Total(outs),
        w.deposits)
  }

  ghost predicate ValidRun(w: World, events: seq<Event>, p: Params)
    decreases |events|
  {
    events == [] || (Enabled(w, events[0], p) && ValidRun(Apply(w, events[0], p), events[1..], p))
  }

  ghost function Final(w: World, events: seq<Event>, p: Params): World
    requires ValidRun(w, events, p)
    decreases |events|
  {
    if events == [] then w else Final(Apply(w, events[0], p), events[1..], p)
  }

  function Spends(events: seq<Event>): nat {
    if events == [] then 0 else (if events[0].Spend? then 1 else 0) + Spends(events[1..])
  }

  function Deposited(events: seq<Event>): nat {
    if events == [] then 0
    else (if events[0].Deposit? then events[0].coin.value else 0) + Deposited(events[1..])
  }

  // ----- sums over coin maps

  lemma {:induction false} ValueRemove(coins: map<OutPoint, TxOut>, k: OutPoint)
    requires k in coins
    ensures Value(coins) == coins[k].value + Value(coins - {k})
    decreases |coins|
  {
    var j :| j in coins && Value(coins) == coins[j].value + Value(coins - {j});
    if j != k {
      ValueRemove(coins - {j}, k);
      ValueRemove(coins - {k}, j);
      assert coins - {j} - {k} == coins - {k} - {j};
    }
  }

  lemma ValueInsert(coins: map<OutPoint, TxOut>, k: OutPoint, coin: TxOut)
    requires k !in coins
    ensures Value(coins[k := coin]) == coin.value + Value(coins)
  {
    ValueRemove(coins[k := coin], k);
    assert coins[k := coin] - {k} == coins;
  }

  lemma PrevoutsGrow(ins: seq<TxIn>, n: nat)
    requires 0 < n <= |ins|
    ensures Prevouts(ins[..n]) == Prevouts(ins[..n - 1]) + {ins[n - 1].prevout}
  {
    assert ins[..n][n - 1] == ins[n - 1];
    forall o | o in Prevouts(ins[..n - 1]) ensures o in Prevouts(ins[..n]) {
      var i :| 0 <= i < n - 1 && ins[..n - 1][i].prevout == o;
      assert ins[..n][i].prevout == o;
    }
  }

  /** Spending the first n inputs takes exactly their declared values out of the vault. */
  lemma {:induction false} ValueSpent(coins: map<OutPoint, TxOut>, psbt: Psbt, n: nat)
    requires SpendsCoins(psbt, coins) && n <= |psbt.tx.ins|
    ensures Value(coins) == TotalIn(psbt.inputs[..n]) + Value(coins - Prevouts(psbt.tx.ins[..n]))
  {
    if n == 0 {
      assert coins - Prevouts(psbt.tx.ins[..0]) == coins;
    } else {
      ValueSpent(coins, psbt, n - 1);
      var before, k := coins - Prevouts(psbt.tx.ins[..n - 1]), psbt.tx.ins[n - 1].prevout;
      assert psbt.inputs[..n][..n - 1] == psbt.inputs[..n - 1];
      PrevoutsGrow(psbt.tx.ins, n);
      ValueRemove(before, k);
      assert before - {k} == coins - Prevouts(psbt.tx.ins[..n]);
    }
  }

  lemma {:induction false} ValueGained(coins: map<OutPoint, TxOut>, outs: seq<TxOut>, txid: nat, p: Params)
    requires AllVault(coins, p)
    requires forall k :: k in coins ==> k.txid != txid
    ensures Value(WithOutputs(coins, outs, txid, p)) == Value(coins) + Paid(outs, VaultScripts(p))
    ensures AllVault(WithOutputs(coins, outs, txid, p), p)
    ensures forall k :: k in WithOutputs(coins, outs, txid, p) ==> k in coins || (k.txid == txid && k.vout < |outs|)
  {
    if outs != [] {
      var n := |outs| - 1;
      ValueGained(coins, outs[..n], txid, p);
      if IsVault(p, outs[n].script) {
        ValueInsert(WithOutputs(coins, outs[..n], txid, p), OutPoint(txid, n), outs[n]);
      }
    }
  }

  // ----- one step

  lemma SpendEffect(w: World, psbt: Psbt, txid: nat, p: Params)
    requires AllVault(w.coins, p) && Enabled(w, Spend(psbt, txid), p)
    ensures
      var v := Apply(w, Spend(psbt, txid), p);
      && AllVault(v.coins, p)
      && v.stray == w.stray
      && Retained(v) + v.hot + v.fees == Retained(w) + w.hot + w.fees
      && (p.hotMaxPerTx < U64_MAX ==> v.hot <= w.hot + p.hotMaxPerTx)
      && 10 * v.fees <= 10 * w.fees + Retained(w)
  {
    var outs, spent := psbt.tx.outs, w.coins - Prevouts(psbt.tx.ins);
    ValueSpent(w.coins, psbt, |psbt.tx.ins|);
    assert psbt.inputs[..|psbt.tx.ins|] == psbt.inputs && psbt.tx.ins[..|psbt.tx.ins|] == psbt.tx.ins;
    ValueGained(spent, outs, txid, p);
    PaidPartition(outs, p);
    PaidAgree(outs, HotScripts(p), MeteredScripts(p));
    NothingStrays(psbt, p);
  }

  lemma NothingStrays(psbt: Psbt, p: Params)
    requires OutputsRecognised(psbt, p)
    ensures Paid(psbt.tx.outs, StrangerScripts(p)) == 0
  {
    PaidNothing(psbt.tx.outs, StrangerScripts(p));
  }

  lemma DepositEffect(w: World, at: OutPoint, coin: TxOut, p: Params)
    requires AllVault(w.coins, p) && Enabled(w, Deposit(at, coin), p)
    ensures
      var v := Apply(w, Deposit(at, coin), p);
      AllVault(v.coins, p) && Retained(v) == Retained(w) + coin.value
  {
    ValueInsert(w.coins, at, coin);
  }

  // ----- whole runs

  /** Over every accepted run, vault + escape + hot + fees is the initial value plus the
      deposits, every coin left pays the vault, and nothing strays. */
  lemma {:induction false} ValueIsConserved(w: World, events: seq<Event>, p: Params)
    requires AllVault(w.coins, p) && ValidRun(w, events, p)
    ensures
      var v := Final(w, events, p);
      && Value(v.coins) + v.escape + v.hot + v.fees
         == Value(w.coins) + w.escape + w.hot + w.fees + Deposited(events)
      && v.deposits == w.deposits + Deposited(events)
      && v.stray == w.stray
      && AllVault(v.coins, p)
    decreases |events|
  {
    if events != [] {
      match events[0] {
        case Deposit(at, coin) => DepositEffect(w, at, coin, p);
        case Spend(psbt, txid) => SpendEffect(w, psbt, txid, p);
      }
      ValueIsConserved(Apply(w, events[0], p), events[1..], p);
    }
  }

  /** Over k accepted spends at most k caps reach the hot wallets. */
  lemma {:induction false} HotIsMetered(w: World, events: seq<Event>, p: Params)
    requires AllVault(w.coins, p) && ValidRun(w, events, p) && p.hotMaxPerTx < U64_MAX
    ensures Final(w, events, p).hot <= w.hot + Spends(events) * p.hotMaxPerTx
    decreases |events|
  {
    if events != [] {
      var next := Apply(w, events[0], p);
      match events[0] {
        case Deposit(at, coin) => DepositEffect(w, at, coin, p);
        case Spend(psbt, txid) => SpendEffect(w, psbt, txid, p);
      }
      HotIsMetered(next, events[1..], p);
      OneMore(Spends(events[1..]), p.hotMaxPerTx);
    }
  }

  /** A vault of two maximal coins, spent together to a hot wallet under the largest cap. */
  lemma TwoCoinsOverrun(p: Params, vault: Script, hot: Script) returns (w: World, events: seq<Event>)
    requires IsVault(p, vault) && IsHot(p, hot) && p.hotMaxPerTx == U64_MAX
    ensures AllVault(w.coins, p) && ValidRun(w, events, p) && Spends(events) == 1
    ensures Final(w, events, p).hot == w.hot + 2 * p.hotMaxPerTx
    ensures Retained(w) == 2 * U64_MAX && Retained(Final(w, events, p)) == 0
  {
    var psbt := SaturatedCapDoesNotBound(p, vault, hot);
    var coin := TxOut(U64_MAX, vault);
    w := World(map[OutPoint(0, 0) := coin, OutPoint(0, 1) := coin], 0, 0, 0, 0, 0);
    events := [Spend(psbt, 1)];
    assert SpendsCoins(psbt, w.coins);
    OneEvent(w, events[0], p);
    TwoCoinsWorth(coin);
    SpendEffect(w, psbt, 1, p);
  }

  lemma TwoCoinsWorth(coin: TxOut)
    ensures Value(map[OutPoint(0, 0) := coin, OutPoint(0, 1) := coin]) == 2 * coin.value
  {
    ValueInsert(map[], OutPoint(0, 0), coin);
    ValueInsert(map[OutPoint(0, 0) := coin], OutPoint(0, 1), coin);
  }

  lemma OneEvent(w: World, e: Event, p: Params)
    requires Enabled(w, e, p)
    ensures ValidRun(w, [e], p) && Final(w, [e], p) == Apply(w, e, p) && Spends([e]) == if e.Spend? then 1 else 0
  {
    assert [e][1..] == [];
  }

  /** The cap meters every run. */
  ghost predicate RunsAreMetered(p: Params) {
    forall w: World, events :: AllVault(w.coins, p) && ValidRun(w, events, p) ==>
      Final(w, events, p).hot <= w.hot + Spends(events) * p.hotMaxPerTx
  }

  /** Over all runs of a vault that can pay a hot wallet, the cap meters what reaches the hot
      wallets exactly when it is below the value the meter saturates to. */
  lemma HotIsMeteredIff(p: Params, vault: Script, hot: Script)
    requires IsVault(p, vault) && IsHot(p, hot)
    ensures RunsAreMetered(p) <==> p.hotMaxPerTx < U64_MAX
  {
    if p.hotMaxPerTx < U64_MAX {
      forall w: World, events | AllVault(w.coins, p) && ValidRun(w, events, p)
        ensures Final(w, events, p).hot <= w.hot + Spends(events) * p.hotMaxPerTx
      {
        HotIsMetered(w, events, p);
      }
    } else {
      var w, events := TwoCoinsOverrun(p, vault, hot);
      assert ValidRun(w, events, p);
    }
  }

  lemma {:induction false} PowersOrdered(k: nat)
    ensures 0 < Pow(9, k) <= Pow(10, k)
  {
    if k > 0 { PowersOrdered(k - 1); }
  }

  /** After k spends wk is left of w0: at least (9/10)^k of it, less k caps. */
  predicate Eroded(k: nat, w0: nat, wk: nat, cap: nat) {
    Pow(10, k) * wk + Pow(10, k) * (k * cap) >= Pow(9, k) * w0
  }

  lemma ErodedBySpend(k: nat, w0: nat, w1: nat, wk: nat, cap: nat)
    requires 10 * w1 + 10 * cap >= 9 * w0 && Eroded(k, w1, wk, cap)
    ensures Eroded(k + 1, w0, wk, cap)
  {
    PowersOrdered(k);
    SpendArithmetic(Pow(10, k), Pow(9, k), k, w0, w1, wk, cap);
  }

  lemma SpendArithmetic(a: nat, b: nat, k: nat, w0: nat, w1: nat, wk: nat, cap: nat)
    requires b <= a && 10 * w1 + 10 * cap >= 9 * w0
    requires a * wk + a * (k * cap) >= b * w1
    ensures (10 * a) * wk + (10 * a) * ((k + 1) * cap) >= (9 * b) * w0
  {
    OneMore(k, cap);
    Distribute(a, k * cap, cap);
    Distribute(b, 10 * w1, 10 * cap);
    Scale(9 * w0, 10 * w1 + 10 * cap, b);
    Scale(b, a, cap);
    Shuffle(10, a, wk);
    Shuffle(10, a, (k + 1) * cap);
    Shuffle(9, b, w0);
    Shuffle(10, b, w1);
    Shuffle(10, b, cap);
  }

  lemma Distribute(a: nat, x: nat, y: nat)
    ensures a * (x + y) == a * x + a * y
  {}

  lemma Shuffle(c: nat, a: nat, x: nat)
    ensures (c * a) * x == c * (a * x) == a * (c * x)
  {}

  lemma ErodedByDeposit(k: nat, w0: nat, w1: nat, wk: nat, cap: nat)
    requires w0 <= w1 && Eroded(k, w1, wk, cap)
    ensures Eroded(k, w0, wk, cap)
  {
    Scale(w0, w1, Pow(9, k));
  }

  /** After k accepted spends the vault and escape wallet together keep at least
      (9/10)^k of what they held, less k Hot caps; deposits can only add. */
  lemma {:induction false} ErosionIsBounded(w: World, events: seq<Event>, p: Params)
    requires AllVault(w.coins, p) && ValidRun(w, events, p) && p.hotMaxPerTx < U64_MAX
    ensures Eroded(Spends(events), Retained(w), Retained(Final(w, events, p)), p.hotMaxPerTx)
    decreases |events|
  {
    if events != [] {
      var next, end, k := Apply(w, events[0], p), Final(w, events, p), Spends(events[1..]);
      StepErosion(w, events[0], p);
      ErosionIsBounded(next, events[1..], p);
      if events[0].Deposit? {
        ErodedByDeposit(k, Retained(w), Retained(next), Retained(end), p.hotMaxPerTx);
      } else {
        ErodedBySpend(k, Retained(w), Retained(next), Retained(end), p.hotMaxPerTx);
      }
    } else {
      assert Spends(events) == 0;
    }
  }

  ghost predicate RunsErodeSlowly(p: Params) {
    forall w: World, events :: AllVault(w.coins, p) && ValidRun(w, events, p) ==>
      Eroded(Spends(events), Retained(w), Retained(Final(w, events, p)), p.hotMaxPerTx)
  }

  /** The erosion bound holds over all runs of such a vault exactly for the same caps. */
  lemma ErosionIsBoundedIff(p: Params, vault: Script, hot: Script)
    requires IsVault(p, vault) && IsHot(p, hot)
    ensures RunsErodeSlowly(p) <==> p.hotMaxPerTx < U64_MAX
  {
    if p.hotMaxPerTx < U64_MAX {
      forall w: World, events | AllVault(w.coins, p) && ValidRun(w, events, p)
        ensures Eroded(Spends(events), Retained(w), Retained(Final(w, events, p)), p.hotMaxPerTx)
      {
        ErosionIsBounded(w, events, p);
      }
    } else {
      var w, events := TwoCoinsOverrun(p, vault, hot);
      assert ValidRun(w, events, p);
      assert Pow(10, 1) == 10 && Pow(9, 1) == 9;
      assert !Eroded(1, 2 * U64_MAX, 0, U64_MAX);
    }
  }

  /** A deposit erodes nothing; a spend at most a tenth and one cap. */
  lemma StepErosion(w: World, e: Event, p: Params)
    requires AllVault(w.coins, p) && Enabled(w, e, p) && p.hotMaxPerTx < U64_MAX
    ensures AllVault(Apply(w, e, p).coins, p)
    ensures e.Deposit? ==> Retained(Apply(w, e, p)) >= Retained(w)
    ensures e.Spend? ==> 10 * Retained(Apply(w, e, p)) + 10 * p.hotMaxPerTx >= 9 * Retained(w)
  {
    match e {
      case Deposit(at, coin) => DepositEffect(w, at, coin, p);
      case Spend(psbt, txid) => SpendEffect(w, psbt, txid, p);
    }
  }
}

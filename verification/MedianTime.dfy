// Median time past, and the mining loop that carries it over the recovery lock.
module MedianTime {
  import opened Basics
  import Template

  const MEDIAN_SPAN: nat := 11
  const SLACK_SECS: nat := 3_600
  const BLOCK_STEP_SECS: nat := 600
  const ITERATIONS: nat := 13

  function LockSecs(): nat { Template.RECOVERY_TIMELOCK_UNITS * 512 }

  // ----- medians

  function Insert(x: nat, s: seq<nat>): seq<nat> {
    if s == [] || x <= s[0] then [x] + s else [s[0]] + Insert(x, s[1..])
  }

  function Sort(s: seq<nat>): seq<nat> {
    if s == [] then [] else Insert(s[0], Sort(s[1..]))
  }

  predicate Sorted(s: seq<nat>) {
    forall i, j :: 0 <= i < j < |s| ==> s[i] <= s[j]
  }

  function CountGe(s: seq<nat>, x: nat): nat {
    if s == [] then 0 else (if s[0] >= x then 1 else 0) + CountGe(s[1..], x)
  }

  lemma {:induction false} InsertPermutes(x: nat, s: seq<nat>)
    ensures |Insert(x, s)| == |s| + 1 && multiset(Insert(x, s)) == multiset(s) + multiset{x}
  {
    if s != [] && x > s[0] {
      InsertPermutes(x, s[1..]);
      assert s == [s[0]] + s[1..];
    }
  }

  /** What is at or below everything in s, and at or below x, heads a sorted sequence. */
  lemma {:induction false} InsertBounded(low: nat, x: nat, s: seq<nat>)
    requires low <= x && forall i :: 0 <= i < |s| ==> low <= s[i]
    ensures forall i :: 0 <= i < |Insert(x, s)| ==> low <= Insert(x, s)[i]
  {
    if s != [] && x > s[0] { InsertBounded(low, x, s[1..]); }
  }

  lemma {:induction false} InsertSorted(x: nat, s: seq<nat>)
    requires Sorted(s)
    ensures Sorted(Insert(x, s))
  {
    if s != [] && x > s[0] {
      InsertSorted(x, s[1..]);
      InsertBounded(s[0], x, s[1..]);
    }
  }

  lemma {:induction false} SortSorts(s: seq<nat>)
    ensures Sorted(Sort(s)) && |Sort(s)| == |s| && multiset(Sort(s)) == multiset(s)
  {
    if s != [] {
      SortSorts(s[1..]);
      InsertSorted(s[0], Sort(s[1..]));
      InsertPermutes(s[0], Sort(s[1..]));
      assert s == [s[0]] + s[1..];
    }
  }

  lemma {:induction false} InsertCount(y: nat, s: seq<nat>, x: nat)
    ensures CountGe(Insert(y, s), x) == CountGe(s, x) + if y >= x then 1 else 0
  {
    var t := Insert(y, s);
    if s == [] || y <= s[0] {
      assert t[1..] == s;
    } else {
      InsertCount(y, s[1..], x);
      assert t[1..] == Insert(y, s[1..]);
    }
  }

  lemma {:induction false} SortCount(s: seq<nat>, x: nat)
    ensures CountGe(Sort(s), x) == CountGe(s, x)
  {
    if s != [] {
      SortCount(s[1..], x);
      InsertCount(s[0], Sort(s[1..]), x);
    }
  }

  /** In a sorted sequence position k is at or above x exactly when at least |s| - k are. */
  lemma {:induction false} SortedCount(s: seq<nat>, k: nat, x: nat)
    requires Sorted(s) && k < |s|
    ensures s[k] >= x <==> CountGe(s, x) >= |s| - k
  {
    CountAtMost(s[1..], x);
    if k > 0 {
      SortedCount(s[1..], k - 1, x);
      assert s[k] == s[1..][k - 1];
      if s[0] >= x { CountAll(s, x); }
    } else if s[0] >= x {
      CountAll(s, x);
    }
  }

  lemma {:induction false} CountAtMost(s: seq<nat>, x: nat)
    ensures CountGe(s, x) <= |s|
  {
    if s != [] { CountAtMost(s[1..], x); }
  }

  lemma {:induction false} CountAll(s: seq<nat>, x: nat)
    requires forall i :: 0 <= i < |s| ==> s[i] >= x
    ensures CountGe(s, x) == |s|
  {
    if s != [] { CountAll(s[1..], x); }
  }

  lemma {:induction false} CountNone(s: seq<nat>, x: nat)
    requires forall i :: 0 <= i < |s| ==> s[i] < x
    ensures CountGe(s, x) == 0
  {
    if s != [] { CountNone(s[1..], x); }
  }

  lemma {:induction false} CountConcat(a: seq<nat>, b: seq<nat>, x: nat)
    ensures CountGe(a + b, x) == CountGe(a, x) + CountGe(b, x)
  {
    if a == [] {
      assert a + b == b;
    } else {
      assert (a + b)[1..] == a[1..] + b;
      CountConcat(a[1..], b, x);
    }
  }

  /** Median time past: the middle of the last eleven block times. */
  function Mtp(chain: seq<nat>): nat
    requires |chain| >= MEDIAN_SPAN
  {
    SortSorts(chain[|chain| - MEDIAN_SPAN..]);
    Sort(chain[|chain| - MEDIAN_SPAN..])[5]
  }

  /** The median reaches x exactly when six of the last eleven blocks do. */
  lemma MedianReaches(chain: seq<nat>, x: nat)
    requires |chain| >= MEDIAN_SPAN
    ensures Mtp(chain) >= x <==> CountGe(chain[|chain| - MEDIAN_SPAN..], x) >= 6
  {
    var window := chain[|chain| - MEDIAN_SPAN..];
    SortSorts(window);
    SortCount(window, x);
    SortedCount(Sort(window), 5, x);
  }

  // ----- mining under a mocked clock

  /** A mined block carries the mocked time, or the least time consensus admits if that is
      later. */
  function BlockTime(chain: seq<nat>, mocktime: nat): nat
    requires |chain| >= MEDIAN_SPAN
  {
    if mocktime > Mtp(chain) then mocktime else Mtp(chain) + 1
  }

  /** That is the least time at or past the clock that is past the median. */
  lemma BlockTimeIsLeast(chain: seq<nat>, mocktime: nat, t: nat)
    requires |chain| >= MEDIAN_SPAN
    ensures BlockTime(chain, mocktime) >= mocktime && BlockTime(chain, mocktime) > Mtp(chain)
    ensures t >= mocktime && t > Mtp(chain) ==> t >= BlockTime(chain, mocktime)
  {}

  /** The chain after k rounds of setting the clock and mining one block. */
  function Mined(chain: seq<nat>, mocktime: nat, k: nat): seq<nat>
    requires |chain| >= MEDIAN_SPAN
    decreases k
  {
    if k == 0 then chain
    else Mined(chain + [BlockTime(chain, mocktime)], mocktime + BLOCK_STEP_SECS, k - 1)
  }

  lemma {:induction false} MinedBlocks(chain: seq<nat>, mocktime: nat, k: nat)
    requires |chain| >= MEDIAN_SPAN
    ensures
      var after := Mined(chain, mocktime, k);
      && |after| == |chain| + k && after[..|chain|] == chain
      && forall i :: |chain| <= i < |after| ==> after[i] >= mocktime
    decreases k
  {
    if k > 0 {
      var next := chain + [BlockTime(chain, mocktime)];
      var after := Mined(next, mocktime + BLOCK_STEP_SECS, k - 1);
      MinedBlocks(next, mocktime + BLOCK_STEP_SECS, k - 1);
      assert after[..|next|] == next;
      assert after[..|chain|] == next[..|chain|] == chain;
      assert after[|chain|] == next[|chain|] >= mocktime;
    }
  }

  function Clock(chain: seq<nat>): nat
    requires |chain| >= MEDIAN_SPAN
  {
    Mtp(chain) + LockSecs() + SLACK_SECS
  }

  method AdvanceMtpPastRecoveryLock(chain: seq<nat>) returns (after: seq<nat>)
    requires |chain| >= MEDIAN_SPAN
    ensures after == Mined(chain, Clock(chain), ITERATIONS)
    ensures |after| == |chain| + 13 && after[..|chain|] == chain
    ensures Mtp(after) > Mtp(chain) + 30375 * 512
  {
    after := MineRounds(chain, Mtp(chain) + LockSecs() + SLACK_SECS, ITERATIONS);
    MinedBlocks(chain, Clock(chain), ITERATIONS);
    SixBlocksSuffice(chain, ITERATIONS);
  }

  /** The loop: set the clock, mine one block, move the clock on. */
  method MineRounds(chain: seq<nat>, start: nat, rounds: nat) returns (after: seq<nat>)
    requires |chain| >= MEDIAN_SPAN
    ensures after == Mined(chain, start, rounds)
  {
    var mocktime: nat := start;
    after := chain;
    for i := 0 to rounds
      invariant |after| >= MEDIAN_SPAN
      invariant Mined(after, mocktime, rounds - i) == Mined(chain, start, rounds)
    {
      after := after + [BlockTime(after, mocktime)];
      mocktime := mocktime + BLOCK_STEP_SECS;
    }
  }

  lemma WindowSplits(chain: seq<nat>, after: seq<nat>, k: nat, x: nat)
    requires |chain| >= MEDIAN_SPAN && |after| == |chain| + k && after[..|chain|] == chain && k <= MEDIAN_SPAN
    ensures CountGe(after[|after| - MEDIAN_SPAN..], x) ==
      CountGe(chain[|chain| - MEDIAN_SPAN + k..], x) + CountGe(after[|chain|..], x)
  {
    var kept := chain[|chain| - MEDIAN_SPAN + k..];
    assert after[|after| - MEDIAN_SPAN..] == kept + after[|chain|..] by {
      assert kept == after[|after| - MEDIAN_SPAN..|chain|];
    }
    CountConcat(kept, after[|chain|..], x);
  }

  /** From any chain, six rounds already carry the median past the lock, slack included. */
  lemma SixBlocksSuffice(chain: seq<nat>, k: nat)
    requires |chain| >= MEDIAN_SPAN && k >= 6
    ensures |Mined(chain, Clock(chain), k)| >= MEDIAN_SPAN
    ensures Mtp(Mined(chain, Clock(chain), k)) >= Clock(chain)
  {
    var after := Mined(chain, Clock(chain), k);
    MinedBlocks(chain, Clock(chain), k);
    MedianReaches(after, Clock(chain));
    if k <= MEDIAN_SPAN {
      WindowSplits(chain, after, k, Clock(chain));
      CountAll(after[|chain|..], Clock(chain));
    } else {
      CountAll(after[|after| - MEDIAN_SPAN..], Clock(chain));
    }
  }

  /** The chain's own median plus the lock, an hour and ten minutes a block. */
  predicate Stamped(chain: seq<nat>, after: seq<nat>, k: nat)
    requires |chain| >= MEDIAN_SPAN
  {
    && |after| == |chain| + k && after[..|chain|] == chain
    && forall i :: 0 <= i < k ==> after[|chain| + i] == Mtp(chain) + 30375 * 512 + 3600 + 600 * i
  }

  /** At most five of the old blocks are ahead of the clock, so the median stays behind it. */
  lemma MedianStaysBehind(chain: seq<nat>, after: seq<nat>, k: nat)
    requires |chain| >= MEDIAN_SPAN && Stamped(chain, after, k)
    ensures Mtp(after) < Clock(chain) + BLOCK_STEP_SECS * k
  {
    var x := Clock(chain) + BLOCK_STEP_SECS * k;
    MedianReaches(chain, x);
    MedianReaches(after, x);
    forall i | |chain| <= i < |after| ensures after[i] < x {
      var j := i - |chain|;
      assert after[|chain| + j] == Mtp(chain) + 30375 * 512 + 3600 + 600 * j;
    }
    CountNone(after[|chain|..], x);
    if k <= MEDIAN_SPAN {
      WindowSplits(chain, after, k, x);
      var window := chain[|chain| - MEDIAN_SPAN..];
      assert window == window[..k] + chain[|chain| - MEDIAN_SPAN + k..];
      CountConcat(window[..k], chain[|chain| - MEDIAN_SPAN + k..], x);
    } else {
      CountNone(after[|after| - MEDIAN_SPAN..], x);
    }
  }

  lemma {:induction false} MinedSteps(chain: seq<nat>, mocktime: nat, k: nat)
    requires |chain| >= MEDIAN_SPAN && k > 0
    ensures |Mined(chain, mocktime, k - 1)| >= MEDIAN_SPAN
    ensures
      var before := Mined(chain, mocktime, k - 1);
      Mined(chain, mocktime, k) == before + [BlockTime(before, mocktime + BLOCK_STEP_SECS * (k - 1))]
    decreases k
  {
    MinedBlocks(chain, mocktime, k - 1);
    if k > 1 {
      MinedSteps(chain + [BlockTime(chain, mocktime)], mocktime + BLOCK_STEP_SECS, k - 1);
    }
  }

  /** The mocked clock is what every block carries: on any chain the blocks mined are stamped
      an hour past the lock and then ten minutes apart, so they strictly advance. */
  lemma {:induction false} BlocksAreStamped(chain: seq<nat>, k: nat)
    requires |chain| >= MEDIAN_SPAN
    ensures Stamped(chain, Mined(chain, Clock(chain), k), k)
  {
    if k > 0 {
      var before := Mined(chain, Clock(chain), k - 1);
      BlocksAreStamped(chain, k - 1);
      MinedSteps(chain, Clock(chain), k);
      MedianStaysBehind(chain, before, k - 1);
    }
  }

  /** Fewer than six rounds do not, on any chain whose last blocks are not themselves that
      far ahead: the exact number of blocks the advance needs. */
  lemma SixBlocksAreNeeded(chain: seq<nat>, k: nat)
    requires |chain| >= MEDIAN_SPAN
    requires forall i :: |chain| - MEDIAN_SPAN <= i < |chain| ==> chain[i] < Mtp(chain) + LockSecs()
    ensures |Mined(chain, Clock(chain), k)| >= MEDIAN_SPAN
    ensures Mtp(Mined(chain, Clock(chain), k)) >= Mtp(chain) + LockSecs() <==> k >= 6
  {
    var after, x := Mined(chain, Clock(chain), k), Mtp(chain) + LockSecs();
    MinedBlocks(chain, Clock(chain), k);
    if k >= 6 {
      SixBlocksSuffice(chain, k);
    } else {
      MedianReaches(after, x);
      WindowSplits(chain, after, k, x);
      CountNone(chain[|chain| - MEDIAN_SPAN + k..], x);
      CountAtMost(after[|chain|..], x);
    }
  }

  /** After the advance every coin whose reference median is not ahead of the starting one
      satisfies the recovery branch's relative lock. */
  lemma AdvanceMaturesLock(chain: seq<nat>, reference: nat, blocks: nat)
    requires |chain| >= MEDIAN_SPAN && reference <= Mtp(chain)
    ensures |Mined(chain, Clock(chain), ITERATIONS)| >= MEDIAN_SPAN
    ensures
      var now := Mtp(Mined(chain, Clock(chain), ITERATIONS));
      now >= reference && Template.LockMatured(Template.RecoverySequence(), Template.Age(blocks, now - reference))
  {
    SixBlocksSuffice(chain, ITERATIONS);
    Template.TimeLockNotBlockLock(Template.Age(blocks, Mtp(Mined(chain, Clock(chain), ITERATIONS)) - reference));
  }
}

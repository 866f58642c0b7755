// The federation's Hot-budget routing bound: honest ledgers each admit at most one cap
// per window, every completed spend draws shares from several of them, so counting each
// spend once per honest share bounds the total. The bound holds for every cap below the
// largest u64, and for no other.
module Federation {
  import opened Basics
  import opened HotBudget

  /** An honest node over one window: its ledger, the hot candidates it still holds, those
      it ever admitted since the window opened, and those whose share has ever left it. */
  datatype Node = Node(
    book: Book,
    resident: set<Id>,
    admitted: set<Id>,
    exposed: set<Id>,
    clock: u64)

  datatype Event =
    | Accept(id: Id, now: u64, wallNow: u64, expiry: u64)
    | Refuse(id: Id, now: u64, wallNow: u64, expiry: u64)
    | Expose(id: Id)
    | ReturnUnexposed(id: Id)
    | EvictExposed(id: Id)

  /** The sealed numbers: the ledger's budget and the outflow each commitment id binds. */
  datatype Terms = Terms(budget: Budget, outflow: Id -> u64)

  ghost function ClaimOf(t: Terms, node: Node, e: Event): (Book, Reserved)
    requires e.Accept? || e.Refuse?
  {
    Reserve(t.budget, node.book, e.id, t.outflow(e.id), e.now, e.wallNow, e.expiry)
  }

  /** The monotonic clock only advances and stays inside the window opened at start; a
      share can only leave while the candidate is held, and a reservation is only handed
      back for a held candidate whose share never left. */
  ghost predicate Enabled(t: Terms, start: u64, node: Node, e: Event) {
    match e
    case Accept(id, now, wallNow, expiry) =>
      && node.clock <= now <= start + t.budget.windowSecs
      && ClaimOf(t, node, e).1 in {Inserted, AlreadyHeld}
    case Refuse(id, now, wallNow, expiry) => node.clock <= now <= start + t.budget.windowSecs
    case Expose(id) => id in node.resident
    case ReturnUnexposed(id) => id in node.resident && id !in node.exposed
    case EvictExposed(id) => id in node.resident && id in node.exposed
  }

  ghost function Apply(t: Terms, start: u64, node: Node, e: Event): Node
    requires Enabled(t, start, node, e)
  {
    match e
    case Accept(id, now, wallNow, expiry) =>
      var (book, r) := ClaimOf(t, node, e);
      node.(book := book, resident := node.resident + {id}, clock := now,
            admitted := if r == Inserted then node.admitted + {id} else node.admitted)
    // A request refused after its claim hands back what that claim inserted.
    case Refuse(id, now, wallNow, expiry) =>
      var (book, r) := ClaimOf(t, node, e);
      node.(book := if r == Inserted then book - {id} else book, clock := now)
    case Expose(id) => node.(exposed := node.exposed + {id})
    case ReturnUnexposed(id) =>
      node.(book := node.book - {id}, resident := node.resident - {id})
    case EvictExposed(id) => node.(resident := node.resident - {id})
  }

  /** Spends this node admitted in the window and gave its share for. */
  function Spent(node: Node): set<Id> { node.admitted * node.exposed }

  /** What the window admitted and can still complete: its share has left, or may yet. */
  predicate Pending(node: Node, id: Id) { id in node.admitted && (id in node.exposed || id in node.resident) }

  /** Everything pending is in the ledger, and what the window admitted is in it, if at all,
      at the outflow its id binds and not from before the window. */
  ghost predicate Metered(t: Terms, start: u64, node: Node) {
    && WithinCap(t.budget, node.book)
    && start <= node.clock
    && (forall id :: Pending(node, id) ==> id in node.book)
    && forall id :: id in node.admitted && id in node.book ==>
      node.book[id].outflow == t.outflow(id) && start <= node.book[id].reservedAt
  }

  /** Inside the window no claim ages out anything the window admitted. */
  lemma NothingAdmittedAgesOut(t: Terms, start: u64, node: Node, now: u64, wallNow: u64)
    requires Metered(t, start, node) && now <= start + t.budget.windowSecs
    ensures
      var live := Pruned(node.book, Floor(t.budget, now), wallNow);
      forall id :: id in node.admitted && id in node.book ==> id in live && live[id] == node.book[id]
  {
    var live := Pruned(node.book, Floor(t.budget, now), wallNow);
    forall id | id in node.admitted && id in node.book ensures id in live {
      assert node.book[id].reservedAt >= start;
    }
  }

  lemma AcceptKeepsMetering(t: Terms, start: u64, node: Node, e: Event)
    requires e.Accept? && Metered(t, start, node) && Enabled(t, start, node, e)
    ensures Metered(t, start, Apply(t, start, node, e))
  {
    ReserveKeepsCap(t.budget, node.book, e.id, t.outflow(e.id), e.now, e.wallNow, e.expiry);
    NothingAdmittedAgesOut(t, start, node, e.now, e.wallNow);
  }

  lemma RefuseKeepsMetering(t: Terms, start: u64, node: Node, e: Event)
    requires e.Refuse? && Metered(t, start, node) && Enabled(t, start, node, e)
    ensures Metered(t, start, Apply(t, start, node, e))
  {
    ReserveKeepsCap(t.budget, node.book, e.id, t.outflow(e.id), e.now, e.wallNow, e.expiry);
    NothingAdmittedAgesOut(t, start, node, e.now, e.wallNow);
    ReleaseKeepsCap(t.budget, ClaimOf(t, node, e).0, e.id);
  }

  lemma StepKeepsMetering(t: Terms, start: u64, node: Node, e: Event)
    requires Metered(t, start, node) && Enabled(t, start, node, e)
    ensures Metered(t, start, Apply(t, start, node, e))
  {
    match e {
      case Accept(_, _, _, _) => AcceptKeepsMetering(t, start, node, e);
      case Refuse(_, _, _, _) => RefuseKeepsMetering(t, start, node, e);
      case Expose(_) =>
      case ReturnUnexposed(id) => ReleaseKeepsCap(t.budget, node.book, id);
      case EvictExposed(_) =>
    }
  }

  // ----- sums over ids

  ghost function SumOf(t: Terms, ids: set<Id>): nat {
    if ids == {} then 0
    else
      var id :| id in ids;
      t.outflow(id) + SumOf(t, ids - {id})
  }

  lemma {:induction false} SumRemove(t: Terms, ids: set<Id>, id: Id)
    requires id in ids
    ensures SumOf(t, ids) == t.outflow(id) + SumOf(t, ids - {id})
  {
    var j :| j in ids && SumOf(t, ids) == t.outflow(j) + SumOf(t, ids - {j});
    if j != id {
      SumRemove(t, ids - {j}, id);
      SumRemove(t, ids - {id}, j);
      assert ids - {j} - {id} == ids - {id} - {j};
    }
  }

  lemma {:induction false} SumWithinBook(t: Terms, ids: set<Id>, book: Book)
    requires ids <= book.Keys && forall id :: id in ids ==> book[id].outflow == t.outflow(id)
    ensures SumOf(t, ids) <= HotBudget.Total(book)
  {
    if ids != {} {
      var id :| id in ids;
      SumRemove(t, ids, id);
      TotalRemove(book, id);
      SumWithinBook(t, ids - {id}, book - {id});
    }
  }

  /** No ledger gives shares for more newly admitted outflow than its book can hold. */
  lemma NodeBound(t: Terms, start: u64, node: Node, done: set<Id>)
    requires Metered(t, start, node)
    ensures SumOf(t, done * Spent(node)) <= Ceiling(t.budget)
  {
    SumWithinBook(t, done * Spent(node), node.book);
  }

  // ----- double counting

  /** How many of the nodes gave a share for the spend. */
  function Shares(nodes: seq<Node>, id: Id): nat {
    if nodes == [] then 0
    else Shares(nodes[..|nodes| - 1], id) + if id in Spent(nodes[|nodes| - 1]) then 1 else 0
  }

  ghost function SharedSum(t: Terms, nodes: seq<Node>, done: set<Id>): nat {
    if nodes == [] then 0
    else SharedSum(t, nodes[..|nodes| - 1], done) + SumOf(t, done * Spent(nodes[|nodes| - 1]))
  }

  /** Adding one spend to the count adds its outflow once per share given for it. */
  lemma {:induction false} SharedSumRemove(t: Terms, nodes: seq<Node>, done: set<Id>, id: Id)
    requires id in done
    ensures SharedSum(t, nodes, done) == SharedSum(t, nodes, done - {id}) + Shares(nodes, id) * t.outflow(id)
  {
    if nodes != [] {
      var front, spent := nodes[..|nodes| - 1], Spent(nodes[|nodes| - 1]);
      SharedSumRemove(t, front, done, id);
      if id in spent {
        SumRemove(t, done * spent, id);
        assert done * spent - {id} == (done - {id}) * spent;
        assert (Shares(front, id) + 1) * t.outflow(id) == Shares(front, id) * t.outflow(id) + t.outflow(id);
      } else {
        assert done * spent == (done - {id}) * spent;
      }
    }
  }

  lemma {:induction false} SharedSumEmpty(t: Terms, nodes: seq<Node>)
    ensures SharedSum(t, nodes, {}) == 0
  {
    if nodes != [] {
      SharedSumEmpty(t, nodes[..|nodes| - 1]);
      assert {} * Spent(nodes[|nodes| - 1]) == {};
    }
  }

  lemma {:induction false} EachCountedOften(t: Terms, nodes: seq<Node>, done: set<Id>, q: nat)
    requires forall id :: id in done ==> Shares(nodes, id) >= q
    ensures q * SumOf(t, done) <= SharedSum(t, nodes, done)
  {
    if done == {} {
      SharedSumEmpty(t, nodes);
    } else {
      var id :| id in done;
      EachCountedOften(t, nodes, done - {id}, q);
      SumRemove(t, done, id);
      SharedSumRemove(t, nodes, done, id);
      CountOnce(q, Shares(nodes, id), t.outflow(id), SumOf(t, done - {id}), SharedSum(t, nodes, done - {id}));
    }
  }

  lemma CountOnce(q: nat, shares: nat, v: nat, sum: nat, shared: nat)
    requires q <= shares && q * sum <= shared
    ensures q * (v + sum) <= shared + shares * v
  {
    Scale(q, shares, v);
    assert q * (v + sum) == q * v + q * sum;
  }

  lemma {:induction false} LedgersBound(t: Terms, starts: seq<u64>, nodes: seq<Node>, done: set<Id>)
    requires |starts| == |nodes|
    requires forall h :: 0 <= h < |nodes| ==> Metered(t, starts[h], nodes[h])
    ensures SharedSum(t, nodes, done) <= |starts| * Ceiling(t.budget)
  {
    if nodes != [] {
      var n := |nodes| - 1;
      LedgersBound(t, starts[..n], nodes[..n], done);
      NodeBound(t, starts[n], nodes[n], done);
      OneMore(n, Ceiling(t.budget));
    }
  }

  // ----- runs

  /** A run: the federations passed through and the event, at one node, taken from each. */
  datatype History = History(states: seq<seq<Node>>, steps: seq<(nat, Event)>)

  ghost predicate Steps(t: Terms, starts: seq<u64>, before: seq<Node>, s: (nat, Event), after: seq<Node>) {
    && |before| == |starts| && s.0 < |before|
    && Enabled(t, starts[s.0], before[s.0], s.1)
    && after == before[s.0 := Apply(t, starts[s.0], before[s.0], s.1)]
  }

  ghost predicate ValidRun(t: Terms, starts: seq<u64>, run: History) {
    && |run.states| == |run.steps| + 1
    && |run.states[0]| == |starts|
    && forall i :: 0 <= i < |run.steps| ==> Steps(t, starts, run.states[i], run.steps[i], run.states[i + 1])
  }

  function Final(run: History): seq<Node>
    requires run.states != []
  {
    run.states[|run.states| - 1]
  }

  ghost predicate AllMetered(t: Terms, starts: seq<u64>, nodes: seq<Node>) {
    |nodes| == |starts| && forall h :: 0 <= h < |nodes| ==> Metered(t, starts[h], nodes[h])
  }

  lemma {:induction false} RunKeepsMetering(t: Terms, starts: seq<u64>, run: History, i: nat)
    requires ValidRun(t, starts, run) && AllMetered(t, starts, run.states[0]) && i < |run.states|
    ensures AllMetered(t, starts, run.states[i])
  {
    if i > 0 {
      RunKeepsMetering(t, starts, run, i - 1);
      var before, s := run.states[i - 1], run.steps[i - 1];
      assert Steps(t, starts, before, s, run.states[i]);
      StepKeepsMetering(t, starts[s.0], before[s.0], s.1);
    }
  }

  /** Counting by spend and by ledger: q shares a spend, one ceiling a ledger. */
  lemma CountedBothWays(t: Terms, starts: seq<u64>, end: seq<Node>, done: set<Id>, q: nat)
    requires AllMetered(t, starts, end)
    requires forall id :: id in done ==> Shares(end, id) >= q
    ensures q * SumOf(t, done) <= |starts| * Ceiling(t.budget)
  {
    EachCountedOften(t, end, done, q);
    LedgersBound(t, starts, end, done);
  }

  /** Within one window of every honest ledger the run completes the spends in done: with c
      signers compromised, each has drawn at least threshold - c honest shares. The nodes
      are the n - c honest ones, one ledger and one window start each. */
  ghost predicate Completes(t: Terms, starts: seq<u64>, run: History, done: set<Id>, threshold: nat, c: nat) {
    && ValidRun(t, starts, run)
    && AllMetered(t, starts, run.states[0])
    && forall id :: id in done ==> Shares(Final(run), id) + c >= threshold
  }

  /** The routing bound. Over any interleaving within one window (threshold - c) times the
      completed outflow is at most one ceiling for each of the n - c honest nodes; the
      ceiling is the cap, for every cap below the largest u64. */
  lemma RoutingBound(t: Terms, starts: seq<u64>, run: History, done: set<Id>, threshold: nat, c: nat)
    requires c < threshold && Completes(t, starts, run, done, threshold, c)
    ensures (threshold - c) * SumOf(t, done) <= |starts| * Ceiling(t.budget)
  {
    RunKeepsMetering(t, starts, run, |run.steps|);
    assert AllMetered(t, starts, Final(run)) && |Final(run)| == |starts|;
    CountedBothWays(t, starts, Final(run), done, threshold - c);
  }

  /** At n = 2t - 1: t ceilings under the full compromise tolerance c = t - 1, and strictly
      under two with nobody compromised. */
  lemma ProductionBounds(t: Terms, starts: seq<u64>, run: History, done: set<Id>, threshold: nat, c: nat)
    requires threshold >= 1 && (c == threshold - 1 || c == 0) && |starts| + c == 2 * threshold - 1
    requires Completes(t, starts, run, done, threshold, c)
    ensures c == threshold - 1 ==> SumOf(t, done) <= threshold * Ceiling(t.budget)
    ensures c == 0 ==> threshold * SumOf(t, done) <= (2 * threshold - 1) * Ceiling(t.budget)
    ensures c == 0 && t.budget.maxPerWindow > 0 ==> SumOf(t, done) < 2 * Ceiling(t.budget)
  {
    RoutingBound(t, starts, run, done, threshold, c);
    ProductionArithmetic(threshold, c, |starts|, SumOf(t, done), Ceiling(t.budget));
  }

  lemma ProductionArithmetic(threshold: nat, c: nat, honest: nat, sum: nat, v: nat)
    requires threshold >= 1 && (c == threshold - 1 || c == 0) && honest + c == 2 * threshold - 1
    requires (threshold - c) * sum <= honest * v
    ensures c == threshold - 1 ==> sum <= threshold * v
    ensures c == 0 ==> threshold * sum <= (2 * threshold - 1) * v
    ensures c == 0 && v > 0 ==> sum < 2 * v
  {
    if c == threshold - 1 { assert threshold - c == 1 && honest == threshold; }
    UnderTwo(threshold, sum, v);
  }

  lemma UnderTwo(threshold: nat, sum: nat, v: nat)
    requires threshold >= 1
    ensures v > 0 && threshold * sum <= (2 * threshold - 1) * v ==> sum < 2 * v
  {
    if sum >= 2 * v {
      Scale(2 * v, sum, threshold);
      assert threshold * (2 * v) == (2 * threshold - 1) * v + v;
    }
  }

  // ----- building runs

  function Fresh(): Node { Node(map[], {}, {}, {}, 0) }

  /** Every window opens at second zero. */
  function Zero(count: nat): seq<u64> { seq(count, i => 0) }

  predicate AllFresh(nodes: seq<Node>) { forall h :: 0 <= h < |nodes| ==> nodes[h] == Fresh() }

  lemma FreshIsMetered(t: Terms, nodes: seq<Node>)
    requires AllFresh(nodes)
    ensures AllMetered(t, Zero(|nodes|), nodes)
  {}

  function Then(run: History, s: (nat, Event), after: seq<Node>): History {
    History(run.states + [after], run.steps + [s])
  }

  lemma Longer(t: Terms, starts: seq<u64>, run: History, s: (nat, Event), after: seq<Node>)
    requires ValidRun(t, starts, run) && Steps(t, starts, Final(run), s, after)
    ensures ValidRun(t, starts, Then(run, s, after)) && Final(Then(run, s, after)) == after
    ensures Then(run, s, after).states[0] == run.states[0]
  {
    var longer := Then(run, s, after);
    forall i | 0 <= i < |longer.steps|
      ensures Steps(t, starts, longer.states[i], longer.steps[i], longer.states[i + 1])
    {
      if i < |run.steps| { assert Steps(t, starts, run.states[i], run.steps[i], run.states[i + 1]); }
    }
  }

  function Held(v: u64): Reservation { Reservation(v, 0, 0) }

  function Admitted(node: Node, id: Id, v: u64): Node {
    node.(book := node.book[id := Held(v)], resident := node.resident + {id}, admitted := node.admitted + {id})
  }

  function Shared(node: Node, id: Id, v: u64): Node {
    Admitted(node, id, v).(exposed := node.exposed + {id})
  }

  /** The node's ledger has room for the spend at the opening second. */
  ghost predicate HasRoom(t: Terms, node: Node, id: Id) {
    && node.clock == 0 && id !in node.book && |node.book| < MAX_HOT_RESERVATIONS
    && Pruned(node.book, Floor(t.budget, 0), 0) == node.book
    && Saturate(Saturate(HotBudget.Total(node.book)) + t.outflow(id)) <= t.budget.maxPerWindow
  }

  lemma RoomAdmits(t: Terms, node: Node, id: Id)
    requires HasRoom(t, node, id)
    ensures Enabled(t, 0, node, Accept(id, 0, 0, 0))
    ensures Apply(t, 0, node, Accept(id, 0, 0, 0)) == Admitted(node, id, t.outflow(id))
  {}

  /** Node h admits the spend and lets its share go. */
  lemma TakesSpend(t: Terms, count: nat, run: History, h: nat, id: Id) returns (longer: History)
    requires ValidRun(t, Zero(count), run) && h < |Final(run)| == count && HasRoom(t, Final(run)[h], id)
    ensures ValidRun(t, Zero(count), longer) && longer.states[0] == run.states[0]
    ensures Final(longer) == Final(run)[h := Shared(Final(run)[h], id, t.outflow(id))]
  {
    var nodes, v := Final(run), t.outflow(id);
    RoomAdmits(t, nodes[h], id);
    var middle := nodes[h := Admitted(nodes[h], id, v)];
    Longer(t, Zero(count), run, (h, Accept(id, 0, 0, 0)), middle);
    longer := Then(run, (h, Accept(id, 0, 0, 0)), middle);
    var after := nodes[h := Shared(nodes[h], id, v)];
    assert middle[h := Shared(nodes[h], id, v)] == after;
    Longer(t, Zero(count), longer, (h, Expose(id)), after);
    longer := Then(longer, (h, Expose(id)), after);
  }

  /** A spend that a whole block of q nodes gave a share for has q shares. */
  lemma {:induction false} SharesOfBlock(nodes: seq<Node>, id: Id, from: nat, q: nat)
    requires from + q <= |nodes| && forall h :: from <= h < from + q ==> id in Spent(nodes[h])
    ensures Shares(nodes, id) >= q
    decreases |nodes|
  {
    if q > 0 {
      var n := |nodes| - 1;
      SharesOfBlock(nodes[..n], id, from, if from + q == |nodes| then q - 1 else q);
    }
  }

  function UpTo(n: nat): (ids: set<Id>)
    ensures forall i: nat :: i in ids <==> i < n
  {
    if n == 0 then {} else UpTo(n - 1) + {n - 1}
  }

  lemma {:induction false} SumUpTo(t: Terms, n: nat, v: u64)
    requires forall id :: t.outflow(id) == v
    ensures SumOf(t, UpTo(n)) == n * v
  {
    if n > 0 {
      SumUpTo(t, n - 1, v);
      SumRemove(t, UpTo(n), n - 1);
      assert UpTo(n) - {n - 1} == UpTo(n - 1);
      assert n * v == (n - 1) * v + v;
    }
  }

  // ----- the bound is reached

  /** A ledger that has given its share for one spend. */
  function One(id: Id, v: u64): Node { Node(map[id := Held(v)], {id}, {id}, {id}, 0) }

  lemma FreshHasRoom(t: Terms, id: Id)
    requires t.outflow(id) <= t.budget.maxPerWindow
    ensures HasRoom(t, Fresh(), id) && Shared(Fresh(), id, t.outflow(id)) == One(id, t.outflow(id))
  {
    assert Pruned(map[], Floor(t.budget, 0), 0) == map[];
  }

  /** The first h nodes have each taken the spend of their own number. */
  predicate OneEach(nodes: seq<Node>, h: nat, v: u64) {
    forall i :: 0 <= i < |nodes| ==> nodes[i] == if i < h then One(i, v) else Fresh()
  }

  lemma {:induction false} RouteOnce(t: Terms, count: nat, h: nat) returns (run: History)
    requires h <= count && forall id :: t.outflow(id) == t.budget.maxPerWindow
    ensures ValidRun(t, Zero(count), run) && AllFresh(run.states[0])
    ensures |Final(run)| == count && OneEach(Final(run), h, t.budget.maxPerWindow)
  {
    if h == 0 {
      run := History([seq(count, i => Fresh())], []);
    } else {
      var shorter := RouteOnce(t, count, h - 1);
      FreshHasRoom(t, h - 1);
      run := TakesSpend(t, count, shorter, h - 1, h - 1);
    }
  }

  /** Routing meets the bound exactly: from empty ledgers, t honest nodes beside t - 1
      compromised ones each take one cap-sized spend and complete t whole caps. */
  lemma RoutingBoundIsTight(budget: Budget, threshold: nat)
    returns (t: Terms, starts: seq<u64>, run: History, done: set<Id>)
    requires threshold >= 1
    ensures t.budget == budget && |starts| == threshold
    ensures Completes(t, starts, run, done, threshold, threshold - 1) && AllFresh(run.states[0])
    ensures SumOf(t, done) == threshold * budget.maxPerWindow
  {
    t := Terms(budget, id => budget.maxPerWindow);
    starts, done := Zero(threshold), UpTo(threshold);
    run := RouteOnce(t, threshold, threshold);
    FreshIsMetered(t, run.states[0]);
    forall id | id in done ensures Shares(Final(run), id) >= 1 { SharesOfBlock(Final(run), id, id, 1); }
    SumUpTo(t, threshold, budget.maxPerWindow);
  }

  // ----- the cap it holds for

  /** The first of the two spends that the nodes of h's block of q take. */
  function First(h: nat, q: nat): Id
    requires q >= 1
  {
    2 * (h / q)
  }

  /** A ledger that has given its share for two spends. */
  function Two(a: Id, b: Id, v: u64): Node { Shared(One(a, v), b, v) }

  lemma OneHasRoom(t: Terms, a: Id, b: Id)
    requires t.budget.maxPerWindow == U64_MAX && a != b
    ensures HasRoom(t, One(a, U64_MAX), b)
  {
    assert Pruned(map[a := Held(U64_MAX)], Floor(t.budget, 0), 0) == map[a := Held(U64_MAX)];
    assert |map[a := Held(U64_MAX)]| == 1;
  }

  lemma TakesTwo(t: Terms, count: nat, run: History, h: nat, a: Id, b: Id) returns (longer: History)
    requires ValidRun(t, Zero(count), run) && h < |Final(run)| == count && Final(run)[h] == Fresh() && a != b
    requires t.budget.maxPerWindow == U64_MAX && forall id :: t.outflow(id) == U64_MAX
    ensures ValidRun(t, Zero(count), longer) && longer.states[0] == run.states[0]
    ensures Final(longer) == Final(run)[h := Two(a, b, U64_MAX)]
  {
    FreshHasRoom(t, a);
    longer := TakesSpend(t, count, run, h, a);
    OneHasRoom(t, a, b);
    longer := TakesSpend(t, count, longer, h, b);
  }

  predicate TwoEach(nodes: seq<Node>, h: nat, q: nat)
    requires q >= 1
  {
    forall i :: 0 <= i < |nodes| ==>
      nodes[i] == if i < h then Two(First(i, q), First(i, q) + 1, U64_MAX) else Fresh()
  }

  /** At the largest cap every ledger gives shares for two maximal spends. */
  lemma {:induction false} RouteTwice(t: Terms, q: nat, count: nat, h: nat) returns (run: History)
    requires q >= 1 && h <= count
    requires t.budget.maxPerWindow == U64_MAX && forall id :: t.outflow(id) == U64_MAX
    ensures ValidRun(t, Zero(count), run) && AllFresh(run.states[0])
    ensures |Final(run)| == count && TwoEach(Final(run), h, q)
  {
    if h == 0 {
      run := History([seq(count, i => Fresh())], []);
    } else {
      var shorter := RouteTwice(t, q, count, h - 1);
      run := TakesTwo(t, count, shorter, h - 1, First(h - 1, q), First(h - 1, q) + 1);
    }
  }

  /** At the largest cap the bound fails for every federation: give each whole block of
      threshold - c honest nodes two maximal spends of its own. */
  lemma RoutingOverflows(budget: Budget, honest: nat, threshold: nat, c: nat)
    returns (t: Terms, starts: seq<u64>, run: History, done: set<Id>)
    requires c < threshold <= honest + c && budget.maxPerWindow == U64_MAX
    ensures t.budget == budget && |starts| == honest
    ensures Completes(t, starts, run, done, threshold, c) && AllFresh(run.states[0])
    ensures (threshold - c) * SumOf(t, done) > honest * budget.maxPerWindow
  {
    t := Terms(budget, id => U64_MAX);
    starts, done := Zero(honest), UpTo(2 * (honest / (threshold - c)));
    run := RouteTwice(t, threshold - c, honest, honest);
    FreshIsMetered(t, run.states[0]);
    BlocksShare(Final(run), threshold - c);
    SumUpTo(t, 2 * (honest / (threshold - c)), budget.maxPerWindow);
    BlocksFill(threshold - c, honest, budget.maxPerWindow);
  }

  lemma BlocksShare(nodes: seq<Node>, q: nat)
    requires q >= 1 && TwoEach(nodes, |nodes|, q)
    ensures forall id: nat :: id < 2 * (|nodes| / q) ==> Shares(nodes, id) >= q
  {
    forall id: nat | id < 2 * (|nodes| / q) ensures Shares(nodes, id) >= q {
      var from := q * (id / 2);
      BlockOf(id, from, q, |nodes|);
      forall h | from <= h < from + q ensures id in Spent(nodes[h]) {
        BlockOf(id, h, q, |nodes|);
        assert id == First(h, q) || id == First(h, q) + 1;
      }
      SharesOfBlock(nodes, id, from, q);
    }
  }

  lemma BlockOf(id: nat, h: nat, q: nat, count: nat)
    requires q >= 1 && id < 2 * (count / q) && q * (id / 2) <= h < q * (id / 2) + q
    ensures h / q == id / 2 && q * (id / 2) + q <= count
  {
    var g, r := id / 2, h - q * (id / 2);
    Quotient(q, g, r, h);
    Scale(g + 1, count / q, q);
    Whole(count, q);
  }

  lemma Quotient(q: nat, g: nat, r: nat, h: nat)
    requires r < q && h == q * g + r
    ensures h / q == g
  {
    var d := h / q;
    Whole(h, q);
    if d > g { Scale(g + 1, d, q); }
    if d < g { Scale(d + 1, g, q); }
  }

  lemma Whole(n: nat, q: nat)
    requires q >= 1
    ensures (n / q) * q <= n < (n / q) * q + q
  {}

  /** Twice the whole blocks is more than everything. */
  lemma BlocksFill(q: nat, count: nat, v: nat)
    requires 1 <= q <= count && v > 0
    ensures q * ((2 * (count / q)) * v) > count * v
  {
    var g := count / q;
    Whole(count, q);
    assert g != 0;
    Scale(1, g, q);
    Scale(count + 1, 2 * (g * q), v);
    Regroup(q, g, v);
  }

  lemma Regroup(q: nat, g: nat, v: nat)
    ensures q * ((2 * g) * v) == (2 * (g * q)) * v
  {
  }

  /** The bound in caps, for every run of every such federation. */
  ghost predicate BoundedByCap(budget: Budget, honest: nat, threshold: nat, c: nat)
    requires c < threshold
  {
    forall t: Terms, starts: seq<u64>, run, done ::
      t.budget == budget && |starts| == honest && Completes(t, starts, run, done, threshold, c) ==>
        (threshold - c) * SumOf(t, done) <= honest * budget.maxPerWindow
  }

  /** The cap bounds the federation exactly when it is below the value the sums saturate to. */
  lemma RoutingBoundIff(budget: Budget, honest: nat, threshold: nat, c: nat)
    requires c < threshold <= honest + c
    ensures BoundedByCap(budget, honest, threshold, c) <==> budget.maxPerWindow < U64_MAX
  {
    if budget.maxPerWindow < U64_MAX {
      forall t: Terms, starts: seq<u64>, run, done |
        t.budget == budget && |starts| == honest && Completes(t, starts, run, done, threshold, c)
        ensures (threshold - c) * SumOf(t, done) <= honest * budget.maxPerWindow
      {
        RoutingBound(t, starts, run, done, threshold, c);
      }
    } else {
      var t, starts, run, done := RoutingOverflows(budget, honest, threshold, c);
      assert Completes(t, starts, run, done, threshold, c);
    }
  }
}

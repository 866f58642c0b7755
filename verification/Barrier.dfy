// The listener as a concurrent system: a kernel backlog, one accept loop, a thread per
// connection, an active counter and a liveness flag. An answered barrier followed by an
// idle counter makes "we saw nothing" mean "nothing was sent".
module Barrier {
  import opened Basics
  import opened Wiretap
  import opened WiretapMeaning
  import ChannelRead
  import Json

  /** Where the accept loop stands with the connection it took last. */
  datatype Loop = Waiting | Popped(conn: nat) | Checked(conn: nat) | Counted(conn: nat) | Gone

  /** Where a connection's handler thread stands. */
  datatype Phase = Reading | Recorded | Answered | Done

  /** An entry of the record, with the connection it accounts for (none for an accept
      failure that took no connection). */
  datatype Logged = Logged(conn: Option<nat>, verdict: Verdict)

  /** Connections are numbered in the order they completed, each given by what serving it
      comes to; those from taken on are still in the backlog. The log and its index are
      history: the record is their replay. */
  datatype State = State(
    conns: seq<Served>,
    taken: nat,
    loop: Loop,
    alive: bool,
    shutdown: bool,
    handlers: map<nat, Phase>,
    failed: set<nat>,
    active: nat,
    inner: Inner,
    log: seq<Logged>,
    entryAt: map<nat, nat>)

  const INIT := State([], 0, Waiting, true, false, map[], {}, 0, EMPTY, [], map[])

  datatype Step =
    | Arrive(served: Served)
    | Shutdown
    | Pop
    | AcceptFails(consumes: bool)
    | Leave
    | Check
    | Count
    | Spawn
    | SpawnFails
    | Record(conn: nat)
    | Answer(conn: nat)
    | Drop(conn: nat)

  predicate Enabled(s: State, step: Step) {
    match step
    case Arrive(_) => true
    case Shutdown => true
    case Pop => s.loop.Waiting? && s.taken < |s.conns|
    case AcceptFails(consumes) => s.loop.Waiting? && !s.shutdown && (consumes ==> s.taken < |s.conns|)
    case Leave => (s.loop.Waiting? || s.loop.Popped?) && s.shutdown
    case Check => s.loop.Popped? && !s.shutdown
    case Count => s.loop.Checked?
    case Spawn => s.loop.Counted?
    case SpawnFails => s.loop.Counted? && s.active > 0
    case Record(c) => c in s.handlers && s.handlers[c].Reading? && c < |s.conns|
    case Answer(c) => c in s.handlers && s.handlers[c].Recorded?
    case Drop(c) => c in s.handlers && (s.handlers[c].Recorded? || s.handlers[c].Answered?) && s.active > 0
  }

  function Log(s: State, conn: Option<nat>, v: Verdict): State {
    s.(inner := Store(s.inner, v), log := s.log + [Logged(conn, v)],
       entryAt := if conn.Some? then s.entryAt[conn.value := |s.log|] else s.entryAt)
  }

  function Apply(s: State, step: Step): State
    requires Enabled(s, step)
  {
    match step
    case Arrive(served) => s.(conns := s.conns + [served])
    case Shutdown => s.(shutdown := true)
    case Pop => s.(loop := Popped(s.taken), taken := s.taken + 1)
    case AcceptFails(consumes) =>
      if consumes then Log(s.(taken := s.taken + 1, failed := s.failed + {s.taken}), Some(s.taken), AsUndecoded)
      else Log(s, None, AsUndecoded)
    case Leave => s.(loop := Gone, alive := false)
    case Check => s.(loop := Checked(s.loop.conn))
    case Count => s.(loop := Counted(s.loop.conn), active := s.active + 1)
    case Spawn => s.(loop := Waiting, handlers := s.handlers[s.loop.conn := Reading])
    case SpawnFails => s.(loop := Gone, alive := false, active := s.active - 1)
    case Record(c) =>
      var t := s.(handlers := s.handlers[c := Recorded]);
      (match Entry(s.conns[c]) case None => t case Some(v) => Log(t, Some(c), v))
    case Answer(c) => s.(handlers := s.handlers[c := Answered])
    case Drop(c) => s.(handlers := s.handlers[c := Done], active := s.active - 1)
  }

  // ----- the invariant

  function Running(s: State): set<nat> {
    set c | c in s.handlers && s.handlers[c] != Done
  }

  predicate HeldByLoop(s: State, c: nat) {
    match s.loop
    case Waiting => false
    case Gone => c + 1 == s.taken
    case Popped(k) => c == k
    case Checked(k) => c == k
    case Counted(k) => c == k
  }

  /** Every connection taken from the backlog has a handler, was logged as a failed accept,
      or is the last one, still in the loop's hands or lost with the loop. */
  ghost predicate Traced(s: State) {
    && s.taken <= |s.conns|
    && (s.loop.Popped? || s.loop.Checked? || s.loop.Counted? ==> s.loop.conn + 1 == s.taken)
    && (forall c :: 0 <= c < s.taken ==> c in s.handlers || c in s.failed || HeldByLoop(s, c))
    && (forall c :: c in s.handlers || c in s.failed ==> c < s.taken)
    && (forall c :: c in s.handlers ==> c !in s.failed)
    && (forall c :: HeldByLoop(s, c) && !s.loop.Gone? ==> c !in s.handlers && c !in s.failed)
  }

  predicate Tallied(s: State) {
    s.active == |Running(s)| + if s.loop.Counted? then 1 else 0
  }

  /** The connection has been accounted for: its handler recorded it, or its accept failed. */
  predicate Settled(s: State, c: nat) {
    c in s.failed || (c in s.handlers && s.handlers[c] != Reading)
  }

  /** The entry a settled connection owes the record. */
  function Owed(s: State, c: nat): Option<Verdict>
    requires c < |s.conns|
  {
    if c in s.failed then Some(AsUndecoded) else Entry(s.conns[c])
  }

  function Verdicts(log: seq<Logged>): seq<Verdict> {
    seq(|log|, i requires 0 <= i < |log| => log[i].verdict)
  }

  /** The index finds the one entry of each connection that has one. */
  ghost predicate Indexed(log: seq<Logged>, entryAt: map<nat, nat>) {
    && (forall c :: c in entryAt ==> entryAt[c] < |log| && log[entryAt[c]].conn == Some(c))
    && (forall i :: 0 <= i < |log| && log[i].conn.Some? ==>
      log[i].conn.value in entryAt && entryAt[log[i].conn.value] == i)
  }

  /** The record is the replay of the log; each settled connection has exactly the entry it
      owes, and no connection has an entry otherwise. */
  ghost predicate Booked(s: State) {
    && s.inner == Replay(Verdicts(s.log))
    && Indexed(s.log, s.entryAt)
    && (forall c :: c in s.entryAt ==> Settled(s, c))
    && (forall c :: 0 <= c < |s.conns| && Settled(s, c) ==> Honoured(s, c))
  }

  predicate Honoured(s: State, c: nat)
    requires c < |s.conns|
  {
    match Owed(s, c)
    case None => c !in s.entryAt
    case Some(v) => c in s.entryAt && s.entryAt[c] < |s.log| && s.log[s.entryAt[c]].verdict == v
  }

  ghost predicate Inv(s: State) {
    Traced(s) && Tallied(s) && Booked(s)
  }

  lemma StepTraced(s: State, step: Step)
    requires Traced(s) && Enabled(s, step)
    ensures Traced(Apply(s, step))
  {
    match step {
      case Record(c) => KeepsTraced(s, Apply(s, step));
      case Answer(c) => KeepsTraced(s, Apply(s, step));
      case Drop(c) => KeepsTraced(s, Apply(s, step));
      case Spawn => SpawnTraced(s);
      case AcceptFails(consumes) => if consumes { FailedConnTraced(s); } else { KeepsTraced(s, Apply(s, step)); }
      case Arrive(_) => KeepsTraced(s, Apply(s, step));
      case Shutdown => KeepsTraced(s, Apply(s, step));
      case _ => LoopTraced(s, step);
    }
  }

  /** The loop's own steps keep hold of the connection it took last. */
  lemma LoopTraced(s: State, step: Step)
    requires Traced(s) && Enabled(s, step)
    requires step.Pop? || step.Leave? || step.Check? || step.Count? || step.SpawnFails?
    ensures Traced(Apply(s, step))
  {
    var t := Apply(s, step);
    assert t.handlers == s.handlers && t.failed == s.failed && t.conns == s.conns;
    assert !step.Pop? ==> t.taken == s.taken && forall c :: HeldByLoop(s, c) ==> HeldByLoop(t, c);
  }

  lemma SpawnTraced(s: State)
    requires Traced(s) && Enabled(s, Spawn)
    ensures Traced(Apply(s, Spawn))
  {
    assert HeldByLoop(s, s.loop.conn);
  }

  lemma FailedConnTraced(s: State)
    requires Traced(s) && Enabled(s, AcceptFails(true))
    ensures Traced(Apply(s, AcceptFails(true)))
  {}

  /** Arrivals and a handler's progress move no connection between loop and threads. */
  lemma KeepsTraced(s: State, t: State)
    requires Traced(s) && |s.conns| <= |t.conns| && t.taken == s.taken && t.loop == s.loop
    requires t.handlers.Keys == s.handlers.Keys && t.failed == s.failed
    ensures Traced(t)
  {
    assert forall c :: HeldByLoop(t, c) <==> HeldByLoop(s, c);
  }

  lemma StepTallied(s: State, step: Step)
    requires Traced(s) && Tallied(s) && Enabled(s, step)
    ensures Tallied(Apply(s, step))
  {
    match step {
      case Spawn => SpawnTallied(s);
      case Drop(c) => DropTallied(s, c);
      case Record(c) => TouchTallied(s, c, Recorded);
      case Answer(c) => TouchTallied(s, c, Answered);
      case _ => assert Apply(s, step).handlers == s.handlers;
    }
  }

  lemma SpawnTallied(s: State)
    requires Traced(s) && Tallied(s) && Enabled(s, Spawn)
    ensures Tallied(Apply(s, Spawn))
  {
    assert HeldByLoop(s, s.loop.conn);
    assert Running(Apply(s, Spawn)) == Running(s) + {s.loop.conn};
  }

  lemma DropTallied(s: State, c: nat)
    requires Tallied(s) && Enabled(s, Drop(c))
    ensures Tallied(Apply(s, Drop(c)))
  {
    assert Running(Apply(s, Drop(c))) == Running(s) - {c};
  }

  lemma TouchTallied(s: State, c: nat, phase: Phase)
    requires c in s.handlers && s.handlers[c] != Done && phase != Done
    ensures Running(s.(handlers := s.handlers[c := phase])) == Running(s)
  {}

  lemma VerdictsGrow(log: seq<Logged>, entry: Logged)
    ensures Replay(Verdicts(log + [entry])) == Store(Replay(Verdicts(log)), entry.verdict)
  {
    var vs := Verdicts(log + [entry]);
    assert vs[..|vs| - 1] == Verdicts(log);
  }

  lemma IndexGrows(log: seq<Logged>, entryAt: map<nat, nat>, c: nat, v: Verdict)
    requires Indexed(log, entryAt) && c !in entryAt
    ensures Indexed(log + [Logged(Some(c), v)], entryAt[c := |log|])
  {}

  /** An entry for c leaves what every other connection is owed as it was. */
  lemma StillHonoured(s: State, u: State, c: nat, v: Verdict, d: nat)
    requires d < |s.conns| && d != c && Honoured(s, d)
    requires u.conns == s.conns && u.log == s.log + [Logged(Some(c), v)] && u.entryAt == s.entryAt[c := |s.log|]
    requires Owed(u, d) == Owed(s, d)
    ensures Honoured(u, d)
  {}

  lemma LogBooked(s: State, t: State, c: nat, v: Verdict)
    requires Booked(s) && c < |s.conns| && !Settled(s, c)
    requires t.conns == s.conns && t.inner == s.inner && t.log == s.log && t.entryAt == s.entryAt
    requires forall d :: Settled(t, d) <==> Settled(s, d) || d == c
    requires forall d :: 0 <= d < |s.conns| && d != c ==> Owed(t, d) == Owed(s, d)
    requires Owed(t, c) == Some(v)
    ensures Booked(Log(t, Some(c), v))
  {
    VerdictsGrow(s.log, Logged(Some(c), v));
    IndexGrows(s.log, s.entryAt, c, v);
    var u := Log(t, Some(c), v);
    forall d | 0 <= d < |u.conns| && Settled(u, d) ensures Honoured(u, d) {
      assert Owed(u, d) == Owed(t, d) && (Settled(u, d) <==> Settled(t, d));
      if d != c { StillHonoured(s, u, c, v, d); }
    }
  }

  lemma RecordBooked(s: State, c: nat)
    requires Traced(s) && Booked(s) && Enabled(s, Record(c))
    ensures Booked(Apply(s, Record(c)))
  {
    var t := s.(handlers := s.handlers[c := Recorded]);
    match Entry(s.conns[c]) {
      case None =>
        forall d | 0 <= d < |t.conns| && Settled(t, d) ensures Honoured(t, d) {
          assert d != c ==> Settled(s, d) && Honoured(s, d);
          assert Owed(t, d) == Owed(s, d);
        }
      case Some(v) => LogBooked(s, t, c, v);
    }
  }

  lemma FailedConnBooked(s: State)
    requires Traced(s) && Booked(s) && Enabled(s, AcceptFails(true))
    ensures Booked(Apply(s, AcceptFails(true)))
  {
    LogBooked(s, s.(taken := s.taken + 1, failed := s.failed + {s.taken}), s.taken, AsUndecoded);
  }

  lemma FailedAcceptBooked(s: State)
    requires Booked(s) && Enabled(s, AcceptFails(false))
    ensures Booked(Apply(s, AcceptFails(false)))
  {
    VerdictsGrow(s.log, Logged(None, AsUndecoded));
    var t := Log(s, None, AsUndecoded);
    forall d | 0 <= d < |t.conns| && Settled(t, d) ensures Honoured(t, d) {
      assert Settled(s, d) && Honoured(s, d) && Owed(t, d) == Owed(s, d);
    }
  }

  lemma StepBooked(s: State, step: Step)
    requires Traced(s) && Booked(s) && Enabled(s, step)
    ensures Booked(Apply(s, step))
  {
    match step {
      case Record(c) => RecordBooked(s, c);
      case AcceptFails(consumes) => if consumes { FailedConnBooked(s); } else { FailedAcceptBooked(s); }
      case Spawn =>
        assert HeldByLoop(s, s.loop.conn);
        UnloggedStep(s, Apply(s, step));
      case Answer(c) => UnloggedStep(s, Apply(s, step));
      case Drop(c) => UnloggedStep(s, Apply(s, step));
      case _ => SameHandlersBooked(s, step);
    }
  }

  lemma SameHandlersBooked(s: State, step: Step)
    requires Traced(s) && Booked(s) && Enabled(s, step)
    requires !step.Record? && !step.AcceptFails? && !step.Spawn? && !step.Answer? && !step.Drop?
    ensures Booked(Apply(s, step))
  {
    var t := Apply(s, step);
    assert t.handlers == s.handlers && t.failed == s.failed;
    UnloggedStep(s, t);
  }

  /** Steps that write no entry keep the books if they settle nothing. */
  lemma UnloggedStep(s: State, t: State)
    requires Booked(s) && Traced(s)
    requires t.inner == s.inner && t.log == s.log && t.entryAt == s.entryAt && t.failed == s.failed
    requires s.conns <= t.conns
    requires forall c :: Settled(t, c) <==> Settled(s, c)
    ensures Booked(t)
  {
    forall c | 0 <= c < |t.conns| && Settled(t, c) ensures Honoured(t, c) {
      assert c < |s.conns| && Honoured(s, c);
      assert Owed(t, c) == Owed(s, c);
    }
  }

  // ----- runs

  /** A run: the states passed through and the step taken from each. */
  ghost predicate Run(states: seq<State>, steps: seq<Step>) {
    && |states| == |steps| + 1
    && states[0] == INIT
    && forall i :: 0 <= i < |steps| ==> Follows(states[i], steps[i], states[i + 1])
  }

  predicate Follows(s: State, step: Step, t: State) {
    Enabled(s, step) && t == Apply(s, step)
  }

  lemma {:induction false} RunKeepsInv(states: seq<State>, steps: seq<Step>, i: nat)
    requires Run(states, steps) && i < |states|
    ensures Inv(states[i])
  {
    if i == 0 {
      assert Running(INIT) == {};
    } else {
      RunKeepsInv(states, steps, i - 1);
      assert Follows(states[i - 1], steps[i - 1], states[i]);
      StepTraced(states[i - 1], steps[i - 1]);
      StepTallied(states[i - 1], steps[i - 1]);
      StepBooked(states[i - 1], steps[i - 1]);
    }
  }

  /** What no step undoes. */
  ghost predicate Extends(s: State, t: State) {
    && s.conns <= t.conns
    && s.log <= t.log
    && s.handlers.Keys <= t.handlers.Keys
  }

  lemma StepExtends(s: State, step: Step)
    requires Enabled(s, step)
    ensures Extends(s, Apply(s, step))
  {}

  lemma NextExtends(states: seq<State>, steps: seq<Step>, i: nat)
    requires Run(states, steps) && i < |steps|
    ensures Extends(states[i], states[i + 1])
  {
    assert Follows(states[i], steps[i], states[i + 1]);
    StepExtends(states[i], steps[i]);
  }

  lemma ExtendsTransitive(s: State, t: State, u: State)
    requires Extends(s, t) && Extends(t, u)
    ensures Extends(s, u)
  {}

  /** Nothing is undone along a sequence if no step undoes anything. */
  lemma {:induction false} ChainExtends(states: seq<State>, i: nat, j: nat)
    requires i <= j < |states|
    requires forall k :: 0 <= k < |states| - 1 ==> Extends(states[k], states[k + 1])
    ensures Extends(states[i], states[j])
    decreases j - i
  {
    if i < j {
      ChainExtends(states, i, j - 1);
      assert Extends(states[j - 1], states[j - 1 + 1]);
      ExtendsTransitive(states[i], states[j - 1], states[j]);
    }
  }

  lemma RunExtends(states: seq<State>, steps: seq<Step>, i: nat, j: nat)
    requires Run(states, steps) && i <= j < |states|
    ensures Extends(states[i], states[j])
  {
    forall k | 0 <= k < |states| - 1 ensures Extends(states[k], states[k + 1]) {
      NextExtends(states, steps, k);
    }
    ChainExtends(states, i, j);
  }

  // ----- the absence argument

  /** The listener has answered the barrier that arrived as connection b. */
  predicate BarrierAnswered(s: State, b: nat) {
    && b < |s.conns| && s.conns[b].Barrier?
    && b in s.handlers && (s.handlers[b].Answered? || s.handlers[b].Done?)
  }

  /** Idle after the barrier's connection was handed to a thread: everything ahead of it has
      been served to the end, or was logged as a failed accept. */
  lemma AheadIsFinished(s: State, b: nat, c: nat)
    requires Inv(s) && b in s.handlers && s.active == 0 && c < b
    ensures c < |s.conns| && Settled(s, c)
    ensures c in s.failed || (c in s.handlers && s.handlers[c] == Done)
  {
    assert !HeldByLoop(s, c);
    assert Running(s) == {};
    assert c !in Running(s);
  }

  predicate OnlyEntry(log: seq<Logged>, c: nat, i: nat) {
    forall j :: 0 <= j < |log| && log[j].conn == Some(c) ==> j == i
  }

  /** ... and counted exactly once: one entry if it owed one, none if it was an empty poke
      or a barrier. */
  lemma AheadIsCountedOnce(s: State, b: nat, c: nat)
    requires Inv(s) && b in s.handlers && s.active == 0 && c < b
    ensures c < |s.conns|
    ensures
      match Owed(s, c)
      case None => forall i :: 0 <= i < |s.log| ==> s.log[i].conn != Some(c)
      case Some(v) => exists i :: 0 <= i < |s.log| && s.log[i] == Logged(Some(c), v) && OnlyEntry(s.log, c, i)
  {
    AheadIsFinished(s, b, c);
    match Owed(s, c) {
      case None =>
        forall i | 0 <= i < |s.log| ensures s.log[i].conn != Some(c) {
          if s.log[i].conn.Some? { assert s.log[i].conn.value in s.entryAt; }
        }
      case Some(v) =>
        var i := s.entryAt[c];
        assert s.log[i] == Logged(Some(c), v);
        assert OnlyEntry(s.log, c, i);
    }
  }

  /** A connection that is innocent with respect to a commitment: nothing was lost on it,
      and what it carried was no partial for that commitment. */
  predicate Innocent(served: Served, id: string) {
    match served
    case Poke => true
    case Barrier(_) => true
    case Unreadable => false
    case Judged(AsUndecoded) => false
    case Judged(AsRequest(_)) => true
    case Judged(AsPartial(p)) => p.commitmentId != id
  }

  lemma CleanMeansInnocent(s: State, t: State, b: nat, c: nat, u: State, id: string)
    requires Inv(s) && b in s.handlers && s.active == 0 && c < b
    requires Inv(t) && Extends(s, t) && t.inner.undecoded == 0
    requires Inv(u) && Extends(s, u) && PartialsFor(u.inner, id) == []
    ensures c < |s.conns| && c !in s.failed && Innocent(s.conns[c], id)
  {
    AheadIsCountedOnce(s, b, c);
    ReplayCountsOnce(Verdicts(t.log), id);
    ReplayCountsOnce(Verdicts(u.log), id);
    if Owed(s, c).Some? {
      var i :| 0 <= i < |s.log| && s.log[i] == Logged(Some(c), Owed(s, c).value);
      assert Verdicts(t.log)[i] == Owed(s, c).value == Verdicts(u.log)[i];
      CleanRecordRulesOut(Verdicts(t.log), id, i);
      CleanRecordRulesOut(Verdicts(u.log), id, i);
    }
  }

  /** Absence is evidence. In every interleaving: if the barrier at connection b was answered
      by some moment, the counter later read 0, and after that the undecoded count read 0
      and no partial was stored under id, then every connection queued ahead of the barrier
      was served to the end, none was lost or unreadable, and none carried an authentic
      partial for id. */
  lemma AbsenceIsSound(
    states: seq<State>, steps: seq<Step>, b: nat, id: string,
    answered: nat, idle: nat, decoded: nat, absent: nat, c: nat)
    requires Run(states, steps)
    requires answered <= idle <= decoded < |states| && idle <= absent < |states|
    requires BarrierAnswered(states[answered], b)
    requires states[idle].active == 0
    requires states[decoded].inner.undecoded == 0
    requires PartialsFor(states[absent].inner, id) == []
    requires c < b
    ensures c < |states[idle].conns| && c in states[idle].handlers && states[idle].handlers[c] == Done
    ensures Innocent(states[idle].conns[c], id)
  {
    RunKeepsInv(states, steps, idle);
    RunKeepsInv(states, steps, decoded);
    RunKeepsInv(states, steps, absent);
    RunExtends(states, steps, answered, idle);
    RunExtends(states, steps, idle, decoded);
    RunExtends(states, steps, idle, absent);
    CleanMeansInnocent(states[idle], states[decoded], b, c, states[absent], id);
    AheadIsFinished(states[idle], b, c);
  }

  /** Every body is a barrier, a partial for another commitment or a request, and none leaks
      a partial naming id as its commitment. */
  ghost predicate NothingFor(l: Listener, v: Json.Json, id: string) {
    && ((exists token :: IsBarrier(v, token))
        || (exists p :: IsPartial(l, v, p) && p.commitmentId != id)
        || (exists r :: IsRequest(l, v, r)))
    && !LeaksFor(l, v, id)
  }

  /** The same over the bytes: no connection queued ahead of the barrier delivered, in any
      fragmentation, a body that leaks a partial for id, and every body is accounted for. */
  lemma NoPartialWasSentAhead(
    l: Listener, streams: seq<ChannelRead.Stream>, states: seq<State>, steps: seq<Step>, b: nat, id: string,
    answered: nat, idle: nat, decoded: nat, absent: nat, c: nat)
    requires Run(states, steps)
    requires answered <= idle <= decoded < |states| && idle <= absent < |states|
    requires |streams| == |states[idle].conns|
    requires forall k :: 0 <= k < |streams| ==> states[idle].conns[k] == Serve(l, streams[k])
    requires BarrierAnswered(states[answered], b)
    requires states[idle].active == 0
    requires states[decoded].inner.undecoded == 0
    requires PartialsFor(states[absent].inner, id) == []
    requires c < b
    ensures c < |streams|
    ensures ChannelRead.ReadResult(streams[c], l.codec.contentLength) != ChannelRead.Failed
    ensures
      match ChannelRead.ReadResult(streams[c], l.codec.contentLength)
      case Body(bytes) =>
        l.codec.json(bytes).Some? && NothingFor(l, l.codec.json(bytes).value, id)
      case _ => true
  {
    AbsenceIsSound(states, steps, b, id, answered, idle, decoded, absent, c);
    assert Innocent(Serve(l, streams[c]), id);
    match ChannelRead.ReadResult(streams[c], l.codec.contentLength) {
      case Body(bytes) =>
        NullIsUndecoded(l);
        InnocentCarriesNothing(l, l.codec.json(bytes).value, id);
      case _ =>
    }
  }

  lemma InnocentCarriesNothing(l: Listener, v: Json.Json, id: string)
    requires BarrierToken(v).Some? || Innocent(Judged(Judge(l, v)), id)
    ensures NothingFor(l, v, id)
  {
    match BarrierToken(v) {
      case Some(token) =>
        BarrierExactly(v, token);
        BarrierCarriesNothing(l, v, token, id);
      case None =>
        NoLeak(l, v, id);
        match Judge(l, v) {
          case AsPartial(p) => PartialExactly(l, v, p);
          case AsRequest(r) => RequestExactly(l, v, r);
          case AsUndecoded =>
        }
    }
  }

  lemma NullIsUndecoded(l: Listener)
    ensures Judge(l, Json.Null) == AsUndecoded
  {}

  /** Without the barrier the other readings prove nothing: a connection carrying anything at
      all can sit in the backlog, or in the loop's hands, while the listener is alive, idle
      and has a clean record. */
  lemma IdleAloneIsUnsound(served: Served, popped: bool)
    returns (states: seq<State>, steps: seq<Step>)
    ensures Run(states, steps)
    ensures
      var s := states[|states| - 1];
      && s.conns == [served] && s.alive && s.active == 0 && s.inner == EMPTY
      && s.loop == if popped then Popped(0) else Waiting
  {
    var one := Apply(INIT, Arrive(served));
    if popped {
      steps, states := [Arrive(served), Pop], [INIT, one, Apply(one, Pop)];
    } else {
      steps, states := [Arrive(served)], [INIT, one];
    }
  }

  /** If the loop dies with a connection in hand, by shutdown or for want of a thread, that
      connection is lost for good behind an idle counter and a clean record; only the
      liveness flag tells. */
  lemma DeadLoopLoses(served: Served, threadless: bool)
    returns (states: seq<State>, steps: seq<Step>)
    ensures Run(states, steps)
    ensures
      var s := states[|states| - 1];
      && s.conns == [served] && s.taken == 1 && s.handlers == map[] && s.failed == {}
      && !s.alive && s.loop.Gone? && s.active == 0 && s.inner == EMPTY
  {
    states, steps := [INIT], [];
    states, steps := Longer(states, steps, Arrive(served));
    states, steps := Longer(states, steps, Pop);
    if threadless {
      states, steps := Longer(states, steps, Check);
      states, steps := Longer(states, steps, Count);
      states, steps := Longer(states, steps, SpawnFails);
    } else {
      states, steps := Longer(states, steps, Shutdown);
      states, steps := Longer(states, steps, Leave);
    }
  }

  lemma Longer(states: seq<State>, steps: seq<Step>, step: Step) returns (longer: seq<State>, more: seq<Step>)
    requires Run(states, steps) && Enabled(states[|states| - 1], step)
    ensures Run(longer, more) && longer[|longer| - 1] == Apply(states[|states| - 1], step)
  {
    longer, more := states + [Apply(states[|states| - 1], step)], steps + [step];
    forall i | 0 <= i < |more| ensures Follows(longer[i], more[i], longer[i + 1]) {
      if i < |steps| { assert Follows(states[i], steps[i], states[i + 1]); }
    }
  }

  // ----- every queue can be drained

  /** What these connections owe the record, in order. */
  function AllEntries(conns: seq<Served>): seq<Verdict> {
    if conns == [] then [] else AllEntries(conns[..|conns| - 1]) + Entries(conns[|conns| - 1])
  }

  /** The listener is up and has served all of these connections and nothing else. */
  ghost predicate Drainage(s: State, conns: seq<Served>) {
    && s.conns == conns && s.taken == |conns| && s.loop.Waiting? && s.alive && !s.shutdown
    && s.failed == {} && s.active == 0 && s.inner == Replay(AllEntries(conns))
    && (forall c :: c in s.handlers <==> 0 <= c < |conns|) && forall c :: c in s.handlers ==> s.handlers[c].Done?
  }

  /** The connection has come in and is being read, alone. */
  ghost predicate Being(s: State, conns: seq<Served>, last: Served) {
    && s.conns == conns + [last] && s.taken == |conns| + 1 && s.loop.Waiting? && s.alive && !s.shutdown
    && s.failed == {} && s.active == 1 && s.inner == Replay(AllEntries(conns))
    && (forall c :: c in s.handlers <==> 0 <= c < |conns| + 1)
    && s.handlers[|conns|].Reading? && forall c :: c in s.handlers && c != |conns| ==> s.handlers[c].Done?
  }

  lemma TakesIn(states: seq<State>, steps: seq<Step>, conns: seq<Served>, last: Served)
    returns (longer: seq<State>, more: seq<Step>)
    requires Run(states, steps) && Drainage(states[|states| - 1], conns)
    ensures Run(longer, more) && Being(longer[|longer| - 1], conns, last)
  {
    longer, more := Longer(states, steps, Arrive(last));
    longer, more := Longer(longer, more, Pop);
    longer, more := Longer(longer, more, Check);
    longer, more := Longer(longer, more, Count);
    longer, more := Longer(longer, more, Spawn);
  }

  lemma EntriesGrow(conns: seq<Served>, last: Served)
    ensures AllEntries(conns + [last]) == AllEntries(conns) + Entries(last)
  {
    assert (conns + [last])[..|conns|] == conns;
  }

  lemma ReplayOneMore(conns: seq<Served>, last: Served)
    ensures Replay(AllEntries(conns + [last])) == Account(Replay(AllEntries(conns)), last)
  {
    EntriesGrow(conns, last);
    var before := AllEntries(conns);
    match Entry(last) {
      case None => assert before + [] == before;
      case Some(v) => ReplayGrows(before, v);
    }
  }

  /** All that recording changes: the record, its history, and the handler's phase. */
  lemma RecordChanges(s: State, c: nat)
    requires Enabled(s, Record(c))
    ensures
      var t := Apply(s, Record(c));
      && t.inner == Account(s.inner, s.conns[c]) && t.handlers == s.handlers[c := Recorded]
      && t.conns == s.conns && t.taken == s.taken && t.loop == s.loop && t.alive == s.alive
      && t.shutdown == s.shutdown && t.failed == s.failed && t.active == s.active
  {}

  lemma ServesToTheEnd(states: seq<State>, steps: seq<Step>, conns: seq<Served>, last: Served)
    returns (longer: seq<State>, more: seq<Step>)
    requires Run(states, steps) && Being(states[|states| - 1], conns, last)
    ensures Run(longer, more) && Drainage(longer[|longer| - 1], conns + [last])
  {
    var c := |conns|;
    RecordChanges(states[|states| - 1], c);
    ReplayOneMore(conns, last);
    longer, more := Longer(states, steps, Record(c));
    if !last.Poke? { longer, more := Longer(longer, more, Answer(c)); }
    longer, more := Longer(longer, more, Drop(c));
  }

  /** The listener can serve any connections whatever, in order, to an idle counter with the
      record of exactly what they owe: so on innocent ones the absence argument succeeds. */
  lemma {:induction false} QueueDrains(conns: seq<Served>) returns (states: seq<State>, steps: seq<Step>)
    ensures Run(states, steps) && Drainage(states[|states| - 1], conns)
  {
    if conns == [] {
      states, steps := [INIT], [];
    } else {
      var n := |conns| - 1;
      states, steps := QueueDrains(conns[..n]);
      states, steps := TakesIn(states, steps, conns[..n], conns[n]);
      states, steps := ServesToTheEnd(states, steps, conns[..n], conns[n]);
      assert conns[..n] + [conns[n]] == conns;
    }
  }

  // ----- the harness's drain

  /** One pass over the listeners: which are alive, how many handlers each has, and what the
      clock reads where an idle run may start, where its length is taken, and at the end. */
  datatype Poll = Poll(alive: seq<bool>, active: seq<nat>, began: nat, elapsed: nat, ended: nat)

  datatype DrainError = BarrierFailed | DeadListener | NotDrained | Undecodable

  const WIRETAP_QUIET: nat := 100
  const WIRETAP_DRAIN_TIMEOUT: nat := 12_000

  predicate AllAlive(p: Poll) { forall i :: 0 <= i < |p.alive| ==> p.alive[i] }

  predicate AllIdle(p: Poll) { forall i :: 0 <= i < |p.active| ==> p.active[i] == 0 }

  predicate AllZero(counts: seq<nat>) { forall i :: 0 <= i < |counts| ==> counts[i] == 0 }

  function SumNat(counts: seq<nat>): nat {
    if counts == [] then 0 else SumNat(counts[..|counts| - 1]) + counts[|counts| - 1]
  }

  lemma {:induction false} SumZero(counts: seq<nat>)
    ensures SumNat(counts) == 0 <==> AllZero(counts)
  {
    if counts != [] {
      SumZero(counts[..|counts| - 1]);
      assert AllZero(counts) <==> AllZero(counts[..|counts| - 1]) && counts[|counts| - 1] == 0;
    }
  }

  /** A stretch of polls, all alive and idle, spanning at least the quiet interval. */
  predicate QuietStretch(polls: seq<Poll>, from: nat, to: nat) {
    && from <= to < |polls|
    && polls[to].elapsed >= polls[from].began + 100
    && (forall k, i :: from <= k <= to && 0 <= i < |polls[k].alive| ==> polls[k].alive[i])
    && (forall k, i :: from <= k <= to && 0 <= i < |polls[k].active| ==> polls[k].active[i] == 0)
  }

  /** The polls taken end with a quiet stretch. */
  ghost predicate Drained(polls: seq<Poll>, polled: nat) {
    exists from: nat, to: nat :: to + 1 == polled && QuietStretch(polls, from, to)
  }

  /** No quiet stretch ends before poll k. */
  ghost predicate NoneQuietBefore(polls: seq<Poll>, k: nat) {
    forall from: nat, to: nat :: QuietStretch(polls, from, to) ==> to >= k
  }

  predicate Advancing(polls: seq<Poll>) {
    && (forall i :: 0 <= i < |polls| ==> polls[i].began <= polls[i].elapsed <= polls[i].ended)
    && forall i, j :: 0 <= i < j < |polls| ==> polls[i].ended <= polls[j].began
  }

  /** Barriers through every listener, then polling until every counter has stayed at zero
      for the quiet interval, then the undecoded counts. It passes only on the readings the
      absence argument needs, for every listener at once, and each refusal says which
      reading was missing: polling never gives up on a drain it has already seen. */
  method AssertWiretapDecoded(barriers: seq<bool>, start: nat, polls: seq<Poll>, undecoded: seq<nat>)
    returns (r: Outcome<DrainError>, ghost polled: nat)
    requires polls != [] && polls[|polls| - 1].ended >= start + 12_000 && Advancing(polls)
    ensures r == Fail(BarrierFailed) <==> exists i :: 0 <= i < |barriers| && !barriers[i]
    ensures polled <= |polls|
    ensures r.Pass? ==> AllZero(undecoded) && Drained(polls, polled)
    ensures r == Fail(Undecodable) ==> !AllZero(undecoded) && Drained(polls, polled)
    ensures r == Fail(DeadListener) ==>
      exists k, i :: 0 <= k < |polls| && 0 <= i < |polls[k].alive| && !polls[k].alive[i] && NoneQuietBefore(polls, k)
    ensures r == Fail(NotDrained) ==>
      exists k :: 0 <= k < |polls| && polls[k].ended >= start + 12_000 && NoneQuietBefore(polls, k + 1)
  {
    for i := 0 to |barriers|
      invariant forall k :: 0 <= k < i ==> barriers[k]
    {
      if !barriers[i] { return Fail(BarrierFailed), 0; }
    }
    r, polled := AwaitQuiet(start, polls);
    if r.Fail? { return; }
    SumZero(undecoded);
    if SumNat(undecoded) != 0 { return Fail(Undecodable), polled; }
  }

  /** The polling loop. */
  method AwaitQuiet(start: nat, polls: seq<Poll>) returns (r: Outcome<DrainError>, ghost polled: nat)
    requires polls != [] && polls[|polls| - 1].ended >= start + 12_000 && Advancing(polls)
    ensures polled <= |polls|
    ensures r.Pass? ==> Drained(polls, polled)
    ensures r.Pass? ==> polled > 0 && NoneQuietBefore(polls, polled - 1)
    ensures r.Fail? ==> r.error in {DeadListener, NotDrained}
    ensures r == Fail(DeadListener) ==>
      exists k, i :: 0 <= k < |polls| && 0 <= i < |polls[k].alive| && !polls[k].alive[i] && NoneQuietBefore(polls, k)
    ensures r == Fail(NotDrained) ==>
      exists k :: 0 <= k < |polls| && polls[k].ended >= start + 12_000 && NoneQuietBefore(polls, k + 1)
  {
    var quietSince: Option<nat> := None;
    var i := 0;
    while true
      invariant i <= |polls|
      invariant i == |polls| ==> polls[i - 1].ended < start + WIRETAP_DRAIN_TIMEOUT
      invariant QuietFrom(polls, i, quietSince)
      invariant NoneQuietBefore(polls, i)
      decreases |polls| - i
    {
      var p := polls[i];
      if !AllAlive(p) { return Fail(DeadListener), i + 1; }
      if AllIdle(p) {
        IdleRunGrows(polls, i, quietSince);
        if quietSince.None? { quietSince := Some(i); }
        if p.elapsed >= polls[quietSince.value].began + WIRETAP_QUIET {
          assert QuietStretch(polls, quietSince.value, i);
          return Pass, i + 1;
        }
      } else {
        quietSince := None;
      }
      NotYetQuiet(polls, i, quietSince);
      if p.ended >= start + WIRETAP_DRAIN_TIMEOUT { return Fail(NotDrained), i + 1; }
      i := i + 1;
    }
  }

  /** After i polls the idle run in progress, if any, began at poll since. */
  predicate QuietFrom(polls: seq<Poll>, i: nat, since: Option<nat>)
    requires i <= |polls|
  {
    match since
    case None => i > 0 ==> !AllIdle(polls[i - 1])
    case Some(q) =>
      && q < i
      && (q > 0 ==> !AllIdle(polls[q - 1]))
      && forall k :: q <= k < i ==> AllAlive(polls[k]) && AllIdle(polls[k])
  }

  lemma IdleRunGrows(polls: seq<Poll>, i: nat, since: Option<nat>)
    requires i < |polls| && QuietFrom(polls, i, since) && AllAlive(polls[i]) && AllIdle(polls[i])
    ensures QuietFrom(polls, i + 1, Some(if since.Some? then since.value else i))
  {}

  lemma NotYetQuiet(polls: seq<Poll>, i: nat, since: Option<nat>)
    requires i < |polls| && Advancing(polls) && NoneQuietBefore(polls, i) && QuietFrom(polls, i + 1, since)
    requires since.Some? ==> polls[i].elapsed < polls[since.value].began + WIRETAP_QUIET
    ensures NoneQuietBefore(polls, i + 1)
  {
    forall from: nat, to: nat | to < i + 1 ensures !QuietStretch(polls, from, to) {
      if to == i && since.Some? && from < since.value { assert !AllIdle(polls[since.value - 1]); }
    }
  }

  /** One listener as the drain sees it: its run, the barrier that was answered and when, and
      where in the run each poll and then the undecoded count were read. */
  datatype Watched = Watched(
    states: seq<State>, steps: seq<Step>, barrier: nat, answered: nat, polledAt: seq<nat>, countedAt: nat)

  /** The readings of listener i were taken from its run, in the order the drain takes them. */
  ghost predicate ReadFrom(w: Watched, i: nat, barriers: seq<bool>, polls: seq<Poll>, polled: nat, undecoded: seq<nat>) {
    && Run(w.states, w.steps)
    && i < |barriers| && i < |undecoded| && w.answered < |w.states|
    && (barriers[i] ==> BarrierAnswered(w.states[w.answered], w.barrier))
    && polled <= |polls| && |w.polledAt| == polled && w.countedAt < |w.states|
    && polled > 0
    && (forall k :: 0 <= k < polled ==>
      && w.answered <= w.polledAt[k] <= w.countedAt
      && i < |polls[k].active| && polls[k].active[i] == w.states[w.polledAt[k]].active)
    && undecoded[i] == w.states[w.countedAt].inner.undecoded
  }

  /** A passed drain is what the absence argument needs, for every listener it read: if no
      partial is stored under id when the harness then looks, every connection queued ahead
      of that listener's barrier was served to the end and carried none. */
  lemma PassedDrainIsSound(
    w: Watched, i: nat, barriers: seq<bool>, polls: seq<Poll>, polled: nat, undecoded: seq<nat>,
    id: string, absent: nat, c: nat)
    requires ReadFrom(w, i, barriers, polls, polled, undecoded)
    requires (forall k :: 0 <= k < |barriers| ==> barriers[k]) && Drained(polls, polled) && AllZero(undecoded)
    requires w.countedAt <= absent < |w.states| && PartialsFor(w.states[absent].inner, id) == []
    requires c < w.barrier
    ensures
      var idle := w.states[w.polledAt[polled - 1]];
      c < |idle.conns| && c in idle.handlers && idle.handlers[c] == Done && Innocent(idle.conns[c], id)
  {
    var from: nat, to: nat :| to + 1 == polled && QuietStretch(polls, from, to);
    assert AllIdle(polls[polled - 1]);
    AbsenceIsSound(w.states, w.steps, w.barrier, id, w.answered, w.polledAt[polled - 1], w.countedAt, absent, c);
  }
}

// One node's rolling-window ledger of accepted hot outflow: the velocity half of the
// Hot budget. Whatever the clocks do, its whole map holds at most the cap, unless the cap
// is the largest u64: the sums saturate there and only the entry count bounds the map.
module HotBudget {
  import opened Basics

  /** Commitment ids are opaque names. */
  type Id = nat

  datatype Reservation = Reservation(outflow: u64, reservedAt: u64, expiry: u64)

  datatype Budget = Budget(maxPerWindow: u64, windowSecs: u64)

  datatype Reserved = Inserted | AlreadyHeld | OverWindow(sum: u64) | AtCapacity

  const MAX_HOT_RESERVATIONS: nat := 4_096

  type Book = map<Id, Reservation>

  function Floor(b: Budget, now: u64): u64 { SatSub(now, b.windowSecs) }

  /** A reservation meters while either clock still says so. */
  predicate IsLive(r: Reservation, floor: u64, wallNow: u64) {
    r.reservedAt >= floor || wallNow <= r.expiry
  }

  function Pruned(book: Book, floor: u64, wallNow: u64): Book {
    map id | id in book && IsLive(book[id], floor, wallNow) :: book[id]
  }

  /** The exact outflow a book holds. */
  ghost function Total(book: Book): nat
    decreases |book|
  {
    if book == map[] then 0
    else
      var id :| id in book;
      book[id].outflow + Total(book - {id})
  }

  lemma {:induction false} TotalRemove(book: Book, id: Id)
    requires id in book
    ensures Total(book) == book[id].outflow + Total(book - {id})
    decreases |book|
  {
    var j :| j in book && Total(book) == book[j].outflow + Total(book - {j});
    if j != id {
      TotalRemove(book - {j}, id);
      TotalRemove(book - {id}, j);
      assert book - {j} - {id} == book - {id} - {j};
    }
  }

  lemma TotalInsert(book: Book, id: Id, r: Reservation)
    requires id !in book
    ensures Total(book[id := r]) == r.outflow + Total(book)
  {
    TotalRemove(book[id := r], id);
    assert book[id := r] - {id} == book;
  }

  lemma {:induction false} PruningShrinks(book: Book, floor: u64, wallNow: u64)
    ensures Total(Pruned(book, floor, wallNow)) <= Total(book)
    decreases |book|
  {
    if book != map[] {
      var id :| id in book;
      var rest, kept := book - {id}, Pruned(book, floor, wallNow);
      PruningShrinks(rest, floor, wallNow);
      TotalRemove(book, id);
      assert Pruned(rest, floor, wallNow) == kept - {id};
      if id in kept {
        TotalRemove(kept, id);
      } else {
        assert kept - {id} == kept;
      }
    }
  }

  lemma {:induction false} PruningCounts(book: Book, floor: u64, wallNow: u64)
    ensures |Pruned(book, floor, wallNow)| <= |book|
    decreases |book|
  {
    if book != map[] {
      var id :| id in book;
      var rest, kept := book - {id}, Pruned(book, floor, wallNow);
      PruningCounts(rest, floor, wallNow);
      assert |book| == |rest| + 1;
      assert Pruned(rest, floor, wallNow) == kept - {id};
      assert id in kept ==> |kept| == |kept - {id}| + 1;
      assert id !in kept ==> kept - {id} == kept;
    }
  }

  /** The ledger's rule for one claim: age out, hit an existing claim, or test the window
      and then the entry count before inserting. */
  ghost function Reserve(b: Budget, book: Book, id: Id, outflow: u64, now: u64, wallNow: u64, expiry: u64)
    : (Book, Reserved)
  {
    var live := Pruned(book, Floor(b, now), wallNow);
    if id in live then (live, AlreadyHeld)
    else if Saturate(Saturate(Total(live)) + outflow) > b.maxPerWindow then (live, OverWindow(Saturate(Total(live))))
    else if |live| >= 4_096 then (live, AtCapacity)
    else (live[id := Reservation(outflow, now, expiry)], Inserted)
  }

  /** The most a book can hold: the cap, or a full book of maximal claims when the cap is
      the value every sum saturates to. */
  function Ceiling(b: Budget): nat {
    if b.maxPerWindow < U64_MAX then b.maxPerWindow else MAX_HOT_RESERVATIONS * U64_MAX
  }

  ghost predicate WithinCap(b: Budget, book: Book) {
    Total(book) <= Ceiling(b) && |book| <= MAX_HOT_RESERVATIONS
  }

  lemma {:induction false} TotalByCount(book: Book)
    ensures Total(book) <= |book| * U64_MAX
    decreases |book|
  {
    if book != map[] {
      var id :| id in book && Total(book) == book[id].outflow + Total(book - {id});
      var r, rest := book[id], book - {id};
      TotalByCount(rest);
      assert rest.Keys == book.Keys - {id};
      assert |book| == |rest| + 1 && r.outflow <= U64_MAX;
    }
  }

  /** Every claim, at any reading of either clock, leaves the whole book within the cap. */
  lemma ReserveKeepsCap(b: Budget, book: Book, id: Id, outflow: u64, now: u64, wallNow: u64, expiry: u64)
    requires WithinCap(b, book)
    ensures WithinCap(b, Reserve(b, book, id, outflow, now, wallNow, expiry).0)
  {
    var live := Pruned(book, Floor(b, now), wallNow);
    PruningShrinks(book, Floor(b, now), wallNow);
    PruningCounts(book, Floor(b, now), wallNow);
    if id !in live {
      TotalInsert(live, id, Reservation(outflow, now, expiry));
    }
    var after := Reserve(b, book, id, outflow, now, wallNow, expiry).0;
    TotalByCount(after);
    Scale(|after|, MAX_HOT_RESERVATIONS, U64_MAX);
  }

  /** What a claim forgets: a held reservation survives it, untouched, exactly while either
      clock still covers it: the window since it was taken, or its own wall expiry. */
  lemma SurvivesIff(b: Budget, book: Book, id: Id, outflow: u64, now: u64, wallNow: u64, expiry: u64, held: Id)
    requires held in book
    ensures
      var after := Reserve(b, book, id, outflow, now, wallNow, expiry).0;
      held in after && after[held] == book[held] <==>
        now <= book[held].reservedAt + b.windowSecs || wallNow <= book[held].expiry
  {}

  /** Once both clocks are past every reservation the whole budget is free again. */
  lemma StaleBookFrees(b: Budget, book: Book, id: Id, outflow: u64, now: u64, wallNow: u64, expiry: u64)
    requires forall h :: h in book ==> book[h].reservedAt + b.windowSecs < now && book[h].expiry < wallNow
    requires outflow <= b.maxPerWindow
    ensures Reserve(b, book, id, outflow, now, wallNow, expiry) == (map[id := Reservation(outflow, now, expiry)], Inserted)
  {
    assert Pruned(book, Floor(b, now), wallNow) == map[];
  }

  /** A claim adds at most itself: nothing else appears in the book. */
  lemma AddsOnlyItself(b: Budget, book: Book, id: Id, outflow: u64, now: u64, wallNow: u64, expiry: u64, other: Id)
    requires other in Reserve(b, book, id, outflow, now, wallNow, expiry).0
    ensures
      var (after, r) := Reserve(b, book, id, outflow, now, wallNow, expiry);
      (other in book && after[other] == book[other])
      || (other == id && r == Inserted && after[other] == Reservation(outflow, now, expiry))
  {}

  // ----- whole histories of claims

  datatype Request = Request(id: Id, outflow: u64, now: u64, wallNow: u64, expiry: u64)

  /** The book after these claims, in order, on an empty ledger. */
  ghost function Claimed(b: Budget, requests: seq<Request>): Book {
    if requests == [] then map[]
    else
      var r := requests[|requests| - 1];
      Reserve(b, Claimed(b, requests[..|requests| - 1]), r.id, r.outflow, r.now, r.wallNow, r.expiry).0
  }

  lemma {:induction false} ClaimedKeepsCap(b: Budget, requests: seq<Request>)
    ensures WithinCap(b, Claimed(b, requests))
  {
    if requests != [] {
      var r, earlier := requests[|requests| - 1], requests[..|requests| - 1];
      ClaimedKeepsCap(b, earlier);
      ReserveKeepsCap(b, Claimed(b, earlier), r.id, r.outflow, r.now, r.wallNow, r.expiry);
    }
  }

  /** At the largest cap the window test never refuses: two maximal claims both enter. */
  lemma TwoMaximalClaims(b: Budget) returns (requests: seq<Request>)
    requires b.maxPerWindow == U64_MAX
    ensures Total(Claimed(b, requests)) == 2 * U64_MAX
  {
    var r0, r1 := Request(0, U64_MAX, 0, 0, 0), Request(1, U64_MAX, 0, 0, 0);
    var held := Reservation(U64_MAX, 0, 0);
    requests := [r0, r1];
    assert [r0, r1][..1] == [r0] && [r0][..0] == [];
    assert Pruned(map[], Floor(b, 0), 0) == map[];
    assert Claimed(b, [r0]) == map[0 := held];
    assert Pruned(map[0 := held], Floor(b, 0), 0) == map[0 := held];
    TotalInsert(map[], 0, held);
    TotalInsert(map[0 := held], 1, held);
  }

  /** The ledger keeps its cap over every history of claims exactly when the cap is below
      the value the sums saturate to. */
  lemma CapHoldsIff(b: Budget)
    ensures (forall requests :: Total(Claimed(b, requests)) <= b.maxPerWindow) <==> b.maxPerWindow < U64_MAX
  {
    if b.maxPerWindow < U64_MAX {
      forall requests ensures Total(Claimed(b, requests)) <= b.maxPerWindow { ClaimedKeepsCap(b, requests); }
    } else {
      var requests := TwoMaximalClaims(b);
      assert Total(Claimed(b, requests)) > b.maxPerWindow;
    }
  }

  lemma ReleaseKeepsCap(b: Budget, book: Book, id: Id)
    requires WithinCap(b, book)
    ensures WithinCap(b, book - {id})
  {
    if id in book {
      TotalRemove(book, id);
      assert |book| == |book - {id}| + 1;
    } else {
      assert book - {id} == book;
    }
  }

  class HotBudgetLedger {
    const budget: Budget
    var reservations: Book

    ghost predicate Valid()
      reads this
    {
      WithinCap(budget, reservations)
    }

    constructor (b: Budget)
      ensures Valid() && budget == b && reservations == map[]
    {
      budget := b;
      reservations := map[];
    }

    /** The saturating sum over the live reservations, visited in any order. */
    method WindowSum(now: u64, wallNow: u64) returns (sum: u64)
      ensures sum == Saturate(Total(Pruned(reservations, Floor(budget, now), wallNow)))
    {
      var floor, todo := Floor(budget, now), reservations.Keys;
      ghost var done: Book := map[];
      sum := 0;
      while todo != {}
        invariant todo <= reservations.Keys
        invariant done == Pruned(reservations - todo, floor, wallNow)
        invariant sum == Saturate(Total(done))
        decreases |todo|
      {
        var id :| id in todo;
        var r := reservations[id];
        if IsLive(r, floor, wallNow) {
          sum := SatAdd(sum, r.outflow);
          TotalInsert(done, id, r);
          done := done[id := r];
        }
        todo := todo - {id};
      }
      assert reservations - {} == reservations;
    }

    method Prune(now: u64, wallNow: u64)
      modifies this
      ensures reservations == Pruned(old(reservations), Floor(budget, now), wallNow)
    {
      var floor := Floor(budget, now);
      reservations := map id | id in reservations && IsLive(reservations[id], floor, wallNow) :: reservations[id];
    }

    method Claim(id: Id, outflow: u64, now: u64, wallNow: u64, expiry: u64) returns (r: Reserved)
      requires Valid()
      modifies this
      ensures Valid()
      ensures (reservations, r) == Reserve(budget, old(reservations), id, outflow, now, wallNow, expiry)
    {
      ReserveKeepsCap(budget, reservations, id, outflow, now, wallNow, expiry);
      ghost var before := reservations;
      Prune(now, wallNow);
      if id in reservations { return AlreadyHeld; }
      PrunedTwice(before, Floor(budget, now), wallNow);
      var sum := WindowSum(now, wallNow);
      if SatAdd(sum, outflow) > budget.maxPerWindow { return OverWindow(sum); }
      if |reservations| >= MAX_HOT_RESERVATIONS { return AtCapacity; }
      reservations := reservations[id := Reservation(outflow, now, expiry)];
      return Inserted;
    }

    method Release(id: Id)
      requires Valid()
      modifies this
      ensures Valid()
      ensures reservations == old(reservations) - {id}
    {
      ReleaseKeepsCap(budget, reservations, id);
      reservations := reservations - {id};
    }
  }

  lemma PrunedTwice(book: Book, floor: u64, wallNow: u64)
    ensures Pruned(Pruned(book, floor, wallNow), floor, wallNow) == Pruned(book, floor, wallNow)
  {}
}

// The silence oracle: strip from a response body the two fields that legitimately differ
// per request, after checking each against what it must independently be.
module Silence {
  import opened Basics
  import opened Json

  /** What the harness knows of the request a response answers. */
  datatype Cover = Cover(commitmentId: string, sentAt: u64, receivedAt: u64)

  datatype SilenceError = NotJson | NoCommitment | WrongCommitment | NoFirstSeen | FirstSeenOutside

  const ACCEPTED := "accepted"
  const COMMITMENT_ID := "commitment_id"
  const FIRST_SEEN := "first_seen"

  const REQUEST_DEPENDENT_PATHS: seq<(string, string)> := [(ACCEPTED, COMMITMENT_ID), (ACCEPTED, FIRST_SEEN)]

  /** Overwrites one nested field if it is there; never creates it. */
  function Blank(v: Json, parent: string, leaf: string): Json {
    match Get(v, parent)
    case None => v
    case Some(p) =>
      if Get(p, leaf).None? then v
      else Obj(v.fields[parent := Obj(p.fields[leaf := Str("<" + leaf + ">")])])
  }

  function Normalised(v: Json): Json {
    Blank(Blank(v, ACCEPTED, COMMITMENT_ID), ACCEPTED, FIRST_SEEN)
  }

  method NormalizeRequestDependent(value: Json) returns (v: Json)
    ensures v == Normalised(value)
  {
    v := value;
    for i := 0 to |REQUEST_DEPENDENT_PATHS|
      invariant i == 0 ==> v == value
      invariant i == 1 ==> v == Blank(value, ACCEPTED, COMMITMENT_ID)
      invariant i == 2 ==> v == Normalised(value)
    {
      var (parent, leaf) := REQUEST_DEPENDENT_PATHS[i];
      v := Blank(v, parent, leaf);
    }
  }

  /** An accepted body must name the independently derived commitment and a first_seen
      inside the interval the request was in flight; other bodies need nothing. */
  predicate Covered(v: Json, cover: Cover) {
    match Get(v, ACCEPTED)
    case None => true
    case Some(accepted) =>
      && GetStr(accepted, COMMITMENT_ID) == Some(cover.commitmentId)
      && GetU64(accepted, FIRST_SEEN).Some?
      && cover.sentAt <= GetU64(accepted, FIRST_SEEN).value <= cover.receivedAt
  }

  /** The first thing wrong with an accepted body. */
  function WhyUncovered(v: Json, cover: Cover): SilenceError
    requires !Covered(v, cover)
  {
    var accepted := Get(v, ACCEPTED).value;
    var id, seen := GetStr(accepted, COMMITMENT_ID), GetU64(accepted, FIRST_SEEN);
    if id.None? then NoCommitment
    else if id.value != cover.commitmentId then WrongCommitment
    else if seen.None? then NoFirstSeen
    else FirstSeenOutside
  }

  /** Said of the JSON directly: either there is no accepted member, or it is an object whose
      commitment_id is the derived one and whose first_seen is a number of the interval. */
  lemma CoveredExactly(v: Json, cover: Cover)
    ensures Covered(v, cover) <==>
      || !(v.Obj? && "accepted" in v.fields)
      || (var a := v.fields["accepted"];
          && a.Obj? && "commitment_id" in a.fields && "first_seen" in a.fields
          && a.fields["commitment_id"] == Str(cover.commitmentId)
          && a.fields["first_seen"].Num? && a.fields["first_seen"].n.PosInt?
          && cover.sentAt <= a.fields["first_seen"].n.u <= cover.receivedAt)
  {}

  /** The comparable form of a body, or the reason it is evidence of nothing. The parsed
      body is absent when the text is not JSON. */
  method PinInvariantBody(body: Option<Json>, cover: Cover) returns (r: Result<Json, SilenceError>)
    ensures r.Ok? <==> body.Some? && Covered(body.value, cover)
    ensures r.Ok? ==> r.value == Normalised(body.value)
    ensures r == Err(NotJson) <==> body.None?
    ensures r.Err? && body.Some? ==> r.error == WhyUncovered(body.value, cover)
  {
    if body.None? { return Err(NotJson); }
    var value := body.value;
    var accepted := Get(value, ACCEPTED);
    if accepted.Some? {
      var observed := GetStr(accepted.value, COMMITMENT_ID);
      if observed.None? { return Err(NoCommitment); }
      if observed.value != cover.commitmentId { return Err(WrongCommitment); }
      var firstSeen := GetU64(accepted.value, FIRST_SEEN);
      if firstSeen.None? { return Err(NoFirstSeen); }
      if firstSeen.value < cover.sentAt || firstSeen.value > cover.receivedAt { return Err(FirstSeenOutside); }
    }
    value := NormalizeRequestDependent(value);
    return Ok(value);
  }

  // ----- what equality of two comparable forms means

  /** The path leads to, or below, one of the two request-dependent fields. */
  predicate InHole(path: seq<Segment>) {
    |path| >= 2 && path[0] == Key(ACCEPTED) && path[1] in {Key(COMMITMENT_ID), Key(FIRST_SEEN)}
  }

  /** The bodies show the same at every path outside the two fields. */
  ghost predicate AgreeOutside(a: Json, b: Json) {
    forall path :: !InHole(path) ==> ShapeAt(a, path) == ShapeAt(b, path)
  }

  /** Overwriting a field shows only at paths through it. */
  lemma BlankOutside(v: Json, leaf: string, path: seq<Segment>)
    requires !(|path| >= 2 && path[0] == Key(ACCEPTED) && path[1] == Key(leaf))
    ensures ShapeAt(Blank(v, ACCEPTED, leaf), path) == ShapeAt(v, path)
  {
    var w := Blank(v, ACCEPTED, leaf);
    if w != v {
      var p := v.fields[ACCEPTED];
      var q := w.fields[ACCEPTED];
      assert v.fields.Keys == w.fields.Keys && p.fields.Keys == q.fields.Keys;
      if path != [] && path[0] == Key(ACCEPTED) {
        var rest := path[1..];
        assert ShapeAt(w, path) == ShapeAt(q, rest) && ShapeAt(v, path) == ShapeAt(p, rest);
        if rest != [] { assert rest[0] != Key(leaf) && Child(q, rest[0]) == Child(p, rest[0]); }
      } else if path != [] {
        assert Child(w, path[0]) == Child(v, path[0]);
      }
    }
  }

  lemma NormalisedOutside(v: Json, path: seq<Segment>)
    requires !InHole(path)
    ensures ShapeAt(Normalised(v), path) == ShapeAt(v, path)
  {
    BlankOutside(v, COMMITMENT_ID, path);
    BlankOutside(Blank(v, ACCEPTED, COMMITMENT_ID), FIRST_SEEN, path);
  }

  lemma HoleSteps(v: Json, path: seq<Segment>)
    requires InHole(path)
    ensures
      var inner := if Get(v, ACCEPTED).Some? then Child(Get(v, ACCEPTED).value, path[1]) else None;
      At(v, path) == if inner.Some? then At(inner.value, path[2..]) else None
  {
    assert path[1..][0] == path[1] && path[1..][1..] == path[2..];
  }

  /** Inside the two fields a covered body shows its placeholders, or nothing. */
  lemma NormalisedInside(v: Json, cover: Cover, path: seq<Segment>)
    requires Covered(v, cover) && InHole(path)
    ensures ShapeAt(Normalised(v), path) ==
      if Get(v, ACCEPTED).None? then None else ShapeAt(Str("<" + path[1].key + ">"), path[2..])
  {
    var once := Blank(v, ACCEPTED, COMMITMENT_ID);
    var twice := Normalised(v);
    HoleSteps(twice, path);
    if Get(v, ACCEPTED).Some? {
      var p := Get(v, ACCEPTED).value;
      assert COMMITMENT_ID != FIRST_SEEN by { assert COMMITMENT_ID[0] != FIRST_SEEN[0]; }
      assert Get(once, ACCEPTED) == Some(Obj(p.fields[COMMITMENT_ID := Str("<" + COMMITMENT_ID + ">")]));
      assert Get(Get(once, ACCEPTED).value, FIRST_SEEN) == Get(p, FIRST_SEEN);
    }
  }

  /** Soundness and completeness of the oracle: for two covered bodies the comparable forms
      are equal exactly when the bodies agree everywhere outside the two named fields. */
  lemma OracleIsExact(a: Json, b: Json, ca: Cover, cb: Cover)
    requires Covered(a, ca) && Covered(b, cb)
    ensures Normalised(a) == Normalised(b) <==> AgreeOutside(a, b)
  {
    if Normalised(a) == Normalised(b) {
      forall path | !InHole(path) ensures ShapeAt(a, path) == ShapeAt(b, path) {
        NormalisedOutside(a, path);
        NormalisedOutside(b, path);
      }
    }
    if AgreeOutside(a, b) {
      AgreeOnVerdict(a, b);
      forall path ensures ShapeAt(Normalised(a), path) == ShapeAt(Normalised(b), path) {
        if InHole(path) {
          NormalisedInside(a, ca, path);
          NormalisedInside(b, cb, path);
        } else {
          NormalisedOutside(a, path);
          NormalisedOutside(b, path);
        }
      }
      ShapesDetermine(Normalised(a), Normalised(b));
    }
  }

  lemma AgreeOnVerdict(a: Json, b: Json)
    requires AgreeOutside(a, b)
    ensures Get(a, ACCEPTED).Some? <==> Get(b, ACCEPTED).Some?
  {
    assert ShapeAt(a, []) == ShapeAt(b, []);
  }

  /** Bodies without an accepted member are compared whole, and never match one with it. */
  lemma RefusalsCompareWhole(a: Json, b: Json)
    requires Get(a, ACCEPTED).None?
    ensures Normalised(a) == Normalised(b) <==> a == b
  {
    NormalisedOutside(b, []);
    assert ShapeAt(Normalised(b), []) == ShapeAt(b, []);
    if Get(b, ACCEPTED).Some? {
      assert ACCEPTED in Normalised(b).fields.Keys;
    }
  }
}

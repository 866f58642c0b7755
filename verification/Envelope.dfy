// The signed channel-envelope preimage: three length-prefixed fields around the fixed
// ones, and the decoder that shows when the encoding is unambiguous.
module Envelope {
  import opened Basics

  type Bytes = seq<byte>

  datatype Envelope = Envelope(
    msgType: Bytes,
    protocolVersion: u32,
    walletId: Bytes,
    manifestHash: Bytes,
    sender: u16,
    recipient: u16,
    payload: Bytes,
    nonce: Bytes,
    timestamp: u64)

  /** The two hashes are 32-byte arrays. */
  predicate Typed(e: Envelope) { |e.walletId| == 32 && |e.manifestHash| == 32 }

  // ----- little-endian integers

  function Le(n: nat, width: nat): (bs: Bytes)
    ensures |bs| == width
  {
    if width == 0 then [] else [n % 256] + Le(n / 256, width - 1)
  }

  function Value(bs: Bytes): nat {
    if bs == [] then 0 else bs[0] + 256 * Value(bs[1..])
  }

  lemma {:induction false} ValueBound(bs: Bytes)
    ensures Value(bs) < Pow(256, |bs|)
  {
    if bs != [] { ValueBound(bs[1..]); }
  }

  lemma {:induction false} LeRoundTrip(n: nat, width: nat)
    requires n < Pow(256, width)
    ensures Value(Le(n, width)) == n
  {
    if width > 0 {
      var tail := Le(n / 256, width - 1);
      LeRoundTrip(n / 256, width - 1);
      assert Le(n, width)[1..] == tail;
    }
  }

  /** Byte i of an integer is its i-th digit to base 256, the least significant first. */
  lemma {:induction false} LeByte(n: nat, width: nat, i: nat)
    requires i < width
    ensures Pow(256, i) > 0 && Le(n, width)[i] == n / Pow(256, i) % 256
    decreases i
  {
    PowPositive(i);
    if i > 0 {
      LeByte(n / 256, width - 1, i - 1);
      DivTwice(n, Pow(256, i - 1));
    }
  }

  lemma {:induction false} PowPositive(i: nat)
    ensures Pow(256, i) > 0
  {
    if i > 0 { PowPositive(i - 1); }
  }

  lemma DivTwice(n: nat, p: nat)
    requires p > 0
    ensures 256 * p > 0 && n / 256 / p == n / (256 * p)
  {
    var q, r := n / 256, n % 256;
    var d, s := q / p, q % p;
    assert n == 256 * (p * d + s) + r;
    assert n == (256 * p) * d + (256 * s + r);
    assert 256 * s + r < 256 * p;
    QuotientIs(n, 256 * p, d, 256 * s + r);
  }

  lemma QuotientIs(n: nat, m: nat, d: nat, r: nat)
    requires r < m && n == m * d + r
    ensures n / m == d
  {
    var e := n / m;
    assert n == m * e + n % m;
    if e > d { Scale(d + 1, e, m); }
    if e < d { Scale(e + 1, d, m); }
  }

  lemma Widths()
    ensures Pow(256, 2) == 0x1_0000 && Pow(256, 4) == 0x1_0000_0000 && Pow(256, 8) == 0x1_0000_0000_0000_0000
  {
    assert Pow(256, 1) == 256;
    assert Pow(256, 3) == 256 * Pow(256, 2);
    assert Pow(256, 5) == 256 * Pow(256, 4);
    assert Pow(256, 7) == 256 * Pow(256, 6);
  }

  // ----- encoding

  const U32_SIZE: nat := 0x1_0000_0000

  /** A length cut to 32 bits, then the bytes. */
  function Var(b: Bytes): Bytes { Le(|b| % U32_SIZE, 4) + b }

  function Fixed(e: Envelope): Bytes {
    Le(e.protocolVersion, 4) + (e.walletId + (e.manifestHash + (Le(e.sender, 2) + Le(e.recipient, 2))))
  }

  function Preimage(e: Envelope): Bytes {
    Var(e.msgType) + (Fixed(e) + (Var(e.payload) + (Var(e.nonce) + Le(e.timestamp, 8))))
  }

  method PushVar(out: Bytes, b: Bytes) returns (longer: Bytes)
    ensures longer == out + Var(b)
  {
    longer := out + Le(|b| % U32_SIZE, 4);
    longer := longer + b;
  }

  method EnvelopePreimage(e: Envelope) returns (out: Bytes)
    ensures out == Preimage(e)
  {
    out := PushVar([], e.msgType);
    out := PushFixed(out, e);
    out := PushVar(out, e.payload);
    out := PushVar(out, e.nonce);
    out := out + Le(e.timestamp, 8);
    Regroup(Var(e.msgType), Fixed(e), Var(e.payload), Var(e.nonce), Le(e.timestamp, 8));
  }

  lemma Regroup(a: Bytes, b: Bytes, c: Bytes, d: Bytes, e: Bytes)
    ensures (((([] + a) + b) + c) + d) + e == a + (b + (c + (d + e)))
  {}

  method PushFixed(out: Bytes, e: Envelope) returns (longer: Bytes)
    ensures longer == out + Fixed(e)
  {
    longer := out + Le(e.protocolVersion, 4);
    longer := longer + e.walletId;
    longer := longer + e.manifestHash;
    longer := longer + Le(e.sender, 2);
    longer := longer + Le(e.recipient, 2);
    RegroupAfter(out, Le(e.protocolVersion, 4), e.walletId, e.manifestHash, Le(e.sender, 2), Le(e.recipient, 2));
  }

  lemma RegroupAfter(o: Bytes, a: Bytes, b: Bytes, c: Bytes, d: Bytes, e: Bytes)
    ensures ((((o + a) + b) + c) + d) + e == o + (a + (b + (c + (d + e))))
  {}

  /** Where each field sits: the message type after its length, then the fixed fields at
      their offsets, then payload and nonce after theirs, then the timestamp, and no more. */
  lemma PreimageLayout(e: Envelope)
    requires Typed(e)
    ensures
      var bs, m := Preimage(e), |e.msgType|;
      var q := 80 + m + |e.payload|;
      && |bs| == q + |e.nonce| + 12
      && bs[..4] == Le(m % U32_SIZE, 4) && bs[4..4 + m] == e.msgType
      && bs[4 + m..8 + m] == Le(e.protocolVersion, 4)
      && bs[8 + m..40 + m] == e.walletId && bs[40 + m..72 + m] == e.manifestHash
      && bs[72 + m..74 + m] == Le(e.sender, 2) && bs[74 + m..76 + m] == Le(e.recipient, 2)
      && bs[76 + m..80 + m] == Le(|e.payload| % U32_SIZE, 4) && bs[80 + m..q] == e.payload
      && bs[q..q + 4] == Le(|e.nonce| % U32_SIZE, 4) && bs[q + 4..q + 4 + |e.nonce|] == e.nonce
      && bs[q + 4 + |e.nonce|..] == Le(e.timestamp, 8)
  {
    var m, bs := |e.msgType|, Preimage(e);
    PreimageParts(e);
    FixedLayout(e);
    RestLayout(e);
    var f, n := 4 + m, 4 + |e.payload|;
    SliceAt(bs, f, Fixed(e), 0, 4);
    SliceAt(bs, f, Fixed(e), 4, 36);
    SliceAt(bs, f, Fixed(e), 36, 68);
    SliceAt(bs, f, Fixed(e), 68, 70);
    SliceAt(bs, f, Fixed(e), 70, 72);
    SliceAt(bs, 76 + m, Rest(e), 0, 4);
    SliceAt(bs, 76 + m, Rest(e), 4, n);
    SliceAt(bs, 76 + m, Rest(e), n, n + 4);
    SliceAt(bs, 76 + m, Rest(e), n + 4, n + 4 + |e.nonce|);
    SliceAt(bs, 76 + m, Rest(e), n + 4 + |e.nonce|, |Rest(e)|);
  }

  lemma PreimageParts(e: Envelope)
    requires Typed(e)
    ensures
      var bs, m := Preimage(e), |e.msgType|;
      && |bs| == 76 + m + |Rest(e)| && bs[..4] == Le(m % U32_SIZE, 4) && bs[4..4 + m] == e.msgType
      && bs[4 + m..76 + m] == Fixed(e) && bs[76 + m..] == Rest(e)
  {
    FixedLayout(e);
    var m := |e.msgType|;
    var head := Le(m % U32_SIZE, 4) + e.msgType;
    assert Preimage(e) == head + (Fixed(e) + Rest(e));
  }

  /** Offsets inside a part are offsets in the whole. */
  lemma SliceAt(bs: Bytes, from: nat, part: Bytes, i: nat, j: nat)
    requires from + |part| <= |bs| && bs[from..from + |part|] == part && i <= j <= |part|
    ensures bs[from + i..from + j] == part[i..j]
  {
    var x, y := bs[from + i..from + j], part[i..j];
    assert |x| == |y|;
    forall k | 0 <= k < |x| ensures x[k] == y[k] {
      assert y[k] == part[i + k] == bs[from..from + |part|][i + k] == bs[from + (i + k)];
    }
  }

  lemma FixedLayout(e: Envelope)
    requires Typed(e)
    ensures
      var f := Fixed(e);
      && |f| == 72 && f[..4] == Le(e.protocolVersion, 4) && f[4..36] == e.walletId && f[36..68] == e.manifestHash
      && f[68..70] == Le(e.sender, 2) && f[70..72] == Le(e.recipient, 2)
  {}

  lemma RestLayout(e: Envelope)
    ensures
      var r, n := Rest(e), 4 + |e.payload|;
      && |r| == n + 12 + |e.nonce| && r[..4] == Le(|e.payload| % U32_SIZE, 4) && r[4..n] == e.payload
      && r[n..n + 4] == Le(|e.nonce| % U32_SIZE, 4) && r[n + 4..n + 4 + |e.nonce|] == e.nonce
      && r[n + 4 + |e.nonce|..] == Le(e.timestamp, 8)
  {}

  // ----- decoding

  function Take(bs: Bytes, n: nat): Option<(Bytes, Bytes)> {
    if |bs| < n then None else Some((bs[..n], bs[n..]))
  }

  function TakeInt(bs: Bytes, width: nat): Option<(nat, Bytes)> {
    if |bs| < width then None else Some((Value(bs[..width]), bs[width..]))
  }

  function TakeVar(bs: Bytes): Option<(Bytes, Bytes)> {
    match TakeInt(bs, 4)
    case None => None
    case Some((n, rest)) => Take(rest, n)
  }

  /** The five fields of fixed width, in order. */
  datatype Middle = Middle(version: nat, wallet: Bytes, manifest: Bytes, sender: nat, recipient: nat)

  function TakeFixed(bs: Bytes): Option<(Middle, Bytes)> {
    match TakeInt(bs, 4) case None => None case Some((version, r1)) =>
    match Take(r1, 32) case None => None case Some((wallet, r2)) =>
    match Take(r2, 32) case None => None case Some((manifest, r3)) =>
    match TakeInt(r3, 2) case None => None case Some((sender, r4)) =>
    match TakeInt(r4, 2) case None => None case Some((recipient, r5)) =>
      Some((Middle(version, wallet, manifest, sender, recipient), r5))
  }

  /** The decoder: every field in order, and whatever follows. */
  function Decode(bs: Bytes): Option<(Envelope, Bytes)> {
    match TakeVar(bs) case None => None case Some((msgType, r1)) =>
    match TakeFixed(r1) case None => None case Some((m, r2)) =>
    match TakeVar(r2) case None => None case Some((payload, r3)) =>
    match TakeVar(r3) case None => None case Some((nonce, r4)) =>
    match TakeInt(r4, 8) case None => None case Some((timestamp, r5)) =>
      if m.version > U32_MAX || m.sender > 0xFFFF || m.recipient > 0xFFFF || timestamp > U64_MAX then None
      else Some((Envelope(msgType, m.version, m.wallet, m.manifest, m.sender, m.recipient, payload, nonce, timestamp), r5))
  }

  /** Every variable field's length survives the 32-bit prefix. */
  predicate Fits(e: Envelope) {
    |e.msgType| < U32_SIZE && |e.payload| < U32_SIZE && |e.nonce| < U32_SIZE
  }

  lemma TakesBytes(b: Bytes, rest: Bytes)
    ensures Take(b + rest, |b|) == Some((b, rest))
  {
    assert (b + rest)[..|b|] == b && (b + rest)[|b|..] == rest;
  }

  lemma TakesInt(n: nat, width: nat, rest: Bytes)
    requires n < Pow(256, width)
    ensures TakeInt(Le(n, width) + rest, width) == Some((n, rest))
  {
    TakesBytes(Le(n, width), rest);
    LeRoundTrip(n, width);
  }

  lemma TakesVar(b: Bytes, rest: Bytes)
    requires |b| < U32_SIZE
    ensures TakeVar(Var(b) + rest) == Some((b, rest))
  {
    Widths();
    TakesInt(|b|, 4, b + rest);
    assert Var(b) + rest == Le(|b|, 4) + (b + rest);
    TakesBytes(b, rest);
  }

  lemma TakenVarIsShort(bs: Bytes)
    ensures TakeVar(bs).Some? ==> |TakeVar(bs).value.0| < U32_SIZE
  {
    Widths();
    if |bs| >= 4 { ValueBound(bs[..4]); }
  }

  lemma TakesFixed(e: Envelope, rest: Bytes)
    requires Typed(e)
    ensures TakeFixed(Fixed(e) + rest) ==
      Some((Middle(e.protocolVersion, e.walletId, e.manifestHash, e.sender, e.recipient), rest))
  {
    Widths();
    var t5 := Le(e.recipient, 2) + rest;
    var t4 := Le(e.sender, 2) + t5;
    var t3 := e.manifestHash + t4;
    var t2 := e.walletId + t3;
    assert Fixed(e) + rest == Le(e.protocolVersion, 4) + t2;
    TakesInt(e.protocolVersion, 4, t2);
    TakesBytes(e.walletId, t3);
    TakesBytes(e.manifestHash, t4);
    TakesInt(e.sender, 2, t5);
    TakesInt(e.recipient, 2, rest);
  }

  lemma DecodeRecovers(e: Envelope, suffix: Bytes)
    requires Typed(e) && Fits(e)
    ensures Decode(Preimage(e) + suffix) == Some((e, suffix))
  {
    Widths();
    var s8 := Le(e.timestamp, 8) + suffix;
    var s7 := Var(e.nonce) + s8;
    var s6 := Var(e.payload) + s7;
    var s1 := Fixed(e) + s6;
    assert Preimage(e) + suffix == Var(e.msgType) + s1;
    TakesVar(e.msgType, s1);
    TakesFixed(e, s6);
    TakesVar(e.payload, s7);
    TakesVar(e.nonce, s8);
    TakesInt(e.timestamp, 8, suffix);
  }

  lemma DecodedFits(bs: Bytes)
    ensures Decode(bs).Some? ==> Fits(Decode(bs).value.0)
  {
    if Decode(bs).Some? {
      TakenVarIsShort(bs);
      var r6 := TakeFixed(TakeVar(bs).value.1).value.1;
      TakenVarIsShort(r6);
      TakenVarIsShort(TakeVar(r6).value.1);
    }
  }

  /** The decoder recovers every field and the untouched suffix exactly when no variable
      field is too long for its 32-bit length. */
  lemma DecodableIffFits(e: Envelope, suffix: Bytes)
    requires Typed(e)
    ensures Decode(Preimage(e) + suffix) == Some((e, suffix)) <==> Fits(e)
  {
    DecodedFits(Preimage(e) + suffix);
    if Fits(e) { DecodeRecovers(e, suffix); }
  }

  /** No preimage is the beginning of another, for fields that fit. */
  lemma PreimagesArePrefixFree(a: Envelope, b: Envelope, after: Bytes, beyond: Bytes)
    requires Typed(a) && Typed(b) && Fits(a) && Fits(b)
    requires Preimage(a) + after == Preimage(b) + beyond
    ensures a == b && after == beyond
  {
    DecodeRecovers(a, after);
    DecodeRecovers(b, beyond);
  }

  lemma EqualParts(a: Bytes, x: Bytes, b: Bytes, y: Bytes)
    requires |a| == |b| && a + x == b + y
    ensures a == b && x == y
  {
    TakesBytes(a, x);
    TakesBytes(b, y);
  }

  /** What follows the fixed fields. */
  function Rest(e: Envelope): Bytes { Var(e.payload) + (Var(e.nonce) + Le(e.timestamp, 8)) }

  /** With nonces of one length, equal rests have payloads of one length, and so equal parts. */
  lemma RestBinds(a: Envelope, b: Envelope)
    requires Rest(a) == Rest(b) && |a.nonce| == |b.nonce|
    ensures a.payload == b.payload && a.nonce == b.nonce && a.timestamp == b.timestamp
  {
    assert |Rest(a)| == 16 + |a.payload| + |a.nonce| && |Rest(b)| == 16 + |b.payload| + |b.nonce|;
    EqualParts(Var(a.payload), Var(a.nonce) + Le(a.timestamp, 8), Var(b.payload), Var(b.nonce) + Le(b.timestamp, 8));
    EqualParts(Le(|a.payload| % U32_SIZE, 4), a.payload, Le(|b.payload| % U32_SIZE, 4), b.payload);
    EqualParts(Var(a.nonce), Le(a.timestamp, 8), Var(b.nonce), Le(b.timestamp, 8));
    EqualParts(Le(|a.nonce| % U32_SIZE, 4), a.nonce, Le(|b.nonce| % U32_SIZE, 4), b.nonce);
    Widths();
    LeRoundTrip(a.timestamp, 8);
    LeRoundTrip(b.timestamp, 8);
  }

  /** A signature over a preimage binds all nine fields, whatever the length of the payload:
      it takes a message type that fits its length and nonces of one length. */
  lemma PreimageBindsFields(a: Envelope, b: Envelope)
    requires Typed(a) && Typed(b) && |a.nonce| == |b.nonce|
    requires |a.msgType| < U32_SIZE && |b.msgType| < U32_SIZE
    requires Preimage(a) == Preimage(b)
    ensures a == b
  {
    TakesVar(a.msgType, Fixed(a) + Rest(a));
    TakesVar(b.msgType, Fixed(b) + Rest(b));
    TakesFixed(a, Rest(a));
    TakesFixed(b, Rest(b));
    RestBinds(a, b);
  }

  function Zeros(n: nat): Bytes { seq(n, i => 0) }

  /** Bytes below 128 are text in UTF-8, one character each. */
  predicate Ascii(bs: Bytes) { forall i :: 0 <= i < |bs| ==> bs[i] < 128 }

  /** Once the message type reaches 2^32 bytes the encoding is ambiguous, whatever the nonce:
      that length reads as none, and its bytes as the fields that follow. The colliding
      message types and payloads are text wherever the fixed fields are. */
  lemma OverlongFieldsCollide(e: Envelope) returns (a: Envelope, b: Envelope)
    requires Typed(e) && Ascii(Fixed(e))
    ensures Typed(a) && Typed(b) && a.nonce == b.nonce == e.nonce
    ensures Ascii(a.msgType) && Ascii(a.payload) && Ascii(b.msgType) && Ascii(b.payload)
    ensures |a.msgType| == U32_SIZE && |b.msgType| == 0
    ensures a != b && Preimage(a) == Preimage(b)
  {
    var f, z, pad := Fixed(e), Zeros(U32_SIZE - 76), Zeros(4);
    var tail := Var(e.nonce) + Le(e.timestamp, 8);
    a, b := e.(msgType := f + (pad + z), payload := []), e.(msgType := [], payload := z + (f + pad));
    assert |f| == 72 && |a.msgType| == |b.payload| == U32_SIZE;
    ZeroBytes(4);
    assert Var(a.msgType) == pad + a.msgType && Var(b.payload) == pad + b.payload;
    assert Var([]) == pad && Fixed(a) == Fixed(b) == f;
    SameBytes(pad, f, z, tail);
    assert |a.payload| != |b.payload|;
  }

  lemma {:induction false} ZeroBytes(width: nat)
    ensures Le(0, width) == Zeros(width)
  {
    if width > 0 { ZeroBytes(width - 1); }
  }

  lemma SameBytes(pad: Bytes, f: Bytes, z: Bytes, tail: Bytes)
    ensures (pad + (f + (pad + z))) + (f + (pad + tail)) == pad + (f + ((pad + (z + (f + pad))) + tail))
  {}

  // ----- the exact condition for binding

  /** The envelopes a channel can sign: nonces of n bytes, message types up to the limit. */
  predicate Signable(e: Envelope, limit: nat, n: nat) {
    Typed(e) && |e.nonce| == n && |e.msgType| <= limit
  }

  ghost predicate Binding(limit: nat, n: nat) {
    forall a, b :: Signable(a, limit, n) && Signable(b, limit, n) && Preimage(a) == Preimage(b) ==> a == b
  }

  /** Those whose message type and payload are plain text. */
  predicate SignableText(e: Envelope, limit: nat, n: nat) {
    Signable(e, limit, n) && Ascii(e.msgType) && Ascii(e.payload)
  }

  ghost predicate TextBinding(limit: nat, n: nat) {
    forall a, b :: SignableText(a, limit, n) && SignableText(b, limit, n) && Preimage(a) == Preimage(b) ==> a == b
  }

  /** Preimages bind all fields, of all envelopes and already of textual ones, exactly when
      every message type fits its 32-bit length. */
  lemma BindingIff(limit: nat, n: nat)
    ensures Binding(limit, n) <==> limit < U32_SIZE
    ensures TextBinding(limit, n) <==> limit < U32_SIZE
  {
    if limit < U32_SIZE {
      forall a, b | Signable(a, limit, n) && Signable(b, limit, n) && Preimage(a) == Preimage(b) ensures a == b {
        PreimageBindsFields(a, b);
      }
    } else {
      var e := Blank(n);
      BlankIsText(n);
      var a, b := OverlongFieldsCollide(e);
      assert SignableText(a, limit, n) && SignableText(b, limit, n);
    }
  }

  function Blank(n: nat): Envelope { Envelope([], 0, Zeros(32), Zeros(32), 0, 0, [], Zeros(n), 0) }

  lemma BlankIsText(n: nat)
    ensures Typed(Blank(n)) && Ascii(Fixed(Blank(n)))
  {
    ZeroBytes(4);
    ZeroBytes(2);
  }
}

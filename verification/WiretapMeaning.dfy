// What the listener's verdicts say about the JSON that was sent, key by key: an envelope is
// counted exactly when it and its payload carry every field, well typed, under its own name.
module WiretapMeaning {
  import opened Basics
  import opened Json
  import opened Wiretap
  import Envelope
  import ChannelRead

  // ----- JSON objects, read directly

  predicate HasText(v: Json, key: string) {
    v.Obj? && key in v.fields && v.fields[key].Str?
  }

  predicate TextAt(v: Json, key: string, text: string) {
    v.Obj? && key in v.fields && v.fields[key] == Str(text)
  }

  predicate NumberAt(v: Json, key: string, n: nat) {
    v.Obj? && key in v.fields && v.fields[key].Num? && v.fields[key].n.PosInt? && v.fields[key].n.u == n
  }

  predicate HexAt(c: Codec, v: Json, key: string, bytes: Bytes) {
    HasText(v, key) && c.hex(v.fields[key].s) == Some(bytes)
  }

  predicate DerAt(c: Codec, v: Json, key: string, signature: Bytes) {
    HasText(v, key) && c.hex(v.fields[key].s).Some? && c.der(c.hex(v.fields[key].s).value) == Some(signature)
  }

  // ----- what an envelope and a payload carry

  /** The nine signed fields, each under its own key. */
  predicate Carries(c: Codec, v: Json, e: Envelope.Envelope) {
    && HasText(v, "msg_type") && c.utf8(v.fields["msg_type"].s) == e.msgType
    && NumberAt(v, "protocol_version", e.protocolVersion)
    && HexAt(c, v, "wallet_id", e.walletId) && |e.walletId| == 32
    && HexAt(c, v, "manifest_hash", e.manifestHash) && |e.manifestHash| == 32
    && NumberAt(v, "sender_node_id", e.sender)
    && NumberAt(v, "recipient_node_id", e.recipient)
    && HasText(v, "payload_b64") && c.utf8(v.fields["payload_b64"].s) == e.payload
    && HexAt(c, v, "nonce", e.nonce) && |e.nonce| == 16
    && NumberAt(v, "timestamp", e.timestamp)
  }

  /** The envelope is addressed to this listener and signed by the sender it names, over the
      preimage of the fields it carries. */
  predicate SignedFor(l: Listener, v: Json, e: Envelope.Envelope, signature: Bytes) {
    && Carries(l.codec, v, e)
    && DerAt(l.codec, v, "channel_sig", signature)
    && e.protocolVersion == 2
    && e.walletId == l.walletId && e.manifestHash == l.manifestHash
    && e.recipient == l.recipient && e.sender != l.recipient && e.sender < |l.channelKeys|
    && l.codec.verify(l.channelKeys[e.sender], Envelope.Preimage(e), signature)
  }

  /** The nine fields of a partial, each under its own key of the payload. */
  predicate CarriesPartial(c: Codec, j: Json, p: PartialSeen) {
    && TextAt(j, "commitment_id", p.commitmentId)
    && HexAt(c, j, "wallet_id", p.walletId) && |p.walletId| == 32
    && HasText(j, "txid") && c.txid(j.fields["txid"].s) == Some(p.txid)
    && NumberAt(j, "signer_node_id", p.signer)
    && NumberAt(j, "input", p.input)
    && NumberAt(j, "sighash_type", p.sighashType)
    && TextAt(j, "spend_purpose", p.spendPurpose)
    && HexAt(c, j, "user_sig_hash", p.userSigHash) && |p.userSigHash| == 32
    && DerAt(c, j, "partial_sig", p.partialSig)
  }

  /** The coordinator's nonce, in the spend if there is one, else in the refresh. */
  predicate CarriesRequest(j: Json, nonce: string) {
    j.Obj? &&
      if "spend" in j.fields then TextAt(j.fields["spend"], "nonce", nonce)
      else "refresh" in j.fields && TextAt(j.fields["refresh"], "nonce", nonce)
  }

  /** A signed envelope of the given type whose payload is the base64 of the JSON value j. */
  predicate Delivers(l: Listener, v: Json, e: Envelope.Envelope, signature: Bytes, msgType: string, j: Json) {
    && SignedFor(l, v, e, signature)
    && v.fields["msg_type"].s == msgType
    && l.codec.base64(v.fields["payload_b64"].s).Some?
    && l.codec.json(l.codec.base64(v.fields["payload_b64"].s).value) == Some(j)
  }

  ghost predicate IsPartial(l: Listener, v: Json, p: PartialSeen) {
    exists e, signature, j ::
      Delivers(l, v, e, signature, "partial", j) && CarriesPartial(l.codec, j, p) && p.sender == e.sender
  }

  ghost predicate IsRequest(l: Listener, v: Json, r: RequestSeen) {
    exists e, signature, j ::
      Delivers(l, v, e, signature, "request", j) && CarriesRequest(j, r.nonce) && r.sender == e.sender
  }

  // ----- the decoders, field by field

  lemma HexExactly(c: Codec, v: Json, key: string, width: nat, b: Bytes)
    ensures HexOf(c, v, key, width) == Some(b) <==> HexAt(c, v, key, b) && |b| == width
  {}

  lemma BoundedExactly(v: Json, key: string, max: nat, n: nat)
    ensures Bounded(v, key, max) == Some(n) <==> NumberAt(v, key, n) && n <= max
  {}

  lemma FieldsExactly(c: Codec, v: Json, e: Envelope.Envelope)
    ensures Fields(c, v) == Some(e) <==> Carries(c, v, e)
  {
    HexExactly(c, v, "wallet_id", 32, e.walletId);
    HexExactly(c, v, "manifest_hash", 32, e.manifestHash);
    HexExactly(c, v, "nonce", 16, e.nonce);
    BoundedExactly(v, "protocol_version", U32_MAX, e.protocolVersion);
    BoundedExactly(v, "sender_node_id", 0xFFFF, e.sender);
    BoundedExactly(v, "recipient_node_id", 0xFFFF, e.recipient);
  }

  lemma DecodesExactly(c: Codec, sender: u16, j: Json, p: PartialSeen)
    ensures DecodePartial(c, sender, j) == Some(p) <==> CarriesPartial(c, j, p) && p.sender == sender
  {
    HexExactly(c, j, "wallet_id", 32, p.walletId);
    HexExactly(c, j, "user_sig_hash", 32, p.userSigHash);
    BoundedExactly(j, "signer_node_id", 0xFFFF, p.signer);
    BoundedExactly(j, "input", U32_MAX, p.input);
    BoundedExactly(j, "sighash_type", U32_MAX, p.sighashType);
  }

  lemma RequestDecodesExactly(sender: u16, j: Json, r: RequestSeen)
    ensures DecodeRequest(sender, j) == Some(r) <==> CarriesRequest(j, r.nonce) && r.sender == sender
  {}

  // ----- the verdicts

  lemma SignedExactly(l: Listener, v: Json, e: Envelope.Envelope, signature: Bytes)
    ensures SignedFor(l, v, e, signature) <==>
      Fields(l.codec, v) == Some(e) && Signature(l.codec, v) == Some(signature) && Endorsed(l, e, signature)
  {
    FieldsExactly(l.codec, v, e);
  }

  /** Authentication passes exactly on a signed envelope whose payload is base64, and hands
      on its sender, its message type and that payload. */
  lemma AuthenticatesExactly(l: Listener, v: Json, sender: u16, msgType: string, payload: Bytes)
    ensures Authenticate(l, v) == Some((sender, msgType, payload)) <==>
      exists e, signature ::
        && SignedFor(l, v, e, signature) && e.sender == sender
        && v.fields["msg_type"].s == msgType
        && l.codec.base64(v.fields["payload_b64"].s) == Some(payload)
  {
    if Authenticate(l, v) == Some((sender, msgType, payload)) {
      var e, signature := Fields(l.codec, v).value, Signature(l.codec, v).value;
      SignedExactly(l, v, e, signature);
      assert SignedFor(l, v, e, signature);
    }
    if e, signature :|
      && SignedFor(l, v, e, signature) && e.sender == sender
      && v.fields["msg_type"].s == msgType
      && l.codec.base64(v.fields["payload_b64"].s) == Some(payload)
    {
      SignedAuthenticates(l, v, e, signature, payload);
    }
  }

  lemma SignedAuthenticates(l: Listener, v: Json, e: Envelope.Envelope, signature: Bytes, payload: Bytes)
    requires SignedFor(l, v, e, signature) && l.codec.base64(v.fields["payload_b64"].s) == Some(payload)
    ensures Authenticate(l, v) == Some((e.sender, v.fields["msg_type"].s, payload))
  {
    SignedExactly(l, v, e, signature);
  }

  /** What is delivered is judged by its message type and its payload alone. */
  lemma DeliveredIsJudged(l: Listener, v: Json, e: Envelope.Envelope, signature: Bytes, msgType: string, j: Json)
    requires Delivers(l, v, e, signature, msgType, j)
    ensures l.codec.base64(v.fields["payload_b64"].s).Some?
    ensures
      var payload := l.codec.base64(v.fields["payload_b64"].s).value;
      Judge(l, v) == JudgePayload(l.codec, e.sender, msgType, payload) && l.codec.json(payload) == Some(j)
  {
    AuthenticatesExactly(l, v, e.sender, msgType, l.codec.base64(v.fields["payload_b64"].s).value);
  }

  lemma CountedIsDelivered(l: Listener, v: Json) returns (e: Envelope.Envelope, signature: Bytes, msgType: string, j: Json)
    requires Judge(l, v) != AsUndecoded
    ensures Delivers(l, v, e, signature, msgType, j)
    ensures Judge(l, v) == JudgePayload(l.codec, e.sender, msgType, l.codec.base64(v.fields["payload_b64"].s).value)
  {
    var (sender, kind, payload) := Authenticate(l, v).value;
    AuthenticatesExactly(l, v, sender, kind, payload);
    e, signature :|
      && SignedFor(l, v, e, signature) && e.sender == sender
      && v.fields["msg_type"].s == kind
      && l.codec.base64(v.fields["payload_b64"].s) == Some(payload);
    msgType, j := kind, l.codec.json(payload).value;
  }

  /** An envelope is counted as a partial exactly when it is one: signed for this listener,
      of type partial, with every field of that partial under its own key. */
  lemma PartialExactly(l: Listener, v: Json, p: PartialSeen)
    ensures Judge(l, v) == AsPartial(p) <==> IsPartial(l, v, p)
  {
    if Judge(l, v) == AsPartial(p) { CountedIsPartial(l, v, p); }
    if e, signature, j :|
      Delivers(l, v, e, signature, "partial", j) && CarriesPartial(l.codec, j, p) && p.sender == e.sender
    {
      PartialIsCounted(l, v, e, signature, j, p);
    }
  }

  lemma CountedIsPartial(l: Listener, v: Json, p: PartialSeen)
    requires Judge(l, v) == AsPartial(p)
    ensures IsPartial(l, v, p)
  {
    var e, signature, msgType, j := CountedIsDelivered(l, v);
    DecodesExactly(l.codec, e.sender, j, p);
    assert Delivers(l, v, e, signature, "partial", j);
  }

  lemma PartialIsCounted(l: Listener, v: Json, e: Envelope.Envelope, signature: Bytes, j: Json, p: PartialSeen)
    requires Delivers(l, v, e, signature, "partial", j) && CarriesPartial(l.codec, j, p) && p.sender == e.sender
    ensures Judge(l, v) == AsPartial(p)
  {
    DeliveredIsJudged(l, v, e, signature, "partial", j);
    DecodesExactly(l.codec, e.sender, j, p);
  }

  /** ... and as a request exactly when it is one. */
  lemma RequestExactly(l: Listener, v: Json, r: RequestSeen)
    ensures Judge(l, v) == AsRequest(r) <==> IsRequest(l, v, r)
  {
    if Judge(l, v) == AsRequest(r) { CountedIsRequest(l, v, r); }
    if e, signature, j :|
      Delivers(l, v, e, signature, "request", j) && CarriesRequest(j, r.nonce) && r.sender == e.sender
    {
      RequestIsCounted(l, v, e, signature, j, r);
    }
  }

  lemma RequestIsCounted(l: Listener, v: Json, e: Envelope.Envelope, signature: Bytes, j: Json, r: RequestSeen)
    requires Delivers(l, v, e, signature, "request", j) && CarriesRequest(j, r.nonce) && r.sender == e.sender
    ensures Judge(l, v) == AsRequest(r)
  {
    DeliveredIsJudged(l, v, e, signature, "request", j);
    RequestDecodesExactly(e.sender, j, r);
    assert MSG_TYPE_PARTIAL != "request" by { assert MSG_TYPE_PARTIAL[0] != "request"[0]; }
  }

  lemma CountedIsRequest(l: Listener, v: Json, r: RequestSeen)
    requires Judge(l, v) == AsRequest(r)
    ensures IsRequest(l, v, r)
  {
    var e, signature, msgType, j := CountedIsDelivered(l, v);
    RequestDecodesExactly(e.sender, j, r);
    assert Delivers(l, v, e, signature, "request", j);
  }

  // ----- what a connection was

  predicate IsBarrier(v: Json, token: string) {
    v == Obj(map["btc_policy_wiretap_barrier" := Str(token)])
  }

  lemma BarrierExactly(v: Json, token: string)
    ensures BarrierToken(v) == Some(token) <==> IsBarrier(v, token)
  {
    if BarrierToken(v) == Some(token) {
      assert WIRETAP_BARRIER_FIELD in v.fields;
      assert |v.fields.Keys - {WIRETAP_BARRIER_FIELD}| == 0;
      assert v.fields.Keys == {WIRETAP_BARRIER_FIELD};
      assert v.fields == map[WIRETAP_BARRIER_FIELD := Str(token)];
    }
  }

  /** A leak for a commitment: a signed partial whose payload names it as its commitment. */
  ghost predicate LeaksFor(l: Listener, v: Json, id: string) {
    exists e, signature, j, p ::
      Delivers(l, v, e, signature, "partial", j) && CarriesPartial(l.codec, j, p) && TextAt(j, "commitment_id", id)
  }

  /** A body that is accounted for as something other than a partial for id leaks none. */
  lemma NoLeak(l: Listener, v: Json, id: string)
    requires match Judge(l, v) case AsPartial(p) => p.commitmentId != id case _ => true
    ensures !LeaksFor(l, v, id)
  {
    if e, signature, j, p :|
      Delivers(l, v, e, signature, "partial", j) && CarriesPartial(l.codec, j, p) && TextAt(j, "commitment_id", id)
    {
      var seen := p.(sender := e.sender);
      assert CarriesPartial(l.codec, j, seen) && IsPartial(l, v, seen);
      PartialExactly(l, v, seen);
    }
  }

  /** A barrier has no room for an envelope. */
  lemma BarrierCarriesNothing(l: Listener, v: Json, token: string, id: string)
    requires IsBarrier(v, token)
    ensures !LeaksFor(l, v, id)
  {
    assert "msg_type" != "btc_policy_wiretap_barrier" by { assert "msg_type"[0] != "btc_policy_wiretap_barrier"[0]; }
    assert !HasText(v, "msg_type");
  }
}

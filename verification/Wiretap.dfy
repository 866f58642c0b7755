// What the adversary's listener records: envelopes are authenticated against the manifest
// and every recorded body lands in exactly one of three places.
module Wiretap {
  import opened Basics
  import opened Json
  import Envelope
  import ChannelRead

  type Bytes = seq<byte>

  const PROTOCOL_VERSION: u32 := 2
  const MSG_TYPE_REQUEST := "request"
  const MSG_TYPE_PARTIAL := "partial"
  const WIRETAP_BARRIER_FIELD := "btc_policy_wiretap_barrier"

  /** The codecs and the signature check the listener calls, taken as given functions. */
  datatype Codec = Codec(
    hex: string -> Option<Bytes>,
    base64: string -> Option<Bytes>,
    json: Bytes -> Option<Json>,
    utf8: string -> Bytes,
    txid: string -> Option<Bytes>,
    der: Bytes -> Option<Bytes>,
    contentLength: Bytes -> nat,
    verify: (Bytes, Bytes, Bytes) -> bool)

  datatype Listener = Listener(
    walletId: Bytes,
    manifestHash: Bytes,
    recipient: u16,
    channelKeys: seq<Bytes>,
    codec: Codec)

  datatype PartialSeen = PartialSeen(
    commitmentId: string,
    walletId: Bytes,
    txid: Bytes,
    signer: u16,
    sender: u16,
    input: u32,
    sighashType: u32,
    spendPurpose: string,
    userSigHash: Bytes,
    partialSig: Bytes)

  datatype RequestSeen = RequestSeen(sender: u16, nonce: string)

  /** Where one body is accounted for. */
  datatype Verdict = AsPartial(partial: PartialSeen) | AsRequest(request: RequestSeen) | AsUndecoded

  datatype Inner = Inner(
    partials: map<string, seq<PartialSeen>>,
    requests: seq<RequestSeen>,
    undecoded: nat)

  const EMPTY: Inner := Inner(map[], [], 0)

  // ----- decoding one envelope

  function HexOf(c: Codec, v: Json, key: string, width: nat): Option<Bytes> {
    match GetStr(v, key)
    case None => None
    case Some(text) =>
      match c.hex(text)
      case Some(b) => if |b| == width then Some(b) else None
      case None => None
  }

  function Bounded(v: Json, key: string, max: nat): Option<nat> {
    match GetU64(v, key)
    case Some(n) => if n <= max then Some(n) else None
    case None => None
  }

  /** The nine signed fields of an envelope, if each is present and well typed. */
  function Fields(c: Codec, v: Json): Option<Envelope.Envelope> {
    var msgType, payload := GetStr(v, "msg_type"), GetStr(v, "payload_b64");
    var version := Bounded(v, "protocol_version", U32_MAX);
    var wallet, manifest := HexOf(c, v, "wallet_id", 32), HexOf(c, v, "manifest_hash", 32);
    var sender, recipient := Bounded(v, "sender_node_id", 0xFFFF), Bounded(v, "recipient_node_id", 0xFFFF);
    var nonce, timestamp := HexOf(c, v, "nonce", 16), GetU64(v, "timestamp");
    if msgType.None? || version.None? || wallet.None? || manifest.None? || sender.None? || recipient.None?
       || payload.None? || nonce.None? || timestamp.None? then None
    else
      Some(Envelope.Envelope(c.utf8(msgType.value), version.value, wallet.value, manifest.value,
                             sender.value, recipient.value, c.utf8(payload.value), nonce.value, timestamp.value))
  }

  function Signature(c: Codec, v: Json): Option<Bytes> {
    match GetStr(v, "channel_sig")
    case None => None
    case Some(text) => match c.hex(text) case None => None case Some(b) => c.der(b)
  }

  /** The envelope names this wallet, manifest and recipient, and another manifest member
      as sender, whose channel key signed exactly these fields. */
  predicate Endorsed(l: Listener, e: Envelope.Envelope, signature: Bytes) {
    && e.protocolVersion == PROTOCOL_VERSION
    && e.walletId == l.walletId
    && e.manifestHash == l.manifestHash
    && e.recipient == l.recipient
    && e.sender != e.recipient
    && e.sender < |l.channelKeys|
    && l.codec.verify(l.channelKeys[e.sender], Envelope.Preimage(e), signature)
  }

  function Authenticate(l: Listener, v: Json): Option<(u16, string, Bytes)> {
    var fields, signature := Fields(l.codec, v), Signature(l.codec, v);
    if fields.None? || signature.None? || !Endorsed(l, fields.value, signature.value) then None
    else
      match l.codec.base64(GetStr(v, "payload_b64").value)
      case None => None
      case Some(payload) => Some((fields.value.sender, GetStr(v, "msg_type").value, payload))
  }

  function DecodePartial(c: Codec, sender: u16, p: Json): Option<PartialSeen> {
    var commitmentId, purpose := GetStr(p, "commitment_id"), GetStr(p, "spend_purpose");
    var wallet, userSigHash := HexOf(c, p, "wallet_id", 32), HexOf(c, p, "user_sig_hash", 32);
    var txid := match GetStr(p, "txid") case Some(t) => c.txid(t) case None => None;
    var signer, input := Bounded(p, "signer_node_id", 0xFFFF), Bounded(p, "input", U32_MAX);
    var sighashType := Bounded(p, "sighash_type", U32_MAX);
    var sig := match GetStr(p, "partial_sig")
               case Some(t) => (match c.hex(t) case Some(b) => c.der(b) case None => None)
               case None => None;
    if commitmentId.None? || purpose.None? || wallet.None? || userSigHash.None? || txid.None?
       || signer.None? || input.None? || sighashType.None? || sig.None? then None
    else
      Some(PartialSeen(commitmentId.value, wallet.value, txid.value, signer.value, sender, input.value,
                       sighashType.value, purpose.value, userSigHash.value, sig.value))
  }

  function DecodeRequest(sender: u16, r: Json): Option<RequestSeen> {
    var body := if Get(r, "spend").Some? then Get(r, "spend") else Get(r, "refresh");
    if body.None? then None
    else
      match GetStr(body.value, "nonce")
      case Some(nonce) => Some(RequestSeen(sender, nonce))
      case None => None
  }

  /** How an envelope is accounted for. */
  function Judge(l: Listener, v: Json): Verdict {
    match Authenticate(l, v)
    case None => AsUndecoded
    case Some((sender, msgType, payload)) => JudgePayload(l.codec, sender, msgType, payload)
  }

  /** How an authenticated payload is accounted for. */
  function JudgePayload(c: Codec, sender: u16, msgType: string, payload: Bytes): Verdict {
    match c.json(payload)
    case None => AsUndecoded
    case Some(p) =>
      if msgType == MSG_TYPE_PARTIAL then
        match DecodePartial(c, sender, p) case Some(seen) => AsPartial(seen) case None => AsUndecoded
      else if msgType == MSG_TYPE_REQUEST then
        match DecodeRequest(sender, p) case Some(seen) => AsRequest(seen) case None => AsUndecoded
      else AsUndecoded
  }

  function PartialsFor(inner: Inner, id: string): seq<PartialSeen> {
    if id in inner.partials then inner.partials[id] else []
  }

  function Store(inner: Inner, v: Verdict): Inner {
    match v
    case AsPartial(seen) =>
      inner.(partials := inner.partials[seen.commitmentId := PartialsFor(inner, seen.commitmentId) + [seen]])
    case AsRequest(seen) => inner.(requests := inner.requests + [seen])
    case AsUndecoded => inner.(undecoded := inner.undecoded + 1)
  }

  /** The record; its log is every body accounted for since it was made, in order. */
  class Wiretap {
    const listener: Listener
    var partials: map<string, seq<PartialSeen>>
    var requests: seq<RequestSeen>
    var undecoded: nat
    ghost var log: seq<Verdict>

    ghost function State(): Inner
      reads this
    {
      Inner(partials, requests, undecoded)
    }

    ghost predicate Valid()
      reads this
    {
      State() == Replay(log)
    }

    constructor (l: Listener)
      ensures Valid() && listener == l && log == [] && State() == EMPTY
    {
      listener := l;
      partials, requests, undecoded := map[], [], 0;
      log := [];
    }

    method RecordUnreadable()
      requires Valid()
      modifies this
      ensures Valid() && log == old(log) + [AsUndecoded]
      ensures State() == Store(old(State()), AsUndecoded)
    {
      undecoded := undecoded + 1;
      Append(AsUndecoded);
    }

    /** Writes the history that the fields already show. */
    ghost method Append(v: Verdict)
      requires State() == Store(Replay(log), v)
      modifies this`log
      ensures Valid() && log == old(log) + [v]
    {
      ReplayGrows(log, v);
      log := log + [v];
    }

    method Record(envelope: Json)
      requires Valid()
      modifies this
      ensures Valid() && log == old(log) + [Judge(listener, envelope)]
      ensures State() == Store(old(State()), Judge(listener, envelope))
    {
      var authenticated := Authenticate(listener, envelope);
      if authenticated.None? { RecordUnreadable(); return; }
      var (sender, msgType, payload) := authenticated.value;
      RecordPayload(sender, msgType, payload);
    }

    method RecordPayload(sender: u16, msgType: string, payload: Bytes)
      requires Valid()
      modifies this
      ensures Valid() && log == old(log) + [JudgePayload(listener.codec, sender, msgType, payload)]
      ensures State() == Store(old(State()), JudgePayload(listener.codec, sender, msgType, payload))
    {
      var body := listener.codec.json(payload);
      if msgType == MSG_TYPE_PARTIAL && body.Some? {
        RecordPartial(DecodePartial(listener.codec, sender, body.value));
      } else if msgType == MSG_TYPE_REQUEST && body.Some? {
        RecordRequest(DecodeRequest(sender, body.value));
      } else {
        RecordUnreadable();
      }
    }

    method RecordPartial(seen: Option<PartialSeen>)
      requires Valid()
      modifies this
      ensures var v := if seen.Some? then AsPartial(seen.value) else AsUndecoded;
        Valid() && log == old(log) + [v] && State() == Store(old(State()), v)
    {
      if seen.None? { RecordUnreadable(); return; }
      var id := seen.value.commitmentId;
      partials := partials[id := (if id in partials then partials[id] else []) + [seen.value]];
      Append(AsPartial(seen.value));
    }

    method RecordRequest(seen: Option<RequestSeen>)
      requires Valid()
      modifies this
      ensures var v := if seen.Some? then AsRequest(seen.value) else AsUndecoded;
        Valid() && log == old(log) + [v] && State() == Store(old(State()), v)
    {
      if seen.None? { RecordUnreadable(); return; }
      requests := requests + [seen.value];
      Append(AsRequest(seen.value));
    }

    /** Every partial ever accounted for under the id, each once, in arrival order. */
    method HonestPartialsFor(id: string) returns (seen: seq<PartialSeen>)
      requires Valid()
      ensures seen == SelectPartials(log, id)
    {
      ReplayCountsOnce(log, id);
      seen := if id in partials then partials[id] else [];
    }

    /** How many of all the bodies accounted for could not be decoded. */
    method Undecoded() returns (n: nat)
      requires Valid()
      ensures n == CountUndecoded(log)
    {
      ReplayCountsOnce(log, "");
      n := undecoded;
    }
  }

  // ----- serving one connection

  /** What a connection turned out to be. */
  datatype Served = Poke | Unreadable | Barrier(token: string) | Judged(verdict: Verdict)

  function BarrierToken(v: Json): Option<string> {
    if v.Obj? && |v.fields| == 1 then GetStr(v, WIRETAP_BARRIER_FIELD) else None
  }

  function Serve(l: Listener, s: ChannelRead.Stream): Served {
    match ChannelRead.ReadResult(s, l.codec.contentLength)
    case Nothing => Poke
    case Failed => Unreadable
    case Body(bytes) =>
      match l.codec.json(bytes)
      case None => Judged(Judge(l, Null))
      case Some(v) => if BarrierToken(v).Some? then Barrier(BarrierToken(v).value) else Judged(Judge(l, v))
  }

  /** The entry a served connection leaves, if any: pokes and barriers leave none. */
  function Entry(served: Served): Option<Verdict> {
    match served
    case Poke => None
    case Barrier(_) => None
    case Unreadable => Some(AsUndecoded)
    case Judged(v) => Some(v)
  }

  function Entries(served: Served): seq<Verdict> {
    match Entry(served) case None => [] case Some(v) => [v]
  }

  function Account(inner: Inner, served: Served): Inner {
    match Entry(served) case None => inner case Some(v) => Store(inner, v)
  }

  method ServeOne(s: ChannelRead.Stream, wiretap: Wiretap) returns (answer: Option<string>)
    requires wiretap.Valid()
    modifies wiretap
    ensures wiretap.Valid()
    ensures wiretap.log == old(wiretap.log) + Entries(Serve(wiretap.listener, s))
    ensures wiretap.State() == Account(old(wiretap.State()), Serve(wiretap.listener, s))
    ensures answer == match Serve(wiretap.listener, s) case Barrier(token) => Some(token) case _ => None
  {
    answer := None;
    var l := wiretap.listener;
    var read := ChannelRead.ReadChannelBody(s, l.codec.contentLength);
    match read {
      case Nothing => return;
      case Failed => wiretap.RecordUnreadable(); return;
      case Body(bytes) =>
        var envelope := l.codec.json(bytes);
        if envelope.Some? && BarrierToken(envelope.value).Some? {
          answer := BarrierToken(envelope.value);
        } else if envelope.Some? {
          wiretap.Record(envelope.value);
        } else {
          wiretap.Record(Null);
        }
    }
  }

  // ----- what the record is evidence of

  /** A body counted as a partial or request was signed, over exactly its nine fields, by a
      manifest member other than this node, for this node, wallet and manifest. */
  lemma CountedMeansEndorsed(l: Listener, v: Json) returns (e: Envelope.Envelope, signature: Bytes)
    requires Judge(l, v) != AsUndecoded
    ensures Fields(l.codec, v) == Some(e) && Envelope.Typed(e) && Endorsed(l, e, signature)
    ensures Judge(l, v).AsPartial? ==> Judge(l, v).partial.sender == e.sender
    ensures Judge(l, v).AsRequest? ==> Judge(l, v).request.sender == e.sender
  {
    e, signature := Fields(l.codec, v).value, Signature(l.codec, v).value;
  }

  /** What is counted has one of the two message types, and a 16-byte nonce. */
  lemma CountedShape(l: Listener, v: Json)
    requires Judge(l, v) != AsUndecoded
    ensures Fields(l.codec, v).Some? && Envelope.Typed(Fields(l.codec, v).value)
    ensures |Fields(l.codec, v).value.nonce| == 16
    ensures Fields(l.codec, v).value.msgType in {l.codec.utf8(MSG_TYPE_PARTIAL), l.codec.utf8(MSG_TYPE_REQUEST)}
  {
    var e, _ := CountedMeansEndorsed(l, v);
  }

  /** One signed preimage can be counted for only one set of fields, at any payload length:
      two counted envelopes over the same preimage agree in all nine. */
  lemma PreimageFixesCount(l: Listener, v: Json, w: Json)
    requires Judge(l, v) != AsUndecoded && Judge(l, w) != AsUndecoded
    requires |l.codec.utf8(MSG_TYPE_PARTIAL)| < Envelope.U32_SIZE && |l.codec.utf8(MSG_TYPE_REQUEST)| < Envelope.U32_SIZE
    requires Fields(l.codec, v).Some? && Fields(l.codec, w).Some?
    requires Envelope.Preimage(Fields(l.codec, v).value) == Envelope.Preimage(Fields(l.codec, w).value)
    ensures Fields(l.codec, v) == Fields(l.codec, w)
  {
    CountedShape(l, v);
    CountedShape(l, w);
    Envelope.PreimageBindsFields(Fields(l.codec, v).value, Fields(l.codec, w).value);
  }

  // ----- the record as a replay of its log

  function Replay(log: seq<Verdict>): Inner {
    if log == [] then EMPTY else Store(Replay(log[..|log| - 1]), log[|log| - 1])
  }

  lemma ReplayGrows(log: seq<Verdict>, v: Verdict)
    ensures Replay(log + [v]) == Store(Replay(log), v)
  {
    assert (log + [v])[..|log|] == log;
  }

  function SelectPartials(log: seq<Verdict>, id: string): seq<PartialSeen> {
    if log == [] then []
    else
      var last := log[|log| - 1];
      SelectPartials(log[..|log| - 1], id) +
      if last.AsPartial? && last.partial.commitmentId == id then [last.partial] else []
  }

  function CountUndecoded(log: seq<Verdict>): nat {
    if log == [] then 0
    else CountUndecoded(log[..|log| - 1]) + if log[|log| - 1].AsUndecoded? then 1 else 0
  }

  function SelectRequests(log: seq<Verdict>): seq<RequestSeen> {
    if log == [] then []
    else
      var last := log[|log| - 1];
      SelectRequests(log[..|log| - 1]) + if last.AsRequest? then [last.request] else []
  }

  /** Each entry is counted exactly once, in order, and nothing else is. */
  lemma {:induction false} ReplayCountsOnce(log: seq<Verdict>, id: string)
    ensures PartialsFor(Replay(log), id) == SelectPartials(log, id)
    ensures Replay(log).requests == SelectRequests(log)
    ensures Replay(log).undecoded == CountUndecoded(log)
    ensures |log| == CountUndecoded(log) + |SelectRequests(log)| + CountPartials(log)
    ensures id in Replay(log).partials ==> Replay(log).partials[id] != []
  {
    if log != [] { ReplayCountsOnce(log[..|log| - 1], id); }
  }

  function CountPartials(log: seq<Verdict>): nat {
    if log == [] then 0
    else CountPartials(log[..|log| - 1]) + if log[|log| - 1].AsPartial? then 1 else 0
  }

  /** The k-th partial kept under an id is one particular entry: the one with k before it. */
  lemma {:induction false} SelectedFrom(log: seq<Verdict>, id: string, k: nat) returns (i: nat)
    requires k < |SelectPartials(log, id)|
    ensures i < |log| && log[i] == AsPartial(SelectPartials(log, id)[k])
    ensures log[i].partial.commitmentId == id && |SelectPartials(log[..i], id)| == k
    decreases |log|
  {
    var n := |log| - 1;
    if k < |SelectPartials(log[..n], id)| {
      i := SelectedFrom(log[..n], id, k);
      assert log[..n][..i] == log[..i];
    } else {
      i := n;
    }
  }

  function JudgeAll(l: Listener, bodies: seq<Json>): seq<Verdict> {
    seq(|bodies|, i requires 0 <= i < |bodies| => Judge(l, bodies[i]))
  }

  lemma StoredCameFrom(l: Listener, bodies: seq<Json>, id: string, k: nat) returns (i: nat)
    requires k < |PartialsFor(Replay(JudgeAll(l, bodies)), id)|
    ensures i < |bodies| && |SelectPartials(JudgeAll(l, bodies[..i]), id)| == k
    ensures Judge(l, bodies[i]) == AsPartial(PartialsFor(Replay(JudgeAll(l, bodies)), id)[k])
    ensures PartialsFor(Replay(JudgeAll(l, bodies)), id)[k].commitmentId == id
  {
    var log := JudgeAll(l, bodies);
    ReplayCountsOnce(log, id);
    i := SelectedFrom(log, id, k);
    assert log[..i] == JudgeAll(l, bodies[..i]);
  }

  /** Nothing is kept that was not received and signed: after any bodies, the k-th partial
      kept under an id came in one particular body of them, for that id, endorsed over its
      nine fields by the sender it is attributed to. */
  lemma StoredMeansEndorsed(l: Listener, bodies: seq<Json>, id: string, k: nat)
    returns (i: nat, e: Envelope.Envelope, signature: Bytes)
    requires k < |PartialsFor(Replay(JudgeAll(l, bodies)), id)|
    ensures i < |bodies| && |SelectPartials(JudgeAll(l, bodies[..i]), id)| == k
    ensures Judge(l, bodies[i]) == AsPartial(PartialsFor(Replay(JudgeAll(l, bodies)), id)[k])
    ensures PartialsFor(Replay(JudgeAll(l, bodies)), id)[k].commitmentId == id
    ensures Fields(l.codec, bodies[i]) == Some(e) && Endorsed(l, e, signature)
    ensures PartialsFor(Replay(JudgeAll(l, bodies)), id)[k].sender == e.sender
  {
    i := StoredCameFrom(l, bodies, id, k);
    e, signature := CountedMeansEndorsed(l, bodies[i]);
  }

  /** A clean record rules entries out: no undecoded entry, and none for an absent id. */
  lemma {:induction false} CleanRecordRulesOut(log: seq<Verdict>, id: string, i: nat)
    requires i < |log|
    ensures CountUndecoded(log) == 0 ==> !log[i].AsUndecoded?
    ensures SelectPartials(log, id) == [] ==> !(log[i].AsPartial? && log[i].partial.commitmentId == id)
    decreases |log|
  {
    if i < |log| - 1 { CleanRecordRulesOut(log[..|log| - 1], id, i); }
  }
}

// Reading one request body off a connection that delivers its bytes in arbitrary pieces.
module ChannelRead {
  import opened Basics

  type Bytes = seq<byte>

  const HEADER_LIMIT: nat := 8 * 1024 * 1024
  const BUFFER: nat := 8192

  /** The longest header block that every fragmentation gets to the end of: the limit is
      tested after a read, and only where that read did not end the block. */
  const LONGEST_HEADER: nat := HEADER_LIMIT + 1

  const CR: byte := 13
  const LF: byte := 10

  /** A connection: the pieces its reads return, and whether the read after the last piece
      fails or reports the end of the stream. */
  datatype Stream = Stream(chunks: seq<Bytes>, fails: bool)

  predicate Readable(s: Stream) {
    forall i :: 0 <= i < |s.chunks| ==> 0 < |s.chunks[i]| <= BUFFER
  }

  /** How a connection was read: it failed, it carried nothing, or it carried this body. */
  datatype Read = Failed | Nothing | Body(bytes: Bytes)

  function Concat(chunks: seq<Bytes>): Bytes {
    if chunks == [] then [] else Concat(chunks[..|chunks| - 1]) + chunks[|chunks| - 1]
  }

  /** The bytes the first i reads delivered. */
  function Prefix(s: Stream, i: nat): Bytes
    requires i <= |s.chunks|
  {
    Concat(s.chunks[..i])
  }

  function Whole(s: Stream): Bytes { Concat(s.chunks) }

  // ----- the header terminator

  predicate EndsAt(raw: Bytes, e: nat) {
    4 <= e <= |raw| && raw[e - 4] == CR && raw[e - 3] == LF && raw[e - 2] == CR && raw[e - 1] == LF
  }

  function FindFrom(raw: Bytes, e: nat): (r: Option<nat>)
    ensures r.Some? ==> e <= r.value && EndsAt(raw, r.value)
    decreases |raw| - e
  {
    if e > |raw| then None else if EndsAt(raw, e) then Some(e) else FindFrom(raw, e + 1)
  }

  /** Where the body starts: just past the first blank line. */
  function HeaderEnd(raw: Bytes): Option<nat> { FindFrom(raw, 4) }

  lemma {:induction false} FindFromIsFirst(raw: Bytes, e: nat)
    ensures FindFrom(raw, e).Some? ==>
      forall k :: e <= k < FindFrom(raw, e).value ==> !EndsAt(raw, k)
    ensures FindFrom(raw, e).None? ==> forall k :: e <= k ==> !EndsAt(raw, k)
    decreases |raw| - e
  {
    if e <= |raw| && !EndsAt(raw, e) { FindFromIsFirst(raw, e + 1); }
  }

  predicate BlankLineEndsAt(raw: Bytes, k: nat) {
    4 <= k <= |raw| && raw[k - 4..k] == [13, 10, 13, 10]
  }

  /** The body starts just past the first carriage return, line feed, carriage return, line
      feed, and nowhere if there is none. */
  lemma HeaderEndExactly(raw: Bytes)
    ensures
      match HeaderEnd(raw)
      case Some(e) => BlankLineEndsAt(raw, e) && forall k :: 4 <= k < e ==> !BlankLineEndsAt(raw, k)
      case None => forall k :: 4 <= k ==> !BlankLineEndsAt(raw, k)
  {
    FindFromIsFirst(raw, 4);
    forall k: nat ensures EndsAt(raw, k) <==> BlankLineEndsAt(raw, k) {
      if 4 <= k <= |raw| {
        var w := raw[k - 4..k];
        assert w[0] == raw[k - 4] && w[1] == raw[k - 3] && w[2] == raw[k - 2] && w[3] == raw[k - 1];
      }
    }
  }

  /** A terminator found early is the one the whole stream has; until its last byte has
      arrived none is found. */
  lemma HeaderEndOfPrefix(raw: Bytes, more: Bytes, e: nat)
    requires HeaderEnd(raw + more) == Some(e)
    ensures HeaderEnd(raw) == if e <= |raw| then Some(e) else None
  {
    FindFromIsFirst(raw + more, 4);
    FindFromIsFirst(raw, 4);
    assert forall k :: 4 <= k <= |raw| ==> (EndsAt(raw, k) <==> EndsAt(raw + more, k));
  }

  // ----- the two loops

  /** The header loop ended: at a terminator after so many reads, at the end of the
      stream, or by giving up on a header block past the limit. */
  datatype Headers = Found(start: nat, readCount: nat) | Ended | Abandoned

  function ReadHeaders(s: Stream, i: nat): Headers
    requires i <= |s.chunks|
    decreases |s.chunks| - i
  {
    if i == |s.chunks| then Ended
    else
      var raw := Prefix(s, i + 1);
      match HeaderEnd(raw)
      case Some(start) => Found(start, i + 1)
      case None => if |raw| > HEADER_LIMIT then Abandoned else ReadHeaders(s, i + 1)
  }

  function ReadBody(s: Stream, start: nat, length: nat, i: nat): Read
    requires i <= |s.chunks| && start <= |Prefix(s, i)|
    decreases |s.chunks| - i
  {
    if |Prefix(s, i)| - start >= length then Body(Prefix(s, i)[start..])
    else if i == |s.chunks| then (if s.fails then Failed else Body(Prefix(s, i)[start..]))
    else
      PrefixGrows(s, i);
      ReadBody(s, start, length, i + 1)
  }

  lemma PrefixGrows(s: Stream, i: nat)
    requires i < |s.chunks|
    ensures Prefix(s, i + 1) == Prefix(s, i) + s.chunks[i]
  {
    assert s.chunks[..i + 1][..i] == s.chunks[..i];
  }

  lemma {:induction false} FoundInside(s: Stream, i: nat)
    requires i <= |s.chunks|
    ensures ReadHeaders(s, i).Found? ==>
      ReadHeaders(s, i).readCount <= |s.chunks| && 4 <= ReadHeaders(s, i).start <= |Prefix(s, ReadHeaders(s, i).readCount)|
    decreases |s.chunks| - i
  {
    if i < |s.chunks| {
      FindFromIsFirst(Prefix(s, i + 1), 4);
      FoundInside(s, i + 1);
    }
  }

  /** What a connection is read as; the declared length is a function of the header bytes. */
  function ReadResult(s: Stream, declared: Bytes -> nat): Read {
    match ReadHeaders(s, 0)
    case Abandoned => Body([])
    case Ended => if s.fails then Failed else if Whole(s) == [] then Nothing else Body([])
    case Found(start, readCount) =>
      FoundInside(s, 0);
      ReadBody(s, start, declared(Prefix(s, readCount)[..start]), readCount)
  }

  /** The header loop: reads until the blank line, the end, a failure or the limit. */
  method ReadHeaderBlock(s: Stream) returns (h: Headers, raw: Bytes)
    ensures h == ReadHeaders(s, 0)
    ensures h.Found? ==> h.readCount <= |s.chunks| && raw == Prefix(s, h.readCount)
    ensures h.Ended? ==> raw == Whole(s)
    ensures h.Abandoned? ==> raw != []
  {
    raw := [];
    var i: nat := 0;
    assert Prefix(s, 0) == [];
    while i < |s.chunks|
      invariant i <= |s.chunks| && raw == Prefix(s, i)
      invariant ReadHeaders(s, i) == ReadHeaders(s, 0)
    {
      PrefixGrows(s, i);
      raw := raw + s.chunks[i];
      i := i + 1;
      var start := HeaderEnd(raw);
      if start.Some? { return Found(start.value, i), raw; }
      if |raw| > HEADER_LIMIT { return Abandoned, raw; }
    }
    assert s.chunks[..i] == s.chunks;
    return Ended, raw;
  }

  method ReadChannelBody(s: Stream, declared: Bytes -> nat) returns (r: Read)
    ensures r == ReadResult(s, declared)
  {
    var h, raw := ReadHeaderBlock(s);
    if h.Ended? && s.fails { return Failed; }
    if !h.Found? { return if raw == [] then Nothing else Body([]); }
    FoundInside(s, 0);
    var start, i := h.start, h.readCount;
    var length := declared(raw[..start]);
    while |raw| - start < length
      invariant i <= |s.chunks| && raw == Prefix(s, i) && start <= |raw|
      invariant ReadBody(s, start, length, i) == ReadResult(s, declared)
      decreases |s.chunks| - i
    {
      if i == |s.chunks| {
        if s.fails { return Failed; }
        break;
      }
      PrefixGrows(s, i);
      raw := raw + s.chunks[i];
      i := i + 1;
    }
    return Body(raw[start..]);
  }

  // ----- every fragmentation

  lemma {:induction false} PrefixOfWhole(s: Stream, i: nat)
    requires i <= |s.chunks|
    ensures |Prefix(s, i)| <= |Whole(s)| && Prefix(s, i) == Whole(s)[..|Prefix(s, i)|]
    decreases |s.chunks| - i
  {
    if i == |s.chunks| {
      assert s.chunks[..i] == s.chunks;
    } else {
      PrefixGrows(s, i);
      PrefixOfWhole(s, i + 1);
    }
  }

  lemma PrefixHeader(s: Stream, i: nat, e: nat)
    requires i <= |s.chunks| && HeaderEnd(Whole(s)) == Some(e)
    ensures HeaderEnd(Prefix(s, i)) == if e <= |Prefix(s, i)| then Some(e) else None
    ensures e <= |Whole(s)| && (e <= |Prefix(s, i)| ==> Prefix(s, i)[..e] == Whole(s)[..e])
  {
    var n := |Prefix(s, i)|;
    PrefixOfWhole(s, i);
    assert Whole(s) == Prefix(s, i) + Whole(s)[n..];
    HeaderEndOfPrefix(Prefix(s, i), Whole(s)[n..], e);
  }

  /** The header loop stops at the first read that completes the header block. */
  lemma {:induction false} HeadersFound(s: Stream, e: nat, i: nat, n: nat)
    requires HeaderEnd(Whole(s)) == Some(e)
    requires i < n <= |s.chunks| && |Prefix(s, n - 1)| < e <= |Prefix(s, n)| && |Prefix(s, n - 1)| <= HEADER_LIMIT
    ensures ReadHeaders(s, i) == Found(e, n)
    decreases n - i
  {
    PrefixHeader(s, i + 1, e);
    if i + 1 < n {
      PrefixMonotone(s, i + 1, n - 1);
      HeadersFound(s, e, i + 1, n);
    }
  }

  lemma {:induction false} PrefixMonotone(s: Stream, i: nat, j: nat)
    requires i <= j <= |s.chunks|
    ensures |Prefix(s, i)| <= |Prefix(s, j)|
    decreases j - i
  {
    if i < j {
      PrefixGrows(s, i);
      PrefixMonotone(s, i + 1, j);
    }
  }

  /** The body loop stops at the first read that completes the declared length. */
  lemma {:induction false} BodyStops(s: Stream, start: nat, length: nat, i: nat, n: nat)
    requires i <= n <= |s.chunks| && start <= |Prefix(s, i)|
    requires start + length <= |Prefix(s, n)|
    requires n > i ==> |Prefix(s, n - 1)| < start + length
    ensures ReadBody(s, start, length, i) == Body(Prefix(s, n)[start..])
    decreases n - i
  {
    if i < n {
      PrefixMonotone(s, i, n - 1);
      PrefixGrows(s, i);
      BodyStops(s, start, length, i + 1, n);
    }
  }

  lemma {:induction false} FirstReaching(s: Stream, target: nat, n: nat) returns (m: nat)
    requires 0 < target && n <= |s.chunks| && target <= |Prefix(s, n)|
    ensures 0 < m <= n && |Prefix(s, m - 1)| < target <= |Prefix(s, m)|
  {
    assert Prefix(s, 0) == [];
    if |Prefix(s, n - 1)| < target { m := n; } else { m := FirstReaching(s, target, n - 1); }
  }

  /** Exactly what is read, for any fragmentation: the bytes delivered by the read that
      first completes header and declared body, past the header. */
  lemma ReadsToBoundary(s: Stream, declared: Bytes -> nat, e: nat, n: nat)
    requires HeaderEnd(Whole(s)) == Some(e) && e <= LONGEST_HEADER
    requires 0 < n <= |s.chunks|
    requires |Prefix(s, n - 1)| < e + declared(Whole(s)[..e]) <= |Prefix(s, n)|
    ensures ReadResult(s, declared) == Body(Prefix(s, n)[e..])
  {
    FindFromIsFirst(Whole(s), 4);
    var m := FirstReaching(s, e, n);
    HeadersFound(s, e, 0, m);
    PrefixHeader(s, m, e);
    BodyStops(s, e, declared(Whole(s)[..e]), m, n);
  }

  lemma {:induction false} BodyShort(s: Stream, start: nat, length: nat, i: nat)
    requires i <= |s.chunks| && start <= |Prefix(s, i)| && start <= |Whole(s)| < start + length
    ensures ReadBody(s, start, length, i) == if s.fails then Failed else Body(Whole(s)[start..])
    decreases |s.chunks| - i
  {
    PrefixOfWhole(s, i);
    if i < |s.chunks| {
      PrefixGrows(s, i);
      BodyShort(s, start, length, i + 1);
    } else {
      assert s.chunks[..i] == s.chunks;
    }
  }

  /** A stream cut off inside its body: the part that came, or a failure if the read failed. */
  lemma ReadsShortBody(s: Stream, declared: Bytes -> nat, e: nat)
    requires HeaderEnd(Whole(s)) == Some(e) && e <= LONGEST_HEADER
    requires |Whole(s)| < e + declared(Whole(s)[..e])
    ensures ReadResult(s, declared) == if s.fails then Failed else Body(Whole(s)[e..])
  {
    FindFromIsFirst(Whole(s), 4);
    assert s.chunks[..|s.chunks|] == s.chunks;
    var m := FirstReaching(s, e, |s.chunks|);
    HeadersFound(s, e, 0, m);
    PrefixHeader(s, m, e);
    BodyShort(s, e, declared(Whole(s)[..e]), m);
  }

  /** Chunking independence: with its header under the limit and no byte past the declared
      body, a request reads as one body however it is fragmented. */
  lemma ChunkingIndependent(s: Stream, declared: Bytes -> nat, e: nat)
    requires Readable(s)
    requires HeaderEnd(Whole(s)) == Some(e) && e <= LONGEST_HEADER
    requires |Whole(s)| <= e + declared(Whole(s)[..e])
    ensures ReadResult(s, declared) ==
      if s.fails && |Whole(s)| < e + declared(Whole(s)[..e]) then Failed else Body(Whole(s)[e..])
  {
    FindFromIsFirst(Whole(s), 4);
    if |Whole(s)| < e + declared(Whole(s)[..e]) {
      ReadsShortBody(s, declared, e);
    } else {
      var n := |s.chunks|;
      assert s.chunks[..n] == s.chunks;
      assert n > 0;
      PrefixGrows(s, n - 1);
      ReadsToBoundary(s, declared, e, n);
    }
  }

  function Singles(bytes: Bytes): seq<Bytes> {
    seq(|bytes|, i requires 0 <= i < |bytes| => [bytes[i]])
  }

  lemma {:induction false} SinglesWhole(bytes: Bytes)
    ensures Concat(Singles(bytes)) == bytes
  {
    if bytes != [] {
      var n := |bytes| - 1;
      assert Singles(bytes)[..n] == Singles(bytes[..n]);
      SinglesWhole(bytes[..n]);
    }
  }

  lemma {:induction false} ConcatJoins(a: seq<Bytes>, b: seq<Bytes>)
    ensures Concat(a + b) == Concat(a) + Concat(b)
  {
    if b == [] {
      assert a + b == a;
    } else {
      var n := |b| - 1;
      assert (a + b)[..|a| + n] == a + b[..n];
      ConcatJoins(a, b[..n]);
    }
  }

  lemma ReadSingles(whole: Bytes, declared: Bytes -> nat, e: nat)
    requires HeaderEnd(whole) == Some(e) && e <= LONGEST_HEADER
    requires |whole| > e + declared(whole[..e])
    ensures ReadResult(Stream(Singles(whole), false), declared) == Body(whole[e..e + declared(whole[..e])])
  {
    var stop := e + declared(whole[..e]);
    SinglesWhole(whole);
    SinglesPrefix(whole, stop);
    SinglesPrefix(whole, stop - 1);
    ReadsToBoundary(Stream(Singles(whole), false), declared, e, stop);
    assert whole[..stop][e..] == whole[e..stop];
  }

  /** The three pieces one at a time, all together, and one at a time again. */
  function Lumped(x: Bytes, y: Bytes, z: Bytes): seq<Bytes> { Singles(x) + ([y] + Singles(z)) }

  lemma LumpedConcat(x: Bytes, y: Bytes, z: Bytes)
    ensures Concat(Lumped(x, y, z)) == x + (y + z)
  {
    SinglesWhole(x);
    SinglesWhole(z);
    ConcatJoins(Singles(x), [y] + Singles(z));
    ConcatJoins([y], Singles(z));
    ConcatOne(y);
  }

  lemma ConcatOne(bytes: Bytes)
    ensures Concat([bytes]) == bytes
  {
    assert [bytes][..0] == [];
  }

  lemma LumpedPrefix(x: Bytes, y: Bytes, z: Bytes)
    ensures
      var s := Stream(Lumped(x, y, z), false);
      |s.chunks| > |x| && Prefix(s, |x|) == x && Prefix(s, |x| + 1) == x + y
  {
    var s := Stream(Lumped(x, y, z), false);
    SinglesWhole(x);
    assert s.chunks[..|x|] == Singles(x) && s.chunks[|x|] == y;
    PrefixGrows(s, |x|);
  }

  /** Bytes one at a time, except that those from one place to another come together. */
  lemma Lump(whole: Bytes, from: nat, to: nat) returns (b: Stream)
    requires from < to <= |whole| && to - from <= BUFFER
    ensures Readable(b) && |b.chunks| > from && Whole(b) == whole && !b.fails
    ensures Prefix(b, from) == whole[..from] && Prefix(b, from + 1) == whole[..to]
  {
    var x, y, z := whole[..from], whole[from..to], whole[to..];
    b := Stream(Lumped(x, y, z), false);
    LumpedConcat(x, y, z);
    LumpedPrefix(x, y, z);
    Pieces(whole, from, to);
    LumpedReadable(x, y, z);
  }

  lemma Pieces(whole: Bytes, from: nat, to: nat)
    requires from <= to <= |whole|
    ensures whole[..from] + whole[from..to] == whole[..to]
    ensures whole[..from] + (whole[from..to] + whole[to..]) == whole
  {}

  lemma LumpedReadable(x: Bytes, y: Bytes, z: Bytes)
    requires 0 < |y| <= BUFFER
    ensures Readable(Stream(Lumped(x, y, z), false))
  {}

  lemma ReadStraddling(b: Stream, whole: Bytes, declared: Bytes -> nat, e: nat)
    requires HeaderEnd(whole) == Some(e) && e <= LONGEST_HEADER && Whole(b) == whole
    requires
      var stop := e + declared(whole[..e]);
      && 0 < stop < |whole| && |b.chunks| >= stop
      && Prefix(b, stop - 1) == whole[..stop - 1] && Prefix(b, stop) == whole[..stop + 1]
    ensures ReadResult(b, declared) == Body(whole[..e + declared(whole[..e]) + 1][e..])
  {
    ReadsToBoundary(b, declared, e, e + declared(whole[..e]));
  }

  /** One byte past the declared body and the result depends on the fragmentation: byte by
      byte it reads the body alone, with a surplus byte in the closing read it reads on. */
  lemma SurplusDependsOnChunking(whole: Bytes, declared: Bytes -> nat, e: nat)
    returns (a: Stream, b: Stream)
    requires HeaderEnd(whole) == Some(e) && e <= LONGEST_HEADER
    requires |whole| > e + declared(whole[..e])
    ensures Readable(a) && Readable(b) && Whole(a) == whole && Whole(b) == whole && !a.fails && !b.fails
    ensures ReadResult(a, declared) == Body(whole[e..e + declared(whole[..e])])
    ensures ReadResult(a, declared) != ReadResult(b, declared)
  {
    var stop := e + declared(whole[..e]);
    a := Stream(Singles(whole), false);
    FindFromIsFirst(whole, 4);
    b := Lump(whole, stop - 1, stop + 1);
    ReadStraddling(b, whole, declared, e);
    SinglesWhole(whole);
    ReadSingles(whole, declared, e);
    assert |whole[e..stop]| != |whole[..stop + 1][e..]|;
  }

  /** The exact condition: every complete delivery of these bytes reads alike if and only
      if nothing follows the declared body. */
  lemma IndependentIffNoSurplus(whole: Bytes, declared: Bytes -> nat, e: nat)
    requires HeaderEnd(whole) == Some(e) && e <= LONGEST_HEADER
    ensures |whole| <= e + declared(whole[..e]) <==>
      forall s: Stream :: Readable(s) && !s.fails && Whole(s) == whole ==>
        ReadResult(s, declared) == ReadResult(Stream(Singles(whole), false), declared)
  {
    SinglesWhole(whole);
    if |whole| <= e + declared(whole[..e]) {
      ChunkingIndependent(Stream(Singles(whole), false), declared, e);
      forall s: Stream | Readable(s) && !s.fails && Whole(s) == whole
        ensures ReadResult(s, declared) == ReadResult(Stream(Singles(whole), false), declared)
      {
        ChunkingIndependent(s, declared, e);
      }
    } else {
      var a, b := SurplusDependsOnChunking(whole, declared, e);
    }
  }

  // ----- the streams past the limit, and those with no header

  lemma PrefixWithoutHeader(s: Stream, i: nat)
    requires i <= |s.chunks| && HeaderEnd(Whole(s)).None?
    ensures HeaderEnd(Prefix(s, i)).None?
  {
    PrefixOfWhole(s, i);
    FindFromIsFirst(Whole(s), 4);
    FindFromIsFirst(Prefix(s, i), 4);
    assert forall k :: EndsAt(Prefix(s, i), k) ==> EndsAt(Whole(s), k);
  }

  lemma {:induction false} GivesUp(s: Stream, i: nat)
    requires i <= |s.chunks| && HeaderEnd(Whole(s)).None? && |Prefix(s, i)| <= HEADER_LIMIT
    ensures ReadHeaders(s, i) == if |Whole(s)| > HEADER_LIMIT then Abandoned else Ended
    decreases |s.chunks| - i
  {
    PrefixOfWhole(s, i);
    if i == |s.chunks| {
      assert s.chunks[..i] == s.chunks;
    } else {
      PrefixWithoutHeader(s, i + 1);
      PrefixOfWhole(s, i + 1);
      if |Prefix(s, i + 1)| <= HEADER_LIMIT { GivesUp(s, i + 1); }
    }
  }

  /** Without a blank line no fragmentation matters: nothing, an empty body, or a failure. */
  lemma NoHeaderReads(s: Stream, declared: Bytes -> nat)
    requires HeaderEnd(Whole(s)).None?
    ensures ReadResult(s, declared) ==
      if |Whole(s)| > 8_388_608 then Body([])
      else if s.fails then Failed
      else if Whole(s) == [] then Nothing else Body([])
  {
    assert Prefix(s, 0) == [];
    GivesUp(s, 0);
  }

  /** A header past the limit is abandoned, unless the very read that passes the limit
      carries its end too. */
  lemma {:induction false} LateHeader(s: Stream, i: nat, e: nat)
    requires Readable(s) && i <= |s.chunks| && |Prefix(s, i)| <= HEADER_LIMIT
    requires HeaderEnd(Whole(s)) == Some(e) && e > LONGEST_HEADER
    ensures ReadHeaders(s, i).Abandoned? || ReadHeaders(s, i).Found?
    ensures ReadHeaders(s, i).Found? ==>
      var n := ReadHeaders(s, i).readCount;
      ReadHeaders(s, i).start == e && n <= |s.chunks| && e <= |Prefix(s, n)| <= HEADER_LIMIT + BUFFER
    decreases |s.chunks| - i
  {
    PrefixOfWhole(s, i);
    FindFromIsFirst(Whole(s), 4);
    assert s.chunks[..|s.chunks|] == s.chunks;
    if i < |s.chunks| {
      PrefixGrows(s, i);
      PrefixHeader(s, i + 1, e);
      if |Prefix(s, i + 1)| <= HEADER_LIMIT { LateHeader(s, i + 1, e); }
    }
  }

  /** Where the fragmentation cannot matter to a late header: no byte follows it, or no
      read can carry its end past the limit, or none can carry more than its end. */
  predicate LateAlike(whole: Bytes, e: nat, length: nat) {
    |whole| == e || e > 8_388_608 + 8_192 || (e == 8_388_608 + 8_192 && length == 0)
  }

  lemma LateReadsEmpty(s: Stream, declared: Bytes -> nat, e: nat)
    requires Readable(s) && !s.fails && HeaderEnd(Whole(s)) == Some(e) && e > LONGEST_HEADER
    requires LateAlike(Whole(s), e, declared(Whole(s)[..e]))
    ensures ReadResult(s, declared) == Body([])
  {
    assert Prefix(s, 0) == [];
    LateHeader(s, 0, e);
    if ReadHeaders(s, 0).Found? {
      var n := ReadHeaders(s, 0).readCount;
      PrefixHeader(s, n, e);
      PrefixOfWhole(s, n);
      if n < |s.chunks| {
        PrefixGrows(s, n);
        PrefixOfWhole(s, n + 1);
      }
    }
  }

  lemma {:induction false} BodyCarriesBytes(s: Stream, start: nat, length: nat, i: nat)
    requires i <= |s.chunks| && start <= |Prefix(s, i)| && start < |Whole(s)| && length > 0 && !s.fails
    ensures ReadBody(s, start, length, i) != Body([])
    decreases |s.chunks| - i
  {
    if i == |s.chunks| {
      assert s.chunks[..i] == s.chunks;
    } else {
      PrefixGrows(s, i);
      BodyCarriesBytes(s, start, length, i + 1);
    }
  }

  /** Otherwise it does: byte by byte the request is abandoned, and with one large read over
      the limit its body is read. */
  lemma LateDepends(whole: Bytes, declared: Bytes -> nat, e: nat) returns (a: Stream, b: Stream)
    requires HeaderEnd(whole) == Some(e) && e > LONGEST_HEADER && !LateAlike(whole, e, declared(whole[..e]))
    ensures a == Stream(Singles(whole), false) && Readable(a) && Readable(b) && !b.fails
    ensures Whole(a) == whole && Whole(b) == whole
    ensures ReadResult(a, declared) == Body([]) && ReadResult(b, declared) != Body([])
  {
    FindFromIsFirst(whole, 4);
    var length := declared(whole[..e]);
    var stop := if length == 0 then e + 1 else e;
    a := Stream(Singles(whole), false);
    SinglesWhole(whole);
    SinglesAbandon(whole, 0, e);
    b := Lump(whole, HEADER_LIMIT, stop);
    ReadLate(b, whole, declared, e, stop);
  }

  lemma ReadLate(b: Stream, whole: Bytes, declared: Bytes -> nat, e: nat, stop: nat)
    requires HeaderEnd(whole) == Some(e) && LONGEST_HEADER < e <= stop <= |whole| && e < |whole|
    requires declared(whole[..e]) == 0 ==> e < stop
    requires Whole(b) == whole && !b.fails && |b.chunks| > HEADER_LIMIT
    requires Prefix(b, HEADER_LIMIT) == whole[..HEADER_LIMIT] && Prefix(b, HEADER_LIMIT + 1) == whole[..stop]
    ensures ReadResult(b, declared) != Body([])
  {
    var n := HEADER_LIMIT + 1;
    HeadersFound(b, e, 0, n);
    PrefixHeader(b, n, e);
    if declared(whole[..e]) > 0 { BodyCarriesBytes(b, e, declared(whole[..e]), n); }
  }

  lemma {:induction false} SinglesAbandon(whole: Bytes, i: nat, e: nat)
    requires HeaderEnd(whole) == Some(e) && LONGEST_HEADER < e <= |whole| && i <= HEADER_LIMIT
    ensures ReadHeaders(Stream(Singles(whole), false), i) == Abandoned
    decreases HEADER_LIMIT - i
  {
    var s := Stream(Singles(whole), false);
    SinglesWhole(whole);
    SinglesPrefix(whole, i + 1);
    PrefixHeader(s, i + 1, e);
    if i < HEADER_LIMIT { SinglesAbandon(whole, i + 1, e); }
  }

  // ----- the exact condition

  /** What a caller can check of the bytes before sending them. */
  predicate ReadsAlike(whole: Bytes, declared: Bytes -> nat) {
    match HeaderEnd(whole)
    case None => true
    case Some(e) =>
      assert EndsAt(whole, e);
      if e <= LONGEST_HEADER then |whole| <= e + declared(whole[..e]) else LateAlike(whole, e, declared(whole[..e]))
  }

  /** For all byte streams whatever: every complete delivery reads alike if and only if the
      bytes are such. */
  lemma IndependentIff(whole: Bytes, declared: Bytes -> nat)
    ensures ReadsAlike(whole, declared) <==>
      forall s: Stream :: Readable(s) && !s.fails && Whole(s) == whole ==>
        ReadResult(s, declared) == ReadResult(Stream(Singles(whole), false), declared)
  {
    SinglesWhole(whole);
    match HeaderEnd(whole) {
      case None =>
        forall s: Stream | Readable(s) && !s.fails && Whole(s) == whole
          ensures ReadResult(s, declared) == ReadResult(Stream(Singles(whole), false), declared)
        {
          NoHeaderReads(s, declared);
          NoHeaderReads(Stream(Singles(whole), false), declared);
        }
      case Some(e) =>
        if e <= LONGEST_HEADER {
          IndependentIffNoSurplus(whole, declared, e);
        } else {
          LateIndependentIff(whole, declared, e);
        }
    }
  }

  lemma LateIndependentIff(whole: Bytes, declared: Bytes -> nat, e: nat)
    requires HeaderEnd(whole) == Some(e) && e > LONGEST_HEADER
    ensures LateAlike(whole, e, declared(whole[..e])) <==>
      forall s: Stream :: Readable(s) && !s.fails && Whole(s) == whole ==>
        ReadResult(s, declared) == ReadResult(Stream(Singles(whole), false), declared)
  {
    SinglesWhole(whole);
    if LateAlike(whole, e, declared(whole[..e])) {
      forall s: Stream | Readable(s) && !s.fails && Whole(s) == whole
        ensures ReadResult(s, declared) == ReadResult(Stream(Singles(whole), false), declared)
      {
        LateReadsEmpty(s, declared, e);
        LateReadsEmpty(Stream(Singles(whole), false), declared, e);
      }
    } else {
      var a, b := LateDepends(whole, declared, e);
    }
  }

  lemma SinglesPrefix(whole: Bytes, n: nat)
    requires n <= |whole|
    ensures Prefix(Stream(Singles(whole), false), n) == whole[..n]
  {
    assert Singles(whole)[..n] == Singles(whole[..n]);
    SinglesWhole(whole[..n]);
  }

  /** Only a connection that closes without a single byte is taken for an empty poke. */
  lemma NothingIffNothingSent(s: Stream, declared: Bytes -> nat)
    requires Readable(s)
    ensures ReadResult(s, declared) == Nothing <==> s.chunks == [] && !s.fails
  {
    if s.chunks != [] {
      assert |s.chunks[0]| > 0;
      PrefixGrows(s, 0);
      PrefixOfWhole(s, 1);
    }
    FoundInside(s, 0);
    match ReadHeaders(s, 0) {
      case Found(start, readCount) => BodyIsNotNothing(s, start, declared(Prefix(s, readCount)[..start]), readCount);
      case Ended =>
      case Abandoned =>
    }
  }

  lemma {:induction false} BodyIsNotNothing(s: Stream, start: nat, length: nat, i: nat)
    requires i <= |s.chunks| && start <= |Prefix(s, i)|
    ensures ReadBody(s, start, length, i) != Nothing
    decreases |s.chunks| - i
  {
    if i < |s.chunks| {
      PrefixGrows(s, i);
      BodyIsNotNothing(s, start, length, i + 1);
    }
  }
}

/** Messages on a stream: a header and a payload, encrypted, behind a length. */
module DpiProtocol {
  import opened Bytes
  import opened Ciphers
  import opened Sequences
  import opened Streams
  import opened Wrappers

  const VERSION: byte := 1
  const MSG_CONNECT: byte := 0x01
  const MSG_DATA: byte := 0x02
  const STREAM_HEADER_SIZE := 10
  const MAX_ENCRYPTED_FRAME := 256 * 1024

  datatype StreamHeader = StreamHeader(version: byte, msgType: byte, connId: u32, payloadLen: u32)

  datatype Message = Message(msgType: byte, connId: u32, payload: seq<byte>)

  datatype Error = ReadFailed(e: ReadError) | InvalidLength(n: u32) | NotAuthentic | HeaderTooShort

  // ---------- header and payload ----------

  function HeaderBytes(h: StreamHeader): (b: seq<byte>)
    ensures |b| == STREAM_HEADER_SIZE
  {
    [h.version, h.msgType] + Be32(h.connId) + Be32(h.payloadLen)
  }

  /** The header byte by byte, with version 1. */
  ghost predicate IsHeader(b: seq<byte>, msgType: byte, connId: u32, payloadLen: u32) {
    |b| == 10 && b[0] == 1 && b[1] == msgType && IsBe32(b[2..6], connId) && IsBe32(b[6..10], payloadLen)
  }

  lemma HeaderIsLaidOut(msgType: byte, connId: u32, payloadLen: u32)
    ensures IsHeader(HeaderBytes(StreamHeader(VERSION, msgType, connId, payloadLen)), msgType, connId, payloadLen)
  {
    var b := HeaderBytes(StreamHeader(VERSION, msgType, connId, payloadLen));
    Be32Bytes(connId);
    Be32Bytes(payloadLen);
    assert b[2..6] == Be32(connId) && b[6..10] == Be32(payloadLen);
  }

  method BuildStreamHeader(msgType: byte, connId: u32, payloadLen: u32) returns (h: array<byte>)
    ensures fresh(h) && h[..] == HeaderBytes(StreamHeader(VERSION, msgType, connId, payloadLen))
    ensures IsHeader(h[..], msgType, connId, payloadLen)
  {
    HeaderIsLaidOut(msgType, connId, payloadLen);
    h := new byte[STREAM_HEADER_SIZE](_ => 0);
    var a, b := Be32(connId), Be32(payloadLen);
    h[0], h[1] := VERSION, msgType;
    h[2], h[3], h[4], h[5] := a[0], a[1], a[2], a[3];
    h[6], h[7], h[8], h[9] := b[0], b[1], b[2], b[3];
    assert h[2..6] == a && h[6..] == b;
    assert h[..] == h[..2] + h[2..6] + h[6..];
  }

  /** None if the bytes are too few for a header. */
  function ParseStreamHeader(b: seq<byte>): Option<(StreamHeader, seq<byte>)> {
    if |b| < STREAM_HEADER_SIZE then None
    else Some((StreamHeader(b[0], b[1], FromBe32(b[2..6]), FromBe32(b[6..10])), b[STREAM_HEADER_SIZE..]))
  }

  lemma HeaderRoundTrip(h: StreamHeader, payload: seq<byte>)
    ensures ParseStreamHeader(HeaderBytes(h) + payload) == Some((h, payload))
  {
    var b := HeaderBytes(h) + payload;
    Be32RoundTrip(h.connId);
    Be32RoundTrip(h.payloadLen);
    assert b[2..6] == Be32(h.connId);
    assert b[6..10] == Be32(h.payloadLen);
    assert b[STREAM_HEADER_SIZE..] == payload;
  }

  function Plain(m: Message): (b: seq<byte>)
    ensures |b| == STREAM_HEADER_SIZE + |m.payload|
  {
    HeaderBytes(StreamHeader(VERSION, m.msgType, m.connId, ToU32(|m.payload|))) + m.payload
  }

  /** A header for the payload, which follows it. */
  ghost predicate IsPlain(b: seq<byte>, m: Message) {
    && |b| == 10 + |m.payload|
    && IsHeader(b[..10], m.msgType, m.connId, ToU32(|m.payload|)) && b[10..] == m.payload
  }

  lemma PlainIsLaidOut(m: Message)
    ensures IsPlain(Plain(m), m)
  {
    HeaderIsLaidOut(m.msgType, m.connId, ToU32(|m.payload|));
    assert Plain(m)[..10] == HeaderBytes(StreamHeader(VERSION, m.msgType, m.connId, ToU32(|m.payload|)));
  }

  method BuildPlain(m: Message) returns (b: seq<byte>)
    ensures b == Plain(m) && IsPlain(b, m)
  {
    PlainIsLaidOut(m);
    var h := BuildStreamHeader(m.msgType, m.connId, ToU32(|m.payload|));
    b := h[..] + m.payload;
  }

  // ---------- length-prefixed frames ----------

  function Prefixed(data: seq<byte>): seq<byte> {
    Be32(ToU32(|data|)) + data
  }

  lemma PrefixedIsLaidOut(data: seq<byte>)
    ensures var b := Prefixed(data);
            |b| == 4 + |data| && IsBe32(b[..4], ToU32(|data|)) && b[4..] == data
  {
    Be32Bytes(ToU32(|data|));
    assert Prefixed(data)[..4] == Be32(ToU32(|data|));
  }

  method WriteLengthPrefixed(w: ByteWriter, data: seq<byte>)
    modifies w
    ensures w.out == old(w.out) + Prefixed(data)
    ensures var n := |old(w.out)|;
            && w.out[..n] == old(w.out) && |w.out| == n + 4 + |data|
            && IsBe32(w.out[n..n + 4], ToU32(|data|)) && w.out[n + 4..] == data
  {
    PrefixedIsLaidOut(data);
    var lenBuf := Be32(ToU32(|data|));
    w.Write(lenBuf);
    w.Write(data);
    assert old(w.out) + lenBuf + data == old(w.out) + (lenBuf + data);
  }

  function ReadPrefixed(s: seq<byte>): (r: (Result<seq<byte>, Error>, seq<byte>))
    ensures r.0.Ok? ==> |r.1| < |s|
  {
    var (head, rest) := ReadExactly(s, 4);
    match head
    case Err(e) => (Err(ReadFailed(e)), rest)
    case Ok(b) =>
      var n := FromBe32(b);
      if n == 0 || n > MAX_ENCRYPTED_FRAME then (Err(InvalidLength(n)), rest)
      else
        var (body, rest') := ReadExactly(rest, n);
        match body
        case Err(e) => (Err(ReadFailed(e)), rest')
        case Ok(data) => (Ok(data), rest')
  }

  method ReadLengthPrefixed(r: ByteReader) returns (result: Result<seq<byte>, Error>)
    modifies r
    ensures (result, r.rest) == ReadPrefixed(old(r.rest))
  {
    var head := r.ReadFull(4);
    if head.Err? {
      return Err(ReadFailed(head.error));
    }
    var n := FromBe32(head.value);
    if n == 0 || n > MAX_ENCRYPTED_FRAME {
      return Err(InvalidLength(n));
    }
    var body := r.ReadFull(n);
    if body.Err? {
      return Err(ReadFailed(body.error));
    }
    result := Ok(body.value);
  }

  /** Lengths of 1 to 256 KiB are accepted, and others refused as soon as they are read. */
  lemma LengthsAccepted(s: seq<byte>)
    requires |s| >= 4
    ensures var (n, r) := (FromBe32(s[..4]), ReadPrefixed(s));
            && IsBe32(s[..4], n)
            && (r.0 == Err(InvalidLength(n)) <==> n == 0 || n > 262_144)
            && (r.0 == Err(InvalidLength(n)) ==> r.1 == s[4..])
            && (r.0.Ok? <==> 1 <= n <= 262_144 && n <= |s| - 4)
            && (r.0.Ok? ==> r.0.value == s[4..4 + n] && r.1 == s[4 + n..])
  {
    FromBe32Bytes(s[..4]);
  }

  lemma PrefixedStart(data: seq<byte>, tail: seq<byte>)
    ensures var s := Prefixed(data) + tail;
            |s| >= 4 && FromBe32(s[..4]) == ToU32(|data|) && s[4..] == data + tail
  {
    Be32RoundTrip(ToU32(|data|));
    assert (Prefixed(data) + tail)[..4] == Be32(ToU32(|data|));
  }

  /** A frame is read back exactly as written if it is not empty and within the limit. */
  lemma PrefixedRoundTrip(data: seq<byte>, tail: seq<byte>)
    requires 0 < |data| <= MAX_ENCRYPTED_FRAME
    ensures ReadPrefixed(Prefixed(data) + tail) == (Ok(data), tail)
  {
    PrefixedStart(data, tail);
    assert (data + tail)[..|data|] == data && (data + tail)[|data|..] == tail;
  }

  lemma PrefixedTooLong(data: seq<byte>, tail: seq<byte>)
    requires MAX_ENCRYPTED_FRAME < |data| <= MAX_U32
    ensures ReadPrefixed(Prefixed(data) + tail).0 == Err(InvalidLength(|data|))
  {
    PrefixedStart(data, tail);
  }

  /** A cut frame. Cut just behind its length it looks like the end of the stream. */
  lemma PrefixedCut(data: seq<byte>, t: nat)
    requires 0 < |data| <= MAX_ENCRYPTED_FRAME && t < |Prefixed(data)|
    ensures ReadPrefixed(Prefixed(data)[..t]).0 == Err(ReadFailed(if t == 0 || t == 4 then Eof else UnexpectedEof))
  {
    var s := Prefixed(data)[..t];
    if t >= 4 {
      PrefixedStart(data, []);
      assert Prefixed(data) + [] == Prefixed(data);
      assert s[..4] == Prefixed(data)[..4];
    }
  }

  // ---------- a stream of encrypted messages ----------

  /** The messages, each with the nonce it is sealed with. */
  function Wire(ms: seq<(Message, seq<byte>)>, c: Cipher): seq<byte> {
    if ms == [] then [] else Prefixed(c.seal(ms[0].1, Plain(ms[0].0))) + Wire(ms[1..], c)
  }

  function DataPayload(m: Message): seq<byte> {
    if m.msgType == MSG_DATA then m.payload else []
  }

  function DataOf(ms: seq<(Message, seq<byte>)>): seq<byte> {
    if ms == [] then [] else DataPayload(ms[0].0) + DataOf(ms[1..])
  }

  predicate Fits(m: Message) {
    |m.payload| + STREAM_HEADER_SIZE + OVERHEAD <= MAX_ENCRYPTED_FRAME
  }

  /** What one plaintext contributes to the data read; other messages, and lying lengths, contribute nothing. */
  function DataIn(plain: seq<byte>): Option<seq<byte>> {
    match ParseStreamHeader(plain)
    case None => None
    case Some((h, payload)) =>
      Some(if h.msgType == MSG_DATA && h.payloadLen <= |payload| then payload[..h.payloadLen] else [])
  }

  /** Byte 1 tells a data message, whose type is 2, and bytes 6 to 9 the length of its data. */
  lemma DataByBytes(plain: seq<byte>)
    ensures DataIn(plain) == None <==> |plain| < 10
    ensures |plain| >= 10 ==>
      var n := FromBe32(plain[6..10]);
      && IsBe32(plain[6..10], n)
      && DataIn(plain).value == if plain[1] == 2 && n <= |plain| - 10 then plain[10..10 + n] else []
  {
    if |plain| >= 10 {
      FromBe32Bytes(plain[6..10]);
    }
  }

  /** The data that reading `s` to its first error yields, and that error. */
  function Remaining(s: seq<byte>, c: Cipher): (seq<byte>, Error)
    decreases |s|
  {
    var (frame, rest) := ReadPrefixed(s);
    match frame
    case Err(e) => ([], e)
    case Ok(enc) =>
      match c.unseal(enc)
      case None => ([], NotAuthentic)
      case Some(plain) =>
        match DataIn(plain)
        case None => ([], HeaderTooShort)
        case Some(d) => (d + Remaining(rest, c).0, Remaining(rest, c).1)
  }

  /** Reading `s` yields `d`, and then what reading `tail` yields. */
  predicate Yields(s: seq<byte>, d: seq<byte>, tail: seq<byte>, c: Cipher) {
    Remaining(s, c).0 == d + Remaining(tail, c).0 && Remaining(s, c).1 == Remaining(tail, c).1
  }

  lemma OneMessage(m: Message, nonce: seq<byte>, c: Cipher, tail: seq<byte>)
    requires Sound(c) && Fits(m)
    ensures Yields(Prefixed(c.seal(nonce, Plain(m))) + tail, DataPayload(m), tail, c)
  {
    PrefixedRoundTrip(c.seal(nonce, Plain(m)), tail);
    HeaderRoundTrip(StreamHeader(VERSION, m.msgType, m.connId, ToU32(|m.payload|)), m.payload);
    assert m.payload[..|m.payload|] == m.payload;
    assert DataIn(Plain(m)) == Some(DataPayload(m));
  }

  lemma YieldsInTurn(s: seq<byte>, d: seq<byte>, mid: seq<byte>, d': seq<byte>, tail: seq<byte>, c: Cipher)
    requires Yields(s, d, mid, c) && Yields(mid, d', tail, c)
    ensures Yields(s, d + d', tail, c)
  {
    assert d + (d' + Remaining(tail, c).0) == (d + d') + Remaining(tail, c).0;
  }

  /** Messages that fit give their data, in order, and leave what comes after them to be read. */
  lemma {:induction false} MessagesSurvive(ms: seq<(Message, seq<byte>)>, c: Cipher, tail: seq<byte>)
    requires Sound(c) && forall i :: 0 <= i < |ms| ==> Fits(ms[i].0)
    ensures Yields(Wire(ms, c) + tail, DataOf(ms), tail, c)
    decreases ms
  {
    if ms == [] {
      assert Wire(ms, c) + tail == tail && DataOf(ms) + Remaining(tail, c).0 == Remaining(tail, c).0;
    } else {
      var first, rest := Prefixed(c.seal(ms[0].1, Plain(ms[0].0))), Wire(ms[1..], c) + tail;
      assert Wire(ms, c) + tail == first + rest;
      OneMessage(ms[0].0, ms[0].1, c, rest);
      MessagesSurvive(ms[1..], c, tail);
      YieldsInTurn(first + rest, DataPayload(ms[0].0), rest, DataOf(ms[1..]), tail, c);
    }
  }

  /** A whole stream of messages that fit is read to its end. */
  lemma StreamSurvives(ms: seq<(Message, seq<byte>)>, c: Cipher)
    requires Sound(c) && forall i :: 0 <= i < |ms| ==> Fits(ms[i].0)
    ensures Remaining(Wire(ms, c), c) == (DataOf(ms), ReadFailed(Eof))
  {
    MessagesSurvive(ms, c, []);
    assert Wire(ms, c) + [] == Wire(ms, c) && DataOf(ms) + [] == DataOf(ms);
  }

  /** A message that does not fit stops the reader, with all the data before it delivered. */
  lemma OversizeStops(ms: seq<(Message, seq<byte>)>, m: Message, nonce: seq<byte>, c: Cipher, tail: seq<byte>)
    requires Sound(c) && (forall i :: 0 <= i < |ms| ==> Fits(ms[i].0))
    requires !Fits(m) && |m.payload| + STREAM_HEADER_SIZE + OVERHEAD <= MAX_U32
    ensures Remaining(Wire(ms, c) + (Prefixed(c.seal(nonce, Plain(m))) + tail), c) ==
            (DataOf(ms), InvalidLength(|m.payload| + STREAM_HEADER_SIZE + OVERHEAD))
  {
    PrefixedTooLong(c.seal(nonce, Plain(m)), tail);
    MessagesSurvive(ms, c, Prefixed(c.seal(nonce, Plain(m))) + tail);
    assert DataOf(ms) + [] == DataOf(ms);
  }

  /** A stream cut inside message `m`, wherever that is. */
  lemma CutStream(ms: seq<(Message, seq<byte>)>, m: Message, nonce: seq<byte>, c: Cipher, t: nat)
    requires Sound(c) && (forall i :: 0 <= i < |ms| ==> Fits(ms[i].0)) && Fits(m)
    requires t < |Prefixed(c.seal(nonce, Plain(m)))|
    ensures Remaining(Wire(ms, c) + Prefixed(c.seal(nonce, Plain(m)))[..t], c) ==
            (DataOf(ms), ReadFailed(if t == 0 || t == 4 then Eof else UnexpectedEof))
  {
    PrefixedCut(c.seal(nonce, Plain(m)), t);
    MessagesSurvive(ms, c, Prefixed(c.seal(nonce, Plain(m)))[..t]);
    assert DataOf(ms) + [] == DataOf(ms);
  }
}

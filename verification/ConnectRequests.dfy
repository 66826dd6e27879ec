/** The request that opens a connection, with lengths in 16 bits. */
module ConnectRequests {
  import opened Bytes
  import opened Ciphers
  import opened DpiProtocol
  import opened Wrappers

  datatype ConnectRequest = ConnectRequest(network: seq<byte>, address: seq<byte>)

  /** OutOfRange stands for the panic of a slice whose bounds are out of order. */
  datatype Error = TooShort | InvalidNetwork | InvalidAddress | OutOfRange

  function RequestBytes(req: ConnectRequest): seq<byte> {
    Be16(ToU16(|req.network|)) + req.network + Be16(ToU16(|req.address|)) + req.address
  }

  method CopyAt(buf: array<byte>, off: nat, data: seq<byte>)
    requires off + |data| <= buf.Length
    modifies buf
    ensures buf[..] == old(buf[..off]) + data + old(buf[off + |data|..])
  {
    forall i | 0 <= i < |data| {
      buf[off + i] := data[i];
    }
  }

  /** Each string behind its length in two bytes, of which the low 16 bits are kept. */
  ghost predicate IsRequest(b: seq<byte>, req: ConnectRequest) {
    var n := |req.network|;
    && |b| == 4 + n + |req.address|
    && IsBe16(b[..2], n % 0x1_0000) && b[2..2 + n] == req.network
    && IsBe16(b[2 + n..4 + n], |req.address| % 0x1_0000) && b[4 + n..] == req.address
  }

  lemma RequestIsLaidOut(req: ConnectRequest)
    ensures IsRequest(RequestBytes(req), req)
  {
    var a, d, b, n := Be16(ToU16(|req.network|)), Be16(ToU16(|req.address|)), RequestBytes(req), |req.network|;
    Be16Bytes(ToU16(n));
    Be16Bytes(ToU16(|req.address|));
    assert b[..2] == a && b[2..2 + n] == req.network && b[2 + n..4 + n] == d && b[4 + n..] == req.address;
  }

  method EncodeConnectRequest(req: ConnectRequest) returns (buf: array<byte>)
    ensures fresh(buf) && buf[..] == RequestBytes(req) && IsRequest(buf[..], req)
  {
    RequestIsLaidOut(req);
    var a, b := Be16(ToU16(|req.network|)), Be16(ToU16(|req.address|));
    assert |a| == 2 && |b| == 2;
    buf := new byte[2 + |req.network| + 2 + |req.address|](_ => 0);
    var off := 0;
    CopyAt(buf, off, a);
    off := off + 2;
    assert buf[..off] == a;
    CopyAt(buf, off, req.network);
    off := off + |req.network|;
    assert buf[..off] == a + req.network;
    CopyAt(buf, off, b);
    off := off + 2;
    assert buf[..off] == a + req.network + b;
    CopyAt(buf, off, req.address);
    assert buf[..] == a + req.network + b + req.address;
  }

  /** The offset behind the network is computed in 16 bits. */
  function DecodeConnectRequest(data: seq<byte>): Result<ConnectRequest, Error> {
    if |data| < 4 then Err(TooShort)
    else
      var netLen := FromBe16(data[..2]);
      if |data| < 4 + netLen then Err(InvalidNetwork)
      else
        var off := ToU16(2 + netLen);
        if off < 2 then Err(OutOfRange)
        else
          var network := data[2..off];
          var addrLen := FromBe16(data[off..off + 2]);
          if |data| < off + 2 + addrLen then Err(InvalidAddress)
          else Ok(ConnectRequest(network, data[off + 2..off + 2 + addrLen]))
  }

  /** The 16-bit offset does not wrap, and neither length does. */
  predicate Encodable(req: ConnectRequest) {
    |req.network| <= 65533 && |req.address| <= 65535
  }

  lemma DecodedIsEncodable(data: seq<byte>)
    ensures var r := DecodeConnectRequest(data);
            r.Ok? ==> Encodable(r.value)
  {
  }

  /** What is decoded, byte by byte: the strings stand where their lengths say. */
  lemma DecodedByBytes(data: seq<byte>)
    requires DecodeConnectRequest(data).Ok?
    ensures var req := DecodeConnectRequest(data).value;
            var n, m := |req.network|, |req.address|;
            && |data| >= 4 + n + m
            && IsBe16(data[..2], n) && data[2..2 + n] == req.network
            && IsBe16(data[2 + n..4 + n], m) && data[4 + n..4 + n + m] == req.address
  {
    var n := FromBe16(data[..2]);
    FromBe16Bytes(data[..2]);
    FromBe16Bytes(data[2 + n..4 + n]);
  }

  /** A request that is cut short, by where it is cut. */
  lemma CutRequest(req: ConnectRequest, t: nat)
    requires Encodable(req) && t < |RequestBytes(req)|
    ensures DecodeConnectRequest(RequestBytes(req)[..t]) ==
            Err(if t < 4 then TooShort else if t < 4 + |req.network| then InvalidNetwork else InvalidAddress)
  {
    var d, s, n := RequestBytes(req), RequestBytes(req)[..t], |req.network|;
    Be16RoundTrip(n);
    Be16RoundTrip(|req.address|);
    if t >= 4 {
      assert s[..2] == d[..2] == Be16(n);
    }
    if t >= 4 + n {
      assert s[2 + n..4 + n] == d[2 + n..4 + n] == Be16(|req.address|);
    }
  }

  lemma EncodableRoundTrips(req: ConnectRequest)
    requires Encodable(req)
    ensures DecodeConnectRequest(RequestBytes(req)) == Ok(req)
  {
    var a, b, d := Be16(|req.network|), Be16(|req.address|), RequestBytes(req);
    Be16RoundTrip(|req.network|);
    Be16RoundTrip(|req.address|);
    var off := 2 + |req.network|;
    assert d[..2] == a;
    assert d[2..off] == req.network;
    assert d[off..off + 2] == b;
    assert d[off + 2..off + 2 + |req.address|] == req.address;
  }

  /** A request decodes to itself exactly when its network and address are short enough. */
  lemma RequestRoundTripIff(req: ConnectRequest)
    ensures DecodeConnectRequest(RequestBytes(req)) == Ok(req) <==> Encodable(req)
  {
    if Encodable(req) {
      EncodableRoundTrips(req);
    }
    DecodedIsEncodable(RequestBytes(req));
  }

  /** A network of 65534 or 65535 bytes makes the decoder slice out of range. */
  lemma LongNetworkIsOutOfRange(req: ConnectRequest)
    requires 65534 <= |req.network| <= 65535
    ensures DecodeConnectRequest(RequestBytes(req)) == Err(OutOfRange)
  {
    Be16RoundTrip(|req.network|);
    assert RequestBytes(req)[..2] == Be16(|req.network|);
  }

  /** What the server decodes from the plaintext of a message. */
  function DecodeFromPlain(plain: seq<byte>): Option<Result<ConnectRequest, Error>> {
    match ParseStreamHeader(plain)
    case None => None
    case Some((h, payload)) =>
      if h.payloadLen > |payload| then None
      else Some(DecodeConnectRequest(payload[..h.payloadLen]))
  }

  /** A request that is short enough is decoded from its own message. */
  lemma RequestSurvivesMessage(req: ConnectRequest, connId: u32)
    requires Encodable(req)
    ensures var plain := Plain(Message(MSG_CONNECT, connId, RequestBytes(req)));
            plain[1] == 0x01 && DecodeFromPlain(plain) == Some(Ok(req))
  {
    var payload := RequestBytes(req);
    assert |payload| <= 4 + 65533 + 65535;
    HeaderRoundTrip(StreamHeader(VERSION, MSG_CONNECT, connId, |payload|), payload);
    assert payload[..|payload|] == payload;
    EncodableRoundTrips(req);
  }
}

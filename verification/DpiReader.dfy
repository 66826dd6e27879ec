/** The download side of a tunnel connection: from the encrypted stream to the caller's buffers. */
module DpiReader {
  import opened Bytes
  import opened Ciphers
  import opened DpiProtocol
  import opened Sequences
  import opened Streams
  import opened Wrappers

  function Min(a: nat, b: nat): nat {
    if a < b then a else b
  }

  /** Copies as much of `data` as fits `p`. */
  method CopyInto(p: array<byte>, data: seq<byte>) returns (n: nat)
    modifies p
    ensures n == Min(p.Length, |data|) && p[..n] == data[..n] && p[n..] == old(p[n..])
    ensures n == p.Length || n == |data|
  {
    n := Min(p.Length, |data|);
    forall i | 0 <= i < n {
      p[i] := data[i];
    }
  }

  lemma CutOff(data: seq<byte>, k: nat, tail: seq<byte>)
    requires k <= |data|
    ensures data[..k] + (data[k..] + tail) == data + tail
  {
    assert data == data[..k] + data[k..];
  }

  // ---------- the data in pieces ----------

  /** Pieces of 32 KiB, and one for what is left over. */
  function Cut(d: seq<byte>): seq<seq<byte>> {
    if d == [] then [] else if |d| <= 32768 then [d] else [d[..32768]] + Cut(d[32768..])
  }

  lemma {:induction false} CutFits(d: seq<byte>)
    ensures Flatten(Cut(d)) == d
    ensures forall i :: 0 <= i < |Cut(d)| ==> 0 < |Cut(d)[i]| <= 32768
    decreases |d|
  {
    if 0 < |d| <= 32768 {
      assert Flatten([d]) == d + Flatten([]);
    } else if d != [] {
      CutFits(d[32768..]);
      assert d == d[..32768] + d[32768..];
    }
  }

  /** The data of each message in pieces, up to the first error. */
  function Pieces(s: seq<byte>, c: Cipher): seq<seq<byte>>
    decreases |s|
  {
    var (frame, rest) := ReadPrefixed(s);
    if frame.Err? || c.unseal(frame.value) == None || DataIn(c.unseal(frame.value).value) == None then []
    else Cut(DataIn(c.unseal(frame.value).value).value) + Pieces(rest, c)
  }

  lemma {:induction false} PiecesFit(s: seq<byte>, c: Cipher)
    ensures Flatten(Pieces(s, c)) == Remaining(s, c).0
    ensures forall i :: 0 <= i < |Pieces(s, c)| ==> 0 < |Pieces(s, c)[i]| <= 32768
    decreases |s|
  {
    var (frame, rest) := ReadPrefixed(s);
    if frame.Ok? && c.unseal(frame.value).Some? && DataIn(c.unseal(frame.value).value).Some? {
      var d := DataIn(c.unseal(frame.value).value).value;
      CutFits(d);
      PiecesFit(rest, c);
      FlattenConcat(Cut(d), Pieces(rest, c));
    }
  }

  lemma FirstPiece(d: seq<byte>, n: nat)
    requires d != [] && n == Min(32768, |d|)
    ensures Cut(d) == [d[..n]] + Cut(d[n..])
  {
    if n == |d| {
      assert d[..n] == d && d[n..] == [] && [d] + [] == [d];
    }
  }

  class StreamReader {
    const body: ByteReader
    const encryptor: Cipher
    var decrypted: seq<byte>
    var off: nat

    ghost predicate Valid()
      reads this
    {
      off <= |decrypted|
    }

    constructor (body: ByteReader, encryptor: Cipher)
      ensures Valid() && this.body == body && this.encryptor == encryptor
      ensures Pending() == Remaining(body.rest, encryptor) && PendingPieces() == Pieces(body.rest, encryptor)
    {
      this.body, this.encryptor := body, encryptor;
      decrypted, off := [], 0;
      new;
      PendingWhenEmpty();
    }

    /** The data that has yet to be read, and the error that comes after it. */
    ghost function Pending(): (seq<byte>, Error)
      requires Valid()
      reads this, body
    {
      var (data, e) := Remaining(body.rest, encryptor);
      (decrypted[off..] + data, e)
    }

    /** The pieces in which a buffer of 32 KiB would get them. */
    ghost function PendingPieces(): seq<seq<byte>>
      requires Valid()
      reads this, body
    {
      Cut(decrypted[off..]) + Pieces(body.rest, encryptor)
    }

    lemma PiecesArePending()
      requires Valid()
      ensures Flatten(PendingPieces()) == Pending().0
      ensures forall i :: 0 <= i < |PendingPieces()| ==> 0 < |PendingPieces()[i]| <= 32768
    {
      CutFits(decrypted[off..]);
      PiecesFit(body.rest, encryptor);
      FlattenConcat(Cut(decrypted[off..]), Pieces(body.rest, encryptor));
    }

    lemma PendingWhenEmpty()
      requires Valid() && off == |decrypted|
      ensures Pending() == Remaining(body.rest, encryptor) && PendingPieces() == Pieces(body.rest, encryptor)
    {
      var data, pieces := Remaining(body.rest, encryptor).0, Pieces(body.rest, encryptor);
      assert decrypted[off..] + data == data && [] + pieces == pieces;
    }

    /** Reads messages until there is data to hand out; the error comes once all data was read. */
    method NextMessage() returns (err: Option<Error>)
      requires Valid()
      modifies this, body
      ensures Valid()
      ensures old(off < |decrypted|) ==>
        err == None && decrypted == old(decrypted) && off == old(off) && body.rest == old(body.rest)
      ensures err == None ==> off < |decrypted|
      ensures err == None ==> Pending() == old(Pending()) && PendingPieces() == old(PendingPieces())
      ensures err.Some? ==> old(Pending()) == ([], err.value) && old(PendingPieces()) == []
    {
      while off >= |decrypted|
        invariant Valid() && Pending() == old(Pending()) && PendingPieces() == old(PendingPieces())
        invariant old(off < |decrypted|) ==>
          decrypted == old(decrypted) && off == old(off) && body.rest == old(body.rest)
        decreases |body.rest|
      {
        PendingWhenEmpty();
        decrypted, off := [], 0;
        var enc := ReadLengthPrefixed(body);
        if enc.Err? {
          return Some(enc.error);
        }
        var dec := encryptor.unseal(enc.value);
        if dec == None {
          return Some(NotAuthentic);
        }
        var parsed := ParseStreamHeader(dec.value);
        if parsed == None {
          return Some(HeaderTooShort);
        }
        var (hdr, payload) := parsed.value;
        if hdr.msgType == MSG_DATA && hdr.payloadLen <= |payload| {
          decrypted := payload[..hdr.payloadLen];
        }
        assert decrypted[off..] == decrypted;
      }
      err := None;
    }

    /** Hands out what fits `p`. */
    method TakeInto(p: array<byte>) returns (n: nat)
      requires Valid()
      modifies `off, p
      ensures Valid() && n == Min(p.Length, old(|decrypted| - off)) && off == old(off) + n
      ensures p[..n] == old(decrypted[off..])[..n] && p[n..] == old(p[n..])
      ensures p[..n] + Pending().0 == old(Pending().0) && Pending().1 == old(Pending().1)
      ensures p.Length == 32768 && old(off < |decrypted|) ==> [p[..n]] + PendingPieces() == old(PendingPieces())
    {
      n := CopyInto(p, decrypted[off..]);
      ghost var taken, left, data := p[..n], decrypted[off + n..], Remaining(body.rest, encryptor).0;
      assert decrypted[off..] == taken + left;
      ConcatIsAssociative(taken, left, data);
      if p.Length == 32768 && off < |decrypted| {
        FirstPiece(decrypted[off..], n);
        assert decrypted[off..][..n] == taken && decrypted[off..][n..] == left;
        ConcatIsAssociative([taken], Cut(left), Pieces(body.rest, encryptor));
      }
      off := off + n;
    }

    /** As much of the message at hand, or else of the next, as fits; or the error, once all data was read. */
    method Read(p: array<byte>) returns (n: nat, err: Option<Error>)
      requires Valid()
      modifies this, body, p
      ensures Valid() && n <= p.Length && p[n..] == old(p[n..])
      ensures old(off < |decrypted|) ==>
        && err == None && n == Min(p.Length, old(|decrypted| - off)) && p[..n] == old(decrypted[off..])[..n]
        && body.rest == old(body.rest)
      ensures err == None ==> n == p.Length || off == |decrypted|
      ensures err == None ==>
        && p[..n] + Pending().0 == old(Pending().0) && Pending().1 == old(Pending().1)
        && (p.Length > 0 ==> n > 0)
        && (p.Length == 32768 ==> [p[..n]] + PendingPieces() == old(PendingPieces()))
      ensures err.Some? ==> n == 0 && old(Pending()) == ([], err.value) && old(PendingPieces()) == []
    {
      err := NextMessage();
      if err.Some? {
        return 0, err;
      }
      n := TakeInto(p);
    }
  }

  const READ_BUFFER_SIZE := 32 * 1024

  /**
    Reads to the first error, and hands each piece to the queue in a slice of its own. With `closing`
    given, the pump finds the connection closed after that many pieces, and stops. It closes the queue
    only if it stops at an error of the stream.
   */
  method PumpRead(reader: StreamReader, closing: Option<nat>) returns (readCh: seq<seq<byte>>, chClosed: bool)
    requires reader.Valid()
    modifies reader, reader.body
    ensures var pieces := old(reader.PendingPieces());
            && (chClosed <==> closing == None || |pieces| < closing.value)
            && (if chClosed then readCh == pieces
                else closing.value <= |pieces| && readCh == pieces[..closing.value])
    ensures forall i :: 0 <= i < |readCh| ==> 0 < |readCh[i]| <= 32768
    ensures Flatten(readCh) <= old(reader.Pending().0)
    ensures chClosed ==> Flatten(readCh) == old(reader.Pending().0)
  {
    reader.PiecesArePending();
    var buf := new byte[READ_BUFFER_SIZE](_ => 0);
    ghost var pieces, left := reader.PendingPieces(), reader.PendingPieces();
    readCh := [];
    while closing == None || |readCh| < closing.value
      invariant reader.Valid() && left == reader.PendingPieces() && fresh(buf) && buf.Length == READ_BUFFER_SIZE
      invariant readCh + left == pieces
      invariant closing.Some? ==> |readCh| <= closing.value
      decreases |left|
    {
      var n, err := reader.Read(buf);
      if err.Some? {
        assert readCh + [] == readCh == pieces;
        return readCh, true;
      }
      var dup := buf[..n];
      left := reader.PendingPieces();
      ConcatIsAssociative(readCh, [dup], left);
      readCh := readCh + [dup];
    }
    FlattenConcat(readCh, left);
    chClosed := false;
  }

  /** Waits stands for a read that waits for ever: the queue is empty, open, and nobody puts anything in any more. */
  datatype Outcome = Bytes(n: nat) | End | Waits

  /** The end that the caller reads from, once the pump has stopped. */
  class TunnelReader {
    var readBuf: seq<byte>
    var readCh: seq<seq<byte>>
    const chClosed: bool

    ghost predicate Valid()
      reads this
    {
      forall i :: 0 <= i < |readCh| ==> readCh[i] != []
    }

    ghost function Left(): seq<byte>
      reads this
    {
      readBuf + Flatten(readCh)
    }

    constructor (readCh: seq<seq<byte>>, chClosed: bool)
      requires forall i :: 0 <= i < |readCh| ==> readCh[i] != []
      ensures Valid() && Left() == Flatten(readCh) && this.chClosed == chClosed
    {
      this.readBuf, this.readCh, this.chClosed := [], readCh, chClosed;
      new;
      assert [] + Flatten(readCh) == Flatten(readCh);
    }

    /** Once nothing is left: the end, or if the queue was not closed, no answer. */
    method Read(b: array<byte>) returns (r: Outcome)
      requires Valid()
      modifies this, b
      ensures Valid()
      ensures r.End? <==> old(Left()) == [] && chClosed
      ensures r.Waits? <==> old(Left()) == [] && !chClosed
      ensures !r.Bytes? ==> Left() == [] && b[..] == old(b[..])
      ensures r.Bytes? ==> r.n <= b.Length && b[..r.n] + Left() == old(Left())
      ensures r.Bytes? && b.Length > 0 ==> r.n > 0
      ensures r.Bytes? ==> r.n == b.Length || readBuf == []
      ensures old(readBuf != []) ==> r == Bytes(Min(b.Length, old(|readBuf|))) && readCh == old(readCh)
      ensures old(readBuf == [] && readCh != []) ==>
        r == Bytes(Min(b.Length, old(|readCh[0]|))) && readCh == old(readCh[1..])
    {
      if |readBuf| > 0 {
        var k := CopyInto(b, readBuf);
        CutOff(readBuf, k, Flatten(readCh));
        readBuf := readBuf[k..];
        return Bytes(k);
      }
      assert readBuf + Flatten(readCh) == Flatten(readCh);
      if |readCh| == 0 {
        return if chClosed then End else Waits;
      }
      var data := readCh[0];
      assert Flatten(readCh) == data + Flatten(readCh[1..]);
      readCh := readCh[1..];
      var k := CopyInto(b, data);
      CutOff(data, k, Flatten(readCh));
      if k < |data| {
        readBuf := data[k..];
      }
      assert readBuf == data[k..];
      r := Bytes(k);
    }
  }

  /** The copy loop that empties the tunnel, with buffers of whatever sizes; whether it ends or is left waiting. */
  method CopyAll(tunnel: TunnelReader, size: nat -> nat) returns (written: seq<byte>, ended: bool)
    requires tunnel.Valid() && forall i: nat :: size(i) > 0
    modifies tunnel
    ensures written == old(tunnel.Left()) && ended == tunnel.chClosed
  {
    written := [];
    var i: nat := 0;
    ghost var left := tunnel.Left();
    assert written + left == left;
    while true
      invariant tunnel.Valid() && left == tunnel.Left() && written + left == old(tunnel.Left())
      decreases |left|
    {
      var b := new byte[size(i)](_ => 0);
      var r := tunnel.Read(b);
      if !r.Bytes? {
        assert written + [] == written;
        return written, r.End?;
      }
      ghost var rest := tunnel.Left();
      ConcatIsAssociative(written, b[..r.n], rest);
      written, left := written + b[..r.n], rest;
      i := i + 1;
    }
  }

  /** From the encrypted stream to the bytes written: the copy ends only if all of them were. */
  method Download(body: ByteReader, c: Cipher, size: nat -> nat, closing: Option<nat>)
      returns (written: seq<byte>, ended: bool)
    requires forall i: nat :: size(i) > 0
    modifies body
    ensures written <= Remaining(old(body.rest), c).0
    ensures ended ==> written == Remaining(old(body.rest), c).0
    ensures closing == None ==> ended
  {
    var reader := new StreamReader(body, c);
    var readCh, chClosed := PumpRead(reader, closing);
    var tunnel := new TunnelReader(readCh, chClosed);
    written, ended := CopyAll(tunnel, size);
  }
}

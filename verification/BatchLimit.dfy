/** The write pump's batches against the reader's limit. */
module BatchLimit {
  import opened Bytes
  import opened Ciphers
  import opened DpiProtocol
  import PumpWrite

  /** If no write is longer than 32 KiB, whatever the pump sends is accepted by the reader of the frame. */
  lemma EveryBatchIsAccepted(events: seq<PumpWrite.Event>, k: nat, connId: u32, nonce: seq<byte>, c: Cipher)
    requires Sound(c) && k < |PumpWrite.Run(PumpWrite.INITIAL, events).sent|
    requires forall i :: 0 <= i < |events| && events[i].Accept? ==> |events[i].req.data| <= PumpWrite.MAX_WRITE
    ensures var m := Message(MSG_DATA, connId, PumpWrite.Run(PumpWrite.INITIAL, events).sent[k].data);
            && Fits(m)
            && Remaining(Prefixed(c.seal(nonce, Plain(m))), c).0 == m.payload
  {
    PumpWrite.BatchesAreBounded(events);
    var m := Message(MSG_DATA, connId, PumpWrite.Run(PumpWrite.INITIAL, events).sent[k].data);
    OneMessage(m, nonce, c, []);
    assert Prefixed(c.seal(nonce, Plain(m))) + [] == Prefixed(c.seal(nonce, Plain(m)));
    assert m.payload + Remaining([], c).0 == m.payload;
  }
}

/** The goroutine that gathers the writes of one tunnel connection into batches. */
module PumpWrite {
  import opened Bytes
  import opened Sequences

  const MAX_BATCH_BYTES := 64 * 1024

  /** A write that was handed over; `ack` names the channel that is waiting for its outcome. */
  datatype Request = Request(ack: nat, data: seq<byte>)

  /** A timer that is not set, is running, or has fired and was not taken down. */
  datatype Timer = Off | Armed | Spent

  datatype Sent = Sent(data: seq<byte>, ok: bool)

  datatype Outcome = Outcome(ack: nat, ok: bool)

  /** What the select may choose; `sendOk` is what SendData would then return. */
  datatype Event = Accept(req: Request, sendOk: bool) | TimerFires(sendOk: bool) | CloseSignal(sendOk: bool)

  /** `waiting` and `groups` remember which requests make up the batch and each batch sent. */
  datatype State = State(batch: seq<byte>, acks: seq<nat>, timer: Timer, sent: seq<Sent>, outcomes: seq<Outcome>,
                         done: bool, waiting: seq<Request>, groups: seq<seq<Request>>)

  const INITIAL := State([], [], Off, [], [], false, [], [])

  function OutcomesFor(acks: seq<nat>, ok: bool): seq<Outcome> {
    seq(|acks|, i requires 0 <= i < |acks| => Outcome(acks[i], ok))
  }

  function Flush(s: State, ok: bool): State {
    s.(outcomes := s.outcomes + OutcomesFor(s.acks, ok), acks := [], batch := [], timer := Off,
       groups := s.groups + [s.waiting], waiting := [])
  }

  /** An empty batch is not sent, and nothing is flushed. A failed send ends the loop. */
  function SendBatch(s: State, ok: bool): State {
    if s.batch == [] then s
    else Flush(s.(sent := s.sent + [Sent(s.batch, ok)], done := s.done || !ok), ok)
  }

  /** A write joins the batch. */
  function Taken(s: State, req: Request): State {
    s.(batch := s.batch + req.data, acks := s.acks + [req.ack], waiting := s.waiting + [req])
  }

  function Step(s: State, e: Event): State {
    if s.done then s else
      match e
      case Accept(req, ok) =>
        var t := Taken(s, req);
        if |t.batch| >= MAX_BATCH_BYTES then SendBatch(t, ok)
        else if t.timer == Off then t.(timer := Armed)
        else t
      case TimerFires(ok) =>
        if s.timer != Armed then s else SendBatch(s.(timer := Spent), ok)
      case CloseSignal(ok) =>
        SendBatch(s, ok).(done := true)
  }

  function Run(s: State, events: seq<Event>): State {
    if events == [] then s else Step(Run(s, events[..|events| - 1]), events[|events| - 1])
  }

  lemma {:induction false} RunStops(s: State, events: seq<Event>, n: nat)
    requires n <= |events| && Run(s, events[..n]).done
    ensures Run(s, events) == Run(s, events[..n])
    decreases |events|
  {
    if n == |events| {
      assert events[..n] == events;
    } else {
      var init := events[..|events| - 1];
      assert init[..n] == events[..n];
      RunStops(s, init, n);
    }
  }

  class TunnelWriter {
    var batch: seq<byte>
    var acks: seq<nat>
    var timer: Timer
    var sent: seq<Sent>
    var outcomes: seq<Outcome>
    var done: bool
    ghost var waiting: seq<Request>
    ghost var groups: seq<seq<Request>>

    ghost function View(): State
      reads this
    {
      State(batch, acks, timer, sent, outcomes, done, waiting, groups)
    }

    constructor ()
      ensures View() == INITIAL
    {
      batch, acks, timer, sent, outcomes, done, waiting, groups := [], [], Off, [], [], false, [], [];
    }

    method FlushAcks(ok: bool)
      modifies this
      ensures View() == Flush(old(View()), ok)
    {
      var i := 0;
      while i < |acks|
        invariant 0 <= i <= |acks| == |old(acks)|
        invariant View() == old(View()).(outcomes := old(outcomes) + OutcomesFor(old(acks)[..i], ok))
      {
        outcomes := outcomes + [Outcome(acks[i], ok)];
        assert OutcomesFor(old(acks)[..i + 1], ok) == OutcomesFor(old(acks)[..i], ok) + [Outcome(acks[i], ok)];
        i := i + 1;
      }
      assert acks[..i] == acks;
      acks, batch, timer := [], [], Off;
      groups, waiting := groups + [waiting], [];
    }

    /** Sends the batch, if any; `ok` is what SendData returns. The result says whether to go on. */
    method Send(ok: bool) returns (goOn: bool)
      modifies this
      ensures goOn == (old(batch) == [] || ok)
      ensures View() == SendBatch(old(View()), ok)
    {
      if |batch| == 0 {
        return true;
      }
      sent := sent + [Sent(batch, ok)];
      done := done || !ok;
      FlushAcks(ok);
      goOn := ok;
    }

    /** One turn of the loop. The result says whether to go on. */
    method Select(e: Event) returns (goOn: bool)
      requires !done
      modifies this
      ensures View() == Step(old(View()), e) && goOn == !done
    {
      match e {
        case Accept(req, ok) =>
          batch := batch + req.data;
          acks, waiting := acks + [req.ack], waiting + [req];
          if |batch| >= MAX_BATCH_BYTES {
            goOn := Send(ok);
            return;
          }
          if timer == Off {
            timer := Armed;
          }
        case TimerFires(ok) =>
          if timer == Armed {
            timer := Spent;
            goOn := Send(ok);
            return;
          }
        case CloseSignal(ok) =>
          if |batch| > 0 {
            var _ := Send(ok);
          }
          done := true;
          return false;
      }
      goOn := true;
    }

    /** The loop, with the choices of its select given by `events`. */
    method PumpWrite(events: seq<Event>)
      requires !done
      modifies this
      ensures View() == Run(old(View()), events)
    {
      var n := 0;
      while n < |events|
        invariant 0 <= n <= |events| && !done && View() == Run(old(View()), events[..n])
      {
        assert events[..n + 1][..n] == events[..n];
        var goOn := Select(events[n]);
        if !goOn {
          RunStops(old(View()), events, n + 1);
          return;
        }
        n := n + 1;
      }
      assert events[..n] == events;
    }
  }

  // ---------- nothing is lost, copied or reordered ----------

  function DataOf(reqs: seq<Request>): seq<byte> {
    if reqs == [] then [] else DataOf(reqs[..|reqs| - 1]) + reqs[|reqs| - 1].data
  }

  function Acks(reqs: seq<Request>): seq<nat> {
    seq(|reqs|, i requires 0 <= i < |reqs| => reqs[i].ack)
  }

  /** The outcomes of the requests in the batches sent, each batch's requests sharing its fate. */
  function OutcomesOf(groups: seq<seq<Request>>, sent: seq<Sent>): seq<Outcome>
    requires |groups| == |sent|
  {
    if groups == [] then []
    else
      var n := |groups| - 1;
      OutcomesOf(groups[..n], sent[..n]) + OutcomesFor(Acks(groups[n]), sent[n].ok)
  }

  /** The requests taken from the channel before the loop ended, in order. */
  function Accepted(s: State, events: seq<Event>): seq<Request> {
    if events == [] then []
    else
      var init, last := events[..|events| - 1], events[|events| - 1];
      Accepted(s, init) + if last.Accept? && !Run(s, init).done then [last.req] else []
  }

  ghost predicate Accounted(s: State, accepted: seq<Request>) {
    && accepted == Flatten(s.groups) + s.waiting
    && s.batch == DataOf(s.waiting) && s.acks == Acks(s.waiting)
    && |s.groups| == |s.sent| && s.outcomes == OutcomesOf(s.groups, s.sent)
    && (forall k :: 0 <= k < |s.sent| ==> s.sent[k].data == DataOf(s.groups[k]))
  }

  lemma SendBatchAccounted(s: State, accepted: seq<Request>, ok: bool)
    requires Accounted(s, accepted)
    ensures Accounted(SendBatch(s, ok), accepted)
  {
    if s.batch != [] {
      var t := SendBatch(s, ok);
      FlattenAppend(s.groups, s.waiting);
      assert t.groups[..|s.groups|] == s.groups && t.sent[..|s.sent|] == s.sent;
      assert Flatten(t.groups) + [] == Flatten(t.groups);
    }
  }

  lemma TakenIsAccounted(s: State, accepted: seq<Request>, req: Request)
    requires Accounted(s, accepted)
    ensures Accounted(Taken(s, req), accepted + [req])
  {
    var t := Taken(s, req);
    assert t.waiting[..|s.waiting|] == s.waiting;
    ConcatIsAssociative(Flatten(s.groups), s.waiting, [req]);
    assert t.acks == Acks(t.waiting);
  }

  lemma AcceptAccounted(s: State, accepted: seq<Request>, req: Request, ok: bool)
    requires Accounted(s, accepted) && !s.done
    ensures Accounted(Step(s, Accept(req, ok)), accepted + [req])
  {
    TakenIsAccounted(s, accepted, req);
    SendBatchAccounted(Taken(s, req), accepted + [req], ok);
  }

  lemma OtherAccounted(s: State, accepted: seq<Request>, e: Event)
    requires Accounted(s, accepted) && !s.done && !e.Accept?
    ensures Accounted(Step(s, e), accepted)
  {
    SendBatchAccounted(if e.TimerFires? then s.(timer := Spent) else s, accepted, e.sendOk);
  }

  lemma {:induction false} RunAccounted(events: seq<Event>)
    ensures Accounted(Run(INITIAL, events), Accepted(INITIAL, events))
    decreases |events|
  {
    if events != [] {
      var init, last := events[..|events| - 1], events[|events| - 1];
      RunAccounted(init);
      var s, accepted := Run(INITIAL, init), Accepted(INITIAL, init);
      assert accepted + [] == accepted;
      if !s.done {
        if last.Accept? {
          AcceptAccounted(s, accepted, last.req, last.sendOk);
        } else {
          OtherAccounted(s, accepted, last);
        }
      }
    }
  }

  function SentData(sent: seq<Sent>): seq<byte> {
    if sent == [] then [] else SentData(sent[..|sent| - 1]) + sent[|sent| - 1].data
  }

  lemma {:induction false} BytesConcat(a: seq<Request>, b: seq<Request>)
    ensures DataOf(a + b) == DataOf(a) + DataOf(b)
    decreases |b|
  {
    if b == [] {
      assert a + b == a;
    } else {
      assert (a + b)[..|a + b| - 1] == a + b[..|b| - 1];
      BytesConcat(a, b[..|b| - 1]);
    }
  }

  lemma {:induction false} SentBytesAreBytes(groups: seq<seq<Request>>, sent: seq<Sent>)
    requires |groups| == |sent| && forall k :: 0 <= k < |sent| ==> sent[k].data == DataOf(groups[k])
    ensures SentData(sent) == DataOf(Flatten(groups))
    decreases |sent|
  {
    if sent != [] {
      var n := |sent| - 1;
      SentBytesAreBytes(groups[..n], sent[..n]);
      assert groups == groups[..n] + [groups[n]];
      FlattenAppend(groups[..n], groups[n]);
      BytesConcat(Flatten(groups[..n]), groups[n]);
    }
  }

  /** In every run the bytes accepted are the bytes handed to SendData followed by the present batch. */
  lemma BytesAreConserved(events: seq<Event>)
    ensures var s := Run(INITIAL, events);
            DataOf(Accepted(INITIAL, events)) == SentData(s.sent) + s.batch
  {
    var s := Run(INITIAL, events);
    RunAccounted(events);
    SentBytesAreBytes(s.groups, s.sent);
    BytesConcat(Flatten(s.groups), s.waiting);
  }

  function OutcomeAcks(outcomes: seq<Outcome>): seq<nat> {
    seq(|outcomes|, i requires 0 <= i < |outcomes| => outcomes[i].ack)
  }

  lemma AcksConcat(a: seq<Request>, b: seq<Request>)
    ensures Acks(a + b) == Acks(a) + Acks(b)
  {
  }

  lemma OutcomeAcksConcat(a: seq<Outcome>, b: seq<Outcome>)
    ensures OutcomeAcks(a + b) == OutcomeAcks(a) + OutcomeAcks(b)
  {
  }

  lemma {:induction false} OutcomeAcksAreAcks(groups: seq<seq<Request>>, sent: seq<Sent>)
    requires |groups| == |sent|
    ensures OutcomeAcks(OutcomesOf(groups, sent)) == Acks(Flatten(groups))
    decreases |sent|
  {
    if sent != [] {
      var n := |sent| - 1;
      OutcomeAcksAreAcks(groups[..n], sent[..n]);
      assert groups == groups[..n] + [groups[n]];
      FlattenAppend(groups[..n], groups[n]);
      AcksConcat(Flatten(groups[..n]), groups[n]);
      var a, b := OutcomesOf(groups[..n], sent[..n]), OutcomesFor(Acks(groups[n]), sent[n].ok);
      OutcomeAcksConcat(a, b);
      assert OutcomeAcks(b) == Acks(groups[n]);
    }
  }

  /** Every accepted write is acknowledged once, or is waiting, in the order of the writes. */
  lemma EachWriteAcknowledgedOnce(events: seq<Event>)
    ensures var s := Run(INITIAL, events);
            Acks(Accepted(INITIAL, events)) == OutcomeAcks(s.outcomes) + s.acks
  {
    var s := Run(INITIAL, events);
    RunAccounted(events);
    OutcomeAcksAreAcks(s.groups, s.sent);
    AcksConcat(Flatten(s.groups), s.waiting);
  }

  // ---------- no write waits for ever ----------

  /** Writes wait for an acknowledgement exactly while the timer is running. */
  ghost predicate Wakes(s: State) {
    s.done || (s.timer != Spent && (s.acks != [] <==> s.timer == Armed))
  }

  /** The timer fires and finds no bytes to send. */
  predicate FiresInVain(s: State, e: Event) {
    !s.done && e.TimerFires? && s.timer == Armed && s.batch == []
  }

  lemma StepWakesIff(s: State, e: Event)
    requires Wakes(s)
    ensures Wakes(Step(s, e)) <==> !FiresInVain(s, e)
  {
  }

  /** In every state of the run, from the first to the last. */
  ghost predicate AlwaysWakes(events: seq<Event>) {
    Wakes(Run(INITIAL, events)) && (events != [] ==> AlwaysWakes(events[..|events| - 1]))
  }

  predicate NeverFiresInVain(events: seq<Event>) {
    events == [] ||
    var init := events[..|events| - 1];
    !FiresInVain(Run(INITIAL, init), events[|events| - 1]) && NeverFiresInVain(init)
  }

  /** A whole run keeps its writes from waiting for ever exactly when the timer never fires in vain. */
  lemma {:induction false} RunWakesIff(events: seq<Event>)
    ensures AlwaysWakes(events) <==> NeverFiresInVain(events)
    decreases |events|
  {
    if events != [] {
      var init := events[..|events| - 1];
      RunWakesIff(init);
      if AlwaysWakes(init) {
        StepWakesIff(Run(INITIAL, init), events[|events| - 1]);
      }
    }
  }

  predicate NonEmptyWrites(events: seq<Event>) {
    forall i :: 0 <= i < |events| && events[i].Accept? ==> events[i].req.data != []
  }

  /** With writes that carry bytes the timer never fires in vain, and all are acknowledged by the end. */
  lemma {:induction false} NonEmptyWritesWake(events: seq<Event>)
    requires NonEmptyWrites(events)
    ensures var s := Run(INITIAL, events);
            && NeverFiresInVain(events) && Wakes(s)
            && (s.acks != [] ==> s.batch != []) && (s.done ==> s.acks == [])
    decreases |events|
  {
    if events != [] {
      var init, last := events[..|events| - 1], events[|events| - 1];
      NonEmptyWritesWake(init);
      StepWakesIff(Run(INITIAL, init), last);
    }
  }

  /** A write of no bytes can leave later writes without a timer. */
  lemma EmptyWriteStopsTheTimer()
    ensures var s := Run(INITIAL, [Accept(Request(0, []), true), TimerFires(true), Accept(Request(1, [7]), true)]);
            s.acks == [0, 1] && s.timer == Spent && Step(s, TimerFires(true)) == s
  {
    var e := [Accept(Request(0, []), true), TimerFires(true), Accept(Request(1, [7]), true)];
    assert e[..2][..1] == e[..1] && e[..1][..0] == [];
    assert Run(INITIAL, e[..1][..0]) == INITIAL;
    var s1 := Run(INITIAL, e[..1]);
    assert s1 == INITIAL.(acks := [0], timer := Armed, waiting := [Request(0, [])]);
    var s2 := Run(INITIAL, e[..2]);
    assert s2 == s1.(timer := Spent);
  }

  // ---------- sizes ----------

  const MAX_WRITE := 32 * 1024

  /** If no write is longer than 32 KiB, the batch stays below 64 KiB and no batch sent exceeds 98303 bytes. */
  lemma {:induction false} BatchesAreBounded(events: seq<Event>)
    requires forall i :: 0 <= i < |events| && events[i].Accept? ==> |events[i].req.data| <= MAX_WRITE
    ensures var s := Run(INITIAL, events);
            && |s.batch| < MAX_BATCH_BYTES
            && forall k :: 0 <= k < |s.sent| ==> 0 < |s.sent[k].data| <= 98303
    decreases |events|
  {
    if events != [] {
      BatchesAreBounded(events[..|events| - 1]);
    }
  }

  // ---------- when batches are sent ----------

  /** The event ends the wait of the present batch: 64 KiB are there, the timer fires, or the connection closes. */
  predicate Sends(s: State, e: Event) {
    !s.done &&
    match e
    case Accept(req, _) => |s.batch| + |req.data| >= 65536
    case TimerFires(_) => s.timer == Armed && s.batch != []
    case CloseSignal(_) => s.batch != []
  }

  /** The bytes and the acks that wait once the event has brought its write, if any. */
  function Gathered(s: State, e: Event): (seq<byte>, seq<nat>) {
    if e.Accept? && !s.done then (s.batch + e.req.data, s.acks + [e.req.ack]) else (s.batch, s.acks)
  }

  /** From `s` to `t` the bytes `data` were sent as one batch, and the acks told how that went. */
  ghost predicate SentAndTold(s: State, t: State, data: seq<byte>, acks: seq<nat>, ok: bool) {
    && t.sent == s.sent + [Sent(data, ok)] && t.batch == [] && t.acks == []
    && |t.outcomes| == |s.outcomes| + |acks| && t.outcomes[..|s.outcomes|] == s.outcomes
    && (forall i :: 0 <= i < |acks| ==> t.outcomes[|s.outcomes| + i] == Outcome(acks[i], ok))
  }

  lemma SendBatchTells(s: State, ok: bool)
    requires s.batch != []
    ensures SentAndTold(s, SendBatch(s, ok), s.batch, s.acks, ok)
  {
  }

  lemma StepTells(s: State, e: Event)
    requires Sends(s, e)
    ensures SentAndTold(s, Step(s, e), Gathered(s, e).0, Gathered(s, e).1, e.sendOk)
    ensures Step(s, e).done <==> e.CloseSignal? || !e.sendOk
  {
    match e
    case Accept(req, ok) => SendBatchTells(Taken(s, req), ok);
    case TimerFires(ok) => SendBatchTells(s.(timer := Spent), ok);
    case CloseSignal(ok) => SendBatchTells(s, ok);
  }

  lemma RunStep(events: seq<Event>, e: Event)
    ensures Run(INITIAL, events + [e]) == Step(Run(INITIAL, events), e)
  {
    assert (events + [e])[..|events|] == events;
  }

  /** An event that sends hands over the whole batch, and tells each write in it how that went. */
  lemma WhatIsSent(events: seq<Event>, e: Event)
    requires Sends(Run(INITIAL, events), e)
    ensures var s, t := Run(INITIAL, events), Run(INITIAL, events + [e]);
            && SentAndTold(s, t, Gathered(s, e).0, Gathered(s, e).1, e.sendOk)
            && (t.done <==> e.CloseSignal? || !e.sendOk)
  {
    RunStep(events, e);
    StepTells(Run(INITIAL, events), e);
  }

  lemma StepTellsNothing(s: State, e: Event)
    requires !Sends(s, e)
    ensures var t := Step(s, e);
            && t.sent == s.sent && t.outcomes == s.outcomes && (t.batch, t.acks) == Gathered(s, e)
            && (t.done <==> s.done || e.CloseSignal?)
  {
  }

  /** Any other event sends nothing, tells nothing, and ends the loop only if it is a close. */
  lemma WhenNothingIsSent(events: seq<Event>, e: Event)
    requires !Sends(Run(INITIAL, events), e)
    ensures var s, t := Run(INITIAL, events), Run(INITIAL, events + [e]);
            && t.sent == s.sent && t.outcomes == s.outcomes && (t.batch, t.acks) == Gathered(s, e)
            && (t.done <==> s.done || e.CloseSignal?)
  {
    RunStep(events, e);
    StepTellsNothing(Run(INITIAL, events), e);
  }

  /** Each event sends the whole batch, with the write it brings, or nothing; a failed send or a close ends the loop. */
  lemma WhenBatchesAreSent(events: seq<Event>, e: Event)
    ensures var s, t := Run(INITIAL, events), Run(INITIAL, events + [e]);
            && t.sent == s.sent + (if Sends(s, e) then [Sent(Gathered(s, e).0, e.sendOk)] else [])
            && (t.done <==> s.done || e.CloseSignal? || (Sends(s, e) && !e.sendOk))
  {
    var s := Run(INITIAL, events);
    if Sends(s, e) {
      WhatIsSent(events, e);
    } else {
      WhenNothingIsSent(events, e);
      assert s.sent + [] == s.sent;
    }
  }

  /** The loop has ended exactly if the connection was closed or a send has failed. */
  lemma {:induction false} LoopEndsIff(events: seq<Event>)
    ensures var s := Run(INITIAL, events);
            s.done <==> (exists e <- events :: e.CloseSignal?) || (exists k :: 0 <= k < |s.sent| && !s.sent[k].ok)
    decreases |events|
  {
    if events != [] {
      var init, e := events[..|events| - 1], events[|events| - 1];
      assert events == init + [e];
      LoopEndsIff(init);
      WhenBatchesAreSent(init, e);
      var s, t := Run(INITIAL, init), Run(INITIAL, events);
      assert forall k :: 0 <= k < |s.sent| ==> t.sent[k] == s.sent[k];
      if Sends(s, e) {
        assert t.sent[|s.sent|].ok == e.sendOk;
      }
    }
  }

  /** Without the timer and a close, nothing is sent exactly as long as fewer than 65536 bytes were accepted. */
  lemma {:induction false} NothingIsSentIff(events: seq<Event>)
    requires forall e <- events :: e.Accept?
    ensures var (s, n) := (Run(INITIAL, events), |DataOf(Accepted(INITIAL, events))|);
            && (s.sent == [] <==> n < 65536)
            && (s.sent == [] ==> !s.done && |s.batch| == n && s.timer == if events == [] then Off else Armed)
    decreases |events|
  {
    if events != [] {
      var init, e := events[..|events| - 1], events[|events| - 1];
      assert events == init + [e];
      NothingIsSentIff(init);
      WhenBatchesAreSent(init, e);
      BytesAreConserved(events);
      BytesAreConserved(init);
    }
  }
}

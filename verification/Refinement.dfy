/** The two models of vpcd.c side by side: what a call of ViccCtx.Transmit
    promises about the wire is what a run of the reader's steps does to the
    queues, for every way the data are cut into pieces and the card's steps
    come in between; and so the call returns the card's answer to its APDU. */
module Refinement {
  import opened Basics
  import opened Bytes
  import opened Framing
  import opened Protocol
  import opened Runs
  import opened Vpcd
  import Relay

  /** w is the wire once what the reader has begun to send is sent.  `taken` has
      left the queue to the card already, and `future` has yet to enter the
      queue to the reader. */
  predicate Linked(w: Wire, s: State, taken: seq<byte>, future: seq<byte>)
  {
    w.outbox == taken + (s.toCard + s.readerUnsent) && w.inbox == s.toReader + future
  }

  // ------------------------------------------------------------------ sending

  /** What one send() takes. */
  type Part = n: nat | n > 0 witness 1

  function Sum(parts: seq<Part>): (n: nat)
    ensures n >= |parts|
  {
    if parts == [] then 0 else parts[0] + Sum(parts[1..])
  }

  /** One send() after the other, each taking so many bytes. */
  function Sends(parts: seq<Part>): (steps: seq<Step>)
  {
    if parts == [] then [] else [ReaderMoves(parts[0])] + Sends(parts[1..])
  }

  lemma OneSend(s: State, n: nat)
    requires s.reader == Sending && 0 < n <= |s.readerUnsent|
    ensures var t := ReaderStep(s, n);
            t.toCard + t.readerUnsent == s.toCard + s.readerUnsent
            && t == s.(toCard := t.toCard, readerUnsent := s.readerUnsent[n..], reader := t.reader, log := t.log)
            && (t.reader == Sending <==> n < |s.readerUnsent|)
            && (n == |s.readerUnsent| ==> t.reader == if Blocking(s.op) then AwaitLength else Idle)
  {
    assert s.readerUnsent[..n] + s.readerUnsent[n..] == s.readerUnsent;
  }

  lemma {:induction false} SendsWriteAll(card: Card, s: State, parts: seq<Part>)
    requires s.reader == Sending && s.readerUnsent != []
    requires Sum(parts) == |s.readerUnsent|
    ensures Possible(card, s, Sends(parts))
    ensures var t := After(card, s, Sends(parts));
            t.toCard == s.toCard + s.readerUnsent && t.readerUnsent == [] && t.toReader == s.toReader
            && t.op == s.op && t.reader == if Blocking(s.op) then AwaitLength else Idle
    decreases |parts|
  {
    var n, rest := parts[0], parts[1..];
    var t := Next(card, s, ReaderMoves(n));
    OneSend(s, n);
    if n == |s.readerUnsent| {
      assert rest == [];
      assert t.readerUnsent == [] && t.toCard + [] == t.toCard;
      assert Possible(card, t, []) && After(card, t, []) == t;
    } else {
      SendsWriteAll(card, t, rest);
    }
    OneStep(card, s, ReaderMoves(n), Sends(rest));
  }

  lemma BeginLinks(card: Card, s: State, op: Op, before: Wire, after: Wire, taken: seq<byte>, future: seq<byte>)
    requires s.reader == Idle && s.readerUnsent == [] && Payload(op) != [] && Linked(before, s, taken, future)
    requires after == before.(outbox := before.outbox + Frame(Payload(op)))
    ensures Linked(after, Next(card, s, Begin(op)), taken, future)
  {
    assert s.toCard + [] == s.toCard;
    Regroup(taken, s.toCard, Frame(Payload(op)));
  }

  /** For every schedule of positive partial sends the reader's steps write the
      frame, and then it waits for the answer. */
  lemma TransmitSends(card: Card, s: State, op: Op, parts: seq<Part>, before: Wire, after: Wire, rapdu: Message,
                      taken: seq<byte>, future: seq<byte>)
    requires Exchanged(before, after, Payload(op), rapdu) && Blocking(op)
    requires s.reader == Idle && s.readerUnsent == [] && Payload(op) != [] && Linked(before, s, taken, future)
    requires Sum(parts) == |Frame(Payload(op))|
    ensures Possible(card, Next(card, s, Begin(op)), Sends(parts))
    ensures var t := After(card, Next(card, s, Begin(op)), Sends(parts));
            t.op == op && t.reader == AwaitLength && t.readerUnsent == []
            && Linked(Wire(before.inbox, after.outbox), t, taken, future)
  {
    BeginLinks(card, s, op, before, Wire(before.inbox, after.outbox), taken, future);
    SendsWriteAll(card, Next(card, s, Begin(op)), parts);
    SentIsLinked(Next(card, s, Begin(op)), After(card, Next(card, s, Begin(op)), Sends(parts)),
                 Wire(before.inbox, after.outbox), taken, future);
  }

  lemma SentIsLinked(s: State, t: State, w: Wire, taken: seq<byte>, future: seq<byte>)
    requires Linked(w, s, taken, future)
    requires t.toCard == s.toCard + s.readerUnsent && t.readerUnsent == [] && t.toReader == s.toReader
    ensures Linked(w, t, taken, future)
  {
    assert t.toCard + [] == t.toCard;
  }

  // ------------------------------------------------------------------ in between

  /** Sends and steps of the card, in any order; nothing is read. */
  predicate NothingRead(card: Card, s: State, steps: seq<Step>)
    decreases |steps|
  {
    steps != [] ==>
      && Enabled(s, steps[0])
      && (steps[0].CardMoves? || (steps[0].ReaderMoves? && s.reader == Sending))
      && NothingRead(card, Next(card, s, steps[0]), steps[1..])
  }

  /** The bytes that enter the queue to the reader meanwhile. */
  function Delivered(card: Card, s: State, steps: seq<Step>): (b: seq<byte>)
    requires NothingRead(card, s, steps)
    decreases |steps|
  {
    if steps == [] then []
    else (if steps[0].CardMoves? && s.card.Writing? then s.cardUnsent[..steps[0].n] else [])
         + Delivered(card, Next(card, s, steps[0]), steps[1..])
  }

  lemma SendKeepsLink(s: State, n: nat, w: Wire, taken: seq<byte>, future: seq<byte>)
    requires s.reader == Sending && Enabled(s, ReaderMoves(n)) && Linked(w, s, taken, future)
    ensures Linked(w, ReaderStep(s, n), taken, future)
  {
    OneSend(s, n);
  }

  lemma CardKeepsLink(card: Card, s: State, n: nat, w: Wire, taken: seq<byte>, future: seq<byte>)
    returns (newTaken: seq<byte>, newFuture: seq<byte>)
    requires Enabled(s, CardMoves(n)) && Linked(w, s, taken, future)
    requires s.card.Writing? ==> s.cardUnsent[..n] <= future
    ensures Linked(w, CardStep(card, s, n), newTaken, newFuture)
    ensures future == (if s.card.Writing? then s.cardUnsent[..n] else []) + newFuture
  {
    if s.card.Writing? {
      newTaken, newFuture := taken, future[n..];
      Regroup(s.toReader, s.cardUnsent[..n], newFuture);
    } else {
      newTaken, newFuture := taken + s.toCard[..n], future;
      assert s.toCard + s.readerUnsent == s.toCard[..n] + (s.toCard[n..] + s.readerUnsent);
      Regroup(taken, s.toCard[..n], s.toCard[n..] + s.readerUnsent);
    }
  }

  lemma StepLeavesLog(card: Card, s: State, step: Step)
    requires Enabled(s, step) && (step.CardMoves? || (step.ReaderMoves? && s.reader == Sending)) && Blocking(s.op)
    ensures var t := Next(card, s, step); t.log == s.log && t.op == s.op && t.before == s.before
  {
  }

  lemma {:induction false} LinkIsKept(card: Card, s: State, steps: seq<Step>, w: Wire, taken: seq<byte>, future: seq<byte>)
    returns (newTaken: seq<byte>, newFuture: seq<byte>)
    requires NothingRead(card, s, steps) && Blocking(s.op)
    requires Linked(w, s, taken, future) && Delivered(card, s, steps) <= future
    ensures Possible(card, s, steps)
    ensures var t := After(card, s, steps);
            Linked(w, t, newTaken, newFuture) && t.log == s.log && t.op == s.op && t.before == s.before
    decreases |steps|
  {
    if steps == [] {
      newTaken, newFuture := taken, future;
    } else {
      var step, t := steps[0], Next(card, s, steps[0]);
      StepLeavesLog(card, s, step);
      newTaken, newFuture := taken, future;
      if step.CardMoves? {
        var now := if s.card.Writing? then s.cardUnsent[..step.n] else [];
        var later := Delivered(card, t, steps[1..]);
        assert now == (now + later)[..|now|] == future[..|now|];
        newTaken, newFuture := CardKeepsLink(card, s, step.n, w, taken, future);
        assert (now + newFuture)[|now|..] == newFuture && (now + later)[|now|..] == later;
        assert later <= newFuture;
      } else {
        SendKeepsLink(s, step.n, w, taken, future);
        assert [] + Delivered(card, t, steps[1..]) == Delivered(card, t, steps[1..]);
      }
      newTaken, newFuture := LinkIsKept(card, t, steps[1..], w, newTaken, newFuture);
    }
  }

  // ------------------------------------------------------------------ receiving

  lemma FrameInFront(queue: seq<byte>, future: seq<byte>, rapdu: Message, left: seq<byte>)
    requires queue + future == Frame(rapdu) + left && |queue| >= 2 + |rapdu|
    ensures queue[..2] == BE16(|rapdu|) && queue[2..][..|rapdu|] == rapdu
    ensures queue[2..][|rapdu|..] + future == left
  {
    var all := queue + future;
    assert queue == all[..|queue|];
    assert all[..2] == BE16(|rapdu|) && all[2..2 + |rapdu|] == rapdu && all[2 + |rapdu|..] == left;
    assert queue[2..][|rapdu|..] == queue[2 + |rapdu|..];
  }

  /** Once the answer is in the queue, the reader's next two steps consume it,
      and what the call returns is what is logged. */
  lemma TransmitReceives(card: Card, s: State, op: Op, rapdu: Message, before: Wire, after: Wire,
                         taken: seq<byte>, future: seq<byte>)
    requires Exchanged(before, after, Payload(op), rapdu)
    requires s.reader == AwaitLength && s.op == op && Linked(Wire(before.inbox, after.outbox), s, taken, future)
    requires |s.toReader| >= |Frame(rapdu)|
    ensures Possible(card, s, [ReaderMoves(2), ReaderMoves(|rapdu|)])
    ensures var t := After(card, s, [ReaderMoves(2), ReaderMoves(|rapdu|)]);
            t.reader == Idle && t.log == s.log + [Exchange(op, rapdu)] && Linked(after, t, taken, future)
  {
    FrameInFront(s.toReader, future, rapdu, after.inbox);
    var t1 := Next(card, s, ReaderMoves(2));
    var t2 := Next(card, t1, ReaderMoves(|rapdu|));
    assert Possible(card, t2, []) && After(card, t2, []) == t2;
    OneStep(card, t1, ReaderMoves(|rapdu|), []);
    OneStep(card, s, ReaderMoves(2), [ReaderMoves(|rapdu|)] + []);
    assert [ReaderMoves(2)] + ([ReaderMoves(|rapdu|)] + []) == [ReaderMoves(2), ReaderMoves(|rapdu|)];
  }

  // ------------------------------------------------------------------ the whole call

  lemma {:induction false} OneAfterTheOther(card: Card, s: State, a: seq<Step>, b: seq<Step>)
    requires Possible(card, s, a) && Possible(card, After(card, s, a), b)
    ensures Possible(card, s, a + b) && After(card, s, a + b) == After(card, After(card, s, a), b)
    decreases |a|
  {
    if a == [] {
      assert a + b == b;
    } else {
      OneAfterTheOther(card, Next(card, s, a[0]), a[1..], b);
      OneStep(card, s, a[0], a[1..] + b);
      assert a + b == [a[0]] + (a[1..] + b);
    }
  }

  lemma LastAnswerIsItsOwn(card: Card, before: seq<Message>, log: seq<Exchange>, e: Exchange)
    requires Faithful(card, before, log + [e])
    ensures e.answer == Expected(card, before + Apdus(log), e.op)
  {
    FaithfulAt(card, before, log + [e], |log|);
    assert (log + [e])[..|log|] == log;
  }

  /** A positive result of Transmit, begun in any idle state of the connection:
      whatever the interleaving with the card until its answer is there, the
      call is a run of the protocol, and what it returns is the card's answer to
      its own APDU after the APDUs of the calls before it. */
  lemma {:induction false} TransmitReturnsItsOwnAnswer(
      card: Card, s: State, op: Op, mid: seq<Step>, before: Wire, after: Wire, rapdu: Message,
      taken: seq<byte>, future: seq<byte>)
    returns (run: seq<Step>)
    requires Talkative(card) && Inv(card, s) && s.reader == Idle && Blocking(op) && Payload(op) != []
    requires Exchanged(before, after, Payload(op), rapdu) && Linked(before, s, taken, future)
    requires NothingRead(card, Next(card, s, Begin(op)), mid)
    requires Delivered(card, Next(card, s, Begin(op)), mid) <= future
    requires Possible(card, Next(card, s, Begin(op)), mid)
    requires var t := After(card, Next(card, s, Begin(op)), mid);
             t.reader == AwaitLength && |t.toReader| >= |Frame(rapdu)|
    ensures run == [Begin(op)] + (mid + [ReaderMoves(2), ReaderMoves(|rapdu|)])
    ensures Possible(card, s, run) && After(card, s, run).log == s.log + [Exchange(op, rapdu)]
    ensures rapdu == Expected(card, s.before + Apdus(s.log), op)
  {
    var t0 := Next(card, s, Begin(op));
    BeginLinks(card, s, op, before, Wire(before.inbox, after.outbox), taken, future);
    var newTaken, newFuture := LinkIsKept(card, t0, mid, Wire(before.inbox, after.outbox), taken, future);
    var t := After(card, t0, mid);
    var receives := [ReaderMoves(2), ReaderMoves(|rapdu|)];
    TransmitReceives(card, t, op, rapdu, before, after, newTaken, newFuture);
    OneAfterTheOther(card, t0, mid, receives);
    OneStep(card, s, Begin(op), mid + receives);
    run := [Begin(op)] + (mid + receives);
    RunKeepsInv(card, s, run);
    SameHistory(card, s, run);
    LastAnswerIsItsOwn(card, s.before, s.log, Exchange(op, rapdu));
  }

  lemma SameHistory(card: Card, s: State, steps: seq<Step>)
    requires Talkative(card) && Inv(card, s) && Possible(card, s, steps)
    ensures After(card, s, steps).before == s.before
  {
    RunKeepsInv(card, s, steps);
    assert After(card, s, steps).reader != Ejected;
    RunStarts(card, s, steps);
  }

  // ------------------------------------------------------------------ the relay

  /** The control messages byte for byte, and the header of an APDU. */
  lemma OnTheWire(op: Op)
    ensures match op
            case PowerOff => Frame(Payload(op)) == [0, 1, 0]
            case PowerOn => Frame(Payload(op)) == [0, 1, 1]
            case Reset => Frame(Payload(op)) == [0, 1, 2]
            case GetAtr => Frame(Payload(op)) == [0, 1, 4]
            case Transmit(apdu) => Frame(Payload(op)) == [|apdu| / 256, |apdu| % 256] + apdu
  {
    assert BE16(1) == [0, 1];
  }

  /** The relay's side: what vicc.c does with a control byte, an ATR request and
      an R-APDU is what the card of the machine does with them. */
  lemma RelayReactsAlike(card: Card, executed: seq<Message>, c: byte, rapdu: Message)
    requires |card.atr| <= MAX_MESSAGE
    ensures Relay.IsControl(c) <==> React(card, executed, [c]) != Stop(ReceiveFails)
    ensures Relay.IsControl(c) <==> c in {0, 1, 2, 4}
    ensures Relay.AtrReply(card.atr, c)
            == match React(card, executed, [c])
               case Reply(call, data) => Frame(data)
               case _ => []
    ensures Relay.Written(rapdu)
            == match Answer(InSend, rapdu)
               case Reply(call, data) => Frame(data)
               case _ => []
  {
  }
}

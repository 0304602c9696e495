/** What holds over whole runs of the protocol: every answer is the answer to
    its own request, nothing is left over, and no schedule blocks. */
module Runs {
  import opened Basics
  import opened Bytes
  import opened Framing
  import opened Protocol

  /** The steps can be taken one after the other from s. */
  predicate Possible(card: Card, s: State, steps: seq<Step>)
    decreases |steps|
  {
    steps == [] || (Enabled(s, steps[0]) && Possible(card, Next(card, s, steps[0]), steps[1..]))
  }

  function After(card: Card, s: State, steps: seq<Step>): (t: State)
    requires Possible(card, s, steps)
    decreases |steps|
  {
    if steps == [] then s else After(card, Next(card, s, steps[0]), steps[1..])
  }

  lemma OneStep(card: Card, s: State, step: Step, rest: seq<Step>)
    requires Enabled(s, step) && Possible(card, Next(card, s, step), rest)
    ensures Possible(card, s, [step] + rest)
    ensures After(card, s, [step] + rest) == After(card, Next(card, s, step), rest)
    ensures Begun([step] + rest) == (if step.Begin? then [step.op] else []) + Begun(rest)
  {
    assert ([step] + rest)[1..] == rest;
  }

  predicate NoNewRequest(steps: seq<Step>)
  {
    forall step :: step in steps ==> !step.Begin?
  }

  /** The operations the reader began, and those that are over or under way. */
  function Begun(steps: seq<Step>): (ops: seq<Op>)
  {
    if steps == [] then [] else (if steps[0].Begin? then [steps[0].op] else []) + Begun(steps[1..])
  }

  function Started(s: State): (ops: seq<Op>)
  {
    Ops(s.log) + if s.reader == Idle then [] else [s.op]
  }

  function Ops(log: seq<Exchange>): (ops: seq<Op>)
    ensures |ops| == |log| && forall i :: 0 <= i < |log| ==> ops[i] == log[i].op
  {
    if log == [] then [] else Ops(log[..|log| - 1]) + [log[|log| - 1].op]
  }

  lemma {:induction false} RunKeepsInv(card: Card, s: State, steps: seq<Step>)
    requires Talkative(card) && Inv(card, s)
    requires Possible(card, s, steps)
    ensures Inv(card, After(card, s, steps))
    decreases |steps|
  {
    if steps != [] {
      StepKeepsInv(card, s, steps[0]);
      RunKeepsInv(card, Next(card, s, steps[0]), steps[1..]);
    }
  }

  lemma OpsGrows(log: seq<Exchange>, e: Exchange)
    ensures Ops(log + [e]) == Ops(log) + [e.op]
  {
    assert (log + [e])[..|log|] == log;
  }

  lemma NothingIsOver(s: State, t: State)
    requires t.log == s.log && t.op == s.op && (t.reader == Idle <==> s.reader == Idle)
    ensures Started(t) == Started(s)
  {
  }

  lemma OneIsOver(s: State, t: State, e: Exchange)
    requires s.reader != Idle && t.reader == Idle && t.log == s.log + [e] && e.op == s.op
    ensures Started(t) == Started(s)
  {
    OpsGrows(s.log, e);
  }

  lemma ReaderStepStarts(s: State, n: nat)
    requires Enabled(s, ReaderMoves(n)) && ReaderStep(s, n).reader != Ejected
    ensures ReaderStep(s, n).before == s.before && Started(ReaderStep(s, n)) == Started(s)
  {
    var t := ReaderStep(s, n);
    if t.reader == Idle {
      OneIsOver(s, t, if s.reader == Sending then Exchange(s.op, []) else Exchange(s.op, s.toReader[..n]));
    } else {
      NothingIsOver(s, t);
    }
  }

  lemma CardStepStarts(card: Card, s: State, n: nat)
    requires Enabled(s, CardMoves(n))
    ensures CardStep(card, s, n).before == s.before && Started(CardStep(card, s, n)) == Started(s)
  {
  }

  lemma StepStarts(card: Card, s: State, step: Step)
    requires Enabled(s, step) && Next(card, s, step).reader != Ejected
    ensures Next(card, s, step).before == s.before
    ensures Started(Next(card, s, step)) == Started(s) + if step.Begin? then [step.op] else []
  {
    match step
    case Begin(op) =>
      assert Ops(s.log) + [op] == Ops(s.log) + [] + [op];
    case ReaderMoves(n) =>
      ReaderStepStarts(s, n);
    case CardMoves(n) =>
      CardStepStarts(card, s, n);
  }

  lemma {:induction false} RunStarts(card: Card, s: State, steps: seq<Step>)
    requires Possible(card, s, steps) && After(card, s, steps).reader != Ejected
    ensures After(card, s, steps).before == s.before
    ensures Started(After(card, s, steps)) == Started(s) + Begun(steps)
    decreases |steps|
  {
    if steps != [] {
      var (t, rest) := (Next(card, s, steps[0]), steps[1..]);
      RunStarts(card, t, rest);
      if t.reader == Ejected {
        EjectedStays(card, t, rest);
      }
      StepStarts(card, s, steps[0]);
      Regroup(Started(s), if steps[0].Begin? then [steps[0].op] else [], Begun(rest));
    }
  }

  lemma {:induction false} EjectedStays(card: Card, s: State, steps: seq<Step>)
    requires Possible(card, s, steps) && s.reader == Ejected
    ensures After(card, s, steps).reader == Ejected
    decreases |steps|
  {
    if steps != [] {
      EjectedStays(card, Next(card, s, steps[0]), steps[1..]);
    }
  }

  lemma {:induction false} FaithfulAt(card: Card, before: seq<Message>, log: seq<Exchange>, i: nat)
    requires Faithful(card, before, log) && i < |log|
    ensures log[i].answer == Expected(card, before + Apdus(log[..i]), log[i].op)
  {
    if i < |log| - 1 {
      var rest := log[..|log| - 1];
      FaithfulAt(card, before, rest, i);
      assert rest[..i] == log[..i];
    }
  }

  /** Each exchange that is over was given the card's answer to that very
      operation, the card having executed the APDUs of the exchanges before it
      (after history) and nothing else; and while the reader is idle no byte is
      left for it anywhere, nor has the card executed anything more.  The card
      gives up the connection for nothing but a one-byte APDU. */
  predicate RightSoFar(card: Card, history: seq<Message>, s: State)
  {
    && (forall i :: 0 <= i < |s.log| ==>
          s.log[i].answer == Expected(card, history + Apdus(s.log[..i]), s.log[i].op))
    && (s.reader == Idle ==>
          s.toReader == [] && !s.card.Writing? && s.executed == history + Apdus(s.log))
    && s.reader != Ejected && (s.card.Stopped? ==> s.reader == AwaitLength && !Answerable(s.op))
  }

  lemma IdleIsQuiet(card: Card, s: State)
    requires Inv(card, s) && s.reader == Idle
    ensures s.toReader == [] && !s.card.Writing? && s.executed == s.before + Apdus(s.log)
  {
    assert |ToReaderChannel(s)| == 0;
  }

  lemma {:induction false} InvIsRight(card: Card, history: seq<Message>, s: State)
    requires Inv(card, s) && s.before == history
    ensures RightSoFar(card, history, s)
  {
    forall i | 0 <= i < |s.log|
      ensures s.log[i].answer == Expected(card, history + Apdus(s.log[..i]), s.log[i].op)
    {
      FaithfulAt(card, history, s.log, i);
    }
    if s.reader == Idle {
      IdleIsQuiet(card, s);
    }
  }

  lemma StartsInv(card: Card, history: seq<Message>)
    ensures Inv(card, Connected(history)) && Started(Connected(history)) == []
  {
    assert Connected(history).before + Apdus([]) == history;
  }

  lemma {:induction false} RunIsRight(card: Card, history: seq<Message>, steps: seq<Step>)
    requires Talkative(card)
    requires Possible(card, Connected(history), steps)
    ensures Started(After(card, Connected(history), steps)) == Begun(steps)
    ensures RightSoFar(card, history, After(card, Connected(history), steps))
  {
    StartsInv(card, history);
    RunKeepsInv(card, Connected(history), steps);
    var s := After(card, Connected(history), steps);
    assert s.reader != Ejected;
    RunStarts(card, Connected(history), steps);
    assert [] + Begun(steps) == Begun(steps);
    InvIsRight(card, history, s);
  }

  /** Over every run of one connection: the exchanges that are over, followed
      by the one under way, are the operations the caller began, in order. */
  lemma {:induction false} OperationsAreInOrder(card: Card, history: seq<Message>, steps: seq<Step>)
    requires Talkative(card)
    requires Possible(card, Connected(history), steps)
    ensures Started(After(card, Connected(history), steps)) == Begun(steps)
  {
    RunIsRight(card, history, steps);
  }

  /** And each of them got its own answer. */
  lemma {:induction false} EveryAnswerIsItsOwn(card: Card, history: seq<Message>, steps: seq<Step>)
    requires Talkative(card)
    requires Possible(card, Connected(history), steps)
    ensures RightSoFar(card, history, After(card, Connected(history), steps))
  {
    RunIsRight(card, history, steps);
  }

  // ------------------------------------------------------------------ progress

  /** No process can move until the caller begins something new. */
  ghost predicate Stuck(s: State)
  {
    && (forall n :: !Enabled(s, ReaderMoves(n)))
    && (forall n :: !Enabled(s, CardMoves(n)))
  }

  /** A bound on the steps left: bytes weigh once for each time they move, and
      a message not yet taken weighs more than any answer to it. */
  function Work(s: State): (w: nat)
  {
    0x30000 * |s.pending| + 2 * |s.readerUnsent| + |s.toCard| + 2 * |s.cardUnsent| + |s.toReader|
  }

  lemma TakingAMessageDoesWork(card: Card, s: State, n: nat)
    requires Talkative(card) && s.card == ReadBody && Enabled(s, CardMoves(n)) && s.pending != []
    ensures Work(CardStep(card, s, n)) < Work(s)
  {
  }

  lemma MovingBytesDoesWork(card: Card, s: State, step: Step)
    requires Enabled(s, step) && !step.Begin? && !(step.CardMoves? && s.card == ReadBody)
    requires step.ReaderMoves? && s.reader == AwaitBody ==> step.n > 0
    ensures Work(Next(card, s, step)) < Work(s)
  {
  }

  lemma BodyForTheReader(card: Card, s: State)
    requires Inv(card, s) && s.reader == AwaitBody
    ensures FromBE16(s.readerGot) == |Expected(card, s.before + Apdus(s.log), s.op)| > 0
  {
    assert ToReaderChannel(s) == s.readerGot + (s.toReader + s.cardUnsent);
    FrontOfFrame(Expected(card, s.before + Apdus(s.log), s.op), s.readerGot, s.toReader + s.cardUnsent);
  }

  lemma StepDoesWork(card: Card, s: State, step: Step)
    requires Talkative(card) && Inv(card, s) && Enabled(s, step) && !step.Begin?
    ensures Work(Next(card, s, step)) < Work(s)
  {
    if step.CardMoves? && s.card == ReadBody {
      BodyInChannel(s);
      TakingAMessageDoesWork(card, s, step.n);
    } else {
      if s.reader == AwaitBody {
        BodyForTheReader(card, s);
      }
      MovingBytesDoesWork(card, s, step);
    }
  }

  /** The caller waits for an answer that will not come. */
  predicate Blocked(s: State)
  {
    s.reader == AwaitLength && !Answerable(s.op)
  }

  lemma StuckIsIdle(card: Card, s: State)
    requires Inv(card, s) && Stuck(s)
    ensures s.reader == Idle || Blocked(s)
    ensures s.pending == [] && s.toCard == [] && s.toReader == []
    ensures s.card == if Blocked(s) && !IsSilent(Payload(s.op)) then Stopped(ReceiveFails) else ReadLength
  {
    assert !Enabled(s, ReaderMoves(1)) && !Enabled(s, CardMoves(1));
    if s.pending != [] || s.card == ReadBody {
      MessageIsReadable(card, s);
    } else if s.reader != Idle && !Blocked(s) {
      AnswerIsReadable(card, s);
    }
    assert |ToCardChannel(s)| == 0;
    if s.reader == Idle || Blocked(s) {
      assert |ToReaderChannel(s)| == 0;
    }
  }

  lemma MessageIsReadable(card: Card, s: State)
    requires Inv(card, s) && s.reader != Sending && !s.card.Writing?
    requires s.pending != [] || s.card == ReadBody
    ensures exists n :: Enabled(s, CardMoves(n))
  {
    assert ToCardChannel(s) == s.cardGot + s.toCard;
    if s.card == ReadBody {
      BodyInChannel(s);
      assert Enabled(s, CardMoves(FromBE16(s.cardGot)));
    } else {
      assert |Frames(s.pending)| >= |Frame(s.pending[0])| >= 2;
      assert Enabled(s, CardMoves(2));
    }
  }

  lemma AnswerIsReadable(card: Card, s: State)
    requires Inv(card, s) && s.pending == [] && !s.card.Writing? && s.reader != Idle && !Blocked(s)
    ensures exists n :: Enabled(s, ReaderMoves(n))
  {
    var answer := Expected(card, s.before + Apdus(s.log), s.op);
    assert ToReaderChannel(s) == s.readerGot + s.toReader == Frame(answer);
    if s.reader == AwaitBody {
      assert Frame(answer)[..2] == s.readerGot && Frame(answer)[..2] == BE16(|answer|);
      assert Enabled(s, ReaderMoves(|answer|));
    } else {
      assert Enabled(s, ReaderMoves(2));
    }
  }

  /** However the two processes are scheduled, at most Work(s) steps pass until
      nothing can move, and then every message has been taken and the reader is
      idle, unless its request was a one-byte APDU that is never answered. */
  lemma {:induction false} EveryScheduleFinishes(card: Card, s: State, steps: seq<Step>)
    requires Talkative(card) && Inv(card, s)
    requires Possible(card, s, steps) && NoNewRequest(steps)
    ensures |steps| <= Work(s)
    ensures var t := After(card, s, steps);
            Stuck(t) ==> (t.reader == Idle || Blocked(t)) && t.pending == [] && t.toCard == [] && t.toReader == []
    decreases |steps|
  {
    if steps != [] {
      StepKeepsInv(card, s, steps[0]);
      StepDoesWork(card, s, steps[0]);
      EveryScheduleFinishes(card, Next(card, s, steps[0]), steps[1..]);
    } else if Stuck(s) {
      StuckIsIdle(card, s);
    }
  }

  /** And there is such a schedule. */
  lemma {:induction false} SomeScheduleFinishes(card: Card, s: State) returns (steps: seq<Step>)
    requires Talkative(card) && Inv(card, s)
    ensures Possible(card, s, steps) && NoNewRequest(steps) && Stuck(After(card, s, steps))
    decreases Work(s)
  {
    if Stuck(s) {
      steps := [];
    } else {
      var step := MovableStep(s);
      StepKeepsInv(card, s, step);
      StepDoesWork(card, s, step);
      steps := SomeScheduleFinishes(card, Next(card, s, step));
      OneStep(card, s, step, steps);
      steps := [step] + steps;
    }
  }

  lemma MovableStep(s: State) returns (step: Step)
    requires !Stuck(s)
    ensures Enabled(s, step) && !step.Begin?
  {
    if n :| Enabled(s, ReaderMoves(n)) {
      step := ReaderMoves(n);
    } else {
      var n :| Enabled(s, CardMoves(n));
      step := CardMoves(n);
    }
  }

  // ------------------------------------------------------------------ one-byte APDUs

  /** The reader is with this operation. */
  predicate With(s: State, op: Op)
  {
    (s.reader == Sending || s.reader == AwaitLength) && s.op == op
  }

  lemma UnanswerableStays(card: Card, s: State, step: Step, op: Op)
    requires Inv(card, s) && With(s, op) && !Answerable(op)
    requires Enabled(s, step) && !step.Begin?
    ensures With(Next(card, s, step), op)
  {
    if s.reader == AwaitLength {
      assert |ToReaderChannel(s)| == 0;
    }
  }

  lemma {:induction false} UnanswerableNeverEnds(card: Card, s: State, steps: seq<Step>, op: Op)
    requires Talkative(card) && Inv(card, s) && With(s, op) && !Answerable(op)
    requires Possible(card, s, steps) && NoNewRequest(steps)
    ensures With(After(card, s, steps), op)
    decreases |steps|
  {
    if steps != [] {
      StepKeepsInv(card, s, steps[0]);
      UnanswerableStays(card, s, steps[0], op);
      UnanswerableNeverEnds(card, Next(card, s, steps[0]), steps[1..], op);
    }
  }

  lemma OpStays(card: Card, s: State, step: Step)
    requires Enabled(s, step) && !step.Begin?
    ensures Next(card, s, step).op == s.op
  {
  }

  lemma {:induction false} OpStaysAlong(card: Card, s: State, steps: seq<Step>)
    requires Possible(card, s, steps) && NoNewRequest(steps)
    ensures After(card, s, steps).op == s.op
    decreases |steps|
  {
    if steps != [] {
      OpStays(card, s, steps[0]);
      OpStaysAlong(card, Next(card, s, steps[0]), steps[1..]);
    }
  }

  /** The schedule comes to a halt with the caller still waiting. */
  ghost predicate Blocks(card: Card, s: State, steps: seq<Step>)
  {
    Possible(card, s, steps) && NoNewRequest(steps) && Stuck(After(card, s, steps)) && After(card, s, steps).reader != Idle
  }

  /** vicc_transmit takes any non-empty APDU, but a one-byte APDU is read as a
      control byte.  In whatever state of the connection it is begun, and
      whatever is still under way, an operation can leave its caller blocked
      for ever exactly if it is such an APDU and not the byte that asks for the
      ATR; */
  lemma {:induction false} TransmitBlocksExactlyOnControlBytes(card: Card, s: State, op: Op)
    requires Talkative(card) && Inv(card, s) && Enabled(s, Begin(op))
    ensures (exists steps :: Blocks(card, Next(card, s, Begin(op)), steps)) <==> !Answerable(op)
  {
    StepKeepsInv(card, s, Begin(op));
    var t := Next(card, s, Begin(op));
    if !Answerable(op) {
      var steps := SomeScheduleFinishes(card, t);
      UnanswerableNeverEnds(card, t, steps, op);
      assert Blocks(card, t, steps);
    } else {
      forall steps | Possible(card, t, steps) && NoNewRequest(steps) && Stuck(After(card, t, steps))
        ensures After(card, t, steps).reader == Idle
      {
        EveryScheduleFinishes(card, t, steps);
        OpStaysAlong(card, t, steps);
      }
    }
  }

  /** and then every schedule does. */
  lemma {:induction false} UnanswerableAlwaysBlocks(card: Card, s: State, op: Op, steps: seq<Step>)
    requires Talkative(card) && Inv(card, s) && Enabled(s, Begin(op)) && !Answerable(op)
    requires Possible(card, Next(card, s, Begin(op)), steps) && NoNewRequest(steps)
    ensures After(card, Next(card, s, Begin(op)), steps).reader != Idle
    ensures |steps| <= Work(Next(card, s, Begin(op)))
  {
    StepKeepsInv(card, s, Begin(op));
    UnanswerableNeverEnds(card, Next(card, s, Begin(op)), steps, op);
    EveryScheduleFinishes(card, Next(card, s, Begin(op)), steps);
  }
}

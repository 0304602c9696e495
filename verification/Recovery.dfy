/** What the relay's main loop does when a connection is lost or given up
    (pcsc-relay/src/pcsc-relay.c:220-250, with vicc.c).  After a failed receive
    it reconnects and then falls through to its old C-APDU buffer, unless that
    is empty; after a failed send it goes back to receiving. */
module Recovery {
  import opened Basics
  import opened Bytes
  import opened Framing
  import opened Protocol
  import opened Runs

  /** How a blocked read sees the end: recv() returns 0, or it returns -1. */
  datatype Loss = Orderly | Broken

  /** The current connection, and the global `buflen` as it was when the
      connection was made. */
  datatype Loop = Loop(line: State, inherited: nat)

  /** `buflen`: the length of the last C-APDU received, or 0 if it was empty. */
  function Buflen(l: Loop): (n: nat)
  {
    var s := l.line;
    if s.card == Stopped(ReceivesNothing) then 0
    else if |s.executed| > |s.before| then |s.executed[|s.executed| - 1]| else l.inherited
  }

  /** How the call of the main loop that the relay is in comes back.  A relay
      that has given up does so whatever becomes of the connection. */
  function ComesBack(s: State, loss: Loss): (how: Return)
  {
    match s.card
    case ReadLength => if loss == Orderly then ReceivesNothing else ReceiveFails
    case ReadBody => if loss == Orderly then ReceivesNothing else ReceiveFails
    case Writing(InReceive) => ReceiveFails
    case Writing(InSend) => SendFails
    case Stopped(how) => how
  }

  /** A new connection on which the relay has executed its buffer at once. */
  function Resent(card: Card, executed: seq<Message>, buf: Message): (s: State)
  {
    var s := Connected(executed).(executed := executed + [buf]);
    match Answer(InSend, card.respond(executed, buf))
    case Silent => s
    case Reply(call, data) => s.(card := Writing(call), cardUnsent := Frame(data))
    case Stop(how) => s.(card := Stopped(how))
  }

  /** The rest of the pass of the main loop, up to the next blocking read or
      write.  After receiving nothing `buflen` is 0, and the next receive fails
      on the socket that was ejected. */
  function Reconnected(card: Card, l: Loop, loss: Loss, buf: Message): (m: Loop)
    requires |buf| == Buflen(l)
  {
    match ComesBack(l.line, loss)
    case SendFails => Loop(Connected(l.line.executed), |buf|)
    case ReceivesNothing => Loop(Connected(l.line.executed), 0)
    case ReceiveFails =>
      if buf == [] then Loop(Connected(l.line.executed), 0)
      else Loop(Resent(card, l.line.executed, buf), |buf|)
  }

  // ------------------------------------------------------------------ one loss

  /** The relay was waiting for a message and saw the peer close in order. */
  predicate WaitedToTheEnd(s: State, loss: Loss)
  {
    (s.card == ReadLength || s.card == ReadBody) && loss == Orderly
  }

  /** A loss does no harm if the relay saw an orderly end, if it was sending an
      R-APDU or gave up on one, or if its buffer is empty, as it is after an
      empty message. */
  predicate Clean(l: Loop, loss: Loss)
  {
    || Buflen(l) == 0
    || WaitedToTheEnd(l.line, loss)
    || l.line.card == Writing(InSend) || l.line.card == Stopped(SendFails)
  }

  lemma ResentIsWrong(card: Card, executed: seq<Message>, buf: Message)
    ensures !RightSoFar(card, executed, Resent(card, executed, buf))
  {
    var s := Resent(card, executed, buf);
    assert |s.executed| == |executed| + 1 && s.executed != executed + Apdus(s.log);
  }

  /** The answer to the old buffer is an R-APDU like any other: losing the new
      connection while it is being sent does not make the card execute the
      buffer a third time. */
  lemma ResentIsSentOnce(card: Card, executed: seq<Message>, buf: Message, inherited: nat, loss: Loss)
    requires buf != []
    ensures Clean(Loop(Resent(card, executed, buf), inherited), loss)
            <==> loss == Orderly || card.respond(executed, buf) != []
  {
  }

  lemma CleanlyReconnected(card: Card, l: Loop, loss: Loss, buf: Message)
    requires |buf| == Buflen(l)
    ensures Reconnected(card, l, loss, buf).line
            == if Clean(l, loss) then Connected(l.line.executed) else Resent(card, l.line.executed, buf)
  {
  }

  predicate RightAlong(card: Card, history: seq<Message>, s: State, steps: seq<Step>)
  {
    Possible(card, s, steps) ==> RightSoFar(card, history, After(card, s, steps))
  }

  /** Every run of the new connection is right exactly if the loss was clean.
      In every other case the card executes an APDU nobody sent. */
  lemma ReconnectIsRightExactlyWhenClean(card: Card, l: Loop, loss: Loss, buf: Message)
    requires Talkative(card) && |buf| == Buflen(l)
    ensures var s := Reconnected(card, l, loss, buf).line;
            Clean(l, loss) <==> forall steps :: RightAlong(card, l.line.executed, s, steps)
  {
    var s := Reconnected(card, l, loss, buf).line;
    CleanlyReconnected(card, l, loss, buf);
    if Clean(l, loss) {
      forall steps ensures RightAlong(card, l.line.executed, s, steps) {
        if Possible(card, s, steps) {
          EveryAnswerIsItsOwn(card, l.line.executed, steps);
        }
      }
    } else {
      ResentIsWrong(card, l.line.executed, buf);
      assert !RightAlong(card, l.line.executed, s, []);
    }
  }

  // ------------------------------------------------------------------ whole runs

  /** A step on the connection, or its loss; `buf` is what the C-APDU buffer
      holds then. */
  datatype Move = Inside(step: Step) | Lost(loss: Loss, buf: Message)

  predicate Allowed(l: Loop, move: Move)
  {
    match move
    case Inside(step) => Enabled(l.line, step)
    case Lost(_, buf) => |buf| == Buflen(l)
  }

  function Moved(card: Card, l: Loop, move: Move): (m: Loop)
    requires Allowed(l, move)
  {
    match move
    case Inside(step) => l.(line := Next(card, l.line, step))
    case Lost(loss, buf) => Reconnected(card, l, loss, buf)
  }

  predicate Feasible(card: Card, l: Loop, moves: seq<Move>)
    decreases |moves|
  {
    moves == [] || (Allowed(l, moves[0]) && Feasible(card, Moved(card, l, moves[0]), moves[1..]))
  }

  /** On every connection each answer is right and no byte is left over. */
  predicate AlwaysRight(card: Card, l: Loop, moves: seq<Move>)
    requires Feasible(card, l, moves)
    decreases |moves|
  {
    && RightSoFar(card, l.line.before, l.line)
    && (moves != [] ==> AlwaysRight(card, Moved(card, l, moves[0]), moves[1..]))
  }

  predicate AlwaysClean(card: Card, l: Loop, moves: seq<Move>)
    requires Feasible(card, l, moves)
    decreases |moves|
  {
    moves != [] ==>
      && (moves[0].Lost? ==> Clean(l, moves[0].loss))
      && AlwaysClean(card, Moved(card, l, moves[0]), moves[1..])
  }

  lemma MoveKeepsInv(card: Card, l: Loop, move: Move)
    requires Talkative(card) && Inv(card, l.line) && Allowed(l, move)
    requires move.Lost? ==> Clean(l, move.loss)
    ensures Inv(card, Moved(card, l, move).line)
  {
    match move
    case Inside(step) => StepKeepsInv(card, l.line, step);
    case Lost(loss, buf) =>
      CleanlyReconnected(card, l, loss, buf);
      StartsInv(card, l.line.executed);
  }

  lemma UncleanIsWrong(card: Card, l: Loop, move: Move)
    requires Allowed(l, move) && move.Lost? && !Clean(l, move.loss)
    ensures var m := Moved(card, l, move).line; !RightSoFar(card, m.before, m)
  {
    CleanlyReconnected(card, l, move.loss, move.buf);
    ResentIsWrong(card, l.line.executed, move.buf);
  }

  /** Over every run of the relay, through any number of connections with any
      requests on them and however they end: every answer is right exactly if
      every loss was clean. */
  lemma {:induction false} RelayIsRightExactlyWhenAlwaysClean(card: Card, l: Loop, moves: seq<Move>)
    requires Talkative(card) && Inv(card, l.line) && Feasible(card, l, moves)
    ensures AlwaysRight(card, l, moves) <==> AlwaysClean(card, l, moves)
    decreases |moves|
  {
    InvIsRight(card, l.line.before, l.line);
    if moves != [] {
      var m := Moved(card, l, moves[0]);
      if moves[0].Lost? && !Clean(l, moves[0].loss) {
        UncleanIsWrong(card, l, moves[0]);
      } else {
        MoveKeepsInv(card, l, moves[0]);
        RelayIsRightExactlyWhenAlwaysClean(card, m, moves[1..]);
      }
    }
  }

  // ------------------------------------------------------------------ the old buffer

  /** The length of the message that the card takes in a step. */
  function Taken(s: State, step: Step): (n: Option<nat>)
  {
    if step.CardMoves? && s.card == ReadBody then Some(step.n) else None
  }

  /** The length that the passes of the main loop leave in `buflen`: that of the
      last message of two or more bytes the card took, and 0 if an empty one or
      an orderly end came since.  Control bytes, failures, and executing the
      buffer once more leave it alone. */
  function LastLength(card: Card, l: Loop, moves: seq<Move>, n: nat): (m: nat)
    requires Feasible(card, l, moves)
    decreases |moves|
  {
    if moves == [] then n
    else
      var now :=
        match moves[0]
        case Inside(step) =>
          (match Taken(l.line, step)
           case Some(length) => if length == 1 then n else length
           case None => n)
        case Lost(loss, _) => if WaitedToTheEnd(l.line, loss) then 0 else n;
      LastLength(card, Moved(card, l, moves[0]), moves[1..], now)
  }

  lemma BodySetsTheLength(card: Card, s: State, n: nat, inherited: nat)
    requires Enabled(s, CardMoves(n)) && s.card == ReadBody && |s.executed| >= |s.before|
    ensures var t := CardStep(card, s, n);
            && |t.executed| >= |t.before|
            && Buflen(Loop(t, inherited)) == if n == 1 then Buflen(Loop(s, inherited)) else n
  {
  }

  lemma OthersLeaveTheBuffer(card: Card, s: State, step: Step)
    requires Enabled(s, step) && !(step.CardMoves? && s.card == ReadBody)
    ensures var t := Next(card, s, step);
            && t.executed == s.executed && t.before == s.before
            && (t.card == Stopped(ReceivesNothing) <==> s.card == Stopped(ReceivesNothing))
  {
  }

  lemma StepSetsTheLength(card: Card, l: Loop, step: Step)
    requires Enabled(l.line, step) && |l.line.executed| >= |l.line.before|
    ensures var m := Moved(card, l, Inside(step));
            && |m.line.executed| >= |m.line.before|
            && Buflen(m) == match Taken(l.line, step)
                            case Some(length) => if length == 1 then Buflen(l) else length
                            case None => Buflen(l)
  {
    if step.CardMoves? && l.line.card == ReadBody {
      BodySetsTheLength(card, l.line, step.n, l.inherited);
    } else {
      OthersLeaveTheBuffer(card, l.line, step);
    }
  }

  lemma LossSetsTheLength(card: Card, l: Loop, loss: Loss, buf: Message)
    requires |buf| == Buflen(l)
    ensures var m := Reconnected(card, l, loss, buf);
            && |m.line.executed| >= |m.line.before|
            && Buflen(m) == if WaitedToTheEnd(l.line, loss) then 0 else Buflen(l)
  {
  }

  lemma {:induction false} BuflenIsLastLength(card: Card, l: Loop, moves: seq<Move>, loss: Loss, buf: Message)
    requires Feasible(card, l, moves + [Lost(loss, buf)]) && |l.line.executed| >= |l.line.before|
    ensures Feasible(card, l, moves) && |buf| == LastLength(card, l, moves, Buflen(l))
    decreases |moves|
  {
    if moves == [] {
      assert (moves + [Lost(loss, buf)])[0] == Lost(loss, buf);
    } else {
      var m := Moved(card, l, moves[0]);
      assert (moves + [Lost(loss, buf)])[0] == moves[0];
      assert (moves + [Lost(loss, buf)])[1..] == moves[1..] + [Lost(loss, buf)];
      match moves[0] {
        case Inside(step) => StepSetsTheLength(card, l, step);
        case Lost(how, held) => LossSetsTheLength(card, l, how, held);
      }
      BuflenIsLastLength(card, m, moves[1..], loss, buf);
    }
  }

  /** Over every run from the start, through any number of connections: when one
      is lost the buffer has the length of the last C-APDU that the card took on
      any of them, and is empty if there was none or a receive has come back
      with nothing since. */
  lemma BufferHasTheLastLength(card: Card, history: seq<Message>, moves: seq<Move>, loss: Loss, buf: Message)
    requires Feasible(card, Loop(Connected(history), 0), moves + [Lost(loss, buf)])
    ensures Feasible(card, Loop(Connected(history), 0), moves)
    ensures |buf| == LastLength(card, Loop(Connected(history), 0), moves, 0)
  {
    BuflenIsLastLength(card, Loop(Connected(history), 0), moves, loss, buf);
  }

  // ------------------------------------------------------------------ what goes wrong

  /** A reader that waits takes whatever frame the card writes. */
  lemma WhateverComesIsTaken(card: Card, s: State, data: Message) returns (steps: seq<Step>)
    requires data != [] && s.reader == AwaitLength && s.toReader == []
    requires s.card.Writing? && s.cardUnsent == Frame(data)
    ensures Possible(card, s, steps) && Begun(steps) == []
    ensures After(card, s, steps).log == s.log + [Exchange(s.op, data)]
  {
    var c, d, e := CardMoves(2 + |data|), ReaderMoves(2), ReaderMoves(|data|);
    var s1 := Next(card, s, c);
    assert s1.toReader == Frame(data);
    var s2 := Next(card, s1, d);
    assert s2.readerGot == BE16(|data|) && s2.toReader == data;
    assert data[..|data|] == data;
    var s3 := Next(card, s2, e);
    assert Possible(card, s3, []) && After(card, s3, []) == s3;
    OneStep(card, s2, e, []);
    OneStep(card, s1, d, [e] + []);
    OneStep(card, s, c, [d] + ([e] + []));
    steps := [c] + ([d] + ([e] + []));
  }

  lemma RequestIsSent(card: Card, s: State, op: Op) returns (s1: State, s2: State)
    requires s.reader == Idle && s.toReader == [] && Blocking(op) && Payload(op) != []
    ensures Enabled(s, Begin(op)) && s1 == Next(card, s, Begin(op))
    ensures Enabled(s1, ReaderMoves(2 + |Payload(op)|)) && s2 == Next(card, s1, ReaderMoves(2 + |Payload(op)|))
    ensures s2.reader == AwaitLength && s2.op == op && s2.toReader == [] && s2.log == s.log
    ensures s2.card == s.card && s2.cardUnsent == s.cardUnsent
  {
    s1 := Next(card, s, Begin(op));
    s2 := Next(card, s1, ReaderMoves(2 + |Payload(op)|));
  }

  lemma NextRequestGets(card: Card, s: State, op: Op, data: Message) returns (steps: seq<Step>)
    requires s.reader == Idle && s.toReader == [] && Blocking(op) && Payload(op) != []
    requires data != [] && s.card.Writing? && s.cardUnsent == Frame(data)
    ensures Possible(card, s, steps) && Begun(steps) == [op]
    ensures After(card, s, steps).log == s.log + [Exchange(op, data)]
  {
    var s1, s2 := RequestIsSent(card, s, op);
    steps := WhateverComesIsTaken(card, s2, data);
    OneStep(card, s1, ReaderMoves(2 + |Payload(op)|), steps);
    steps := [ReaderMoves(2 + |Payload(op)|)] + steps;
    OneStep(card, s, Begin(op), steps);
    steps := [Begin(op)] + steps;
  }

  /** After an unclean loss the next request, whatever it is, can be given the
      answer to the old C-APDU. */
  lemma StaleAnswerIsDelivered(card: Card, l: Loop, loss: Loss, buf: Message, op: Op)
    requires Talkative(card) && |buf| == Buflen(l) && !Clean(l, loss)
    requires Blocking(op) && Payload(op) != []
    ensures var s := Reconnected(card, l, loss, buf).line;
            exists steps ::
              && Possible(card, s, steps)
              && Begun(steps) == [op]
              && After(card, s, steps).log == [Exchange(op, card.respond(l.line.executed, buf))]
  {
    var s := Reconnected(card, l, loss, buf).line;
    var data := card.respond(l.line.executed, buf);
    var steps := NextRequestGets(card, s, op, data);
    assert [] + [Exchange(op, data)] == [Exchange(op, data)];
  }

  lemma GivesUp(card: Card, s: State, op: Op)
    requires Inv(card, s) && Stuck(s) && With(s, op) && !Answerable(op) && !IsSilent(Payload(op))
    ensures s.card == Stopped(ReceiveFails)
  {
    StuckIsIdle(card, s);
  }

  lemma GivingUpIsUnclean(l: Loop, loss: Loss)
    requires l.line.card == Stopped(ReceiveFails)
    ensures Clean(l, loss) <==> Buflen(l) == 0
  {
  }

  /** A one-byte APDU that is no control byte makes every schedule end in such
      a loss, however the connection goes on, once any C-APDU was received. */
  lemma UnknownByteIsNeverClean(card: Card, l: Loop, op: Op, steps: seq<Step>, loss: Loss)
    requires Talkative(card) && Inv(card, l.line) && Enabled(l.line, Begin(op))
    requires !Answerable(op) && !IsSilent(Payload(op))
    requires Possible(card, Next(card, l.line, Begin(op)), steps) && NoNewRequest(steps)
    requires Stuck(After(card, Next(card, l.line, Begin(op)), steps))
    ensures var m := l.(line := After(card, Next(card, l.line, Begin(op)), steps));
            m.line.card == Stopped(ReceiveFails) && (Clean(m, loss) <==> Buflen(m) == 0)
  {
    var t := Next(card, l.line, Begin(op));
    StepKeepsInv(card, l.line, Begin(op));
    RunKeepsInv(card, t, steps);
    UnanswerableNeverEnds(card, t, steps, op);
    GivesUp(card, After(card, t, steps), op);
    GivingUpIsUnclean(l.(line := After(card, t, steps)), loss);
  }
}

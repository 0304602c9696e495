/** Reader and card as two processes over two byte queues.

    The reader is any caller of vpcd.c: it sends a frame in arbitrary pieces
    and, when it asked for an answer, blocks for one frame.  The card is the
    relay (pcsc-relay.c, vicc.c): it blocks for one frame, reacts, and sends
    its answer in arbitrary pieces.  Every interleaving of those steps is a
    run.  The card program itself is an arbitrary function of the APDUs it has
    executed before and the one it executes now. */
module Protocol {
  import opened Bytes
  import opened Framing
  import opened Vpcd

  datatype Card = Card(atr: seq<byte>, respond: (seq<Message>, Message) -> seq<byte>)

  /** ATR and R-APDU are never empty and fit a frame. */
  ghost predicate Talkative(card: Card)
  {
    && 1 <= |card.atr| <= MAX_MESSAGE
    && forall history, apdu :: 1 <= |card.respond(history, apdu)| <= MAX_MESSAGE
  }

  datatype Op = PowerOff | PowerOn | Reset | GetAtr | Transmit(apdu: Message)

  function Payload(op: Op): (m: Message)
  {
    match op
    case PowerOff => [CTRL_OFF]
    case PowerOn => [CTRL_ON]
    case Reset => [CTRL_RESET]
    case GetAtr => [CTRL_ATR]
    case Transmit(apdu) => apdu
  }

  /** The caller blocks for an answer. */
  predicate Blocking(op: Op)
  {
    op.GetAtr? || op.Transmit?
  }

  datatype ReaderPc = Idle | Sending | AwaitLength | AwaitBody | Ejected

  /** The call of the relay's main loop that writes: an ATR is sent from inside
      receive_capdu, an R-APDU by send_rapdu. */
  datatype Call = InReceive | InSend

  /** How such a call comes back without having done its work. */
  datatype Return = ReceiveFails | ReceivesNothing | SendFails

  datatype CardPc = ReadLength | ReadBody | Writing(call: Call) | Stopped(how: Return)

  datatype Exchange = Exchange(op: Op, answer: seq<byte>)

  /** Each process has the bytes of the length field it has read (`Got`) and
      the bytes it has yet to write (`Unsent`).  `before` is what the card had
      executed when the connection was made; `pending` (messages begun and not
      yet taken by the card) and `log` are history, read by no step. */
  datatype State = State(
    reader: ReaderPc, op: Op, readerGot: seq<byte>, readerUnsent: seq<byte>,
    card: CardPc, cardGot: seq<byte>, cardUnsent: seq<byte>,
    toCard: seq<byte>, toReader: seq<byte>,
    before: seq<Message>, executed: seq<Message>,
    pending: seq<Message>, log: seq<Exchange>)

  datatype Step = Begin(op: Op) | ReaderMoves(n: nat) | CardMoves(n: nat)

  function Connected(history: seq<Message>): (s: State)
  {
    State(Idle, Reset, [], [], ReadLength, [], [], [], [], history, history, [], [])
  }

  /** The relay's answer to a complete message; Stop makes it give up the
      connection. */
  datatype Reaction = Silent | Reply(call: Call, data: seq<byte>) | Stop(how: Return)

  function React(card: Card, executed: seq<Message>, m: Message): (r: Reaction)
  {
    if m == [] then Stop(ReceivesNothing)
    else if |m| == 1 then
      if m[0] == CTRL_OFF || m[0] == CTRL_ON || m[0] == CTRL_RESET then Silent
      else if m[0] == CTRL_ATR then Answer(InReceive, card.atr)
      else Stop(ReceiveFails)
    else Answer(InSend, card.respond(executed, m))
  }

  /** Sending nothing is silence; what does not fit a frame is an error. */
  function Answer(call: Call, data: seq<byte>): (r: Reaction)
  {
    if data == [] then Silent
    else if |data| > MAX_MESSAGE then Stop(if call == InReceive then ReceiveFails else SendFails)
    else Reply(call, data)
  }

  predicate Enabled(s: State, step: Step)
  {
    match step
    case Begin(op) => s.reader.Idle? && Payload(op) != []
    case ReaderMoves(n) =>
      (match s.reader
       case Idle => false
       case Sending => 1 <= n <= |s.readerUnsent|
       case AwaitLength => n == 2 <= |s.toReader|
       case AwaitBody => |s.readerGot| == 2 && n == FromBE16(s.readerGot) <= |s.toReader|
       case Ejected => false)
    case CardMoves(n) =>
      match s.card
      case ReadLength => n == 2 <= |s.toCard|
      case ReadBody => |s.cardGot| == 2 && n == FromBE16(s.cardGot) <= |s.toCard|
      case Writing(_) => 1 <= n <= |s.cardUnsent|
      case Stopped(_) => false
  }

  function ReaderStep(s: State, n: nat): (t: State)
    requires Enabled(s, ReaderMoves(n))
  {
    match s.reader
    case Sending =>
      var t := s.(toCard := s.toCard + s.readerUnsent[..n], readerUnsent := s.readerUnsent[n..]);
      if n < |s.readerUnsent| then t
      else if Blocking(s.op) then t.(reader := AwaitLength)
      else t.(reader := Idle, log := s.log + [Exchange(s.op, [])])
    case AwaitLength =>
      s.(reader := AwaitBody, readerGot := s.toReader[..2], toReader := s.toReader[2..])
    case AwaitBody =>
      if n == 0 then s.(reader := Ejected)
      else s.(reader := Idle, readerGot := [], toReader := s.toReader[n..],
              log := s.log + [Exchange(s.op, s.toReader[..n])])
  }

  function CardStep(card: Card, s: State, n: nat): (t: State)
    requires Enabled(s, CardMoves(n))
  {
    match s.card
    case ReadLength =>
      s.(card := ReadBody, cardGot := s.toCard[..2], toCard := s.toCard[2..])
    case ReadBody =>
      var m: Message := s.toCard[..n];
      var t := s.(cardGot := [], toCard := s.toCard[n..],
                  executed := s.executed + Apdu(m),
                  pending := if s.pending == [] then [] else s.pending[1..]);
      (match React(card, s.executed, m)
       case Silent => t.(card := ReadLength)
       case Reply(call, data) => t.(card := Writing(call), cardUnsent := Frame(data))
       case Stop(how) => t.(card := Stopped(how)))
    case Writing(call) =>
      s.(toReader := s.toReader + s.cardUnsent[..n], cardUnsent := s.cardUnsent[n..],
         card := if n < |s.cardUnsent| then Writing(call) else ReadLength)
  }

  /** The APDU a message carries, if it is one. */
  function Apdu(m: Message): (ms: seq<Message>)
  {
    if |m| >= 2 then [m] else []
  }

  function Next(card: Card, s: State, step: Step): (t: State)
    requires Enabled(s, step)
  {
    match step
    case Begin(op) =>
      s.(reader := Sending, op := op, readerUnsent := Frame(Payload(op)), pending := s.pending + [Payload(op)])
    case ReaderMoves(n) => ReaderStep(s, n)
    case CardMoves(n) => CardStep(card, s, n)
  }

  // ------------------------------------------------------------------ the invariant

  /** A one-byte APDU is taken for a control byte, and only one of those is
      answered; any other leaves its caller waiting. */
  predicate Answerable(op: Op)
  {
    op.Transmit? ==> |op.apdu| >= 2 || (|op.apdu| == 1 && op.apdu[0] == CTRL_ATR)
  }

  /** The APDUs among the completed exchanges, in order. */
  function Apdus(log: seq<Exchange>): (ms: seq<Message>)
  {
    if log == [] then []
    else Apdus(log[..|log| - 1]) + Apdu(Payload(log[|log| - 1].op))
  }

  /** The answer that belongs to op when the card had executed history. */
  function Expected(card: Card, history: seq<Message>, op: Op): (answer: seq<byte>)
  {
    if !Blocking(op) then []
    else if |Payload(op)| >= 2 then card.respond(history, Payload(op))
    else card.atr
  }

  /** Each logged answer is the card's answer to that request, the card having
      executed just the APDUs of the exchanges before it. */
  predicate Faithful(card: Card, before: seq<Message>, log: seq<Exchange>)
  {
    log == [] ||
    (var (rest, last) := (log[..|log| - 1], log[|log| - 1]);
     Faithful(card, before, rest) && last.answer == Expected(card, before + Apdus(rest), last.op))
  }

  /** Bytes on their way to the card, with the part of the current frame that
      the card has read already and the part the reader has yet to write. */
  function ToCardChannel(s: State): (b: seq<byte>)
  {
    s.cardGot + s.toCard + s.readerUnsent
  }

  function ToReaderChannel(s: State): (b: seq<byte>)
  {
    s.readerGot + s.toReader + s.cardUnsent
  }

  predicate IsSilent(m: Message)
  {
    |m| == 1 && (m[0] == CTRL_OFF || m[0] == CTRL_ON || m[0] == CTRL_RESET)
  }

  predicate AllSilent(ms: seq<Message>)
  {
    forall m :: m in ms ==> IsSilent(m)
  }

  /** Each process holds a length field exactly when it waits for a body, and
      unsent bytes exactly while it writes.  The card gives up for nothing but a
      one-byte APDU that is no control byte. */
  predicate Shape(s: State)
  {
    && s.reader != Ejected
    && (s.card.Stopped? ==> s.card.how == ReceiveFails && s.reader == AwaitLength && !Answerable(s.op) && s.pending == [])
    && (if s.card == ReadBody then |s.cardGot| == 2 else s.cardGot == [])
    && (if s.reader == AwaitBody then |s.readerGot| == 2 else s.readerGot == [])
    && (s.card.Writing? <==> s.cardUnsent != [])
    && (s.reader == Sending <==> s.readerUnsent != [])
  }

  /** Nothing is asked of the card: only silent messages are under way.
      `history` is what the card executes for the exchanges that are over. */
  predicate Quiet(s: State, history: seq<Message>)
  {
    AllSilent(s.pending) && ToReaderChannel(s) == [] && s.executed == history
  }

  /** The request s.op is under way and not yet taken. */
  predicate Asked(s: State, history: seq<Message>)
  {
    && s.pending != [] && s.pending[|s.pending| - 1] == Payload(s.op) != []
    && AllSilent(s.pending[..|s.pending| - 1])
    && ToReaderChannel(s) == []
    && s.executed == history
  }

  /** The card has taken s.op; its whole answer is under way back. */
  predicate Answered(card: Card, s: State, history: seq<Message>)
  {
    && s.pending == []
    && s.executed == history + Apdu(Payload(s.op))
    && var answer := Expected(card, history, s.op);
       1 <= |answer| <= MAX_MESSAGE && ToReaderChannel(s) == Frame(answer)
  }

  /** The card has taken s.op for a control byte; no answer will come.  It
      gives up if it does not know the byte. */
  predicate Dropped(s: State, history: seq<Message>)
  {
    && s.pending == [] && ToReaderChannel(s) == [] && s.executed == history
    && (s.card == Stopped(ReceiveFails) <==> !IsSilent(Payload(s.op)))
  }

  predicate Taken(card: Card, s: State, history: seq<Message>)
  {
    if Answerable(s.op) then Answered(card, s, history) else Dropped(s, history)
  }

  predicate Matched(card: Card, s: State, history: seq<Message>)
  {
    match s.reader
    case Idle => Quiet(s, history)
    case Sending => Asked(s, history)
    case AwaitLength => Blocking(s.op) && (Asked(s, history) || Taken(card, s, history))
    case AwaitBody => Answerable(s.op) && Blocking(s.op) && Answered(card, s, history)
    case Ejected => false
  }

  predicate Sound(card: Card, s: State, wire: seq<byte>, history: seq<Message>)
  {
    Shape(s) && ToCardChannel(s) == wire && Matched(card, s, history)
  }

  predicate Inv(card: Card, s: State)
  {
    && Sound(card, s, Frames(s.pending), s.before + Apdus(s.log))
    && Faithful(card, s.before, s.log)
  }

  // ------------------------------------------------------------------ preservation

  lemma ReaderSends(card: Card, s: State, n: nat, wire: seq<byte>, history: seq<Message>)
    requires Sound(card, s, wire, history) && s.reader.Sending? && Enabled(s, ReaderMoves(n)) && n < |s.readerUnsent|
    ensures Sound(card, ReaderStep(s, n), wire, history)
  {
    assert ToCardChannel(ReaderStep(s, n)) == ToCardChannel(s);
  }

  lemma FrameIsWritten(s: State)
    requires s.reader.Sending? && s.readerUnsent != []
    ensures ReaderStep(s, |s.readerUnsent|)
            == s.(toCard := s.toCard + s.readerUnsent, readerUnsent := [],
                  reader := if Blocking(s.op) then AwaitLength else Idle,
                  log := s.log + if Blocking(s.op) then [] else [Exchange(s.op, [])])
  {
    assert s.readerUnsent[..|s.readerUnsent|] == s.readerUnsent;
    assert s.log + [] == s.log;
  }

  lemma RequestStaysAsked(card: Card, s: State, t: State, wire: seq<byte>, history: seq<Message>)
    requires Sound(card, s, wire, history) && s.reader.Sending?
    requires t == s.(toCard := s.toCard + s.readerUnsent, readerUnsent := [], reader := t.reader, log := t.log)
    requires t.reader == if Blocking(s.op) then AwaitLength else Idle
    ensures Sound(card, t, wire, history)
  {
    assert ToCardChannel(t) == ToCardChannel(s);
    assert ToReaderChannel(t) == ToReaderChannel(s);
    if !Blocking(s.op) {
      assert IsSilent(Payload(s.op));
      assert s.pending == s.pending[..|s.pending| - 1] + [Payload(s.op)];
    }
  }

  /** The last byte of a frame: block for the answer, or be done. */
  lemma ReaderFinishesSending(card: Card, s: State, wire: seq<byte>, history: seq<Message>)
    requires Sound(card, s, wire, history) && s.reader.Sending?
    ensures Sound(card, ReaderStep(s, |s.readerUnsent|), wire, history)
  {
    FrameIsWritten(s);
    RequestStaysAsked(card, s, ReaderStep(s, |s.readerUnsent|), wire, history);
  }

  lemma ReaderTakesLength(card: Card, s: State, wire: seq<byte>, history: seq<Message>)
    requires Sound(card, s, wire, history) && s.reader.AwaitLength? && Enabled(s, ReaderMoves(2))
    ensures Sound(card, ReaderStep(s, 2), wire, history)
  {
    assert ToReaderChannel(ReaderStep(s, 2)) == ToReaderChannel(s);
  }

  lemma ReaderTakesBody(card: Card, s: State, n: nat, wire: seq<byte>, history: seq<Message>)
    requires Sound(card, s, wire, history) && s.reader.AwaitBody? && Enabled(s, ReaderMoves(n))
    ensures Sound(card, ReaderStep(s, n), wire, history + Apdu(Payload(s.op)))
    ensures ReaderStep(s, n).log == s.log + [Exchange(s.op, Expected(card, history, s.op))]
  {
    var answer := Expected(card, history, s.op);
    assert ToReaderChannel(s)[..2] == s.readerGot && ToReaderChannel(s)[2..] == s.toReader + s.cardUnsent;
    assert Frame(answer)[..2] == BE16(|answer|) && Frame(answer)[2..] == answer;
    assert s.toReader == answer && s.cardUnsent == [];
  }

  lemma CardTakesLength(card: Card, s: State, wire: seq<byte>, history: seq<Message>)
    requires Sound(card, s, wire, history) && s.card.ReadLength? && Enabled(s, CardMoves(2))
    ensures Sound(card, CardStep(card, s, 2), wire, history)
  {
    assert ToCardChannel(CardStep(card, s, 2)) == ToCardChannel(s);
  }

  lemma CardSends(card: Card, s: State, n: nat, wire: seq<byte>, history: seq<Message>)
    requires Sound(card, s, wire, history) && s.card.Writing? && Enabled(s, CardMoves(n))
    ensures Sound(card, CardStep(card, s, n), wire, history)
  {
    assert ToReaderChannel(CardStep(card, s, n)) == ToReaderChannel(s);
  }

  lemma RequestOutlivesSilence(s: State, t: State, history: seq<Message>)
    requires Asked(s, history) && |s.pending| > 1
    requires t.pending == s.pending[1..] && t.op == s.op && t.executed == s.executed && ToReaderChannel(t) == []
    ensures Asked(t, history)
  {
    assert t.pending[..|t.pending| - 1] == s.pending[..|s.pending| - 1][1..];
  }

  /** The card takes a silent message and goes back to reading. */
  lemma SilentMessageIsTaken(card: Card, s: State, rest: seq<byte>)
    requires s.card.ReadBody? && Enabled(s, CardMoves(1))
    requires s.pending != [] && IsSilent(s.pending[0]) && s.toCard + s.readerUnsent == s.pending[0] + rest
    ensures CardStep(card, s, 1) == s.(card := ReadLength, cardGot := [], toCard := s.toCard[1..], pending := s.pending[1..])
    ensures s.toCard[1..] + s.readerUnsent == rest
  {
    assert s.toCard[..1] == (s.toCard + s.readerUnsent)[..1] == s.pending[0];
    assert s.toCard[1..] + s.readerUnsent == (s.toCard + s.readerUnsent)[1..] == rest;
    assert s.executed + [] == s.executed;
  }

  lemma CardIgnores(card: Card, s: State, t: State, wire: seq<byte>, rest: seq<byte>, history: seq<Message>)
    requires Sound(card, s, wire, history) && s.card.ReadBody? && s.pending != []
    requires t == s.(card := ReadLength, cardGot := [], toCard := t.toCard, pending := s.pending[1..])
    requires t.toCard + t.readerUnsent == rest
    requires s.reader == Idle || |s.pending| > 1
    ensures Sound(card, t, rest, history)
  {
    assert ToCardChannel(t) == rest;
    assert ToReaderChannel(t) == ToReaderChannel(s);
    if s.reader != Idle {
      RequestOutlivesSilence(s, t, history);
    }
  }

  /** The card takes the request the reader waits for and starts its answer. */
  lemma RequestIsTaken(card: Card, s: State, history: seq<Message>)
    requires Talkative(card) && s.card.ReadBody? && Answerable(s.op) && Blocking(s.op) && Asked(s, history)
    requires |s.pending| == 1 && s.toCard == s.pending[0] && Enabled(s, CardMoves(|s.toCard|))
    ensures CardStep(card, s, |s.toCard|)
            == s.(card := Writing(if |Payload(s.op)| >= 2 then InSend else InReceive), cardGot := [], toCard := [], pending := [],
                  executed := history + Apdu(Payload(s.op)),
                  cardUnsent := Frame(Expected(card, history, s.op)))
  {
    assert s.toCard[..|s.toCard|] == Payload(s.op);
  }

  lemma CardAnswers(card: Card, s: State, t: State, wire: seq<byte>, history: seq<Message>)
    requires Talkative(card) && Sound(card, s, wire, history) && s.reader.AwaitLength? && Asked(s, history)
    requires t == s.(card := t.card, cardGot := [], toCard := [], pending := [],
                     executed := history + Apdu(Payload(s.op)),
                     cardUnsent := Frame(Expected(card, history, s.op)))
    requires t.card.Writing? && Answerable(s.op)
    ensures Sound(card, t, [], history)
  {
    assert ToReaderChannel(t) == t.cardUnsent;
  }

  /** The card takes the request for a control byte that asks for nothing. */
  lemma RequestIsMistaken(card: Card, s: State)
    requires s.card.ReadBody? && !Answerable(s.op) && s.pending == [Payload(s.op)] && s.toCard == Payload(s.op) != []
    requires Enabled(s, CardMoves(|s.toCard|))
    ensures var t := CardStep(card, s, |s.toCard|);
            t == s.(card := if IsSilent(Payload(s.op)) then ReadLength else Stopped(ReceiveFails),
                    cardGot := [], toCard := [], pending := [])
  {
    assert s.toCard[..|s.toCard|] == Payload(s.op);
    assert s.executed + [] == s.executed;
  }

  lemma RequestIsDropped(card: Card, s: State, t: State, wire: seq<byte>, history: seq<Message>)
    requires Sound(card, s, wire, history) && s.card.ReadBody? && s.reader.AwaitLength? && Asked(s, history)
    requires !Answerable(s.op)
    requires t == s.(card := if IsSilent(Payload(s.op)) then ReadLength else Stopped(ReceiveFails),
                     cardGot := [], toCard := [], pending := [])
    ensures Sound(card, t, [], history)
  {
    assert ToReaderChannel(t) == ToReaderChannel(s) && |ToCardChannel(t)| == 0;
  }

  /** A complete frame at the front of the channel is the first pending one. */
  lemma FrontOfChannel(ms: seq<Message>, got: seq<byte>, rest: seq<byte>)
    requires |got| == 2 && got + rest == Frames(ms)
    ensures ms != [] && FromBE16(got) == |ms[0]|
    ensures rest == ms[0] + Frames(ms[1..])
  {
    var n := |ms[0]|;
    assert Frames(ms) == BE16(n) + (ms[0] + Frames(ms[1..]));
    assert Frames(ms)[..2] == got && Frames(ms)[..2] == BE16(n);
    assert Frames(ms)[2..] == rest;
  }

  lemma FrontOfFrame(data: Message, got: seq<byte>, rest: seq<byte>)
    requires |got| == 2 && got + rest == Frame(data)
    ensures FromBE16(got) == |data| && rest == data
  {
    assert Frame(data)[..2] == got && Frame(data)[..2] == BE16(|data|);
    assert Frame(data)[2..] == rest;
  }

  lemma FirstIsSilent(card: Card, s: State, wire: seq<byte>, history: seq<Message>)
    requires Sound(card, s, wire, history) && s.pending != []
    requires s.reader == Idle || |s.pending| > 1
    ensures IsSilent(s.pending[0])
  {
    if s.reader != Idle {
      assert s.pending[0] == s.pending[..|s.pending| - 1][0];
    }
  }

  lemma LastIsTheRequest(card: Card, s: State, wire: seq<byte>, history: seq<Message>)
    requires Sound(card, s, wire, history) && |s.pending| == 1 && s.reader != Idle
    requires |s.toCard| >= |s.pending[0]| && s.toCard + s.readerUnsent == s.pending[0]
    ensures s.reader == AwaitLength && Asked(s, history) && s.toCard == s.pending[0]
  {
    assert |s.readerUnsent| == 0;
    assert s.toCard + [] == s.toCard;
  }

  lemma SilentCase(card: Card, s: State, n: nat, wire: seq<byte>, rest: seq<byte>, history: seq<Message>)
    requires Sound(card, s, wire, history) && s.card.ReadBody? && Enabled(s, CardMoves(n))
    requires s.pending != [] && n == |s.pending[0]| && s.toCard + s.readerUnsent == s.pending[0] + rest
    requires s.reader == Idle || |s.pending| > 1
    ensures Sound(card, CardStep(card, s, n), rest, history) && CardStep(card, s, n).pending == s.pending[1..]
  {
    FirstIsSilent(card, s, wire, history);
    SilentMessageIsTaken(card, s, rest);
    CardIgnores(card, s, CardStep(card, s, 1), wire, rest, history);
  }

  lemma RequestCase(card: Card, s: State, n: nat, wire: seq<byte>, history: seq<Message>)
    requires Talkative(card) && Sound(card, s, wire, history) && s.card.ReadBody? && Enabled(s, CardMoves(n))
    requires |s.pending| == 1 && n == |s.pending[0]| && s.toCard + s.readerUnsent == s.pending[0]
    requires s.reader != Idle
    ensures Sound(card, CardStep(card, s, n), [], history) && CardStep(card, s, n).pending == []
  {
    LastIsTheRequest(card, s, wire, history);
    if Answerable(s.op) {
      RequestIsTaken(card, s, history);
      CardAnswers(card, s, CardStep(card, s, n), wire, history);
    } else {
      RequestIsMistaken(card, s);
      RequestIsDropped(card, s, CardStep(card, s, n), wire, history);
    }
  }

  lemma BodyInChannel(s: State)
    requires ToCardChannel(s) == Frames(s.pending) && |s.cardGot| == 2
    ensures s.pending != [] && FromBE16(s.cardGot) == |s.pending[0]|
    ensures s.toCard + s.readerUnsent == s.pending[0] + Frames(s.pending[1..])
  {
    assert ToCardChannel(s) == s.cardGot + (s.toCard + s.readerUnsent);
    FrontOfChannel(s.pending, s.cardGot, s.toCard + s.readerUnsent);
  }

  lemma CardTakesMessage(card: Card, s: State, n: nat, history: seq<Message>)
    requires Talkative(card) && Sound(card, s, Frames(s.pending), history) && s.card.ReadBody? && Enabled(s, CardMoves(n))
    ensures var t := CardStep(card, s, n); Sound(card, t, Frames(t.pending), history)
  {
    BodyInChannel(s);
    if s.reader == Idle || |s.pending| > 1 {
      SilentCase(card, s, n, Frames(s.pending), Frames(s.pending[1..]), history);
    } else {
      assert Frames(s.pending[1..]) == [] && s.pending[0] + [] == s.pending[0];
      RequestCase(card, s, n, Frames(s.pending), history);
    }
  }

  lemma ApdusGrow(log: seq<Exchange>, e: Exchange)
    ensures Apdus(log + [e]) == Apdus(log) + Apdu(Payload(e.op))
  {
    assert (log + [e])[..|log|] == log;
  }

  lemma {:induction false} LogGrows(card: Card, before: seq<Message>, log: seq<Exchange>, op: Op, answer: seq<byte>)
    requires Faithful(card, before, log)
    requires answer == Expected(card, before + Apdus(log), op)
    ensures Faithful(card, before, log + [Exchange(op, answer)])
    ensures before + Apdus(log + [Exchange(op, answer)]) == before + Apdus(log) + Apdu(Payload(op))
  {
    var e := Exchange(op, answer);
    ApdusGrow(log, e);
    assert before + (Apdus(log) + Apdu(Payload(op))) == before + Apdus(log) + Apdu(Payload(op));
    assert (log + [e])[..|log|] == log && (log + [e])[|log|] == e;
  }

  lemma {:induction false} ReaderFinishesSendingKeepsInv(card: Card, s: State)
    requires Inv(card, s) && s.reader.Sending?
    ensures Inv(card, ReaderStep(s, |s.readerUnsent|))
  {
    ReaderFinishesSending(card, s, Frames(s.pending), s.before + Apdus(s.log));
    if !Blocking(s.op) {
      LogGrows(card, s.before, s.log, s.op, []);
      assert Apdu(Payload(s.op)) == [];
    }
  }

  lemma ReaderTakesBodyKeepsInv(card: Card, s: State, n: nat)
    requires Inv(card, s) && s.reader.AwaitBody? && Enabled(s, ReaderMoves(n))
    ensures Inv(card, ReaderStep(s, n))
  {
    var history := s.before + Apdus(s.log);
    ReaderTakesBody(card, s, n, Frames(s.pending), history);
    LogGrows(card, s.before, s.log, s.op, Expected(card, history, s.op));
  }

  lemma {:induction false} ReaderMovesBytesKeepsInv(card: Card, s: State, n: nat)
    requires Inv(card, s) && Enabled(s, ReaderMoves(n))
    requires s.reader.AwaitLength? || (s.reader.Sending? && n < |s.readerUnsent|)
    ensures Inv(card, ReaderStep(s, n))
  {
    if s.reader.Sending? {
      ReaderSends(card, s, n, Frames(s.pending), s.before + Apdus(s.log));
    } else {
      ReaderTakesLength(card, s, Frames(s.pending), s.before + Apdus(s.log));
    }
  }

  lemma ReaderStepKeepsInv(card: Card, s: State, n: nat)
    requires Inv(card, s) && Enabled(s, ReaderMoves(n))
    ensures Inv(card, ReaderStep(s, n))
  {
    if s.reader.AwaitBody? {
      ReaderTakesBodyKeepsInv(card, s, n);
    } else if s.reader.Sending? && n == |s.readerUnsent| {
      ReaderFinishesSendingKeepsInv(card, s);
    } else {
      ReaderMovesBytesKeepsInv(card, s, n);
    }
  }

  lemma {:induction false} CardMovesBytesKeepsInv(card: Card, s: State, n: nat)
    requires Inv(card, s) && Enabled(s, CardMoves(n)) && !s.card.ReadBody?
    ensures Inv(card, CardStep(card, s, n))
  {
    var wire, history := Frames(s.pending), s.before + Apdus(s.log);
    if s.card.ReadLength? {
      CardTakesLength(card, s, wire, history);
    } else {
      CardSends(card, s, n, wire, history);
    }
  }

  lemma {:induction false} CardStepKeepsInv(card: Card, s: State, n: nat)
    requires Talkative(card) && Inv(card, s) && Enabled(s, CardMoves(n))
    ensures Inv(card, CardStep(card, s, n))
  {
    if s.card.ReadBody? {
      CardTakesMessage(card, s, n, s.before + Apdus(s.log));
    } else {
      CardMovesBytesKeepsInv(card, s, n);
    }
  }

  lemma RequestIsAsked(card: Card, s: State, t: State, wire: seq<byte>, history: seq<Message>)
    requires Sound(card, s, wire, history) && s.reader == Idle && Payload(t.op) != []
    requires t == s.(reader := Sending, op := t.op, readerUnsent := Frame(Payload(t.op)), pending := s.pending + [Payload(t.op)])
    ensures Sound(card, t, wire + Frame(Payload(t.op)), history)
  {
    assert ToCardChannel(t) == wire + Frame(Payload(t.op));
    assert ToReaderChannel(t) == ToReaderChannel(s);
    assert t.pending[..|t.pending| - 1] == s.pending;
  }

  lemma OpBegins(card: Card, s: State, op: Op)
    requires Inv(card, s) && Enabled(s, Begin(op))
    ensures Inv(card, Next(card, s, Begin(op)))
  {
    RequestIsAsked(card, s, Next(card, s, Begin(op)), Frames(s.pending), s.before + Apdus(s.log));
    FramesSnoc(s.pending, Payload(op));
  }

  lemma StepKeepsInv(card: Card, s: State, step: Step)
    requires Talkative(card) && Inv(card, s) && Enabled(s, step)
    ensures Inv(card, Next(card, s, step))
  {
    match step
    case Begin(op) => OpBegins(card, s, op);
    case ReaderMoves(n) => ReaderStepKeepsInv(card, s, n);
    case CardMoves(n) => CardStepKeepsInv(card, s, n);
  }
}

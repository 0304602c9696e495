/** Bulk messages of the emulated CCID reader (ccid/src/ccid.c): what answers
    what, and what is handed to the card on the way. */
module Ccid {
  import opened Bytes
  import opened Basics

  datatype Error =
    | KeypadTimeout | KeypadCancelled | EventTimeout | CardUnresponsive
    | InvalidArguments | InvalidData | UnknownData | Unspecified

  datatype Code = Ok | Failed(error: Error)

  /** What transmitting one APDU brings back. */
  datatype Exchange = Exchange(code: Code, resp: seq<byte>, sw1: nat, sw2: nat)

  datatype Protocol = T0 | T1 | OtherProtocol

  /** What the libraries below return while one message is handled: the result
      of sc_detect_card_presence, of sc_connect_card with the card's ATR, of
      sc_bytes2apdu, of transmitting to the card or answering a pseudo APDU, and
      the outcome of the PIN and PACE functions behind PC_to_RDR_Secure, and
      the active protocol.  `stale` is what variables and memory hold that
      GetParameters does not set. */
  datatype Outside = Outside(
    flags: int, connect: Code, atr: seq<byte>,
    apdu: Code, exchange: Exchange, pseudo: Exchange,
    secure: Code, secureData: seq<byte>, secureCommands: seq<seq<byte>>,
    protocol: Protocol, stale: Stale)

  datatype Stale = Stale(outlen: nat, dwLength: nat, bProtocolNum: byte)

  const HEADER := 10
  const MAX_DATA := 0xFFFF

  // Message types of CCID Rev 1.1, sections 6.1 and 6.2.
  const ICC_POWER_ON: byte := 0x62
  const ICC_POWER_OFF: byte := 0x63
  const GET_SLOT_STATUS: byte := 0x65
  const SECURE: byte := 0x69
  const GET_PARAMETERS: byte := 0x6C
  const XFR_BLOCK: byte := 0x6F
  const DATA_BLOCK: byte := 0x80
  const SLOT_STATUS: byte := 0x81

  // ------------------------------------------------------------------ replies

  datatype Reply = Reply(kind: byte, number: byte, status: byte, error: byte, last: byte, data: seq<byte>)

  /** The packed reply structures of slot 0, which differ in their type only. */
  function Encode(r: Reply): (s: seq<byte>)
  {
    [r.kind] + LE32(|r.data|) + [0, r.number, r.status, r.error, r.last] + r.data
  }

  /** How the host reads a reply: the length counts what follows the header. */
  function Decode(s: seq<byte>): (r: Option<Reply>)
  {
    if |s| < HEADER || FromLE32(s[1..5]) != |s| - HEADER || s[5] != 0 then None
    else Some(Reply(s[0], s[6], s[7], s[8], s[9], s[10..]))
  }

  lemma HeaderAt(r: Reply)
    ensures var s := Encode(r);
            |s| == HEADER + |r.data| && s[0] == r.kind && s[1..5] == LE32(|r.data|) && s[5] == 0
            && s[6] == r.number && s[7] == r.status && s[8] == r.error && s[9] == r.last && s[10..] == r.data
  {
  }

  lemma ReplyRoundTrip(r: Reply)
    requires |r.data| < 0x1_0000_0000
    ensures Decode(Encode(r)) == Some(r)
  {
    HeaderAt(r);
    LE32Exact(|r.data|);
  }

  /** And a reply the host can read is the encoding of what it reads. */
  lemma ReadableIsEncoded(s: seq<byte>)
    requires Decode(s).Some?
    ensures Encode(Decode(s).value) == s
  {
    assert LE32(|s| - HEADER) == s[1..5];
    HeaderAt(Decode(s).value);
    assert s == [s[0]] + s[1..5] + [s[5], s[6], s[7], s[8], s[9]] + s[10..];
  }

  // ------------------------------------------------------------------ status

  /** The bits of the presence word, of a negative word in two's complement. */
  predicate Present(flags: int) { flags % 2 == 1 }

  predicate Changed(flags: int) { flags / 2 % 2 == 1 }

  /** The first eleven replies do not ask the reader. */
  const SKIPPED := 11

  function Seen(skipfirst: nat, flags: int): (seen: int)
  {
    if skipfirst >= SKIPPED then flags else 0
  }

  /** Asking forgets a card that is gone or was exchanged. */
  function Kept(card: Option<seq<byte>>, skipfirst: nat, flags: int): (c: Option<seq<byte>>)
  {
    if skipfirst >= SKIPPED && (flags == 0 || Changed(flags)) then None else card
  }

  /** bStatus of CCID Rev 1.1, section 6.2.6: the command failed bit and the
      state of the card, 0 active, 1 inactive, 2 absent; all 0 if the reader
      could not be asked. */
  function StatusByte(failed: bool, seen: int): (b: byte)
    ensures b / 64 == 1 <==> failed && seen >= 0
    ensures b % 64 == 2 <==> seen >= 0 && seen % 2 == 0
    ensures b % 64 == 1 <==> seen >= 0 && seen % 4 == 3
    ensures b % 64 <= 2 && b < 128
  {
    if seen < 0 then 0
    else (if failed then 64 else 0) + if !Present(seen) then 2 else if Changed(seen) then 1 else 0
  }

  function ErrorByte(code: Code): (b: byte)
    ensures b == 0 <==> code.Ok?
    ensures b == 0xF0 <==> code == Failed(KeypadTimeout)
    ensures b == 0xEF <==> code == Failed(KeypadCancelled)
    ensures b == 0xFE <==> code in {Failed(EventTimeout), Failed(CardUnresponsive)}
    ensures b in {0, 0xF0, 0xEF, 0xFE, 0xFB}
  {
    match code
    case Ok => 0x00
    case Failed(KeypadTimeout) => 0xF0
    case Failed(KeypadCancelled) => 0xEF
    case Failed(EventTimeout) => 0xFE
    case Failed(CardUnresponsive) => 0xFE
    case Failed(_) => 0xFB
  }

  /** The code's own table, in perform_unknown, of the replies of CCID Rev 1.1,
      section 6.1; 0 for a message that is not in it. */
  function ReplyType(request: byte): (kind: byte)
    ensures kind == 0x80 <==> request in {ICC_POWER_ON, XFR_BLOCK, SECURE}
    ensures kind == 0x81 <==> request in {ICC_POWER_OFF, GET_SLOT_STATUS, 0x6E, 0x6A, 0x71, 0x72}
    ensures kind == 0x82 <==> request in {GET_PARAMETERS, 0x61, 0x6D}
    ensures kind == 0x83 <==> request == 0x6B
    ensures kind == 0x84 <==> request == 0x73
    ensures kind == 0 || 0x80 <= kind <= 0x84
  {
    match request
    case 0x62 | 0x6F | 0x69 => 0x80
    case 0x63 | 0x65 | 0x6E | 0x6A | 0x71 | 0x72 => 0x81
    case 0x61 | 0x6C | 0x6D => 0x82
    case 0x6B => 0x83
    case 0x73 => 0x84
    case _ => 0
  }

  // ------------------------------------------------------------------ requests

  function Declared(inbuf: seq<byte>): (n: nat)
    requires |inbuf| >= HEADER
  {
    FromLE32(inbuf[1..5])
  }

  function Slice(inbuf: seq<byte>): (s: seq<byte>)
    requires |inbuf| >= HEADER && HEADER + Declared(inbuf) <= |inbuf|
  {
    inbuf[HEADER..HEADER + Declared(inbuf)]
  }

  /** sc_bytes2apdu accepts no APDU without its four header bytes. */
  predicate IsApdu(command: seq<byte>, o: Outside)
  {
    |command| >= 4 && o.apdu.Ok?
  }

  /** What comes back for a command: an error, or the response and its status. */
  function Outcome(e: Exchange): (o: (Code, seq<byte>))
  {
    if e.code.Failed? then (e.code, [])
    else if e.sw1 > 0xFF || e.sw2 > 0xFF then (Failed(InvalidData), [])
    else (Ok, e.resp + [e.sw1, e.sw2])
  }

  /** What XfrBlock reports and puts into the data block. */
  function Transferred(card: Option<seq<byte>>, command: seq<byte>, o: Outside): (r: (Code, seq<byte>))
  {
    if |command| < 4 then (Failed(InvalidData), [])
    else if o.apdu.Failed? then (o.apdu, [])
    else if card.None? then (Failed(InvalidArguments), [])
    else Outcome(if command[0] == 0xFF then o.pseudo else o.exchange)
  }

  class Reader {
    var card: Option<seq<byte>>          // the ATR of the connected card
    var skipfirst: nat
    var commands: seq<seq<byte>>         // handed to the card so far

    constructor ()
      ensures card == None && skipfirst == 0 && commands == []
    {
      card, skipfirst, commands := None, 0, [];
    }

    method DetectCardPresence(flags: int)
      modifies this`card
      ensures card == if flags == 0 || Changed(flags) then None else old(card)
    {
      if flags == 0 && card.Some? {
        card := None;
      }
      if Changed(flags) {
        card := None;
      }
    }

    method BStatus(code: Code, flags: int) returns (bstatus: byte)
      modifies this`card, this`skipfirst
      ensures bstatus == StatusByte(code.Failed?, Seen(old(skipfirst), flags))
      ensures card == Kept(old(card), old(skipfirst), flags)
      ensures skipfirst == old(skipfirst) + if old(skipfirst) < SKIPPED then 1 else 0
    {
      bstatus := 0;
      var seen := 0;
      if skipfirst > 10 {
        DetectCardPresence(flags);
        seen := flags;
      } else {
        skipfirst := skipfirst + 1;
      }
      if seen >= 0 {
        if code.Failed? {
          if Present(seen) {
            bstatus := if Changed(seen) && card.None? then 0x41 else 0x40;
          } else {
            bstatus := 0x42;
          }
        } else {
          if Present(seen) {
            bstatus := if Changed(seen) && card.None? then 0x01 else 0x00;
          } else {
            bstatus := 0x02;
          }
        }
      }
    }

    /** get_RDR_to_PC_SlotStatus and get_RDR_to_PC_DataBlock. */
    method Respond(kind: byte, number: byte, code: Code, data: seq<byte>, flags: int)
      returns (result: Code, out: seq<byte>)
      modifies this`card, this`skipfirst
      ensures result == if |data| <= MAX_DATA then Ok else Failed(InvalidData)
      ensures result.Ok? ==>
                Decode(out) == Some(Reply(kind, number, StatusByte(code.Failed?, Seen(old(skipfirst), flags)),
                                          ErrorByte(code), 0, data))
      ensures result.Ok? ==> card == Kept(old(card), old(skipfirst), flags)
                             && skipfirst == old(skipfirst) + if old(skipfirst) < SKIPPED then 1 else 0
      ensures result.Failed? ==> card == old(card) && skipfirst == old(skipfirst) && out == []
    {
      if |data| > MAX_DATA {
        return Failed(InvalidData), [];
      }
      var bstatus := BStatus(code, flags);
      var reply := Reply(kind, number, bstatus, ErrorByte(code), 0, data);
      ReplyRoundTrip(reply);
      result, out := Ok, Encode(reply);
    }

    /** sc_bytes2apdu and get_rapdu on the declared slice. */
    method GetRapdu(command: seq<byte>, o: Outside) returns (result: Code, data: seq<byte>)
      modifies this`commands
      ensures (result, data) == Transferred(card, command, o)
      ensures commands == old(commands) +
                          if IsApdu(command, o) && card.Some? && command[0] != 0xFF then [command] else []
    {
      data := [];
      if |command| < 4 {
        return Failed(InvalidData), data;
      }
      if o.apdu.Failed? {
        return o.apdu, data;
      }
      if card.None? {
        return Failed(InvalidArguments), data;
      }
      var e := o.pseudo;
      if command[0] != 0xFF {
        commands := commands + [command];
        e := o.exchange;
      }
      if e.code.Failed? {
        return e.code, data;
      }
      if e.sw1 > 0xFF || e.sw2 > 0xFF {
        return Failed(InvalidData), data;
      }
      data := e.resp;
      data := data + [e.sw1];
      data := data + [e.sw2];
      assert data == e.resp + [e.sw1, e.sw2];
      result := Ok;
    }

    method IccPowerOn(inbuf: seq<byte>, o: Outside) returns (result: Code, out: seq<byte>)
      requires |inbuf| >= HEADER
      requires card.None? ==> o.connect.Ok?
      modifies this`card, this`skipfirst
      ensures var atr := if old(card).Some? then old(card).value else o.atr;
              result == (if |atr| <= MAX_DATA then Ok else Failed(InvalidData))
              && (result.Ok? ==>
                    Decode(out) == Some(Reply(SLOT_STATUS, inbuf[6], StatusByte(false, Seen(old(skipfirst), o.flags)), 0, 0, atr))
                    && card == Kept(Some(atr), old(skipfirst), o.flags)
                    && skipfirst == old(skipfirst) + if old(skipfirst) < SKIPPED then 1 else 0)
              && (result.Failed? ==> card == Some(atr) && skipfirst == old(skipfirst))
    {
      if card.None? {
        card := Some(o.atr);
      }
      result, out := Respond(SLOT_STATUS, inbuf[6], Ok, card.value, o.flags);
    }

    method XfrBlock(inbuf: seq<byte>, o: Outside) returns (result: Code, out: seq<byte>)
      modifies this
      ensures |inbuf| < HEADER || |inbuf| < HEADER + Declared(inbuf) ==>
                result == Failed(InvalidData) && unchanged(this)
      ensures |inbuf| >= HEADER && |inbuf| >= HEADER + Declared(inbuf) ==>
                var (code, data) := Transferred(old(card), Slice(inbuf), o);
                result == (if |data| <= MAX_DATA then Ok else Failed(InvalidData))
                && (result.Ok? ==>
                      Decode(out) == Some(Reply(DATA_BLOCK, inbuf[6], StatusByte(code.Failed?, Seen(old(skipfirst), o.flags)),
                                                ErrorByte(code), 0, data))
                      && card == Kept(old(card), old(skipfirst), o.flags)
                      && skipfirst == old(skipfirst) + if old(skipfirst) < SKIPPED then 1 else 0)
                && (result.Failed? ==> card == old(card) && skipfirst == old(skipfirst))
                && commands == old(commands) +
                   (if IsApdu(Slice(inbuf), o) && old(card).Some? && Slice(inbuf)[0] != 0xFF then [Slice(inbuf)] else [])
    {
      out := [];
      if |inbuf| < HEADER {
        return Failed(InvalidData), out;
      }
      var apdulen := FromLE32(inbuf[1..5]);
      if |inbuf| < apdulen + HEADER {
        return Failed(InvalidData), out;
      }
      var code, data := GetRapdu(inbuf[HEADER..HEADER + apdulen], o);
      result, out := Respond(DATA_BLOCK, inbuf[6], code, data, o.flags);
    }

    method Unknown(inbuf: seq<byte>, o: Outside) returns (result: Code, out: seq<byte>)
      requires |inbuf| >= HEADER
      modifies this`card, this`skipfirst
      ensures result.Ok?
      ensures Decode(out) == Some(Reply(ReplyType(inbuf[0]), inbuf[6], StatusByte(true, Seen(old(skipfirst), o.flags)), 0, 0, []))
      ensures card == Kept(old(card), old(skipfirst), o.flags)
      ensures skipfirst == old(skipfirst) + if old(skipfirst) < SKIPPED then 1 else 0
    {
      var bstatus := BStatus(Failed(UnknownData), o.flags);
      var reply := Reply(ReplyType(inbuf[0]), inbuf[6], bstatus, 0, 0, []);
      ReplyRoundTrip(reply);
      result, out := Ok, Encode(reply);
    }

    /** GetParameters: the length is that of the parameters, but the buffer is
        cut to the header, and the length of the reply is never set. */
    method GetParameters(inbuf: seq<byte>, o: Outside) returns (n: nat, out: seq<byte>)
      requires |inbuf| >= HEADER
      modifies this`card, this`skipfirst
      ensures n == o.stale.outlen && out == Parameters(inbuf, StatusByte(o.protocol.OtherProtocol?, Seen(old(skipfirst), o.flags)), o)
      ensures card == Kept(old(card), old(skipfirst), o.flags)
      ensures skipfirst == old(skipfirst) + if old(skipfirst) < SKIPPED then 1 else 0
    {
      var code, dwLength, bProtocolNum := Failed(InvalidData), o.stale.dwLength, o.stale.bProtocolNum;
      match o.protocol {
        case T0 => code, dwLength, bProtocolNum := Ok, 5, 0;
        case T1 => code, dwLength, bProtocolNum := Ok, 7, 1;
        case OtherProtocol =>
      }
      var bstatus := BStatus(code, o.flags);
      n := o.stale.outlen;
      out := [0x82] + LE32(dwLength) + [0, inbuf[6], bstatus, ErrorByte(code), bProtocolNum];
    }

    /** One message from the host.  A result of -1 sends nothing. */
    method ParseBulkOut(inbuf: seq<byte>, o: Outside) returns (n: int, out: seq<byte>)
      requires inbuf != [] && inbuf[0] == ICC_POWER_ON && card.None? ==> o.connect.Ok?
      modifies this
      ensures inbuf == [] ==> n == 0 && unchanged(this)
      ensures inbuf != [] ==>
                (n >= 0 <==> Answerable(inbuf, old(card), o))
                && (n >= 0 && inbuf[0] != GET_PARAMETERS ==>
                      Decode(out) == Some(Answer(inbuf, old(card), old(skipfirst), o)) && n == |out|)
                && (n >= 0 && inbuf[0] == GET_PARAMETERS ==>
                      out == Parameters(inbuf, Answer(inbuf, old(card), old(skipfirst), o).status, o) && n == o.stale.outlen)
                && commands == old(commands) + Forwarded(inbuf, old(card), o)
                && card == (var c := Connected(inbuf, old(card), o); if n >= 0 then Kept(c, old(skipfirst), o.flags) else c)
                && skipfirst == old(skipfirst) + (if n >= 0 && old(skipfirst) < SKIPPED then 1 else 0)
    {
      out := [];
      if inbuf == [] {
        return 0, out;
      }
      var result := Failed(InvalidData);
      match inbuf[0] {
        case 0x62 =>
          if |inbuf| >= HEADER {
            result, out := IccPowerOn(inbuf, o);
          }
        case 0x63 | 0x65 =>
          if |inbuf| >= HEADER {
            result, out := Respond(SLOT_STATUS, inbuf[6], Ok, [], o.flags);
          }
        case 0x6F =>
          result, out := XfrBlock(inbuf, o);
        case 0x69 =>
          if |inbuf| >= HEADER + 1 {
            commands := commands + o.secureCommands;
            result, out := Respond(DATA_BLOCK, inbuf[6], o.secure, o.secureData, o.flags);
          }
        case 0x6C =>
          if |inbuf| >= HEADER {
            n, out := GetParameters(inbuf, o);
            return;
          }
        case _ =>
          if |inbuf| >= HEADER {
            result, out := Unknown(inbuf, o);
          }
      }
      n := if result.Failed? then -1 else |out|;
    }

    ghost function Now(): (p: Progress)
      reads this
    {
      Progress(card, skipfirst, commands)
    }

    /** A message that has come over the bulk endpoint. */
    method HandleOne(t: Turn) returns (n: int, out: seq<byte>)
      requires t.inbuf != [] && Connects(t)
      modifies this
      ensures if n >= 0 then CarryAll([out], Said(old(Now()), t)) else Said(old(Now()), t) == []
      ensures n < 0 ==> !GetsReply(t, card)
      ensures Now() == Advanced(old(Now()), t)
    {
      n, out := ParseBulkOut(t.inbuf, t.o);
      if !GetsReply(t, old(card)) {
        UnansweredStays(t, old(card));
      }
    }

    /** One round of the loop: a message is read, and its reply written. */
    method Round(turns: seq<Turn>, read: nat, written: seq<seq<byte>>, ghost start: Progress, ghost pairs: seq<Pair>)
      returns (n: int, more: seq<seq<byte>>, ghost now: seq<Pair>)
      requires read < |turns| && turns[read].inbuf != [] && Connects(turns[read])
      requires Reached(turns, start, read, Now(), pairs) && CarryAll(written, pairs)
      modifies this
      ensures Reached(turns, start, read + 1, Now(), now) && CarryAll(more, now)
      ensures |more| == if n < 0 then |written| else |written| + 1
      ensures n < 0 ==> !GetsReply(turns[read], card)
    {
      ghost var before := Now();
      var out;
      n, out := HandleOne(turns[read]);
      OneTurn(turns, start, read, before, pairs);
      more := written + if n < 0 then [] else [out];
      now := pairs + Said(before, turns[read]);
      OneMoreCarried(written, if n < 0 then [] else [out], pairs, Said(before, turns[read]));
    }

    /** The loop of the gadget over the bulk endpoints (usb.c): it ends when
        nothing comes or a message is not answered.  `written` are the replies,
        and `read` counts the messages. */
    method BulkLoop(turns: seq<Turn>) returns (written: seq<seq<byte>>, read: nat, ghost pairs: seq<Pair>)
      requires forall k :: 0 <= k < |turns| ==> Connects(turns[k])
      modifies this
      ensures Reached(turns, old(Now()), read, Now(), pairs) && CarryAll(written, pairs)
      ensures |written| == read || |written| == read - 1
      ensures |written| == read < |turns| ==> turns[read].inbuf == []
      ensures |written| == read - 1 ==> turns[read - 1].inbuf != [] && !GetsReply(turns[read - 1], card)
    {
      written, read, pairs := [], 0, [];
      NothingReadYet(turns, Now());
      var n := 0;
      while n >= 0 && read < |turns| && turns[read].inbuf != []
        invariant Reached(turns, old(Now()), read, Now(), pairs) && CarryAll(written, pairs)
        invariant |written| == if n < 0 then read - 1 else read
        invariant n < 0 ==> read > 0 && turns[read - 1].inbuf != [] && !GetsReply(turns[read - 1], card)
        decreases |turns| - read
      {
        n, written, pairs := Round(turns, read, written, old(Now()), pairs);
        read := read + 1;
      }
    }
  }

  /** A card that a message powers on can be connected. */
  predicate Connects(t: Turn)
  {
    t.inbuf != [] && t.inbuf[0] == ICC_POWER_ON ==> t.o.connect.Ok?
  }

  datatype Progress = Progress(card: Option<seq<byte>>, skipfirst: nat, commands: seq<seq<byte>>)

  function Advanced(now: Progress, t: Turn): (next: Progress)
    requires t.inbuf != []
  {
    Progress(NextCard(t, now.card, now.skipfirst), NextSkip(t, now.card, now.skipfirst),
             now.commands + Forwarded(t.inbuf, now.card, t.o))
  }

  /** The message with its reply, if it gets one. */
  function Said(now: Progress, t: Turn): (pairs: seq<Pair>)
    ensures GetsReply(t, now.card) <==> |pairs| == 1
    ensures GetsReply(t, now.card) ==> pairs == [Pair(t, Answer(t.inbuf, now.card, now.skipfirst, t.o))]
  {
    if GetsReply(t, now.card) then [Pair(t, Answer(t.inbuf, now.card, now.skipfirst, t.o))] else []
  }

  /** From `start` the reader has come to `now` by the first `read` messages:
      it has carried on the conversation so far and handed over what came. */
  predicate Reached(turns: seq<Turn>, start: Progress, read: nat, now: Progress, pairs: seq<Pair>)
  {
    && read <= |turns|
    && var left := turns[read..];
    && Conversation(turns, start.card, start.skipfirst) == pairs + Conversation(left, now.card, now.skipfirst)
    && start.commands + Handed(turns, start.card, start.skipfirst) == now.commands + Handed(left, now.card, now.skipfirst)
  }

  predicate CarryAll(written: seq<seq<byte>>, pairs: seq<Pair>)
  {
    |written| == |pairs| && forall k :: 0 <= k < |written| ==> Carries(written[k], pairs[k])
  }

  /** What is written for a message is its reply. */
  predicate Carries(out: seq<byte>, p: Pair)
  {
    |p.turn.inbuf| >= HEADER
    && if p.turn.inbuf[0] == GET_PARAMETERS then out == Parameters(p.turn.inbuf, p.reply.status, p.turn.o)
       else Decode(out) == Some(p.reply)
  }

  lemma UnansweredStays(t: Turn, card: Option<seq<byte>>)
    requires t.inbuf != [] && !GetsReply(t, card)
    ensures !GetsReply(t, Connected(t.inbuf, card, t.o))
  {
  }

  lemma OneTurn(turns: seq<Turn>, start: Progress, read: nat, now: Progress, pairs: seq<Pair>)
    requires read < |turns| && turns[read].inbuf != [] && Reached(turns, start, read, now, pairs)
    ensures Reached(turns, start, read + 1, Advanced(now, turns[read]), pairs + Said(now, turns[read]))
  {
    var left := turns[read..];
    assert left[1..] == turns[read + 1..];
    var next := Advanced(now, left[0]);
    Regroup(pairs, Said(now, left[0]), Conversation(left[1..], next.card, next.skipfirst));
    Regroup(now.commands, Forwarded(left[0].inbuf, now.card, left[0].o), Handed(left[1..], next.card, next.skipfirst));
  }

  lemma OneMoreCarried(written: seq<seq<byte>>, more: seq<seq<byte>>, pairs: seq<Pair>, said: seq<Pair>)
    requires CarryAll(written, pairs) && CarryAll(more, said)
    ensures CarryAll(written + more, pairs + said)
  {
  }

  lemma NothingReadYet(turns: seq<Turn>, start: Progress)
    ensures Reached(turns, start, 0, start, [])
  {
    assert turns[0..] == turns;
  }

  /** The messages that are answered by their outcome. */
  predicate Known(request: byte)
  {
    request in {ICC_POWER_ON, ICC_POWER_OFF, GET_SLOT_STATUS, SECURE, GET_PARAMETERS, XFR_BLOCK}
  }

  /** The ten bytes that GetParameters leaves. */
  function Parameters(inbuf: seq<byte>, status: byte, o: Outside): (s: seq<byte>)
    requires |inbuf| >= HEADER
  {
    match o.protocol
    case T0 => [0x82] + LE32(5) + [0, inbuf[6], status, 0, 0]
    case T1 => [0x82] + LE32(7) + [0, inbuf[6], status, 0, 1]
    case OtherProtocol => [0x82] + LE32(o.stale.dwLength) + [0, inbuf[6], status, 0xFB, o.stale.bProtocolNum]
  }

  /** What a message is answered with: the outcome and the data block. */
  function Content(inbuf: seq<byte>, card: Option<seq<byte>>, o: Outside): (c: (Code, seq<byte>))
    requires |inbuf| >= HEADER
  {
    match inbuf[0]
    case 0x62 => (Ok, if card.Some? then card.value else o.atr)
    case 0x63 | 0x65 => (Ok, [])
    case 0x6F => if HEADER + Declared(inbuf) <= |inbuf| then Transferred(card, Slice(inbuf), o) else (Failed(InvalidData), [])
    case 0x69 => (o.secure, o.secureData)
    case 0x6C => (if o.protocol.OtherProtocol? then Failed(InvalidData) else Ok, [])
    case _ => (Failed(UnknownData), [])
  }

  /** Exactly the messages that get a reply: complete ones whose data fit. */
  predicate Answerable(inbuf: seq<byte>, card: Option<seq<byte>>, o: Outside)
    requires inbuf != []
  {
    |inbuf| >= HEADER
    && |Content(inbuf, card, o).1| <= MAX_DATA
    && (inbuf[0] == XFR_BLOCK ==> HEADER + Declared(inbuf) <= |inbuf|)
    && (inbuf[0] == SECURE ==> HEADER < |inbuf|)
  }

  function Answer(inbuf: seq<byte>, card: Option<seq<byte>>, skipfirst: nat, o: Outside): (r: Reply)
    requires inbuf != [] && Answerable(inbuf, card, o)
  {
    var (code, data) := Content(inbuf, card, o);
    Reply(if inbuf[0] == ICC_POWER_ON then SLOT_STATUS else ReplyType(inbuf[0]),
          inbuf[6],
          StatusByte(code.Failed?, Seen(skipfirst, o.flags)),
          if Known(inbuf[0]) then ErrorByte(code) else 0,
          0,
          data)
  }

  /** The card connection once a message has powered it on. */
  function Connected(inbuf: seq<byte>, card: Option<seq<byte>>, o: Outside): (c: Option<seq<byte>>)
    requires inbuf != []
  {
    if |inbuf| >= HEADER && inbuf[0] == ICC_POWER_ON && card.None? then Some(o.atr) else card
  }

  /** What a message makes the reader hand to the card. */
  function Forwarded(inbuf: seq<byte>, card: Option<seq<byte>>, o: Outside): (s: seq<seq<byte>>)
    requires inbuf != []
  {
    if |inbuf| < HEADER then []
    else if inbuf[0] == XFR_BLOCK && HEADER + Declared(inbuf) <= |inbuf| then
      var command := Slice(inbuf);
      if IsApdu(command, o) && card.Some? && command[0] != 0xFF then [command] else []
    else if inbuf[0] == SECURE && HEADER < |inbuf| then o.secureCommands
    else []
  }

  /** A complete XfrBlock whose data sc_bytes2apdu takes for an APDU. */
  predicate CarriesApdu(inbuf: seq<byte>, o: Outside)
  {
    |inbuf| >= 10 && inbuf[0] == XFR_BLOCK && 10 + FromLE32(inbuf[1..5]) <= |inbuf|
    && FromLE32(inbuf[1..5]) >= 4 && o.apdu.Ok?
  }

  /** A message that reaches the card as an APDU, to which the card answers. */
  predicate Exchanged(inbuf: seq<byte>, card: Option<seq<byte>>, o: Outside)
  {
    CarriesApdu(inbuf, o) && inbuf[10] != 0xFF && card.Some?
    && o.exchange.code.Ok? && o.exchange.sw1 <= 0xFF && o.exchange.sw2 <= 0xFF
  }

  /** An XfrBlock hands its slice to the card exactly if that is an APDU of
      another class than 0xFF and a card is connected. */
  lemma OnlyApdusAreForwarded(inbuf: seq<byte>, card: Option<seq<byte>>, o: Outside)
    requires inbuf != [] && inbuf[0] == XFR_BLOCK
    ensures Forwarded(inbuf, card, o)
            == if CarriesApdu(inbuf, o) && inbuf[10] != 0xFF && card.Some? then [Slice(inbuf)] else []
  {
  }

  /** Of the other messages only a Secure that says what to do reaches the card. */
  lemma OthersForwardNothing(inbuf: seq<byte>, card: Option<seq<byte>>, o: Outside)
    requires inbuf != [] && inbuf[0] != XFR_BLOCK
    ensures Forwarded(inbuf, card, o) == if inbuf[0] == 0x69 && |inbuf| >= 11 then o.secureCommands else []
  {
  }

  /** What the host is told about a complete XfrBlock, and when that is success. */
  lemma XfrSucceedsExactlyIf(inbuf: seq<byte>, card: Option<seq<byte>>, o: Outside)
    requires |inbuf| >= 10 && inbuf[0] == XFR_BLOCK && 10 + Declared(inbuf) <= |inbuf|
    ensures var (code, data) := Content(inbuf, card, o);
            && (!CarriesApdu(inbuf, o) ==> code == if Declared(inbuf) < 4 then Failed(InvalidData) else o.apdu)
            && (CarriesApdu(inbuf, o) && card.None? ==> code == Failed(InvalidArguments))
            && (CarriesApdu(inbuf, o) && card.Some? ==>
                  var e := if inbuf[10] == 0xFF then o.pseudo else o.exchange;
                  && code == (if e.code.Failed? then e.code
                              else if e.sw1 < 0x100 && e.sw2 < 0x100 then Ok else Failed(InvalidData))
                  && (code.Ok? ==> data == e.resp + [e.sw1, e.sw2]))
            && (code.Failed? ==> data == [])
  {
    assert Slice(inbuf) != [] ==> Slice(inbuf)[0] == inbuf[10];
  }

  /** Which messages get a reply. */
  lemma AnsweredExactlyIf(inbuf: seq<byte>, card: Option<seq<byte>>, o: Outside)
    requires inbuf != []
    ensures Answerable(inbuf, card, o) <==>
              && |inbuf| >= 10
              && match inbuf[0]
                 case 0x62 => |if card.Some? then card.value else o.atr| <= 0xFFFF
                 case 0x6F => 10 + Declared(inbuf) <= |inbuf| && |Content(inbuf, card, o).1| <= 0xFFFF
                 case 0x69 => |inbuf| > 10 && |o.secureData| <= 0xFFFF
                 case _ => true
  {
  }

  /** IccPowerOn succeeds, with the ATR of the card that was connected or is now,
      and which is there afterwards unless the status check finds it gone. */
  lemma PowerOnGivesTheAtr(inbuf: seq<byte>, card: Option<seq<byte>>, skipfirst: nat, o: Outside)
    requires inbuf != [] && inbuf[0] == 0x62 && Answerable(inbuf, card, o)
    ensures var atr := if card.Some? then card.value else o.atr;
            var r := Answer(inbuf, card, skipfirst, o);
            && r.kind == 0x81 && r.data == atr && r.error == 0 && r.status < 64
            && NextCard(Turn(inbuf, o), card, skipfirst)
               == if skipfirst > 10 && (o.flags == 0 || o.flags % 4 >= 2) then None else Some(atr)
  {
  }

  /** Other messages, and what happens to the connection of the card then: it is
      forgotten exactly by a reply that asks the reader and finds the card gone
      or exchanged. */
  lemma CardIsForgottenExactlyIf(turn: Turn, card: Option<seq<byte>>, skipfirst: nat)
    requires turn.inbuf != [] ==> turn.inbuf[0] != 0x62
    ensures NextCard(turn, card, skipfirst)
            == if GetsReply(turn, card) && skipfirst > 10 && (turn.o.flags == 0 || turn.o.flags % 4 >= 2) then None else card
  {
  }

  /** The outcome that each other message is answered with. */
  lemma OutcomesReported(inbuf: seq<byte>, card: Option<seq<byte>>, o: Outside)
    requires |inbuf| >= 10
    ensures var (code, data) := Content(inbuf, card, o);
            match inbuf[0]
            case 0x62 => code == Ok
            case 0x63 | 0x65 => code == Ok && data == []
            case 0x69 => code == o.secure && data == o.secureData
            case 0x6C => (code == Ok <==> o.protocol != OtherProtocol) && data == []
            case 0x6F => true
            case _ => code.Failed? && data == []
  {
  }

  /** The card gets exactly the declared slice, and the host gets the card's
      response and status word exactly if the response leaves room for it: one
      of more than 0xFFFD bytes is exchanged with the card and then dropped. */
  lemma CardIsAnsweredForUpToTheLimit(inbuf: seq<byte>, card: Option<seq<byte>>, skipfirst: nat, o: Outside)
    requires Exchanged(inbuf, card, o)
    ensures Forwarded(inbuf, card, o) == [inbuf[10..10 + FromLE32(inbuf[1..5])]]
    ensures Answerable(inbuf, card, o) <==> |o.exchange.resp| <= 0xFFFD
    ensures Answerable(inbuf, card, o) ==>
              var r := Answer(inbuf, card, skipfirst, o);
              r.data == o.exchange.resp + [o.exchange.sw1, o.exchange.sw2] && r.error == 0 && r.kind == DATA_BLOCK
  {
    assert Content(inbuf, card, o) == Outcome(o.exchange);
    assert ReplyType(XFR_BLOCK) == DATA_BLOCK;
  }

  /** The reply has the type that the code's own table gives exactly if the
      request is not IccPowerOn: there the ATR comes in a slot status instead of
      the data block that the table and CCID Rev 1.1 ask for. */
  lemma OnlyPowerOnIsMistyped(inbuf: seq<byte>, card: Option<seq<byte>>, skipfirst: nat, o: Outside)
    requires inbuf != [] && Answerable(inbuf, card, o)
    ensures Answer(inbuf, card, skipfirst, o).kind == ReplyType(inbuf[0]) <==> inbuf[0] != ICC_POWER_ON
  {
    assert ReplyType(ICC_POWER_ON) == DATA_BLOCK;
  }

  /** The status byte reports a failure exactly if there was one and the reader
      could be asked; the error byte misses only unknown messages. */
  lemma FailureIsReported(inbuf: seq<byte>, card: Option<seq<byte>>, skipfirst: nat, o: Outside)
    requires inbuf != [] && Answerable(inbuf, card, o)
    ensures var r := Answer(inbuf, card, skipfirst, o);
            var failed := Content(inbuf, card, o).0.Failed?;
            (r.status / 64 == 1 <==> failed && (skipfirst < SKIPPED || o.flags >= 0))
            && (r.error != 0 ==> failed)
            && (Known(inbuf[0]) && failed ==> r.error != 0)
            && (!Known(inbuf[0]) ==> failed && r.error == 0) && r.last == 0
  {
    var (code, data) := Content(inbuf, card, o);
    assert Answer(inbuf, card, skipfirst, o).status == StatusByte(code.Failed?, Seen(skipfirst, o.flags));
  }

  lemma ParametersAt(inbuf: seq<byte>, status: byte, o: Outside)
    requires |inbuf| >= HEADER
    ensures var out := Parameters(inbuf, status, o);
            var n := match o.protocol case T0 => 5 case T1 => 7 case OtherProtocol => o.stale.dwLength;
            && |out| == 10 && out[0] == 0x82 && out[1..5] == LE32(n) && out[5] == 0 && out[6] == inbuf[6] && out[7] == status
            && out[8] == (if o.protocol == OtherProtocol then 0xFB else 0)
            && (o.protocol != OtherProtocol ==> out[9] == if o.protocol == T0 then 0 else 1)
  {
    var n := match o.protocol case T0 => 5 case T1 => 7 case OtherProtocol => o.stale.dwLength;
    var tail := Parameters(inbuf, status, o)[5..];
    assert Parameters(inbuf, status, o) == [0x82] + LE32(n) + tail;
  }

  /** What GetParameters leaves is a reply the host can read exactly if no
      protocol is active and the length it does not set then happens to be 0. */
  lemma ParametersAreReadableExactlyByChance(inbuf: seq<byte>, status: byte, o: Outside)
    requires |inbuf| >= HEADER
    ensures var out := Parameters(inbuf, status, o);
            Decode(out).Some? <==> o.protocol.OtherProtocol? && o.stale.dwLength % 0x1_0000_0000 == 0
  {
    var n := match o.protocol case T0 => 5 case T1 => 7 case OtherProtocol => o.stale.dwLength;
    ParametersAt(inbuf, status, o);
    LE32RoundTrip(n);
  }

  // ------------------------------------------------------------------ runs

  /** A message and what the libraries return while it is handled. */
  datatype Turn = Turn(inbuf: seq<byte>, o: Outside)

  predicate GetsReply(turn: Turn, card: Option<seq<byte>>)
  {
    turn.inbuf != [] && Answerable(turn.inbuf, card, turn.o)
  }

  function NextCard(turn: Turn, card: Option<seq<byte>>, skipfirst: nat): (c: Option<seq<byte>>)
  {
    if turn.inbuf == [] then card
    else if GetsReply(turn, card) then Kept(Connected(turn.inbuf, card, turn.o), skipfirst, turn.o.flags)
    else Connected(turn.inbuf, card, turn.o)
  }

  function NextSkip(turn: Turn, card: Option<seq<byte>>, skipfirst: nat): (n: nat)
  {
    skipfirst + if GetsReply(turn, card) && skipfirst < SKIPPED then 1 else 0
  }

  /** A message that gets a reply, and the reply. */
  datatype Pair = Pair(turn: Turn, reply: Reply)

  /** The messages of a run that get a reply, with it, in order. */
  function Conversation(turns: seq<Turn>, card: Option<seq<byte>>, skipfirst: nat): (ps: seq<Pair>)
    ensures forall p :: p in ps ==> |p.turn.inbuf| >= HEADER
    decreases |turns|
  {
    if turns == [] then []
    else
      var t := turns[0];
      (if GetsReply(t, card) then [Pair(t, Answer(t.inbuf, card, skipfirst, t.o))] else [])
      + Conversation(turns[1..], NextCard(t, card, skipfirst), NextSkip(t, card, skipfirst))
  }

  /** Over every run the replies bear the numbers of their requests, in order,
      and the type of each is the one the code's own table pairs with its request
      exactly if that is not IccPowerOn. */
  lemma {:induction false} RepliesMatchTheirRequests(turns: seq<Turn>, card: Option<seq<byte>>, skipfirst: nat, i: nat)
    requires i < |Conversation(turns, card, skipfirst)|
    ensures var p := Conversation(turns, card, skipfirst)[i];
            && p.reply.number == p.turn.inbuf[6]
            && (p.reply.kind == ReplyType(p.turn.inbuf[0]) <==> p.turn.inbuf[0] != ICC_POWER_ON)
    decreases |turns|
  {
    var t := turns[0];
    var next, skip := NextCard(t, card, skipfirst), NextSkip(t, card, skipfirst);
    if !GetsReply(t, card) {
      RepliesMatchTheirRequests(turns[1..], next, skip, i);
    } else if i > 0 {
      RepliesMatchTheirRequests(turns[1..], next, skip, i - 1);
    } else {
      OnlyPowerOnIsMistyped(t.inbuf, card, skipfirst, t.o);
    }
  }

  /** The first eleven replies of every run say that there is no card, whatever
      the reader sees and even if they bring a card's answer. */
  lemma {:induction false} EarlyRepliesDenyTheCard(turns: seq<Turn>, card: Option<seq<byte>>, skipfirst: nat, i: nat)
    requires i < |Conversation(turns, card, skipfirst)| && skipfirst + i < 11
    ensures Conversation(turns, card, skipfirst)[i].reply.status % 64 == 2
    decreases |turns|
  {
    var t := turns[0];
    var next, skip := NextCard(t, card, skipfirst), NextSkip(t, card, skipfirst);
    if !GetsReply(t, card) {
      EarlyRepliesDenyTheCard(turns[1..], next, skip, i);
    } else if i > 0 {
      EarlyRepliesDenyTheCard(turns[1..], next, skip, i - 1);
    } else {
      assert Present(0) == false;
    }
  }

  /** And every later one reports what the reader sees while it is made. */
  lemma {:induction false} LaterRepliesSeeTheCard(turns: seq<Turn>, card: Option<seq<byte>>, skipfirst: nat, i: nat)
    requires i < |Conversation(turns, card, skipfirst)| && skipfirst + i >= 11
    ensures var p := Conversation(turns, card, skipfirst)[i];
            && (p.reply.status % 64 == 2 <==> p.turn.o.flags >= 0 && p.turn.o.flags % 2 == 0)
            && (p.reply.status % 64 == 1 <==> p.turn.o.flags >= 0 && p.turn.o.flags % 4 == 3)
    decreases |turns|
  {
    var t := turns[0];
    var next, skip := NextCard(t, card, skipfirst), NextSkip(t, card, skipfirst);
    if !GetsReply(t, card) {
      LaterRepliesSeeTheCard(turns[1..], next, skip, i);
    } else if i > 0 {
      LaterRepliesSeeTheCard(turns[1..], next, skip, i - 1);
    }
  }

  /** What the messages of a run hand to the card, in order. */
  function Handed(turns: seq<Turn>, card: Option<seq<byte>>, skipfirst: nat): (cs: seq<seq<byte>>)
    decreases |turns|
  {
    if turns == [] then []
    else
      var t := turns[0];
      (if t.inbuf == [] then [] else Forwarded(t.inbuf, card, t.o))
      + Handed(turns[1..], NextCard(t, card, skipfirst), NextSkip(t, card, skipfirst))
  }

  /** The part of it that XfrBlock messages carry. */
  function XfrCommands(turns: seq<Turn>, card: Option<seq<byte>>, skipfirst: nat): (cs: seq<seq<byte>>)
    decreases |turns|
  {
    if turns == [] then []
    else
      var t := turns[0];
      (if t.inbuf == [] || t.inbuf[0] != XFR_BLOCK then [] else Forwarded(t.inbuf, card, t.o))
      + XfrCommands(turns[1..], NextCard(t, card, skipfirst), NextSkip(t, card, skipfirst))
  }

  /** Without a card, and until one is powered on, no XfrBlock reaches a card,
      whatever other messages there are. */
  lemma {:induction false} NothingReachesAnUnpoweredCard(turns: seq<Turn>, skipfirst: nat)
    requires forall t :: t in turns && t.inbuf != [] ==> t.inbuf[0] != ICC_POWER_ON
    ensures XfrCommands(turns, None, skipfirst) == []
    decreases |turns|
  {
    if turns != [] {
      assert turns[0] in turns;
      NothingReachesAnUnpoweredCard(turns[1..], NextSkip(turns[0], None, skipfirst));
    }
  }

  /** The APDUs that the XfrBlock messages of a run carry, in order. */
  function CarriedApdus(turns: seq<Turn>): (cs: seq<seq<byte>>)
  {
    if turns == [] then []
    else
      var t := turns[0];
      (if CarriesApdu(t.inbuf, t.o) && t.inbuf[10] != 0xFF then [Slice(t.inbuf)] else []) + CarriedApdus(turns[1..])
  }

  /** A card that stays where it is gets every APDU of the run, in order, and
      nothing else from XfrBlock. */
  lemma {:induction false} CardGetsEveryApdu(turns: seq<Turn>, card: Option<seq<byte>>, skipfirst: nat)
    requires card.Some? && forall t :: t in turns ==> t.o.flags % 4 == 1
    ensures XfrCommands(turns, card, skipfirst) == CarriedApdus(turns)
    decreases |turns|
  {
    if turns != [] {
      var t := turns[0];
      assert t in turns;
      if t.inbuf != [] && t.inbuf[0] == XFR_BLOCK {
        OnlyApdusAreForwarded(t.inbuf, card, t.o);
      }
      CardStaysConnected(t, card, skipfirst);
      CardGetsEveryApdu(turns[1..], NextCard(t, card, skipfirst), NextSkip(t, card, skipfirst));
    }
  }

  lemma CardStaysConnected(t: Turn, card: Option<seq<byte>>, skipfirst: nat)
    requires card.Some? && t.o.flags % 4 == 1
    ensures NextCard(t, card, skipfirst) == card
  {
  }
}

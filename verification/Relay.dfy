/** The card side of the connection: pcsc-relay's vpcd emulator
    (pcsc-relay/src/vicc.c), a client of the same library. */
module Relay {
  import opened Bytes
  import opened Framing
  import opened Basics
  import opened Vpcd

  predicate IsControl(b: byte)
  {
    b == CTRL_OFF || b == CTRL_ON || b == CTRL_RESET || b == CTRL_ATR
  }

  /** What a run of control messages looks like on the wire. */
  function ControlFrames(controls: seq<byte>): (s: seq<byte>)
  {
    if controls == [] then [] else ControlFrames(controls[..|controls| - 1]) + Frame([controls[|controls| - 1]])
  }

  /** What the card writes back for them: one ATR for each request of it, and
      nothing for power and reset.  An empty ATR is never sent. */
  function AtrReplies(atr: Message, controls: seq<byte>): (s: seq<byte>)
  {
    if controls == [] then []
    else AtrReplies(atr, controls[..|controls| - 1]) + AtrReply(atr, controls[|controls| - 1])
  }

  function AtrReply(atr: Message, c: byte): (s: seq<byte>)
  {
    if c == CTRL_ATR && atr != [] then Frame(atr) else []
  }

  /** What a message that carries data puts on the wire. */
  function Written(data: seq<byte>): (s: seq<byte>)
  {
    if data == [] || |data| > MAX_MESSAGE then [] else Frame(data)
  }

  /** Between `before` and `after` the C-APDU was received and `data` written,
      behind the ATRs that were asked for on the way. */
  ghost predicate Served(before: Wire, after: Wire, atr: Message, capdu: Message, data: seq<byte>)
  {
    exists controls: seq<byte> :: ServedBehind(controls, before, after, atr, capdu, data)
  }

  predicate ServedBehind(controls: seq<byte>, before: Wire, after: Wire, atr: Message, capdu: Message, data: seq<byte>)
  {
    && (forall i :: 0 <= i < |controls| ==> IsControl(controls[i]))
    && before.inbox == ControlFrames(controls) + Frame(capdu) + after.inbox
    && after.outbox == before.outbox + AtrReplies(atr, controls) + data
  }

  /** Nothing but control bytes so far. */
  predicate OnlyControls(controls: seq<byte>, before: Wire, after: Wire, atr: Message)
  {
    && (forall i :: 0 <= i < |controls| ==> IsControl(controls[i]))
    && before.inbox == ControlFrames(controls) + after.inbox
    && after.outbox == before.outbox + AtrReplies(atr, controls)
  }

  lemma OneMoreControl(controls: seq<byte>, c: byte, before: Wire, now: Wire, after: Wire, atr: Message)
    requires OnlyControls(controls, before, now, atr) && IsControl(c)
    requires now.inbox == Frame([c]) + after.inbox
    requires after.outbox == now.outbox + AtrReply(atr, c)
    ensures OnlyControls(controls + [c], before, after, atr)
  {
    assert (controls + [c])[..|controls|] == controls;
    Regroup(ControlFrames(controls), Frame([c]), after.inbox);
    Regroup(before.outbox, AtrReplies(atr, controls), AtrReply(atr, c));
    assert AtrReplies(atr, controls + [c]) == AtrReplies(atr, controls) + AtrReply(atr, c);
  }

  lemma FirstApdu(controls: seq<byte>, before: Wire, now: Wire, after: Wire, atr: Message, capdu: Message)
    requires OnlyControls(controls, before, now, atr)
    requires now.inbox == Frame(capdu) + after.inbox && after.outbox == now.outbox
    ensures Served(before, after, atr, capdu, [])
  {
    assert ServedBehind(controls, before, after, atr, capdu, []);
  }

  /** Why receive_capdu fails: the connection was not there or broke, or a
      single byte came that is no control byte. */
  datatype Trouble = LineDown | UnknownByte(c: byte)

  /** Behind nothing but control bytes it came to this.  Part of a message may
      have been read, or an ATR request whose answer could not be written. */
  ghost predicate GaveUp(why: Trouble, before: Wire, after: Wire, atr: Message)
  {
    exists controls: seq<byte>, now: Wire :: GaveUpBehind(controls, now, why, before, after, atr)
  }

  predicate GaveUpBehind(controls: seq<byte>, now: Wire, why: Trouble, before: Wire, after: Wire, atr: Message)
  {
    && OnlyControls(controls, before, now, atr)
    && match why
       case LineDown => IsRest(after.inbox, now.inbox)
       case UnknownByte(c) => !IsControl(c) && now.inbox == Frame([c]) + after.inbox && now.outbox == after.outbox
  }

  lemma ThenAnswered(before: Wire, after: Wire, atr: Message, capdu: Message, data: seq<byte>)
    requires Served(before, after, atr, capdu, [])
    ensures Served(before, after.(outbox := after.outbox + data), atr, capdu, data)
  {
    var controls :| ServedBehind(controls, before, after, atr, capdu, []);
    var sent := before.outbox + AtrReplies(atr, controls);
    assert sent + [] == sent;
    assert ServedBehind(controls, before, after.(outbox := after.outbox + data), atr, capdu, data);
  }

  lemma GivesUpOnTheLine(controls: seq<byte>, before: Wire, now: Wire, after: Wire, atr: Message)
    requires OnlyControls(controls, before, now, atr) && IsRest(after.inbox, now.inbox)
    ensures GaveUp(LineDown, before, after, atr)
  {
    assert GaveUpBehind(controls, now, LineDown, before, after, atr);
  }

  lemma GivesUpOnAByte(controls: seq<byte>, c: byte, before: Wire, now: Wire, after: Wire, atr: Message)
    requires OnlyControls(controls, before, now, atr) && !IsControl(c)
    requires now.inbox == Frame([c]) + after.inbox && now.outbox == after.outbox
    ensures GaveUp(UnknownByte(c), before, after, atr)
  {
    assert GaveUpBehind(controls, now, UnknownByte(c), before, after, atr);
  }

  /** The switch over a single byte. */
  method Control(ctx: ViccCtx, c: byte, atr: Message) returns (ok: bool)
    requires ctx.Valid()
    modifies ctx
    ensures ctx.Valid() && ctx.accepted == old(ctx.accepted) && ctx.inbox == old(ctx.inbox)
    ensures ok ==> IsControl(c) && ctx.outbox == old(ctx.outbox) + AtrReply(atr, c)
    ensures ok ==> ctx.Connected() == old(ctx.Connected())
    ensures !ok && IsControl(c) ==> !ctx.Connected() && (ctx.line == Failed || old(ctx.line != Up || !ctx.Connected()))
    ensures !ok && !IsControl(c) ==> ctx.outbox == old(ctx.outbox) && ctx.Connected() == old(ctx.Connected())
  {
    ok := IsControl(c);
    if c == CTRL_ATR {
      var sent, _ := ctx.Transmit(atr, false);
      ok := sent >= 0;
    }
  }

  /** vicc_receive_capdu.  A successful return hands over the first message
      that is not a control byte; everything before it was control bytes, and
      exactly their ATR replies were written.  An orderly end, or an empty
      message, is a success with an empty C-APDU; a broken connection and an
      unknown byte are failures, and after the latter the connection stays. */
  method ReceiveCapdu(ctx: ViccCtx, atr: Message) returns (ok: bool, capdu: seq<byte>, ghost why: Trouble)
    requires ctx.Valid()
    modifies ctx
    ensures ctx.Valid() && ctx.accepted == old(ctx.accepted)
    ensures ok && capdu == [] ==> !ctx.Connected()
    ensures ok && capdu == [] ==> ctx.line == Ended || Served(old(WireOf(ctx)), WireOf(ctx), atr, [], [])
    ensures ok && capdu != [] ==> ctx.Connected() && 2 <= |capdu| <= MAX_MESSAGE
    ensures ok && capdu != [] ==> Served(old(WireOf(ctx)), WireOf(ctx), atr, capdu, [])
    ensures !ok ==> GaveUp(why, old(WireOf(ctx)), WireOf(ctx), atr)
    ensures !ok && why == LineDown ==> !ctx.Connected() && (ctx.line == Failed || !old(ctx.Connected()))
    ensures !ok && why != LineDown ==> ctx.Connected()
  {
    ghost var controls: seq<byte>, start := [], WireOf(ctx);
    var done := false;
    ok, capdu, why := false, [], LineDown;
    while !done
      invariant ctx.Valid() && !ok && ctx.accepted == old(ctx.accepted)
      invariant OnlyControls(controls, start, WireOf(ctx), atr)
      invariant ctx.Connected() == old(ctx.Connected())
      decreases |ctx.inbox|, !done
    {
      var size: int;
      ghost var now := WireOf(ctx);
      size, capdu := ctx.Transmit([], true);
      if size < 0 {
        GivesUpOnTheLine(controls, start, now, WireOf(ctx), atr);
        return false, [], LineDown;
      }
      if size == 1 {
        var c := capdu[0];
        assert capdu == [c];
        var handled := Control(ctx, c, atr);
        if !handled {
          if IsControl(c) {
            GivesUpOnTheLine(controls, start, now, WireOf(ctx), atr);
            return false, [], LineDown;
          }
          GivesUpOnAByte(controls, c, start, now, WireOf(ctx), atr);
          return false, [], UnknownByte(c);
        }
        OneMoreControl(controls, c, start, now, WireOf(ctx), atr);
        controls := controls + [c];
      } else {
        // also reached for size 0, the orderly end of the connection
        if size > 0 || ctx.line != Ended {
          FirstApdu(controls, start, now, WireOf(ctx), atr, capdu);
        }
        return true, capdu, why;
      }
    }
  }

  method SendRapdu(ctx: ViccCtx, rapdu: seq<byte>) returns (ok: bool)
    requires ctx.Valid()
    modifies ctx
    ensures ctx.Valid()
    ensures ok ==> ctx.inbox == old(ctx.inbox)
    ensures ok ==> |rapdu| <= MAX_MESSAGE && ctx.outbox == old(ctx.outbox) + Written(rapdu)
    ensures !ok ==> !ctx.Connected()
  {
    var r, _ := ctx.Transmit(rapdu, false);
    ok := r >= 0;
  }

  /** The other driver's transmit function: the answer to a C-APDU after those
      executed before, or a failure, which ends the program. */
  type Card = (seq<seq<byte>>, seq<byte>) -> Option<seq<byte>>

  /** The globals of pcsc-relay.c: the C-APDU buffer, whose length is buflen,
      and what the card behind the relay has executed. */
  class MainLoop {
    var buf: seq<byte>
    var executed: seq<seq<byte>>

    constructor ()
      ensures buf == [] && executed == []
    {
      buf, executed := [], [];
    }

    /** Getting a C-APDU, on the old or on a new connection.  When it fails the
        buffer keeps its length, but its bytes may have been overwritten. */
    method Receive(ctx: ViccCtx, atr: Message, other: ViccCtx) returns (next: ViccCtx, ghost why: Trouble)
      requires ctx.Valid() && other.Valid() && ctx != other
      modifies this`buf, ctx
      ensures next.Valid() && next in {ctx, other}
      ensures next == ctx && buf != [] ==> 2 <= |buf| <= MAX_MESSAGE && Served(old(WireOf(ctx)), WireOf(ctx), atr, buf, [])
      ensures next == ctx && buf == [] ==> ctx.line == Ended || Served(old(WireOf(ctx)), WireOf(ctx), atr, [], [])
      ensures next == other ==> |buf| == |old(buf)| && GaveUp(why, old(WireOf(ctx)), WireOf(ctx), atr)
      ensures next == other && why == LineDown ==> ctx.line == Failed || !old(ctx.Connected())
    {
      var ok, capdu;
      ok, capdu, why := ReceiveCapdu(ctx, atr);
      if ok {
        buf, next := capdu, ctx;
      } else {
        var overwritten: seq<byte> :| |overwritten| == |buf|;
        buf, next := overwritten, other;
      }
    }

    /** Executing the C-APDU and sending the answer. */
    method Serve(ctx: ViccCtx, card: Card) returns (goes: bool, sent: bool)
      requires ctx.Valid()
      modifies this`executed, ctx
      ensures ctx.Valid()
      ensures executed == old(executed) + [buf]
      ensures goes <==> card(old(executed), buf).Some?
      ensures sent ==> goes
      ensures sent ==> WireOf(ctx) == Wire(old(ctx.inbox), old(ctx.outbox) + Written(card(old(executed), buf).value))
    {
      var answer := card(executed, buf);
      executed := executed + [buf];
      goes, sent := answer.Some?, false;
      if goes {
        sent := SendRapdu(ctx, answer.value);
      }
    }

    /** One pass of the endless loop.  `first` and `second` are the connections
        that reconnecting yields after the receive and after the send.  A C-APDU
        is executed in two cases only: it was just received, or receiving failed
        (and did not just come to an orderly end) while the buffer still has the
        length of an old one. */
    method Turn(ctx: ViccCtx, atr: Message, card: Card, first: ViccCtx, second: ViccCtx)
      returns (goes: bool, next: ViccCtx, received: bool, ghost why: Trouble)
      requires ctx.Valid() && first.Valid() && second.Valid()
      requires ctx != first && ctx != second && first != second
      modifies this, ctx, first
      ensures next.Valid() && next in {ctx, first, second}
      ensures executed == old(executed) + if buf == [] then [] else [buf]
      ensures goes <==> buf == [] || card(old(executed), buf).Some?
      ensures goes && buf != [] && next == ctx ==>
                |buf| <= MAX_MESSAGE && received
                && Served(old(WireOf(ctx)), WireOf(ctx), atr, buf, Written(card(old(executed), buf).value))
      ensures !received ==> |buf| == |old(buf)| && next != ctx && GaveUp(why, old(WireOf(ctx)), WireOf(ctx), atr)
      ensures !received && why == LineDown ==> ctx.line == Failed || !old(ctx.Connected())
      ensures received && buf != [] ==>
                exists taken: Wire :: 2 <= |buf| <= MAX_MESSAGE && Served(old(WireOf(ctx)), taken, atr, buf, [])
      ensures received && buf == [] ==> next == ctx && (ctx.line == Ended || Served(old(WireOf(ctx)), WireOf(ctx), atr, [], []))
      ensures next == first ==> !received
      ensures goes && buf != [] && next == first ==>
                first.outbox == old(first.outbox) + Written(card(old(executed), buf).value)
    {
      next, why := Receive(ctx, atr, first);
      received := next == ctx;
      if buf == [] {
        return true, next, received, why;
      }
      ghost var wire := WireOf(ctx);
      var sent;
      goes, sent := Serve(next, card);
      if goes && !sent {
        return true, second, received, why;
      }
      if sent && next == ctx {
        ThenAnswered(old(WireOf(ctx)), wire, atr, buf, Written(card(old(executed), buf).value));
      }
    }
  }
}

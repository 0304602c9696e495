/** The vpcd library in server mode: one listening socket, at most one client
    socket, framed messages over it (virtualsmartcard/src/vpcd/vpcd.c).

    The operating system is part of the state: `inbox` is what the peer of the
    current connection writes, `outbox` what `send` has taken from us, and
    sockets are numbered in the order `accept` returned them. */
module Vpcd {
  import opened Bytes
  import opened Framing

  const INVALID_SOCKET := -1

  const CTRL_OFF: byte := 0
  const CTRL_ON: byte := 1
  const CTRL_RESET: byte := 2
  const CTRL_ATR: byte := 4

  /** The current connection: in use, closed in order by the peer, or broken. */
  datatype Line = Up | Ended | Failed

  /** The first n sockets accept() returns. */
  function Serials(n: nat): (s: seq<int>)
  {
    seq(n, i => i)
  }

  lemma {:induction false} SerialsAreClosedOnce(n: nat, k: nat)
    ensures multiset(Serials(n))[k] == if k < n then 1 else 0
  {
    if n > 0 {
      SerialsAreClosedOnce(n - 1, k);
      assert Serials(n) == Serials(n - 1) + [n - 1];
    } else {
      assert Serials(0) == [];
    }
  }

  /** Both directions of a connection: what is still to be read, and what has
      been written. */
  datatype Wire = Wire(inbox: seq<byte>, outbox: seq<byte>)

  function WireOf(ctx: ViccCtx): (w: Wire)
    reads ctx
  {
    Wire(ctx.inbox, ctx.outbox)
  }

  /** One request written and one answer read, and nothing else. */
  predicate Exchanged(before: Wire, after: Wire, apdu: Message, rapdu: Message)
  {
    rapdu != [] && after.outbox == before.outbox + Frame(apdu) && before.inbox == Frame(rapdu) + after.inbox
  }

  /** What is left to read of s. */
  predicate IsRest(t: seq<byte>, s: seq<byte>)
  {
    |t| <= |s| && s[|s| - |t|..] == t
  }

  class ViccCtx {
    var serverSock: int
    var clientSock: int

    // the operating system's side
    var serverOpen: bool
    var accepted: nat
    var closed: seq<int>
    var inbox: seq<byte>
    var outbox: seq<byte>
    var line: Line

    /** Every accepted socket has been closed exactly once and in order, except
        the one that clientSock still holds, if any. */
    ghost predicate Valid()
      reads this
    {
      && (serverOpen <==> serverSock != INVALID_SOCKET)
      && if clientSock == INVALID_SOCKET
         then closed == Serials(accepted)
         else accepted > 0 && clientSock == accepted - 1 && closed == Serials(accepted - 1)
    }

    ghost predicate Connected()
      reads this
    {
      clientSock != INVALID_SOCKET
    }

    constructor (server: nat)
      ensures Valid() && !Connected() && accepted == 0 && closed == []
    {
      serverSock, serverOpen := server, true;
      clientSock, accepted, closed := INVALID_SOCKET, 0, [];
      inbox, outbox, line := [], [], Up;
    }

    /** send(2): takes any positive part of the data, or fails for good. */
    method Send(data: seq<byte>) returns (r: int)
      requires data != []
      modifies this`outbox, this`line
      ensures r < 0 || 0 < r <= |data|
      ensures r > 0 ==> Connected() && old(line) == line == Up && outbox == old(outbox) + data[..r]
      ensures r < 0 ==> outbox == old(outbox) && (line != Up || !Connected())
      ensures old(line) != Up ==> line == old(line)
      ensures line != Ended || old(line) == Ended
    {
      if clientSock == INVALID_SOCKET || line != Up {
        return -1;
      }
      r :| -1 <= r <= |data| && r != 0;
      if r < 0 {
        line := Failed;
      } else {
        outbox := outbox + data[..r];
      }
    }

    /** recv(2) with MSG_WAITALL: all n bytes, or for good 0 when the peer has
        closed and -1 when the connection is broken. */
    method RecvAll(n: nat) returns (r: int, data: seq<byte>)
      modifies this`inbox, this`line
      ensures
        || (r == n == |data| && old(inbox) == data + inbox && old(line) == line == Up && Connected())
        || (r == 0 && data == [] && inbox == old(inbox) && line == Ended && Connected())
        || (r == -1 && data == [] && inbox == old(inbox) && (line == Failed || !Connected()))
      ensures old(line) != Up || !Connected() ==> line == old(line)
    {
      data := [];
      if clientSock == INVALID_SOCKET || line == Failed {
        return -1, data;
      }
      if line == Ended {
        return 0, data;
      }
      var fails: bool := *;
      if fails || |inbox| < n {
        var closed: bool := *;
        line := if closed then Ended else Failed;
        r := if closed then 0 else -1;
      } else {
        r, data, inbox := n, inbox[..n], inbox[n..];
      }
    }

    method SendAll(data: seq<byte>) returns (r: int)
      modifies this`outbox, this`line
      ensures r >= 0 ==> r == |data| && outbox == old(outbox) + data && line == old(line)
      ensures r < 0 ==> (line != Up || !Connected()) && old(outbox) <= outbox <= old(outbox) + data
      ensures data != [] && r > 0 ==> Connected() && line == Up
      ensures line != Ended || old(line) == Ended
    {
      var sent := 0;
      while sent < |data|
        invariant 0 <= sent <= |data|
        invariant outbox == old(outbox) + data[..sent]
        invariant line == old(line)
        invariant sent > 0 ==> Connected() && line == Up
      {
        r := Send(data[sent..]);
        if r < 0 {
          return;
        }
        assert data[..sent] + data[sent..][..r] == data[..sent + r];
        sent := sent + r;
      }
      r := sent;
    }

    method Eject() returns (r: int)
      requires Valid()
      modifies this`clientSock, this`closed
      ensures Valid() && !Connected()
      ensures closed == old(closed) + if old(clientSock) == INVALID_SOCKET then [] else [old(clientSock)]
    {
      r := 0;
      if clientSock != INVALID_SOCKET {
        assert Serials(accepted) == Serials(accepted - 1) + [clientSock];
        closed := closed + [clientSock];
        r :| -1 <= r <= 0;
        clientSock := INVALID_SOCKET;
      }
    }

    method SendToVICC(buffer: seq<byte>) returns (r: int)
      requires Valid()
      modifies this`clientSock, this`closed, this`outbox, this`line
      ensures Valid()
      ensures r >= 0 ==> |buffer| <= MAX_MESSAGE && r == |buffer| + 2 && outbox == old(outbox) + Frame(buffer)
      ensures r >= 0 ==> Connected() && clientSock == old(clientSock) && closed == old(closed) && old(line) == line == Up
      ensures r < 0 && |buffer| <= MAX_MESSAGE ==> !Connected() && (line != Up || !old(Connected()))
      ensures line != Ended || old(line) == Ended
    {
      if |buffer| > MAX_MESSAGE {
        return -1;
      }
      r := SendAll(BE16(|buffer|) + buffer);
      if r < 0 {
        var _ := Eject();
      }
    }

    /** The test `r < sizeof size` is unsigned: 0 and 1 stop here, but -1 passes
        and a second read with an uninitialised size follows.  It fails as
        well, because failures last. */
    method RecvFromVICC() returns (r: int, buffer: seq<byte>)
      modifies this`inbox, this`line
      ensures |buffer| <= MAX_MESSAGE
      ensures r > 0 ==> |buffer| == r && old(inbox) == Frame(buffer) + inbox && old(line) == line == Up && Connected()
      ensures r <= 0 ==> buffer == []
      ensures r == 0 ==> line == Ended || old(inbox) == Frame([]) + inbox
      ensures r < 0 ==> line == Failed || !Connected()
      ensures IsRest(inbox, old(inbox))
    {
      var header: seq<byte>;
      ghost var start := inbox;
      r, header := RecvAll(2);
      if 0 <= r < 2 {
        return r, [];
      }
      var size: nat;
      if r < 0 {
        size :| 0 <= size <= MAX_MESSAGE;
      } else {
        size := FromBE16(header);
        assert start == BE16(size) + inbox;
      }
      ghost var body := inbox;
      r, buffer := RecvAll(size);
      if r > 0 {
        assert start == BE16(size) + (buffer + inbox);
      }
    }

    /** An absent apdu (length 0 or a null pointer) is []; `wanted` says whether
        the caller passed somewhere to put the answer. */
    method Transmit(apdu: seq<byte>, wanted: bool) returns (r: int, rapdu: seq<byte>)
      requires Valid()
      modifies this`clientSock, this`closed, this`inbox, this`outbox, this`line
      ensures Valid() && |rapdu| <= MAX_MESSAGE
      ensures r <= 0 ==> !Connected() && rapdu == []
      ensures !wanted ==> r != 0
      ensures r > 0 ==> clientSock == old(clientSock) && closed == old(closed) && line == old(line)
      ensures r > 0 ==> |apdu| <= MAX_MESSAGE && outbox == old(outbox) + if apdu == [] then [] else Frame(apdu)
      ensures r > 0 && wanted ==> Connected() && line == Up && r == |rapdu| && old(inbox) == Frame(rapdu) + inbox
      ensures r > 0 && wanted && apdu != [] ==> Exchanged(old(WireOf(this)), WireOf(this), apdu, rapdu)
      ensures r > 0 && !wanted ==> r == if apdu == [] then 1 else |apdu| + 2
      ensures apdu == [] ==> outbox == old(outbox)
      ensures r == 0 ==> |apdu| <= MAX_MESSAGE && outbox == old(outbox) + if apdu == [] then [] else Frame(apdu)
      ensures r == 0 ==> line == Ended || old(inbox) == Frame([]) + inbox
      ensures r < 0 && |apdu| <= MAX_MESSAGE ==> line != Up || !old(Connected())
      ensures r < 0 && apdu == [] ==> line == Failed || !old(Connected())
      ensures !wanted ==> inbox == old(inbox) && (line != Ended || old(line) == Ended)
      ensures IsRest(inbox, old(inbox))
    {
      r, rapdu := -1, [];
      if apdu != [] {
        r := SendToVICC(apdu);
      } else {
        r := 1;
      }
      if r > 0 && wanted {
        r, rapdu := RecvFromVICC();
      }
      if r <= 0 {
        var _ := Eject();
      }
    }

    method GetAtr() returns (r: int, atr: seq<byte>)
      requires Valid()
      modifies this`clientSock, this`closed, this`inbox, this`outbox, this`line
      ensures Valid() && |atr| <= MAX_MESSAGE
      ensures r <= 0 ==> !Connected()
      ensures r > 0 ==> Connected() && r == |atr| && line == old(line) && old(inbox) == Frame(atr) + inbox
      ensures r >= 0 ==> outbox == old(outbox) + Frame([CTRL_ATR])
      ensures r == 0 ==> line == Ended || old(inbox) == Frame([]) + inbox
      ensures r < 0 ==> line != Up || !old(Connected())
    {
      r, atr := Transmit([CTRL_ATR], true);
    }

    /** vicc_poweron, vicc_poweroff and vicc_reset: a control byte, no answer. */
    method Control(code: byte) returns (r: int)
      requires Valid()
      modifies this`clientSock, this`closed, this`outbox, this`line
      ensures Valid()
      ensures r >= 0 ==> outbox == old(outbox) + Frame([code]) && clientSock == old(clientSock)
      ensures r < 0 ==> !Connected() && (line != Up || !old(Connected()))
    {
      r := SendToVICC([code]);
    }

    /** Waits for a client.  `ready` says whether one came in time and could be
        accepted, and `incoming` is what it will write. */
    method Connect(ready: bool, incoming: seq<byte>) returns (r: int)
      requires Valid()
      modifies this
      ensures Valid() && serverSock == old(serverSock)
      ensures r == if Connected() then 1 else 0
      ensures Connected() <==> old(Connected()) || ready
      ensures old(Connected()) ==>
                clientSock == old(clientSock) && line == old(line) && inbox == old(inbox) && outbox == old(outbox) && accepted == old(accepted)
      ensures !old(Connected()) && Connected() ==>
                accepted == old(accepted) + 1 && inbox == incoming && outbox == [] && line == Up
      ensures closed == old(closed)
    {
      if clientSock == INVALID_SOCKET {
        if ready {
          clientSock, accepted := accepted, accepted + 1;
          inbox, outbox, line := incoming, [], Up;
        }
      }
      r := if clientSock == INVALID_SOCKET then 0 else 1;
    }

    /** The connection that vicc_present finds or makes, before it is used. */
    ghost function Before(incoming: seq<byte>): (w: Wire)
      reads this
    {
      if Connected() then WireOf(this) else Wire(incoming, [])
    }

    method Present(ready: bool, incoming: seq<byte>) returns (r: int)
      requires Valid()
      modifies this
      ensures Valid() && serverSock == old(serverSock)
      ensures r == if Connected() then 1 else 0
      ensures accepted == old(accepted) + if old(Connected()) || !ready then 0 else 1
      ensures r == 1 ==> (old(Connected()) || ready) && outbox == old(Before(incoming)).outbox + Frame([CTRL_ATR])
      ensures r == 1 ==> exists atr: Message | atr != [] :: old(Before(incoming)).inbox == Frame(atr) + inbox
      ensures r == 0 && (old(Connected()) || ready) ==>
                || line != Up
                || (outbox == old(Before(incoming)).outbox + Frame([CTRL_ATR])
                    && old(Before(incoming)).inbox == Frame([]) + inbox)
    {
      r := Connect(ready, incoming);
      if r == 0 {
        return 0;
      }
      var n, atr := GetAtr();
      r := if n <= 0 then 0 else 1;
      assert r == 1 ==> old(Before(incoming)).inbox == Frame(atr) + inbox;
    }

    /** After vicc_exit every socket accept() ever returned has been closed
        exactly once, and so has the listening socket. */
    method Exit() returns (r: int)
      requires Valid()
      modifies this
      ensures !Connected() && !serverOpen && accepted == old(accepted)
      ensures closed == Serials(accepted)
    {
      r := Eject();
      if serverSock != INVALID_SOCKET {
        var result: int :| -1 <= result <= 0;
        serverSock, serverOpen := result, false;   // the field receives close()'s result
        if serverSock == INVALID_SOCKET {
          r := -1;
        }
      }
    }
  }
}

/** Share modes and reference counts of the PC/SC front end
    (virtualsmartcard/src/pcsclite-vpcd/winscard.c). */
module Sharing {
  const MAX_READERS := 16     // PCSCLITE_MAX_READERS_CONTEXTS

  const SHARE_EXCLUSIVE := 1
  const LEAVE_CARD := 0
  const RESET_CARD := 1
  const UNPOWER_CARD := 2
  const EJECT_CARD := 3

  datatype Card = Card(shareMode: nat, users: nat)

  datatype Globals = Globals(cards: seq<Card>, contexts: nat)

  datatype Result =
    | Success | SharingViolation | InvalidHandle | ReaderUnavailable | CantDispose | InvalidParameter
    | InsufficientBuffer | UnsupportedFeature | Timeout | NoSmartcard | CommError | InternalError

  /** What the IFD handler says about powering the card. */
  datatype ResponseCode =
    | IccPresent | IfdSuccess | ErrorInsufficientBuffer
    | ErrorNotSupported | IfdNotSupported | ProtocolNotSupported
    | ErrorConfiscate | ErrorEject | ErrorPowerAction
    | ResponseTimeout | IccNotPresent | CommunicationError | NoSuchDevice
    | ErrorTag | ErrorSetFailure | ErrorValueReadOnly | ErrorPtsFailure | ErrorSwallow | OtherCode

  /** responsecode2long. */
  function ToResult(r: ResponseCode): (result: Result)
    ensures result == Success <==> r == IccPresent || r == IfdSuccess
  {
    match r
    case IccPresent => Success
    case IfdSuccess => Success
    case ErrorInsufficientBuffer => InsufficientBuffer
    case ErrorNotSupported => UnsupportedFeature
    case IfdNotSupported => UnsupportedFeature
    case ProtocolNotSupported => UnsupportedFeature
    case ErrorConfiscate => CantDispose
    case ErrorEject => CantDispose
    case ErrorPowerAction => CantDispose
    case ResponseTimeout => Timeout
    case IccNotPresent => NoSmartcard
    case CommunicationError => CommError
    case NoSuchDevice => ReaderUnavailable
    case _ => InternalError
  }

  datatype Call =
    | Establish
    | Release
    | Connect(reader: nat, mode: nat)                       // index named by the reader string
    | Reconnect(handle: nat, mode: nat)
    | Disconnect(handle: nat, disposition: nat, power: ResponseCode)   // what powering the card gave
    | BeginTransaction(handle: nat)
    | EndTransaction(handle: nat, disposition: nat)

  /** Zeroed memory. */
  function Zeroes(n: nat): (cards: seq<Card>)
    ensures |cards| == n && forall i :: 0 <= i < n ==> cards[i] == Card(0, 0)
  {
    if n == 0 then [] else Zeroes(n - 1) + [Card(0, 0)]
  }

  function Zero(): (g: Globals)
  {
    Globals(Zeroes(MAX_READERS), 0)
  }

  predicate Valid(g: Globals)
  {
    |g.cards| == MAX_READERS
  }

  /** The cast to uint32_t in handle2card. */
  function Slot(handle: nat): (slot: nat)
  {
    handle % 0x1_0000_0000
  }

  function SetMode(g: Globals, slot: nat, mode: nat): (h: Globals)
    requires slot < |g.cards|
  {
    g.(cards := g.cards[slot := g.cards[slot].(shareMode := mode)])
  }

  /** The new globals and the return code of a call. */
  function Done(g: Globals, call: Call): (r: (Globals, Result))
    requires Valid(g)
  {
    match call
    case Establish => (g.(contexts := g.contexts + 1), Success)
    case Release =>
      var left := if g.contexts > 0 then g.contexts - 1 else 0;
      (Globals(if left == 0 then Zeroes(MAX_READERS) else g.cards, left), Success)
    case Connect(slot, mode) =>
      if slot >= MAX_READERS then (g, ReaderUnavailable)
      else
        var card := g.cards[slot];
        if card.users > 0 && (card.shareMode == SHARE_EXCLUSIVE || card.shareMode != mode) then (g, SharingViolation)
        else (g.(cards := g.cards[slot := Card(mode, card.users + 1)]), Success)
    case Reconnect(handle, mode) =>
      if Slot(handle) >= MAX_READERS then (g, InvalidHandle)
      else if g.cards[Slot(handle)].users > 1 && g.cards[Slot(handle)].shareMode != mode then (g, SharingViolation)
      else (SetMode(g, Slot(handle), mode), Success)
    case Disconnect(handle, disposition, power) =>
      if Slot(handle) >= MAX_READERS || g.cards[Slot(handle)].users == 0 then (g, InvalidHandle)
      else
        var card := g.cards[Slot(handle)].(users := g.cards[Slot(handle)].users - 1);
        (g.(cards := g.cards[Slot(handle) := card]),
         if disposition == LEAVE_CARD then Success
         else if disposition > EJECT_CARD then InvalidParameter
         else if card.users > 0 then CantDispose
         else ToResult(power))
    case BeginTransaction(handle) =>
      if Slot(handle) >= MAX_READERS then (g, InvalidHandle)
      else if g.cards[Slot(handle)].users != 1 then (g, SharingViolation)
      else (SetMode(g, Slot(handle), SHARE_EXCLUSIVE), Success)
    case EndTransaction(handle, disposition) =>
      if Slot(handle) >= MAX_READERS then (g, InvalidHandle)
      else (SetMode(g, Slot(handle), disposition), Success)   // stores the disposition as the share mode
  }

  // ------------------------------------------------------------------ the code

  class Library {
    const cards: array<Card>
    var contextCount: nat

    ghost predicate Valid()
      reads this
    {
      cards.Length == MAX_READERS
    }

    ghost function Get(): (g: Globals)
      reads this, cards
    {
      Globals(cards[..], contextCount)
    }

    constructor ()
      ensures Valid() && fresh(cards) && Get() == Zero()
    {
      cards := new Card[MAX_READERS](i => Card(0, 0));
      contextCount := 0;
      new;
      assert cards[..] == Zeroes(MAX_READERS);
    }

    method SCardEstablishContext() returns (r: Result)
      requires Valid()
      modifies this
      ensures Valid() && (Get(), r) == Done(old(Get()), Establish)
    {
      contextCount := contextCount + 1;
      r := Success;
    }

    /** memset(cards, 0, sizeof cards) */
    method ReleaseGlobals()
      requires Valid()
      modifies cards
      ensures cards[..] == Zeroes(MAX_READERS)
    {
      forall i | 0 <= i < cards.Length {
        cards[i] := Card(0, 0);
      }
    }

    method SCardReleaseContext() returns (r: Result)
      requires Valid()
      modifies this, cards
      ensures Valid() && (Get(), r) == Done(old(Get()), Release)
    {
      if contextCount > 0 {
        contextCount := contextCount - 1;
      }
      if contextCount == 0 {
        ReleaseGlobals();
      }
      r := Success;
    }

    method SCardConnect(reader: nat, mode: nat) returns (r: Result)
      requires Valid()
      modifies cards
      ensures Valid() && (Get(), r) == Done(old(Get()), Connect(reader, mode))
    {
      if reader >= MAX_READERS {
        return ReaderUnavailable;
      }
      if cards[reader].users > 0 {
        if cards[reader].shareMode == SHARE_EXCLUSIVE || cards[reader].shareMode != mode {
          return SharingViolation;
        }
      }
      cards[reader] := cards[reader].(users := cards[reader].users + 1);
      cards[reader] := cards[reader].(shareMode := mode);
      assert cards[..] == old(cards[..])[reader := Card(mode, old(cards[reader].users) + 1)];
      r := Success;
    }

    method SCardReconnect(handle: nat, mode: nat) returns (r: Result)
      requires Valid()
      modifies cards
      ensures Valid() && (Get(), r) == Done(old(Get()), Reconnect(handle, mode))
    {
      var slot := Slot(handle);
      if slot >= MAX_READERS {
        return InvalidHandle;
      }
      if cards[slot].users > 1 && cards[slot].shareMode != mode {
        return SharingViolation;
      }
      cards[slot] := cards[slot].(shareMode := mode);
      r := Success;
    }

    method SCardDisconnect(handle: nat, disposition: nat, power: ResponseCode) returns (r: Result)
      requires Valid()
      modifies cards
      ensures Valid() && (Get(), r) == Done(old(Get()), Disconnect(handle, disposition, power))
    {
      var slot := Slot(handle);
      if slot >= MAX_READERS {
        return InvalidHandle;
      }
      if cards[slot].users == 0 {
        return InvalidHandle;
      }
      cards[slot] := cards[slot].(users := cards[slot].users - 1);
      if disposition == LEAVE_CARD {
        r := Success;
      } else if disposition == RESET_CARD || disposition == EJECT_CARD || disposition == UNPOWER_CARD {
        if cards[slot].users > 0 {
          return CantDispose;
        }
        r := ToResult(power);
      } else {
        r := InvalidParameter;
      }
    }

    method SCardBeginTransaction(handle: nat) returns (r: Result)
      requires Valid()
      modifies cards
      ensures Valid() && (Get(), r) == Done(old(Get()), BeginTransaction(handle))
    {
      var slot := Slot(handle);
      if slot >= MAX_READERS {
        return InvalidHandle;
      }
      if cards[slot].users != 1 {
        return SharingViolation;
      }
      cards[slot] := cards[slot].(shareMode := SHARE_EXCLUSIVE);
      r := Success;
    }

    method SCardEndTransaction(handle: nat, disposition: nat) returns (r: Result)
      requires Valid()
      modifies cards
      ensures Valid() && (Get(), r) == Done(old(Get()), EndTransaction(handle, disposition))
    {
      var slot := Slot(handle);
      if slot >= MAX_READERS {
        return InvalidHandle;
      }
      cards[slot] := cards[slot].(shareMode := disposition);
      r := Success;
    }
  }

  // ------------------------------------------------------------------ runs

  /** A call and the code it returned: all a caller sees. */
  datatype Entry = Entry(call: Call, result: Result)

  function After(g: Globals, calls: seq<Call>): (h: Globals)
    requires Valid(g)
    ensures Valid(h)
    decreases |calls|
  {
    if calls == [] then g else After(Done(g, calls[0]).0, calls[1..])
  }

  function Trace(g: Globals, calls: seq<Call>): (t: seq<Entry>)
    requires Valid(g)
    decreases |calls|
  {
    if calls == [] then []
    else [Entry(calls[0], Done(g, calls[0]).1)] + Trace(Done(g, calls[0]).0, calls[1..])
  }

  /** What the callers can tell of one slot: contexts open, accepted connects
      less counted disconnects, and the mode last granted, since the last
      context was released. */
  datatype Tally = Tally(contexts: nat, connections: int, mode: nat)

  function Counted(t: Tally, slot: nat, e: Entry): (u: Tally)
  {
    match e.call
    case Establish => t.(contexts := t.contexts + 1)
    case Release => if t.contexts > 1 then t.(contexts := t.contexts - 1) else Tally(0, 0, 0)
    case Connect(reader, mode) =>
      if reader == slot && e.result == Success then t.(connections := t.connections + 1, mode := mode) else t
    case Reconnect(handle, mode) =>
      if Slot(handle) == slot && e.result == Success then t.(mode := mode) else t
    case Disconnect(handle, _, _) =>
      if Slot(handle) == slot && e.result != InvalidHandle then t.(connections := t.connections - 1) else t
    case BeginTransaction(handle) =>
      if Slot(handle) == slot && e.result == Success then t.(mode := SHARE_EXCLUSIVE) else t
    case EndTransaction(handle, disposition) =>
      if Slot(handle) == slot && e.result == Success then t.(mode := disposition) else t
  }

  function Tallied(t: Tally, slot: nat, trace: seq<Entry>): (u: Tally)
    decreases |trace|
  {
    if trace == [] then t else Tallied(Counted(t, slot, trace[0]), slot, trace[1..])
  }

  function TallyOf(g: Globals, slot: nat): (t: Tally)
    requires Valid(g) && slot < MAX_READERS
  {
    Tally(g.contexts, g.cards[slot].users, g.cards[slot].shareMode)
  }

  lemma OneCallCounts(g: Globals, slot: nat, call: Call)
    requires Valid(g) && slot < MAX_READERS
    ensures var (h, result) := Done(g, call);
            Counted(TallyOf(g, slot), slot, Entry(call, result)) == TallyOf(h, slot)
  {
  }

  /** Over every run, whatever the calls: a slot's usage counter is the number
      of accepted connects less counted disconnects since the last release of
      the last context, and its mode is the one last granted. */
  lemma {:induction false} UsersAreConnections(g: Globals, slot: nat, calls: seq<Call>)
    requires Valid(g) && slot < MAX_READERS
    ensures Tallied(TallyOf(g, slot), slot, Trace(g, calls)) == TallyOf(After(g, calls), slot)
    decreases |calls|
  {
    if calls != [] {
      OneCallCounts(g, slot, calls[0]);
      UsersAreConnections(Done(g, calls[0]).0, slot, calls[1..]);
    }
  }

  /** What the callers of a slot saw from the start. */
  function Told(slot: nat, calls: seq<Call>): (t: Tally)
  {
    Tallied(Tally(0, 0, 0), slot, Trace(Zero(), calls))
  }

  /** After any run from the start the codes that callers got determine the next
      one.  A slot that is in use is granted only in the mode it was last
      granted, and not at all if that is the exclusive mode; several users keep
      their mode; a transaction begins for a lone user only. */
  lemma GrantsFollowTheTrace(slot: nat, calls: seq<Call>, call: Call)
    requires slot < MAX_READERS
    ensures var t := Told(slot, calls);
            var r := Done(After(Zero(), calls), call).1;
            match call
            case Connect(reader, mode) => reader == slot ==>
              && (r == Success <==> t.connections == 0 || (mode == t.mode && mode != SHARE_EXCLUSIVE))
              && (r != Success ==> r == SharingViolation)
            case Reconnect(handle, mode) => Slot(handle) == slot ==>
              && (r == Success <==> t.connections <= 1 || mode == t.mode)
              && (r != Success ==> r == SharingViolation)
            case BeginTransaction(handle) => Slot(handle) == slot ==>
              && (r == Success <==> t.connections == 1)
              && (r != Success ==> r == SharingViolation)
            case EndTransaction(handle, _) => Slot(handle) == slot ==> r == Success
            case Disconnect(handle, disposition, power) => Slot(handle) == slot ==>
              && (r == InvalidHandle <==> t.connections == 0)
              && (r == InvalidParameter <==> t.connections > 0 && disposition > EJECT_CARD)
              && (t.connections > 1 && LEAVE_CARD < disposition <= EJECT_CARD ==> r == CantDispose)
              && (r == Success <==>
                    && t.connections > 0
                    && (disposition == LEAVE_CARD
                        || (t.connections == 1 && disposition <= EJECT_CARD && ToResult(power) == Success)))
            case _ => r == Success
  {
    UsersAreConnections(Zero(), slot, calls);
  }

  /** A reader that is none, and a handle of none, are refused. */
  lemma NoReaderNoGrant(g: Globals, call: Call)
    requires Valid(g)
    ensures var (h, r) := Done(g, call);
            match call
            case Connect(reader, _) => (r == ReaderUnavailable <==> reader >= 16) && (r == ReaderUnavailable ==> h == g)
            case Reconnect(handle, _) => r == InvalidHandle <==> handle % 0x1_0000_0000 >= 16
            case BeginTransaction(handle) => r == InvalidHandle <==> handle % 0x1_0000_0000 >= 16
            case EndTransaction(handle, _) => r == InvalidHandle <==> handle % 0x1_0000_0000 >= 16
            case _ => true
  {
  }

  predicate NoCrowdInExclusive(g: Globals)
  {
    forall i :: 0 <= i < |g.cards| ==> g.cards[i].users >= 2 ==> g.cards[i].shareMode != SHARE_EXCLUSIVE
  }

  /** Ending a transaction with a reset stores EXCLUSIVE, whoever else is there. */
  predicate Harmless(g: Globals, call: Call)
    requires Valid(g)
  {
    call.EndTransaction? && Slot(call.handle) < MAX_READERS && call.disposition == RESET_CARD ==>
      g.cards[Slot(call.handle)].users < 2
  }

  lemma OneCallShares(g: Globals, call: Call)
    requires Valid(g) && NoCrowdInExclusive(g)
    ensures NoCrowdInExclusive(Done(g, call).0) <==> Harmless(g, call)
  {
    var h := Done(g, call).0;
    if !Harmless(g, call) {
      var i := Slot(call.handle);
      assert h.cards[i].users >= 2 && h.cards[i].shareMode == SHARE_EXCLUSIVE;
    }
  }

  predicate AlwaysShared(g: Globals, calls: seq<Call>)
    requires Valid(g)
    decreases |calls|
  {
    NoCrowdInExclusive(g) && (calls != [] ==> AlwaysShared(Done(g, calls[0]).0, calls[1..]))
  }

  predicate AlwaysHarmless(g: Globals, calls: seq<Call>)
    requires Valid(g)
    decreases |calls|
  {
    calls != [] ==> Harmless(g, calls[0]) && AlwaysHarmless(Done(g, calls[0]).0, calls[1..])
  }

  /** A run keeps every exclusive slot to one user exactly if it never ends a
      transaction with RESET_CARD on a slot with several users. */
  lemma {:induction false} ExclusiveMeansAloneExactlyIf(g: Globals, calls: seq<Call>)
    requires Valid(g) && NoCrowdInExclusive(g)
    ensures AlwaysShared(g, calls) <==> AlwaysHarmless(g, calls)
    decreases |calls|
  {
    if calls != [] {
      OneCallShares(g, calls[0]);
      if Harmless(g, calls[0]) {
        ExclusiveMeansAloneExactlyIf(Done(g, calls[0]).0, calls[1..]);
      }
    }
  }

  /** Two shared users, one of whom ends a transaction with a reset. */
  lemma CrowdedExclusiveHappens()
    ensures !AlwaysShared(Zero(), [Establish, Connect(0, 2), Connect(0, 2), EndTransaction(0, RESET_CARD)])
  {
    var calls := [Establish, Connect(0, 2), Connect(0, 2), EndTransaction(0, RESET_CARD)];
    var a := Done(Zero(), calls[0]).0;
    var b := Done(a, calls[1]).0;
    var c := Done(b, calls[2]).0;
    assert c.cards[0] == Card(2, 2);
    assert calls[1..][0] == calls[1] && calls[1..][1..][0] == calls[2] && calls[1..][1..][1..][0] == calls[3];
    assert !AlwaysHarmless(c, calls[1..][1..][1..]);
    assert !AlwaysHarmless(b, calls[1..][1..]);
    assert !AlwaysHarmless(a, calls[1..]);
    ExclusiveMeansAloneExactlyIf(Zero(), calls);
  }
}

/** The vpcd back end of BixVReader (VpcdReader.cpp with Reader.cpp): handlers
    are taken as atomic, and what the card connection returns during one is a
    parameter of it (`present` for vicc_present, `answer` for vicc_getatr, []
    for a result of 0 or less). */
module VpcdReader {
  import opened Bytes
  import opened Requests
  import opened AtrScan

  datatype CardState = Absent | Swallowed | Negotiable | Specific

  const ATR_BUFFER := 100

  const SCARD_POWER_DOWN := 0
  const SCARD_COLD_RESET := 1
  const SCARD_WARM_RESET := 2

  /** A reader's fields as a value. */
  datatype View = View(
    state: CardState, protocol: nat, available: nat, powered: bool, cardPresent: bool, pool: Pool)

  // ------------------------------------------------------------------ what the handlers do

  function Removed(v: View): (w: View)
  {
    if !v.cardPresent then v
    else v.(cardPresent := false, state := Absent,
            pool := Drain(Drain(v.pool, Remove, Success), Insert, Cancelled))
  }

  /** The part of the answer that fits the caller's buffer. */
  function Clip(answer: seq<byte>): (atr: seq<byte>)
  {
    if |answer| <= ATR_BUFFER then answer else answer[..ATR_BUFFER]
  }

  function Scanned(v: View, answer: seq<byte>): (w: View)
  {
    if answer == [] then Removed(v.(available := 0))
    else v.(available := Available(Clip(answer)), protocol := LastNibble(Chain(Clip(answer)), v.protocol))
  }

  /** Inserting a card serves the waiters only if its ATR can be read; if it
      cannot, the scan itself signals removal, which cancels them. */
  function Inserted(v: View, answer: seq<byte>): (w: View)
  {
    if v.cardPresent then v
    else
      var u := v.(cardPresent := true);
      if u.pool.insert == [] then u
      else if answer == [] then Scanned(u, answer)
      else Scanned(u, answer).(pool := Drain(u.pool, Insert, Success), state := Swallowed)
  }

  function Checked(v: View, present: bool, answer: seq<byte>): (w: View)
  {
    if present then Inserted(v, answer) else Removed(v)
  }

  function Shut(v: View): (w: View)
  {
    v.(state := Absent, pool := Drain(Drain(v.pool, Remove, Cancelled), Insert, Cancelled))
  }

  function Powered(v: View, code: nat): (w: View)
  {
    if code == SCARD_COLD_RESET || code == SCARD_WARM_RESET then v.(protocol := 0, powered := true, state := Negotiable)
    else if code == SCARD_POWER_DOWN then v.(protocol := 0, powered := false, state := Swallowed)
    else v
  }

  /** setBuffer, setInt: one completion, whether the output buffer is there or not. */
  function BufferStatus(outOk: bool): (s: Status)
  {
    if outOk then Success else BufferError
  }

  function Finished(v: View, r: Request, status: Status): (w: View)
  {
    v.(pool := Finish(v.pool, r, status))
  }

  function PowerHandled(v: View, r: Request, code: nat, answer: seq<byte>, outOk: bool): (w: View)
  {
    var u := Powered(v, code);
    if code != SCARD_COLD_RESET && code != SCARD_WARM_RESET then Finished(u, r, Success)
    else if answer == [] then Finished(Removed(u), r, NoMedia)
    else Finished(u, r, BufferStatus(outOk))
  }

  function ProtocolHandled(v: View, r: Request, requested: nat, answer: seq<byte>): (w: View)
  {
    var u := v.(state := Specific);
    if answer == [] then Finished(Removed(u), r, NoMedia)
    else
      match Choose(requested, v.available)
      case Chosen(p) => Finished(u.(protocol := p), r, Success)
      case NotSupported => Finished(u.(state := Negotiable), r, Status.NotSupported)
  }

  /** `accepted`: the request carries a header for the protocol in use. */
  function TransmitHandled(v: View, r: Request, accepted: bool, apdu: seq<byte>, rapdu: seq<byte>, outOk: bool): (w: View)
  {
    if !accepted then Finished(v, r, InvalidDeviceState)
    else if apdu == [] then Finished(v, r, NoMedia)
    else if rapdu == [] then Finished(Removed(v), r, NoMedia)
    else Finished(v, r, BufferStatus(outOk))
  }

  /** The erase loop of the cancel callback. */
  method EraseFirst(w: seq<Request>, r: Request) returns (v: seq<Request>)
    ensures v == Erase(w, r)
  {
    var it := 0;
    while it != |w|
      invariant 0 <= it <= |w|
      invariant Erase(w, r) == w[..it] + Erase(w[it..], r)
    {
      if w[it] == r {
        return w[..it] + w[it + 1..];
      }
      it := it + 1;
    }
    return w;
  }

  // ------------------------------------------------------------------ the class

  class Reader {
    var state: CardState
    var protocol: nat
    var availableProtocol: nat
    var powered: bool
    var cardPresent: bool
    var waitInsertIpr: seq<Request>
    var waitRemoveIpr: seq<Request>

    // the framework's side
    var arrived: set<Request>
    var held: set<Request>
    var cancelling: set<Request>
    var done: seq<Completion>

    ghost function Get(): (v: View)
      reads this
    {
      View(state, protocol, availableProtocol, powered, cardPresent,
           Pool(arrived, held, waitInsertIpr, waitRemoveIpr, cancelling, done))
    }

    constructor ()
      ensures !cardPresent && state == Absent
      ensures Get().pool == Pool({}, {}, [], [], {}, [])
    {
      state, protocol, availableProtocol, powered, cardPresent := Absent, 0, 0, false, false;
      waitInsertIpr, waitRemoveIpr := [], [];
      arrived, held, cancelling, done := {}, {}, {}, [];
    }

    method DrainInsert(status: Status)
      modifies this`waitInsertIpr, this`done
      ensures Get() == old(Get()).(pool := Drain(old(Get()).pool, Insert, status))
    {
      ghost var start := Get();
      while waitInsertIpr != []
        invariant Get() == start.(pool := Get().pool)
        invariant Drain(Get().pool, Insert, status) == Drain(start.pool, Insert, status)
        decreases |waitInsertIpr|
      {
        var req := waitInsertIpr[|waitInsertIpr| - 1];
        waitInsertIpr := waitInsertIpr[..|waitInsertIpr| - 1];
        if req !in cancelling {
          done := done + [Completion(req, status)];
        }
      }
    }

    method DrainRemove(status: Status)
      modifies this`waitRemoveIpr, this`done
      ensures Get() == old(Get()).(pool := Drain(old(Get()).pool, Remove, status))
    {
      ghost var start := Get();
      while waitRemoveIpr != []
        invariant Get() == start.(pool := Get().pool)
        invariant Drain(Get().pool, Remove, status) == Drain(start.pool, Remove, status)
        decreases |waitRemoveIpr|
      {
        var req := waitRemoveIpr[|waitRemoveIpr| - 1];
        waitRemoveIpr := waitRemoveIpr[..|waitRemoveIpr| - 1];
        if req !in cancelling {
          done := done + [Completion(req, status)];
        }
      }
    }

    method Complete(r: Request, status: Status)
      modifies this`held, this`done
      ensures Get() == old(Get()).(pool := Finish(old(Get()).pool, r, status))
    {
      held, done := held - {r}, done + [Completion(r, status)];
    }

    method SignalRemoval()
      modifies this
      ensures Get() == Removed(old(Get()))
    {
      if cardPresent {
        cardPresent, state := false, Absent;
        DrainRemove(Success);
        DrainInsert(Cancelled);
      }
    }

    /** vicc_getatr has answered; a failure is taken for a removal. */
    method QueryATR(answer: seq<byte>) returns (ok: bool, atr: seq<byte>)
      modifies this
      ensures ok == (answer != []) && atr == Clip(answer)
      ensures Get() == if ok then old(Get()) else Removed(old(Get()))
    {
      ok, atr := answer != [], Clip(answer);
      if !ok {
        SignalRemoval();
      }
    }

    method InitProtocols(answer: seq<byte>) returns (ok: bool)
      modifies this
      ensures ok == (answer != [])
      ensures Get() == Scanned(old(Get()), answer)
    {
      var ATR: seq<byte>;
      availableProtocol := 0;
      ok, ATR := QueryATR(answer);
      if !ok {
        return;
      }
      protocol, availableProtocol := Scan(ATR, protocol);
    }

    method SignalInsertion(answer: seq<byte>)
      modifies this
      ensures Get() == Inserted(old(Get()), answer)
    {
      if !cardPresent {
        cardPresent := true;
        if waitInsertIpr != [] {   // a while loop that every path leaves at once
          var ok := InitProtocols(answer);
          if ok {
            DrainInsert(Success);
            state := Swallowed;
          }
        }
      }
    }

    method CheckATR(present: bool, answer: seq<byte>) returns (r: bool)
      modifies this
      ensures r == present && Get() == Checked(old(Get()), present, answer)
    {
      r := present;
      if r {
        SignalInsertion(answer);
      } else {
        SignalRemoval();
      }
    }

    method IoSmartCardIsPresent(r: Request, present: bool, answer: seq<byte>)
      modifies this
      ensures var v := Checked(old(Get()), present, answer);
              Get() == if present then Finished(v, r, Success) else v.(pool := Park(v.pool, r, Insert))
    {
      var found := CheckATR(present, answer);
      if found {
        Complete(r, Success);
      } else {
        held, waitInsertIpr := held - {r}, waitInsertIpr + [r];
      }
    }

    method IoSmartCardIsAbsent(r: Request, present: bool, answer: seq<byte>)
      modifies this
      ensures var v := Checked(old(Get()), present, answer);
              Get() == if present then v.(pool := Park(v.pool, r, Remove)) else Finished(v, r, Success)
    {
      var found := CheckATR(present, answer);
      if !found {
        Complete(r, Success);
      } else {
        held, waitRemoveIpr := held - {r}, waitRemoveIpr + [r];
      }
    }

    method IoSmartCardPower(r: Request, code: nat, answer: seq<byte>, outOk: bool)
      modifies this
      ensures Get() == PowerHandled(old(Get()), r, code, answer, outOk)
    {
      if code == SCARD_COLD_RESET {
        protocol, powered, state := 0, true, Negotiable;
      } else if code == SCARD_WARM_RESET {
        protocol, powered, state := 0, true, Negotiable;
      } else if code == SCARD_POWER_DOWN {
        protocol, powered, state := 0, false, Swallowed;
      }
      if code == SCARD_COLD_RESET || code == SCARD_WARM_RESET {
        var ok, _ := QueryATR(answer);
        if !ok {
          Complete(r, NoMedia);
          return;
        }
        Complete(r, BufferStatus(outOk));
      } else {
        Complete(r, Success);
      }
    }

    method IoSmartCardSetProtocol(r: Request, requested: nat, answer: seq<byte>)
      modifies this
      ensures Get() == ProtocolHandled(old(Get()), r, requested, answer)
    {
      state := Specific;
      var ok, _ := QueryATR(answer);
      if !ok {
        Complete(r, NoMedia);
        return;
      }
      if Bit(requested, 1) && Bit(availableProtocol, 1) {
        protocol := SCARD_PROTOCOL_T1;
        Complete(r, Success);
        return;
      }
      if Bit(requested, 0) && Bit(availableProtocol, 0) {
        protocol := SCARD_PROTOCOL_T0;
        Complete(r, Success);
        return;
      }
      if Bit(requested, 31) && Bit(availableProtocol, 1) {
        protocol := SCARD_PROTOCOL_T1;
        Complete(r, Success);
        return;
      }
      if Bit(requested, 31) && Bit(availableProtocol, 0) {
        protocol := SCARD_PROTOCOL_T0;
        Complete(r, Success);
        return;
      }
      state := Negotiable;
      Complete(r, Status.NotSupported);
    }

    method IoSmartCardTransmit(r: Request, accepted: bool, apdu: seq<byte>, rapdu: seq<byte>, outOk: bool)
      modifies this
      ensures Get() == TransmitHandled(old(Get()), r, accepted, apdu, rapdu, outOk)
    {
      if !accepted {
        Complete(r, InvalidDeviceState);
        return;
      }
      if apdu == [] {
        Complete(r, NoMedia);
      } else if rapdu == [] {
        SignalRemoval();
        Complete(r, NoMedia);
      } else {
        Complete(r, BufferStatus(outOk));
      }
    }

    /** BixVReaderEvtRequestCancel. */
    method RequestCancel(r: Request)
      modifies this
      ensures Get() == old(Get()).(pool := RunCancel(old(Get()).pool, r))
    {
      waitRemoveIpr := EraseFirst(waitRemoveIpr, r);
      waitInsertIpr := EraseFirst(waitInsertIpr, r);
      cancelling, done := cancelling - {r}, done + [Completion(r, Cancelled)];
    }

    method Shutdown()
      modifies this
      ensures Get() == Shut(old(Get()))
    {
      state := Absent;
      DrainRemove(Cancelled);
      DrainInsert(Cancelled);
    }
  }
}

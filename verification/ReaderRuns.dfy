/** Runs of the vpcd back end: any sequence of handlers, card events, cancels
    and a shutdown, with any results from the card connection. */
module ReaderRuns {
  import opened Basics
  import opened Bytes
  import opened Requests
  import opened AtrScan
  import opened VpcdReader

  datatype Event =
    | Deliver(r: Request)
    | IsPresent(r: Request, present: bool, answer: seq<byte>)
    | IsAbsent(r: Request, present: bool, answer: seq<byte>)
    | Poll(present: bool, answer: seq<byte>)
    | Power(r: Request, code: nat, answer: seq<byte>, outOk: bool)
    | SetProtocol(r: Request, requested: nat, answer: seq<byte>)
    | Transmit(r: Request, accepted: bool, apdu: seq<byte>, rapdu: seq<byte>, outOk: bool)
    | CancelIssued(r: Request)
    | CancelRuns(r: Request)
    | ShutDown

  predicate Allowed(v: View, e: Event)
  {
    match e
    case Deliver(r) => r !in v.pool.arrived
    case CancelIssued(r) => Parked(v.pool, r)
    case CancelRuns(r) => r in v.pool.cancelling
    case Poll(_, _) => true
    case ShutDown => true
    case IsPresent(r, _, _) => r in v.pool.held
    case IsAbsent(r, _, _) => r in v.pool.held
    case Power(r, _, _, _) => r in v.pool.held
    case SetProtocol(r, _, _) => r in v.pool.held
    case Transmit(r, _, _, _, _) => r in v.pool.held
  }

  function Handled(v: View, e: Event): (w: View)
  {
    match e
    case Deliver(r) => v.(pool := Arrive(v.pool, r))
    case IsPresent(r, present, answer) =>
      var u := Checked(v, present, answer);
      if present then Finished(u, r, Success) else u.(pool := Park(u.pool, r, Insert))
    case IsAbsent(r, present, answer) =>
      var u := Checked(v, present, answer);
      if present then u.(pool := Park(u.pool, r, Remove)) else Finished(u, r, Success)
    case Poll(present, answer) => Checked(v, present, answer)
    case Power(r, code, answer, outOk) => PowerHandled(v, r, code, answer, outOk)
    case SetProtocol(r, requested, answer) => ProtocolHandled(v, r, requested, answer)
    case Transmit(r, accepted, apdu, rapdu, outOk) => TransmitHandled(v, r, accepted, apdu, rapdu, outOk)
    case CancelIssued(r) => v.(pool := IssueCancel(v.pool, r))
    case CancelRuns(r) => v.(pool := RunCancel(v.pool, r))
    case ShutDown => Shut(v)
  }

  const Start := View(Absent, 0, 0, false, false, Pool({}, {}, [], [], {}, []))

  predicate Possible(v: View, events: seq<Event>)
    decreases |events|
  {
    events == [] || (Allowed(v, events[0]) && Possible(Handled(v, events[0]), events[1..]))
  }

  function After(v: View, events: seq<Event>): (w: View)
    decreases |events|
  {
    if events == [] then v else After(Handled(v, events[0]), events[1..])
  }

  ghost predicate Inv(v: View)
  {
    OnePlaceEach(v.pool) && (v.cardPresent ==> v.pool.insert == [])
  }

  lemma RemovedKeepsInv(v: View)
    requires OnePlaceEach(v.pool)
    ensures var w := Removed(v);
            && OnePlaceEach(w.pool) && w.pool.held == v.pool.held
            && !w.cardPresent && (v.cardPresent ==> w.pool.insert == [] && w.pool.remove == [])
  {
    DrainKeeps(v.pool, Remove, Success);
    DrainServesAll(v.pool, Remove, Success);
    var p := Drain(v.pool, Remove, Success);
    DrainKeeps(p, Insert, Cancelled);
    DrainServesAll(p, Insert, Cancelled);
  }

  /** The re-entrant path: whether the scan succeeds or signals removal in the
      middle of signalling insertion, no insert waiter is left. */
  lemma InsertedKeepsInv(v: View, answer: seq<byte>)
    requires Inv(v)
    ensures Inv(Inserted(v, answer))
    ensures Inserted(v, answer).pool.held == v.pool.held && Inserted(v, answer).pool.insert == []
  {
    if !v.cardPresent && v.pool.insert != [] {
      if answer == [] {
        RemovedKeepsInv(v.(cardPresent := true, available := 0));
      } else {
        DrainKeeps(v.pool, Insert, Success);
        DrainServesAll(v.pool, Insert, Success);
      }
    }
  }

  lemma CheckedKeepsInv(v: View, present: bool, answer: seq<byte>)
    requires Inv(v)
    ensures Inv(Checked(v, present, answer))
    ensures Checked(v, present, answer).pool.held == v.pool.held
    ensures !present ==> !Checked(v, present, answer).cardPresent
  {
    if present {
      InsertedKeepsInv(v, answer);
    } else {
      RemovedKeepsInv(v);
    }
  }

  lemma FinishedKeepsInv(v: View, r: Request, status: Status)
    requires Inv(v) && r in v.pool.held
    ensures Inv(Finished(v, r, status))
  {
    FinishKeeps(v.pool, r, status);
  }

  lemma WaitKeepsInv(v: View, e: Event)
    requires Inv(v) && Allowed(v, e) && (e.IsPresent? || e.IsAbsent?)
    ensures Inv(Handled(v, e))
  {
    CheckedKeepsInv(v, e.present, e.answer);
    var u := Checked(v, e.present, e.answer);
    FinishKeeps(u.pool, e.r, Success);
    ParkKeeps(u.pool, e.r, if e.IsPresent? then Insert else Remove);
  }

  lemma CardRequestKeepsInv(v: View, u: View, r: Request, lost: bool, status: Status)
    requires Inv(v) && r in v.pool.held && u.pool == v.pool && u.cardPresent == v.cardPresent
    ensures Inv(Finished(if lost then Removed(u) else u, r, status))
  {
    RemovedKeepsInv(u);
    FinishedKeepsInv(if lost then Removed(u) else u, r, status);
  }

  lemma PowerKeepsInv(v: View, r: Request, code: nat, answer: seq<byte>, outOk: bool)
    requires Inv(v) && r in v.pool.held
    ensures Inv(PowerHandled(v, r, code, answer, outOk))
  {
    CardRequestKeepsInv(v, Powered(v, code), r, true, NoMedia);
    CardRequestKeepsInv(v, Powered(v, code), r, false, Success);
    CardRequestKeepsInv(v, Powered(v, code), r, false, BufferStatus(outOk));
  }

  lemma {:induction false} SetProtocolKeepsInv(v: View, r: Request, requested: nat, answer: seq<byte>)
    requires Inv(v) && r in v.pool.held
    ensures Inv(ProtocolHandled(v, r, requested, answer))
  {
    CardRequestKeepsInv(v, v.(state := Specific), r, true, NoMedia);
    CardRequestKeepsInv(v, v, r, false, Success);
    CardRequestKeepsInv(v, v, r, false, Status.NotSupported);
  }

  lemma TransmitKeepsInv(v: View, r: Request, accepted: bool, apdu: seq<byte>, rapdu: seq<byte>, outOk: bool)
    requires Inv(v) && r in v.pool.held
    ensures Inv(TransmitHandled(v, r, accepted, apdu, rapdu, outOk))
  {
    CardRequestKeepsInv(v, v, r, true, NoMedia);
    CardRequestKeepsInv(v, v, r, false, NoMedia);
    CardRequestKeepsInv(v, v, r, false, InvalidDeviceState);
    CardRequestKeepsInv(v, v, r, false, BufferStatus(outOk));
  }

  lemma ShutKeepsInv(v: View)
    requires Inv(v)
    ensures Inv(Shut(v)) && Shut(v).pool.insert == [] && Shut(v).pool.remove == []
  {
    DrainKeeps(v.pool, Remove, Cancelled);
    DrainServesAll(v.pool, Remove, Cancelled);
    var p := Drain(v.pool, Remove, Cancelled);
    DrainKeeps(p, Insert, Cancelled);
    DrainServesAll(p, Insert, Cancelled);
  }

  lemma {:induction false} EventKeepsInv(v: View, e: Event)
    requires Inv(v) && Allowed(v, e)
    ensures Inv(Handled(v, e))
  {
    match e
    case Deliver(r) => ArriveKeeps(v.pool, r);
    case IsPresent(_, _, _) => WaitKeepsInv(v, e);
    case IsAbsent(_, _, _) => WaitKeepsInv(v, e);
    case Poll(present, answer) => CheckedKeepsInv(v, present, answer);
    case Power(r, code, answer, outOk) => PowerKeepsInv(v, r, code, answer, outOk);
    case SetProtocol(r, requested, answer) => SetProtocolKeepsInv(v, r, requested, answer);
    case Transmit(r, accepted, apdu, rapdu, outOk) => TransmitKeepsInv(v, r, accepted, apdu, rapdu, outOk);
    case CancelIssued(r) => IssueCancelKeeps(v.pool, r);
    case CancelRuns(r) => RunCancelKeeps(v.pool, r);
    case ShutDown => ShutKeepsInv(v);
  }

  /** In every reachable state no request waits for a card that is there, and
      each request is in exactly one place. */
  lemma {:induction false} EventsKeepInv(v: View, events: seq<Event>)
    requires Inv(v) && Possible(v, events)
    ensures Inv(After(v, events))
    decreases |events|
  {
    if events != [] {
      EventKeepsInv(v, events[0]);
      EventsKeepInv(Handled(v, events[0]), events[1..]);
    }
  }

  lemma NobodyWaitsForAPresentCard(events: seq<Event>)
    requires Possible(Start, events)
    ensures var w := After(Start, events);
            (w.cardPresent ==> w.pool.insert == []) && OnePlaceEach(w.pool)
  {
    assert forall x :: Places(Start.pool, x) == 0;
    EventsKeepInv(Start, events);
  }

  // ------------------------------------------------------------------ scans

  /** The event makes the driver read and scan the ATR. */
  predicate Scans(v: View, e: Event)
  {
    ChecksTheCard(e) && e.present && !v.cardPresent && v.pool.insert != []
  }

  lemma DrainCompletes(p: Pool, list: List, status: Status, c: Completion)
    ensures c in Drain(p, list, status).done <==>
            c in p.done || (c.status == status && c.request in Waiting(p, list) && c.request !in p.cancelling)
  {
    DrainServesAll(p, list, status);
    var done := Drain(p, list, status).done;
    assert done == p.done + done[|p.done|..];
  }

  /** Neither a removal nor a shutdown tells an insert waiter of success. */
  lemma DrainsCancelWaiters(v: View, r: Request, status: Status)
    requires Inv(v) && r in v.pool.insert
    ensures Completion(r, Success) !in Drain(Drain(v.pool, Remove, status), Insert, Cancelled).done
  {
    var c := Completion(r, Success);
    var p := Drain(v.pool, Remove, status);
    WaitsOnce(v.pool, r);
    DrainCompletes(v.pool, Remove, status, c);
    DrainCompletes(p, Insert, Cancelled, c);
  }

  lemma WaitsOnce(p: Pool, r: Request)
    requires OnePlaceEach(p) && r in p.insert
    ensures r !in p.remove && r !in p.held && Completion(r, Success) !in p.done
  {
    PlacesExclude(p, r);
    NotDone(p.done, r);
    OccursIfIn(p.insert, r);
    OccursIfIn(p.remove, r);
  }

  lemma CheckSucceeds(v: View, present: bool, answer: seq<byte>, r: Request)
    requires Inv(v) && r in v.pool.insert
    requires Completion(r, Success) in Checked(v, present, answer).pool.done
    ensures present && !v.cardPresent && answer != []
    ensures Checked(v, present, answer).available == Available(Clip(answer))
  {
    WaitsOnce(v.pool, r);
    DrainsCancelWaiters(v, r, Success);
  }

  predicate ChecksTheCard(e: Event)
  {
    e.IsPresent? || e.IsAbsent? || e.Poll?
  }

  /** Without a card a handler that does not check for one only completes its
      request. */
  lemma CardlessHandler(v: View, e: Event) returns (status: Status)
    requires !v.cardPresent && (e.Power? || e.SetProtocol? || e.Transmit?)
    ensures Handled(v, e).pool == Finish(v.pool, e.r, status)
  {
    match e
    case Power(r, code, answer, outOk) =>
      assert !Powered(v, code).cardPresent && Powered(v, code).pool == v.pool;
      status := if code != SCARD_COLD_RESET && code != SCARD_WARM_RESET then Success
                else if answer == [] then NoMedia else BufferStatus(outOk);
    case SetProtocol(r, requested, answer) =>
      status := if answer == [] then NoMedia
                else if Choose(requested, v.available).Chosen? then Success else Status.NotSupported;
    case Transmit(r, accepted, apdu, rapdu, outOk) =>
      status := if !accepted then InvalidDeviceState
                else if apdu == [] || rapdu == [] then NoMedia else BufferStatus(outOk);
  }

  lemma OthersDoNotSucceed(v: View, e: Event, r: Request)
    requires Inv(v) && Allowed(v, e) && r in v.pool.insert && !ChecksTheCard(e)
    ensures Completion(r, Success) !in Handled(v, e).pool.done
  {
    WaitsOnce(v.pool, r);
    if e.ShutDown? {
      DrainsCancelWaiters(v, r, Cancelled);
    } else if e.Power? || e.SetProtocol? || e.Transmit? {
      var status := CardlessHandler(v, e);
      assert e.r != r;
    }
  }

  lemma CheckComesFirst(v: View, e: Event, r: Request)
    requires Inv(v) && Allowed(v, e) && r in v.pool.insert && ChecksTheCard(e)
    requires Completion(r, Success) in Handled(v, e).pool.done
    ensures Completion(r, Success) in Checked(v, e.present, e.answer).pool.done
    ensures Handled(v, e).available == Checked(v, e.present, e.answer).available
  {
    WaitsOnce(v.pool, r);
  }

  /** Of the requests waiting for a card, those an event completes get SUCCESS
      only after a successful scan, whose result is in place. */
  lemma SuccessNeedsAScan(v: View, e: Event, r: Request)
    requires Inv(v) && Allowed(v, e) && r in v.pool.insert
    requires Completion(r, Success) in Handled(v, e).pool.done
    ensures Scans(v, e) && e.answer != [] && Handled(v, e).available == Available(Clip(e.answer))
  {
    if ChecksTheCard(e) {
      CheckComesFirst(v, e, r);
      CheckSucceeds(v, e.present, e.answer, r);
    } else {
      OthersDoNotSucceed(v, e, r);
    }
  }

  /** The event makes the driver believe that its card is gone. */
  predicate Loses(v: View, e: Event)
  {
    v.cardPresent &&
    match e
    case IsPresent(_, present, _) => !present
    case IsAbsent(_, present, _) => !present
    case Poll(present, _) => !present
    case Power(_, code, answer, _) => (code == 1 || code == 2) && answer == []
    case SetProtocol(_, _, answer) => answer == []
    case Transmit(_, accepted, apdu, rapdu, _) => accepted && apdu != [] && rapdu == []
    case _ => false
  }

  lemma InsertionServes(v: View, answer: seq<byte>, r: Request)
    requires Inv(v) && !v.cardPresent && r in v.pool.insert && r !in v.pool.cancelling
    ensures var w := Inserted(v, answer);
            && Completion(r, if answer == [] then Cancelled else Success) in w.pool.done
            && w.state == (if answer == [] then Absent else Swallowed)
  {
    if answer == [] {
      RemovalServes(v.(cardPresent := true, available := 0), r);
    } else {
      DrainCompletes(v.pool, Insert, Success, Completion(r, Success));
    }
  }

  lemma RemovalServes(v: View, r: Request)
    requires v.cardPresent && Parked(v.pool, r) && r !in v.pool.cancelling
    ensures var w := Removed(v);
            && (r in v.pool.remove ==> Completion(r, Success) in w.pool.done)
            && (r in v.pool.insert ==> Completion(r, Cancelled) in w.pool.done)
            && w.state == Absent
  {
    var p := Drain(v.pool, Remove, Success);
    DrainEmpties(v.pool, Remove, Success);
    DrainCompletes(v.pool, Remove, Success, Completion(r, Success));
    DrainCompletes(p, Insert, Cancelled, Completion(r, Success));
    DrainCompletes(p, Insert, Cancelled, Completion(r, Cancelled));
  }

  /** A card that arrives while requests wait for it completes each of them that
      is not being cancelled: with SUCCESS if its ATR can be read, and with
      CANCELLED if not. */
  lemma ScanServesTheWaiters(v: View, e: Event, r: Request)
    requires Inv(v) && Allowed(v, e) && Scans(v, e)
    requires r in v.pool.insert && r !in v.pool.cancelling
    ensures var w := Handled(v, e);
            && Completion(r, if e.answer == [] then Cancelled else Success) in w.pool.done
            && w.state == (if e.answer == [] then Absent else Swallowed)
            && (w.cardPresent <==> e.answer != [])
  {
    InsertionServes(v, e.answer, r);
  }

  /** A card that is lost, noticed by whatever event, completes each request that
      waits for that and is not being cancelled with SUCCESS. */
  lemma RemovalServesTheWaiters(v: View, e: Event, r: Request)
    requires Inv(v) && Allowed(v, e) && Loses(v, e)
    requires r in v.pool.remove && r !in v.pool.cancelling
    ensures Completion(r, Success) in Handled(v, e).pool.done
  {
    match e
    case Power(_, code, _, _) => RemovalServes(Powered(v, code), r);
    case SetProtocol(_, _, _) => RemovalServes(v.(state := Specific), r);
    case _ => RemovalServes(v, r);
  }

  lemma ChecksTrackTheCard(v: View, e: Event)
    requires ChecksTheCard(e)
    ensures Handled(v, e).cardPresent <==> e.present && !(Scans(v, e) && e.answer == [])
    ensures Loses(v, e) ==> Handled(v, e).state == Absent
  {
  }

  /** Whether the driver believes a card to be there, after any event: it has
      seen it at the last check, could read its ATR if somebody waited, and has
      not lost it since.  Losing it leaves the reader absent. */
  lemma CardIsTracked(v: View, e: Event)
    ensures Handled(v, e).cardPresent <==>
              if ChecksTheCard(e) then e.present && !(Scans(v, e) && e.answer == [])
              else v.cardPresent && !Loses(v, e)
    ensures Loses(v, e) ==> Handled(v, e).state == Absent
  {
    if ChecksTheCard(e) {
      ChecksTrackTheCard(v, e);
    }
  }

  /** What a handler does with its own request: it completes it last and with
      this status, or (None) parks it on the list of the card event it asks for. */
  predicate Answers(w: View, r: Request, status: Option<Status>, list: List)
  {
    match status
    case Some(s) => w.pool.done != [] && w.pool.done[|w.pool.done| - 1] == Completion(r, s)
    case None => Waiting(w.pool, list) != [] && Waiting(w.pool, list)[|Waiting(w.pool, list)| - 1] == r
  }

  /** Every handler answers its own request: IS_PRESENT and IS_ABSENT with
      SUCCESS if what they ask for is so and by waiting for it if not; the
      others at once, with an error exactly if the card does not answer, the
      protocol is not on offer, or a buffer is missing.  The cancel callback
      answers the request it is called for. */
  lemma HandlersAnswerTheirRequest(v: View, e: Event)
    ensures var w := Handled(v, e);
            match e
            case IsPresent(r, present, _) => Answers(w, r, if present then Some(Success) else None, Insert)
            case IsAbsent(r, present, _) => Answers(w, r, if present then None else Some(Success), Remove)
            case Power(r, code, answer, outOk) =>
              var reset := code == 1 || code == 2;
              Answers(w, r, Some(if reset && answer == [] then NoMedia
                                 else if reset && !outOk then BufferError else Success), Insert)
            case SetProtocol(r, requested, answer) =>
              Answers(w, r, Some(if answer == [] then NoMedia
                                 else if Choose(requested, v.available).Chosen? then Success
                                 else Status.NotSupported), Insert)
            case Transmit(r, accepted, apdu, rapdu, outOk) =>
              Answers(w, r, Some(if !accepted then InvalidDeviceState
                                 else if apdu == [] || rapdu == [] then NoMedia
                                 else if !outOk then BufferError else Success), Insert)
            case CancelRuns(r) => Answers(w, r, Some(Cancelled), Insert)
            case Deliver(r) => r in w.pool.held && r in w.pool.arrived
            case CancelIssued(r) => r in w.pool.cancelling
            case _ => true
  {
  }

  /** The state that IOCTL_SMARTCARD_GET_STATE reports after each event that
      does not lose the card, and the fields that go with it. */
  lemma StateFollows(v: View, e: Event)
    requires !Loses(v, e) && (ChecksTheCard(e) && Scans(v, e) ==> e.answer != [])
    ensures var w := Handled(v, e);
            w.state ==
              match e
              case Power(_, code, _, _) =>
                if code == 1 || code == 2 then Negotiable else if code == 0 then Swallowed else v.state
              case SetProtocol(_, requested, answer) =>
                if answer != [] && Choose(requested, v.available).NotSupported? then Negotiable else Specific
              case ShutDown => Absent
              case _ => if Scans(v, e) then Swallowed else v.state
    ensures e.Power? ==>
              var w := Handled(v, e);
              && (w.powered <==> if e.code <= 2 then e.code != 0 else v.powered)
              && w.protocol == if e.code <= 2 then 0 else v.protocol
  {
  }

  /** A shutdown cancels whoever waits and is not being cancelled already. */
  lemma ShutdownCancelsTheWaiters(v: View, r: Request)
    requires Inv(v) && Parked(v.pool, r) && r !in v.pool.cancelling
    ensures Completion(r, Cancelled) in Handled(v, ShutDown).pool.done && !Parked(Handled(v, ShutDown).pool, r)
  {
    var p := Drain(v.pool, Remove, Cancelled);
    DrainEmpties(v.pool, Remove, Cancelled);
    DrainEmpties(p, Insert, Cancelled);
    DrainCompletes(v.pool, Remove, Cancelled, Completion(r, Cancelled));
    DrainCompletes(p, Insert, Cancelled, Completion(r, Cancelled));
  }

  lemma {:induction false} NotDone(done: seq<Completion>, r: Request)
    requires r !in Completed(done)
    ensures forall c :: c in done ==> c.request != r
  {
    if done != [] {
      NotDone(done[..|done| - 1], r);
      assert done == done[..|done| - 1] + [done[|done| - 1]];
    }
  }

  /** The answers the driver got for the scans of a run, in order. */
  function ScanAnswers(v: View, events: seq<Event>): (answers: seq<seq<byte>>)
    decreases |events|
  {
    if events == [] then []
    else (if Scans(v, events[0]) then [events[0].answer] else []) + ScanAnswers(Handled(v, events[0]), events[1..])
  }

  function ScanResult(answer: seq<byte>): (available: nat)
  {
    if answer == [] then 0 else Available(Clip(answer))
  }

  lemma OneEventDecides(v: View, e: Event)
    ensures Handled(v, e).available == if Scans(v, e) then ScanResult(e.answer) else v.available
  {
  }

  /** Nothing but the last scan decides which protocols are on offer. */
  lemma {:induction false} LastScanDecides(v: View, events: seq<Event>)
    ensures var answers := ScanAnswers(v, events);
            After(v, events).available == if answers == [] then v.available else ScanResult(answers[|answers| - 1])
    decreases |events|
  {
    if events != [] {
      OneEventDecides(v, events[0]);
      LastScanDecides(Handled(v, events[0]), events[1..]);
    }
  }

  /** SET_PROTOCOL in any run whose last scan succeeded, while the ATR can be
      read: it succeeds exactly when a requested (or, with the default flag,
      any) one of T=0 and T=1 is on offer in the ATR scanned; then it selects
      one that is, T=1 if that was requested; otherwise the reader is left
      negotiable. */
  lemma SetProtocolFollowsTheScan(events: seq<Event>, atr: seq<byte>, r: Request, requested: nat, answer: seq<byte>)
    requires atr != [] && answer != []
    requires var answers := ScanAnswers(Start, events); answers != [] && answers[|answers| - 1] == atr
    ensures var w := ProtocolHandled(After(Start, events), r, requested, answer);
            var c := w.pool.done[|w.pool.done| - 1];
            var read := if |atr| <= 100 then atr else atr[..100];
            && c.request == r && (c.status == Success || c.status == Status.NotSupported)
            && (c.status == Success <==>
                  exists k | 0 <= k <= 1 :: OnOffer(read, k) && (Bit(requested, k) || Bit(requested, 31)))
            && (c.status == Success ==>
                  || (w.protocol == 2 && OnOffer(read, 1))
                  || (w.protocol == 1 && OnOffer(read, 0) && !(Bit(requested, 1) && OnOffer(read, 1))))
            && (c.status != Success ==> w.state == Negotiable)
  {
    LastScanDecides(Start, events);
    ChoiceIsOffered(Clip(atr), requested);
  }
}

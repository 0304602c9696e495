/** One reader of the driver under every interleaving of IOCTL dispatch, card
    events, cancellation and shutdown (device.cpp:262-404). */
module Dispatch {
  import opened Basics
  import opened Requests

  /** `Gone`: the reader is deleted and its slot is null. */
  datatype Phase = Open | DrainingRemove | DrainingInsert | Gone

  /** Only the handlers of IS_PRESENT and IS_ABSENT ever park a request. */
  datatype Ioctl = IsPresent | IsAbsent | Other

  /** `inside`: requests whose handler has passed the null test of the slot and
      will complete or park its request later.  `found`: what CheckATR has told
      a handler, once it has.  `outlives`: the back end can still find a card
      after its shutdown has begun, as over the pipe and the socket that TcpIp
      and Pipe readers keep, but not after vicc_exit. */
  datatype Driver = Driver(
    pool: Pool, ioctls: map<Request, Ioctl>, inside: set<Request>, found: map<Request, bool>,
    phase: Phase, outlives: bool)

  datatype Step =
    | Deliver(r: Request, ioctl: Ioctl)
    | Enter(r: Request)
    | Refuse(r: Request)
    | Check(r: Request, card: bool)
    | Complete(r: Request, status: Status)
    | Wait(r: Request, list: List)
    | CardEvent(list: List, status: Status)
    | CancelIssued(r: Request)
    | CancelRuns(r: Request)
    | ShutdownBegins
    | ShutdownPops
    | ShutdownListEmpty

  function Fresh(outlives: bool): (d: Driver)
  {
    Driver(Pool({}, {}, [], [], {}, []), map[], {}, map[], Open, outlives)
  }

  function Draining(d: Driver): (list: List)
  {
    if d.phase == DrainingRemove then Remove else Insert
  }

  predicate ShuttingDown(d: Driver)
  {
    d.phase == DrainingRemove || d.phase == DrainingInsert
  }

  function IoctlOf(d: Driver, r: Request): (ioctl: Ioctl)
  {
    if r in d.ioctls then d.ioctls[r] else Other
  }

  /** The list on which a handler parks a request for which it found this. */
  function ListFor(ioctl: Ioctl, card: bool): (list: Option<List>)
  {
    match ioctl
    case IsPresent => if card then None else Some(Insert)
    case IsAbsent => if card then Some(Remove) else None
    case Other => None
  }

  predicate Enabled(d: Driver, step: Step)
  {
    match step
    case Deliver(r, _) => r !in d.pool.arrived
    case Enter(r) => r in d.pool.held && r !in d.inside && d.phase != Gone
    case Refuse(r) => r in d.pool.held && r !in d.inside && d.phase == Gone
    case Check(r, card) =>
      r in d.inside && IoctlOf(d, r) != Other && r !in d.found && (card ==> d.phase == Open || d.outlives)
    case Complete(r, status) =>
      r in d.inside &&
      (IoctlOf(d, r) != Other ==> r in d.found && ListFor(IoctlOf(d, r), d.found[r]) == None && status == Success)
    case Wait(r, list) => r in d.inside && r in d.found && ListFor(IoctlOf(d, r), d.found[r]) == Some(list)
    case CardEvent(list, _) => d.phase != Gone && Waiting(d.pool, list) != []
    case CancelIssued(r) => Parked(d.pool, r) && r !in d.pool.cancelling
    case CancelRuns(r) => r in d.pool.cancelling
    case ShutdownBegins => d.phase == Open
    case ShutdownPops => ShuttingDown(d) && Waiting(d.pool, Draining(d)) != []
    case ShutdownListEmpty => ShuttingDown(d) && Waiting(d.pool, Draining(d)) == []
  }

  function Next(d: Driver, step: Step): (e: Driver)
    requires Enabled(d, step)
  {
    match step
    case Deliver(r, ioctl) => d.(pool := Arrive(d.pool, r), ioctls := d.ioctls[r := ioctl])
    case Enter(r) => d.(inside := d.inside + {r})
    case Refuse(r) => d.(pool := Finish(d.pool, r, InvalidDeviceState))
    case Check(r, card) => d.(found := d.found[r := card])
    case Complete(r, status) => d.(inside := d.inside - {r}, pool := Finish(d.pool, r, status))
    case Wait(r, list) => d.(inside := d.inside - {r}, pool := Park(d.pool, r, list))
    case CardEvent(list, status) => d.(pool := Pop(d.pool, list, status))
    case CancelIssued(r) => d.(pool := IssueCancel(d.pool, r))
    case CancelRuns(r) => d.(pool := RunCancel(d.pool, r))
    case ShutdownBegins => d.(phase := DrainingRemove)
    case ShutdownPops => d.(pool := Pop(d.pool, Draining(d), Cancelled))
    case ShutdownListEmpty => d.(phase := if d.phase == DrainingRemove then DrainingInsert else Gone)
  }

  predicate Possible(d: Driver, steps: seq<Step>)
    decreases |steps|
  {
    steps == [] || (Enabled(d, steps[0]) && Possible(Next(d, steps[0]), steps[1..]))
  }

  function After(d: Driver, steps: seq<Step>): (e: Driver)
    requires Possible(d, steps)
    decreases |steps|
  {
    if steps == [] then d else After(Next(d, steps[0]), steps[1..])
  }

  lemma OneStep(d: Driver, step: Step, rest: seq<Step>)
    requires Enabled(d, step) && Possible(Next(d, step), rest)
    ensures Possible(d, [step] + rest) && After(d, [step] + rest) == After(Next(d, step), rest)
  {
    assert ([step] + rest)[1..] == rest;
  }

  predicate Shape(d: Driver)
  {
    && d.inside <= d.pool.held && d.ioctls.Keys <= d.pool.arrived && d.found.Keys <= d.pool.arrived
    && forall r :: r in d.found && r in d.pool.held ==> r in d.inside
  }

  ghost predicate Inv(d: Driver)
  {
    OnePlaceEach(d.pool) && Shape(d)
  }

  lemma StepKeepsPlaces(d: Driver, step: Step)
    requires Inv(d) && Enabled(d, step)
    ensures OnePlaceEach(Next(d, step).pool)
  {
    match step
    case Deliver(r, _) => ArriveKeeps(d.pool, r);
    case Enter(_) =>
    case Check(_, _) =>
    case Refuse(r) => FinishKeeps(d.pool, r, InvalidDeviceState);
    case Complete(r, status) => FinishKeeps(d.pool, r, status);
    case Wait(r, list) => ParkKeeps(d.pool, r, list);
    case CardEvent(list, status) => PopKeeps(d.pool, list, status);
    case CancelIssued(r) => IssueCancelKeeps(d.pool, r);
    case CancelRuns(r) => RunCancelKeeps(d.pool, r);
    case ShutdownBegins =>
    case ShutdownPops => PopKeeps(d.pool, Draining(d), Cancelled);
    case ShutdownListEmpty =>
  }

  lemma HeldArrived(p: Pool)
    requires OnePlaceEach(p)
    ensures p.held <= p.arrived
  {
    forall r | r in p.held ensures r in p.arrived {
      PlacesExclude(p, r);
    }
  }

  lemma StepKeepsShape(d: Driver, step: Step)
    requires Shape(d) && d.pool.held <= d.pool.arrived && Enabled(d, step)
    ensures Shape(Next(d, step)) && d.pool.done <= Next(d, step).pool.done
  {
  }

  lemma StepKeepsInv(d: Driver, step: Step)
    requires Inv(d) && Enabled(d, step)
    ensures Inv(Next(d, step))
    ensures d.pool.done <= Next(d, step).pool.done
  {
    HeldArrived(d.pool);
    StepKeepsPlaces(d, step);
    StepKeepsShape(d, step);
  }

  lemma {:induction false} RunKeepsInv(d: Driver, steps: seq<Step>)
    requires Inv(d) && Possible(d, steps)
    ensures Inv(After(d, steps))
    ensures d.pool.done <= After(d, steps).pool.done
    decreases |steps|
  {
    if steps != [] {
      StepKeepsInv(d, steps[0]);
      RunKeepsInv(Next(d, steps[0]), steps[1..]);
    }
  }

  /** In every interleaving each request that ever arrived is in exactly one
      place, and none is completed twice. */
  lemma EveryRequestHasOnePlace(outlives: bool, steps: seq<Step>, r: Request)
    requires Possible(Fresh(outlives), steps)
    ensures var p := After(Fresh(outlives), steps).pool;
            && Places(p, r) == (if r in p.arrived then 1 else 0)
            && Occurs(Completed(p.done), r) <= 1
  {
    assert forall x :: Places(Fresh(outlives).pool, x) == 0;
    RunKeepsInv(Fresh(outlives), steps);
  }

  /** A request whose handler has not yet passed the null test is let in exactly
      while the reader is there, and afterwards completed with an error. */
  lemma NewcomersPassExactlyIf(d: Driver, r: Request)
    requires r in d.pool.held && r !in d.inside
    ensures Enabled(d, Enter(r)) <==> d.phase != Gone
    ensures Enabled(d, Refuse(r)) <==> d.phase == Gone
    ensures d.phase == Gone ==>
              var p := Next(d, Refuse(r)).pool;
              r !in p.held && p.done == d.pool.done + [Completion(r, InvalidDeviceState)]
  {
  }

  // ------------------------------------------------------------------ shutdown

  predicate NobodyEnters(steps: seq<Step>)
  {
    forall step :: step in steps ==> !step.Enter?
  }

  predicate DrainedSoFar(d: Driver)
  {
    && (d.phase == DrainingInsert || d.phase == Gone ==> d.pool.remove == [])
    && (d.phase == Gone ==> d.pool.insert == [])
  }

  /** The handler of r is inside and may yet park it: it is told, or has been,
      what its IOCTL waits for a change of. */
  predicate MayPark(d: Driver, r: Request)
  {
    r in d.inside &&
    match IoctlOf(d, r)
    case IsPresent => r in d.found ==> !d.found[r]
    case IsAbsent => if r in d.found then d.found[r] else d.phase == Open || d.outlives
    case Other => false
  }

  ghost predicate NobodyParks(d: Driver)
  {
    forall r :: !MayPark(d, r)
  }

  lemma SameHandlers(d: Driver, e: Driver, r: Request)
    requires e.inside <= d.inside && e.ioctls == d.ioctls && e.found == d.found && e.outlives == d.outlives
    requires e.phase == d.phase || e.phase != Open
    ensures MayPark(e, r) ==> MayPark(d, r)
  {
  }

  lemma UnableWhenDelivered(d: Driver, x: Request, ioctl: Ioctl, r: Request)
    requires Inv(d) && x !in d.pool.arrived && !MayPark(d, r)
    ensures !MayPark(Next(d, Deliver(x, ioctl)), r)
  {
    HeldArrived(d.pool);
    assert x !in d.inside;
  }

  lemma UnableWhenTold(d: Driver, x: Request, card: bool, r: Request)
    requires Enabled(d, Check(x, card)) && !MayPark(d, r)
    ensures !MayPark(Next(d, Check(x, card)), r)
  {
  }

  lemma OthersLeaveHandlers(d: Driver, step: Step)
    requires Enabled(d, step) && !step.Enter? && !step.Deliver? && !step.Check?
    ensures var e := Next(d, step);
            && e.inside <= d.inside && e.ioctls == d.ioctls && e.found == d.found && e.outlives == d.outlives
            && (e.phase == d.phase || e.phase != Open)
  {
  }

  lemma StaysUnable(d: Driver, step: Step, r: Request)
    requires Inv(d) && Enabled(d, step) && !step.Enter? && !MayPark(d, r)
    ensures !MayPark(Next(d, step), r)
  {
    if step.Deliver? {
      UnableWhenDelivered(d, step.r, step.ioctl, r);
    } else if step.Check? {
      UnableWhenTold(d, step.r, step.card, r);
    } else {
      OthersLeaveHandlers(d, step);
      SameHandlers(d, Next(d, step), r);
    }
  }

  lemma {:induction false} QuietStep(d: Driver, step: Step)
    requires Inv(d) && Enabled(d, step) && NobodyParks(d) && DrainedSoFar(d) && !step.Enter?
    ensures NobodyParks(Next(d, step)) && DrainedSoFar(Next(d, step))
    ensures d.phase == Gone ==> Next(d, step).phase == Gone
  {
    forall r ensures !MayPark(Next(d, step), r) {
      StaysUnable(d, step, r);
    }
    assert step.Wait? ==> MayPark(d, step.r);
  }

  /** A shutdown during which no handler may park, and none enters, deletes the
      reader with both lists empty, whatever else happens meanwhile. */
  lemma {:induction false} QuietShutdownStrandsNobody(d: Driver, steps: seq<Step>)
    requires Inv(d) && NobodyParks(d) && DrainedSoFar(d)
    requires Possible(d, steps) && NobodyEnters(steps)
    ensures NobodyParks(After(d, steps)) && DrainedSoFar(After(d, steps))
    decreases |steps|
  {
    if steps != [] {
      QuietStep(d, steps[0]);
      StepKeepsInv(d, steps[0]);
      QuietShutdownStrandsNobody(Next(d, steps[0]), steps[1..]);
    }
  }

  /** The reader is deleted with r parked on it, where nothing but a
      cancellation completes it, although no handler enters any more. */
  predicate Strands(d: Driver, steps: seq<Step>, r: Request)
  {
    Possible(d, steps) && NobodyEnters(steps) && After(d, steps).phase == Gone && Parked(After(d, steps).pool, r)
  }

  ghost predicate CanStrand(d: Driver)
  {
    exists steps, r :: Strands(d, steps, r)
  }

  lemma ParkedAtLast(d: Driver, r: Request, list: List)
    requires Enabled(d, Wait(r, list)) && d.phase == Gone
    ensures Strands(d, [Wait(r, list)], r)
  {
    var e := Next(d, Wait(r, list));
    assert Waiting(e.pool, list)[|Waiting(d.pool, list)|] == r;
    assert Possible(e, []) && After(e, []) == e;
    OneStep(d, Wait(r, list), []);
    assert [Wait(r, list)] + [] == [Wait(r, list)];
  }

  /** The drains go on to their end, and then the handler parks its request. */
  lemma {:induction false} HandlerComesLate(d: Driver, r: Request) returns (steps: seq<Step>)
    requires d.phase != Open && MayPark(d, r)
    ensures Strands(d, steps, r)
    decreases r !in d.found,
              if d.phase == DrainingRemove then 2 else if d.phase == DrainingInsert then 1 else 0,
              |Waiting(d.pool, Draining(d))|
  {
    if d.phase == Gone && r in d.found {
      var list := ListFor(IoctlOf(d, r), d.found[r]).value;
      ParkedAtLast(d, r, list);
      steps := [Wait(r, list)];
    } else {
      var step := if r !in d.found then Check(r, IoctlOf(d, r) == IsAbsent)
                  else if Waiting(d.pool, Draining(d)) == [] then ShutdownListEmpty
                  else ShutdownPops;
      steps := HandlerComesLate(Next(d, step), r);
      OneStep(d, step, steps);
      steps := [step] + steps;
    }
  }

  /** From the moment a shutdown begins: it can leave a request parked on the
      deleted reader exactly if some handler is inside then that may park: that
      of an IS_PRESENT which has not found a card, or of an IS_ABSENT which has
      found one or still can. */
  lemma ShutdownStrandsExactlyIf(d: Driver)
    requires Inv(d) && d.phase == DrainingRemove
    ensures CanStrand(d) <==> exists r :: MayPark(d, r)
  {
    if r :| MayPark(d, r) {
      var steps := HandlerComesLate(d, r);
    } else {
      forall steps, r | Possible(d, steps) && NobodyEnters(steps) && After(d, steps).phase == Gone
        ensures !Parked(After(d, steps).pool, r)
      {
        QuietShutdownStrandsNobody(d, steps);
      }
    }
  }

  /** A handler of another IOCTL, of whatever number inside, strands nothing. */
  lemma OtherHandlersStrandNothing(d: Driver)
    requires Inv(d) && d.phase == DrainingRemove
    requires forall r :: r in d.inside ==> IoctlOf(d, r) == Other
    ensures !CanStrand(d)
  {
    ShutdownStrandsExactlyIf(d);
  }

  /** Once the reader is deleted a request can be parked on it, now or later,
      exactly if one is already or some handler inside may park. */
  lemma DeletedReaderStrandsExactlyIf(d: Driver)
    requires Inv(d) && d.phase == Gone
    ensures CanStrand(d) <==> (exists r :: MayPark(d, r)) || d.pool.insert != [] || d.pool.remove != []
  {
    if r :| MayPark(d, r) {
      var steps := HandlerComesLate(d, r);
    } else if d.pool.insert != [] || d.pool.remove != [] {
      assert Strands(d, [], if d.pool.insert != [] then d.pool.insert[0] else d.pool.remove[0]);
    } else {
      forall steps, r | Possible(d, steps) && NobodyEnters(steps)
        ensures After(d, steps).phase == Gone ==> !Parked(After(d, steps).pool, r)
      {
        QuietShutdownStrandsNobody(d, steps);
      }
    }
  }

  // ------------------------------------------------------------------ too late

  lemma PopParksNothing(p: Pool, list: List, status: Status, r: Request)
    requires Waiting(p, list) != [] && Parked(Pop(p, list, status), r)
    ensures Parked(p, r)
  {
  }

  lemma RunCancelParksNothing(p: Pool, x: Request, r: Request)
    requires Parked(RunCancel(p, x), r)
    ensures Parked(p, r)
  {
    EraseTakesOne(p.insert, x, r);
    EraseTakesOne(p.remove, x, r);
    OccursIfIn(p.insert, r);
    OccursIfIn(p.remove, r);
    OccursIfIn(Erase(p.insert, x), r);
    OccursIfIn(Erase(p.remove, x), r);
  }

  lemma UnparkedStays(d: Driver, step: Step, r: Request)
    requires Enabled(d, step) && !MayPark(d, r) && Parked(Next(d, step).pool, r)
    ensures Parked(d.pool, r)
  {
    match step
    case CardEvent(list, status) => PopParksNothing(d.pool, list, status, r);
    case ShutdownPops => PopParksNothing(d.pool, Draining(d), Cancelled, r);
    case CancelRuns(x) => RunCancelParksNothing(d.pool, x, r);
    case Wait(x, list) => assert MayPark(d, x);
    case _ =>
  }

  lemma {:induction false} UnableIsNeverParked(d: Driver, steps: seq<Step>, r: Request)
    requires Inv(d) && !MayPark(d, r) && !Parked(d.pool, r)
    requires Possible(d, steps) && NobodyEnters(steps)
    ensures !Parked(After(d, steps).pool, r)
    decreases |steps|
  {
    if steps != [] {
      StaysUnable(d, steps[0], r);
      if Parked(Next(d, steps[0]).pool, r) {
        UnparkedStays(d, steps[0], r);
      }
      StepKeepsInv(d, steps[0]);
      UnableIsNeverParked(Next(d, steps[0]), steps[1..], r);
    }
  }

  /** A handler that passes the null test while the lists are being drained can
      leave its request on the deleted reader exactly if it is that of an
      IS_PRESENT, or of an IS_ABSENT whose back end still finds its card. */
  lemma EnteringIsTooLateExactlyIf(d: Driver, r: Request)
    requires Inv(d) && ShuttingDown(d) && Enabled(d, Enter(r))
    ensures (exists steps :: Strands(Next(d, Enter(r)), steps, r))
            <==> IoctlOf(d, r) == IsPresent || (IoctlOf(d, r) == IsAbsent && d.outlives)
  {
    var e := Next(d, Enter(r));
    StepKeepsInv(d, Enter(r));
    assert IoctlOf(e, r) == IoctlOf(d, r);
    if MayPark(e, r) {
      var steps := HandlerComesLate(e, r);
    } else {
      PlacesExclude(d.pool, r);
      forall steps | Possible(e, steps) && NobodyEnters(steps) ensures !Parked(After(e, steps).pool, r) {
        UnableIsNeverParked(e, steps, r);
      }
    }
  }

  lemma ThreeSteps(d: Driver, a: Step, b: Step, c: Step, rest: seq<Step>)
    requires Enabled(d, a) && Enabled(Next(d, a), b) && Enabled(Next(Next(d, a), b), c)
    requires Possible(Next(Next(Next(d, a), b), c), rest)
    ensures Possible(d, [a, b, c] + rest)
    ensures After(d, [a, b, c] + rest) == After(Next(Next(Next(d, a), b), c), rest)
  {
    OneStep(Next(Next(d, a), b), c, rest);
    OneStep(Next(d, a), b, [c] + rest);
    OneStep(d, a, [b] + ([c] + rest));
    assert [a, b, c] + rest == [a] + ([b] + ([c] + rest));
  }

  lemma RemovalWaiterInside(outlives: bool, r: Request)
    ensures var (a, b, c) := (Deliver(r, IsAbsent), Enter(r), Check(r, true));
            var d := Fresh(outlives);
            Enabled(d, a) && Enabled(Next(d, a), b) && Enabled(Next(Next(d, a), b), c)
            && Next(Next(Next(d, a), b), c)
               == Driver(Pool({r}, {r}, [], [], {}, []), map[r := IsAbsent], {r}, map[r := true], Open, outlives)
  {
  }

  lemma ParkedBetweenDrains(d: Driver, r: Request)
    requires d.phase == DrainingRemove && d.pool.remove == [] && d.pool.insert == [] && d.inside == {r}
    requires r in d.found && d.found[r] && IoctlOf(d, r) == IsAbsent
    ensures var steps := [ShutdownListEmpty, Wait(r, Remove), ShutdownListEmpty] + [];
            Possible(d, steps) &&
            var e := After(d, steps); e.phase == Gone && e.inside == {} && e.pool.remove == [r]
  {
    var e := Next(Next(Next(d, ShutdownListEmpty), Wait(r, Remove)), ShutdownListEmpty);
    assert Possible(e, []) && After(e, []) == e;
    ThreeSteps(d, ShutdownListEmpty, Wait(r, Remove), ShutdownListEmpty, []);
    assert d.inside - {r} == {};
  }

  /** A removal waiter that comes between the two drains, over any back end:
      nobody is inside when the reader is deleted, and the request is parked
      on it. */
  lemma LateWaiterHappens(outlives: bool, r: Request) returns (steps: seq<Step>)
    ensures Possible(Fresh(outlives), steps)
    ensures var d := After(Fresh(outlives), steps); d.phase == Gone && d.inside == {} && d.pool.remove == [r]
  {
    RemovalWaiterInside(outlives, r);
    var d := Driver(Pool({r}, {r}, [], [], {}, []), map[r := IsAbsent], {r}, map[r := true], Open, outlives);
    var e := Next(d, ShutdownBegins);
    ParkedBetweenDrains(e, r);
    steps := [ShutdownListEmpty, Wait(r, Remove), ShutdownListEmpty] + [];
    OneStep(d, ShutdownBegins, steps);
    steps := [ShutdownBegins] + steps;
    ThreeSteps(Fresh(outlives), Deliver(r, IsAbsent), Enter(r), Check(r, true), steps);
    steps := [Deliver(r, IsAbsent), Enter(r), Check(r, true)] + steps;
  }
}

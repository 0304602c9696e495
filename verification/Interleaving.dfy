/** The handlers that the vpcd back end is taken to run atomically are runs of
    the interleaved driver: each enters, checks for a card, completes waiters one
    locked block at a time, and answers or parks its own request. */
module Interleaving {
  import opened Basics
  import opened Bytes
  import opened Requests
  import opened VpcdReader
  import D = Dispatch
  import R = ReaderRuns

  lemma {:induction false} OneAfterTheOther(d: D.Driver, a: seq<D.Step>, b: seq<D.Step>)
    requires D.Possible(d, a) && D.Possible(D.After(d, a), b)
    ensures D.Possible(d, a + b) && D.After(d, a + b) == D.After(D.After(d, a), b)
    decreases |a|
  {
    if a == [] {
      assert a + b == b;
    } else {
      OneAfterTheOther(D.Next(d, a[0]), a[1..], b);
      D.OneStep(d, a[0], a[1..] + b);
      assert a + b == [a[0]] + (a[1..] + b);
    }
  }

  /** The steps lead to this state. */
  predicate Leads(d: D.Driver, steps: seq<D.Step>, e: D.Driver)
  {
    D.Possible(d, steps) && D.After(d, steps) == e
  }

  lemma Alone(d: D.Driver, step: D.Step)
    requires D.Enabled(d, step)
    ensures Leads(d, [step], D.Next(d, step))
  {
    D.OneStep(d, step, []);
    assert [step] + [] == [step];
  }

  lemma Then(d: D.Driver, a: seq<D.Step>, e: D.Driver, b: seq<D.Step>, f: D.Driver)
    requires Leads(d, a, e) && Leads(e, b, f)
    ensures Leads(d, a + b, f)
  {
    OneAfterTheOther(d, a, b);
  }

  // ------------------------------------------------------------------ card events

  lemma {:induction false} DrainIsARun(d: D.Driver, list: List, status: Status) returns (steps: seq<D.Step>)
    requires d.phase != D.Gone
    ensures Leads(d, steps, d.(pool := Drain(d.pool, list, status)))
    decreases |Waiting(d.pool, list)|
  {
    steps := [];
    if Waiting(d.pool, list) != [] {
      steps := DrainIsARun(d.(pool := Pop(d.pool, list, status)), list, status);
      D.OneStep(d, D.CardEvent(list, status), steps);
      steps := [D.CardEvent(list, status)] + steps;
    }
  }

  lemma RemovalIsARun(d: D.Driver, v: View) returns (steps: seq<D.Step>)
    requires d.phase != D.Gone && d.pool == v.pool
    ensures Leads(d, steps, d.(pool := Removed(v).pool))
  {
    steps := [];
    if v.cardPresent {
      var mid := d.(pool := Drain(d.pool, Remove, Success));
      var first := DrainIsARun(d, Remove, Success);
      var second := DrainIsARun(mid, Insert, Cancelled);
      Then(d, first, mid, second, d.(pool := Removed(v).pool));
      steps := first + second;
    }
  }

  lemma InsertionIsARun(d: D.Driver, v: View, answer: seq<byte>) returns (steps: seq<D.Step>)
    requires d.phase != D.Gone && d.pool == v.pool
    ensures Leads(d, steps, d.(pool := Inserted(v, answer).pool))
  {
    steps := [];
    if !v.cardPresent && v.pool.insert != [] {
      if answer == [] {
        steps := RemovalIsARun(d, v.(cardPresent := true, available := 0));
      } else {
        steps := DrainIsARun(d, Insert, Success);
      }
    }
  }

  lemma CheckIsARun(d: D.Driver, v: View, present: bool, answer: seq<byte>) returns (steps: seq<D.Step>)
    requires d.phase != D.Gone && d.pool == v.pool
    ensures Leads(d, steps, d.(pool := Checked(v, present, answer).pool))
  {
    if present {
      steps := InsertionIsARun(d, v, answer);
    } else {
      steps := RemovalIsARun(d, v);
    }
  }

  // ------------------------------------------------------------------ shutdown

  lemma {:induction false} ShutdownDrains(d: D.Driver) returns (steps: seq<D.Step>)
    requires D.ShuttingDown(d)
    ensures Leads(d, steps, d.(pool := Drain(d.pool, D.Draining(d), Cancelled),
                               phase := if d.phase == D.DrainingRemove then D.DrainingInsert else D.Gone))
    decreases |Waiting(d.pool, D.Draining(d))|
  {
    if Waiting(d.pool, D.Draining(d)) == [] {
      Alone(d, D.ShutdownListEmpty);
      steps := [D.ShutdownListEmpty];
    } else {
      steps := ShutdownDrains(D.Next(d, D.ShutdownPops));
      D.OneStep(d, D.ShutdownPops, steps);
      steps := [D.ShutdownPops] + steps;
    }
  }

  /** The back end's shutdown is a run that deletes the reader. */
  lemma ShutdownIsARun(d: D.Driver, v: View) returns (steps: seq<D.Step>)
    requires d.phase == D.Open && d.pool == v.pool
    ensures Leads(d, steps, d.(pool := R.Handled(v, R.ShutDown).pool, phase := D.Gone))
  {
    var d1 := D.Next(d, D.ShutdownBegins);
    Alone(d, D.ShutdownBegins);
    var first := ShutdownDrains(d1);
    var d2 := d1.(pool := Drain(d.pool, Remove, Cancelled), phase := D.DrainingInsert);
    var second := ShutdownDrains(d2);
    Then(d, [D.ShutdownBegins], d1, first, d2);
    steps := [D.ShutdownBegins] + first + second;
    Then(d, [D.ShutdownBegins] + first, d2, second, d2.(pool := Shut(v).pool, phase := D.Gone));
  }

  // ------------------------------------------------------------------ handlers

  /** The driver is up, nobody else is inside, and it knows the request for what
      it is. */
  predicate Fits(d: D.Driver, v: View, e: R.Event)
  {
    && d.phase == D.Open && d.pool == v.pool && d.inside == {}
    && match e
       case IsPresent(r, _, _) => D.IoctlOf(d, r) == D.Ioctl.IsPresent && r !in d.found
       case IsAbsent(r, _, _) => D.IoctlOf(d, r) == D.Ioctl.IsAbsent && r !in d.found
       case Power(r, _, _, _) => D.IoctlOf(d, r) == D.Other
       case SetProtocol(r, _, _) => D.IoctlOf(d, r) == D.Other
       case Transmit(r, _, _, _, _) => D.IoctlOf(d, r) == D.Other
       case CancelIssued(r) => r !in v.pool.cancelling
       case _ => true
  }

  lemma WaitIsARun(d: D.Driver, v: View, e: R.Event) returns (steps: seq<D.Step>)
    requires Fits(d, v, e) && R.Allowed(v, e) && (e.IsPresent? || e.IsAbsent?)
    ensures D.Possible(d, steps) && D.After(d, steps).pool == R.Handled(v, e).pool && D.After(d, steps).inside == {}
  {
    var r := e.r;
    var enter, check := D.Enter(r), D.Check(r, e.present);
    var d1 := D.Next(d, enter);
    var d2 := D.Next(d1, check);
    Alone(d, enter);
    Alone(d1, check);
    Then(d, [enter], d1, [check], d2);
    var events := CheckIsARun(d2, v, e.present, e.answer);
    var d3 := d2.(pool := Checked(v, e.present, e.answer).pool);
    Then(d, [enter] + [check], d2, events, d3);
    var last := if e.IsPresent? == e.present then D.Complete(r, Success)
                else D.Wait(r, if e.IsPresent? then Insert else Remove);
    Alone(d3, last);
    steps := [enter] + [check] + events + [last];
    Then(d, [enter] + [check] + events, d3, [last], D.Next(d3, last));
  }

  lemma OtherIsARun(d: D.Driver, v: View, u: View, r: Request, lost: bool, status: Status) returns (steps: seq<D.Step>)
    requires d.phase == D.Open && d.inside == {} && d.pool == v.pool == u.pool && r in d.pool.held
    requires D.IoctlOf(d, r) == D.Other
    ensures D.Possible(d, steps) && D.After(d, steps).inside == {}
    ensures D.After(d, steps).pool == Finished(if lost then Removed(u) else u, r, status).pool
  {
    var enter, complete := D.Enter(r), D.Complete(r, status);
    var d1 := D.Next(d, enter);
    Alone(d, enter);
    var events := [];
    if lost {
      events := RemovalIsARun(d1, u);
    }
    var d2 := d1.(pool := if lost then Removed(u).pool else u.pool);
    assert Leads(d1, events, d2);
    Then(d, [enter], d1, events, d2);
    Alone(d2, complete);
    steps := [enter] + events + [complete];
    Then(d, [enter] + events, d2, [complete], D.Next(d2, complete));
  }

  lemma CardRequestIsARun(d: D.Driver, v: View, e: R.Event) returns (steps: seq<D.Step>)
    requires Fits(d, v, e) && R.Allowed(v, e) && (e.Power? || e.SetProtocol? || e.Transmit?)
    ensures D.Possible(d, steps) && D.After(d, steps).pool == R.Handled(v, e).pool && D.After(d, steps).inside == {}
  {
    match e
    case Power(r, code, answer, outOk) =>
      var reset := code == SCARD_COLD_RESET || code == SCARD_WARM_RESET;
      steps := OtherIsARun(d, v, Powered(v, code), r, reset && answer == [],
                           if !reset then Success else if answer == [] then NoMedia else BufferStatus(outOk));
    case SetProtocol(r, requested, answer) =>
      var c := R.Handled(v, e).pool.done;
      steps := OtherIsARun(d, v, v.(state := Specific), r, answer == [], c[|c| - 1].status);
    case Transmit(r, accepted, apdu, rapdu, outOk) =>
      var c := R.Handled(v, e).pool.done;
      steps := OtherIsARun(d, v, v, r, accepted && apdu != [] && rapdu == [], c[|c| - 1].status);
  }

  /** Every event of the back end does to the requests what some run of the
      interleaved driver does, after which nobody is inside. */
  lemma HandlersAreRuns(d: D.Driver, v: View, e: R.Event) returns (steps: seq<D.Step>)
    requires Fits(d, v, e) && R.Allowed(v, e)
    ensures D.Possible(d, steps) && D.After(d, steps).pool == R.Handled(v, e).pool && D.After(d, steps).inside == {}
  {
    match e
    case Deliver(r) =>
      Alone(d, D.Deliver(r, D.Other));
      steps := [D.Deliver(r, D.Other)];
    case IsPresent(_, _, _) => steps := WaitIsARun(d, v, e);
    case IsAbsent(_, _, _) => steps := WaitIsARun(d, v, e);
    case Poll(present, answer) => steps := CheckIsARun(d, v, present, answer);
    case Power(_, _, _, _) => steps := CardRequestIsARun(d, v, e);
    case SetProtocol(_, _, _) => steps := CardRequestIsARun(d, v, e);
    case Transmit(_, _, _, _, _) => steps := CardRequestIsARun(d, v, e);
    case CancelIssued(r) =>
      Alone(d, D.CancelIssued(r));
      steps := [D.CancelIssued(r)];
    case CancelRuns(r) =>
      Alone(d, D.CancelRuns(r));
      steps := [D.CancelRuns(r)];
    case ShutDown => steps := ShutdownIsARun(d, v);
  }
}

/** Where the IOCTL requests of one BixVReader reader are: being handled,
    parked on one of the two wait lists, in the hands of the cancel callback,
    or completed (Reader.cpp, device.cpp, and the drain loops of the three
    back ends).  Every step below is one locked block of the driver, so any
    interleaving of its threads is a sequence of these steps. */
module Requests {
  import opened Basics

  type Request = nat

  datatype Status = Success | Cancelled | NoMedia | InvalidDeviceState | NotSupported | BufferError

  datatype Completion = Completion(request: Request, status: Status)

  datatype List = Insert | Remove

  /** `cancelling`: the framework has decided to call the cancel callback for
      the request, which has not run yet; WdfRequestUnmarkCancelable reports
      exactly those as cancelled. */
  datatype Pool = Pool(
    arrived: set<Request>, held: set<Request>,
    insert: seq<Request>, remove: seq<Request>,
    cancelling: set<Request>, done: seq<Completion>)

  function Waiting(p: Pool, list: List): (w: seq<Request>)
  {
    if list == Insert then p.insert else p.remove
  }

  function WithWaiting(p: Pool, list: List, w: seq<Request>): (q: Pool)
  {
    if list == Insert then p.(insert := w) else p.(remove := w)
  }

  predicate Parked(p: Pool, r: Request)
  {
    r in p.insert || r in p.remove
  }

  // ------------------------------------------------------------------ the locked blocks

  function Arrive(p: Pool, r: Request): (q: Pool)
  {
    p.(arrived := p.arrived + {r}, held := p.held + {r})
  }

  /** A handler completes its request. */
  function Finish(p: Pool, r: Request, status: Status): (q: Pool)
  {
    p.(held := p.held - {r}, done := p.done + [Completion(r, status)])
  }

  /** A handler parks its request and marks it cancelable. */
  function Park(p: Pool, r: Request, list: List): (q: Pool)
  {
    WithWaiting(p.(held := p.held - {r}), list, Waiting(p, list) + [r])
  }

  /** One round of a drain loop: pop the newest waiter, and complete it unless
      the cancel callback is going to. */
  function Pop(p: Pool, list: List, status: Status): (q: Pool)
    requires Waiting(p, list) != []
  {
    var w := Waiting(p, list);
    var r := w[|w| - 1];
    var q := WithWaiting(p, list, w[..|w| - 1]);
    if r in p.cancelling then q else q.(done := p.done + [Completion(r, status)])
  }

  /** The whole loop. */
  function Drain(p: Pool, list: List, status: Status): (q: Pool)
    decreases |Waiting(p, list)|
  {
    if Waiting(p, list) == [] then p else Drain(Pop(p, list, status), list, status)
  }

  function Erase(w: seq<Request>, r: Request): (v: seq<Request>)
  {
    if w == [] then [] else if w[0] == r then w[1..] else [w[0]] + Erase(w[1..], r)
  }

  function IssueCancel(p: Pool, r: Request): (q: Pool)
  {
    p.(cancelling := p.cancelling + {r})
  }

  /** BixVReaderEvtRequestCancel: take the request off whichever list still
      has it, and complete it. */
  function RunCancel(p: Pool, r: Request): (q: Pool)
  {
    p.(insert := Erase(p.insert, r), remove := Erase(p.remove, r),
       cancelling := p.cancelling - {r}, done := p.done + [Completion(r, Cancelled)])
  }

  // ------------------------------------------------------------------ exactly one place

  function Completed(done: seq<Completion>): (rs: seq<Request>)
  {
    if done == [] then [] else Completed(done[..|done| - 1]) + [done[|done| - 1].request]
  }

  /** In how many places a request is; one that left its list while being
      cancelled is in the hands of the callback. */
  function Places(p: Pool, r: Request): (n: nat)
  {
    (if r in p.held then 1 else 0)
    + Occurs(p.insert, r) + Occurs(p.remove, r)
    + (if r in p.cancelling && Occurs(p.insert, r) + Occurs(p.remove, r) == 0 then 1 else 0)
    + Occurs(Completed(p.done), r)
  }

  ghost predicate OnePlaceEach(p: Pool)
  {
    forall r :: Places(p, r) == if r in p.arrived then 1 else 0
  }

  lemma CompletedGrows(done: seq<Completion>, c: Completion, r: Request)
    ensures Occurs(Completed(done + [c]), r) == Occurs(Completed(done), r) + if r == c.request then 1 else 0
  {
    assert (done + [c])[..|done|] == done;
  }

  /** A request has exactly one place, or it never arrived. */
  lemma PlacesExclude(p: Pool, r: Request)
    requires OnePlaceEach(p)
    ensures r in p.held ==> !Parked(p, r) && r !in p.cancelling && r !in Completed(p.done)
    ensures Parked(p, r) ==> Occurs(p.insert, r) + Occurs(p.remove, r) == 1 && r !in Completed(p.done)
    ensures r in p.cancelling ==> r !in Completed(p.done)
    ensures Occurs(Completed(p.done), r) <= 1
    ensures r in p.arrived <==> r in p.held || Parked(p, r) || r in p.cancelling || r in Completed(p.done)
  {
    assert Places(p, r) == if r in p.arrived then 1 else 0;
    OccursIfIn(p.insert, r);
    OccursIfIn(p.remove, r);
    OccursIfIn(Completed(p.done), r);
  }

  lemma ArriveKeeps(p: Pool, r: Request)
    requires OnePlaceEach(p) && r !in p.arrived
    ensures OnePlaceEach(Arrive(p, r))
  {
    forall x ensures Places(Arrive(p, r), x) == if x in Arrive(p, r).arrived then 1 else 0 {
      assert Places(p, x) == if x in p.arrived then 1 else 0;
    }
  }

  lemma FinishKeeps(p: Pool, r: Request, status: Status)
    requires OnePlaceEach(p) && r in p.held
    ensures OnePlaceEach(Finish(p, r, status))
  {
    forall x ensures Places(Finish(p, r, status), x) == if x in p.arrived then 1 else 0 {
      assert Places(p, x) == if x in p.arrived then 1 else 0;
      CompletedGrows(p.done, Completion(r, status), x);
    }
  }

  lemma ParkKeeps(p: Pool, r: Request, list: List)
    requires OnePlaceEach(p) && r in p.held
    ensures OnePlaceEach(Park(p, r, list))
  {
    PlacesExclude(p, r);
    forall x ensures Places(Park(p, r, list), x) == if x in p.arrived then 1 else 0 {
      assert Places(p, x) == if x in p.arrived then 1 else 0;
    }
  }

  lemma PopTakesLast(p: Pool, list: List, status: Status)
    requires Waiting(p, list) != []
    ensures var q, w := Pop(p, list, status), Waiting(p, list);
            && q.held == p.held && q.cancelling == p.cancelling
            && q.insert == (if list == Insert then w[..|w| - 1] else p.insert)
            && q.remove == (if list == Remove then w[..|w| - 1] else p.remove)
            && q.done == if w[|w| - 1] in p.cancelling then p.done else p.done + [Completion(w[|w| - 1], status)]
  {
  }

  /** What one pop does to the counts. */
  lemma PopCounts(p: Pool, q: Pool, list: List, status: Status, x: Request)
    requires Waiting(p, list) != [] && q == Pop(p, list, status)
    ensures q.held == p.held && q.cancelling == p.cancelling
    ensures var w := Waiting(p, list);
            var gone := if x == w[|w| - 1] then 1 else 0;
            && Occurs(q.insert, x) == Occurs(p.insert, x) - (if list == Insert then gone else 0)
            && Occurs(q.remove, x) == Occurs(p.remove, x) - (if list == Remove then gone else 0)
            && Occurs(Completed(q.done), x) == Occurs(Completed(p.done), x) + if w[|w| - 1] in p.cancelling then 0 else gone
  {
    PopTakesLast(p, list, status);
    var w := Waiting(p, list);
    OccursLast(w, x);
    if w[|w| - 1] !in p.cancelling {
      CompletedGrows(p.done, Completion(w[|w| - 1], status), x);
    }
  }

  lemma PopMovesOne(p: Pool, list: List, status: Status, x: Request)
    requires Waiting(p, list) != []
    requires Places(p, x) <= 1
    ensures Places(Pop(p, list, status), x) == Places(p, x)
  {
    PopCounts(p, Pop(p, list, status), list, status, x);
  }

  lemma {:induction false} PopKeeps(p: Pool, list: List, status: Status)
    requires OnePlaceEach(p) && Waiting(p, list) != []
    ensures OnePlaceEach(Pop(p, list, status))
  {
    forall x ensures Places(Pop(p, list, status), x) == if x in p.arrived then 1 else 0 {
      assert Places(p, x) == if x in p.arrived then 1 else 0;
      PopMovesOne(p, list, status, x);
    }
  }

  lemma IssueCancelKeeps(p: Pool, r: Request)
    requires OnePlaceEach(p) && Parked(p, r)
    ensures OnePlaceEach(IssueCancel(p, r))
  {
    forall x ensures Places(IssueCancel(p, r), x) == if x in p.arrived then 1 else 0 {
      assert Places(p, x) == if x in p.arrived then 1 else 0;
    }
  }

  lemma {:induction false} EraseTakesOne(w: seq<Request>, r: Request, x: Request)
    ensures Occurs(Erase(w, r), x) == if x == r && r in w then Occurs(w, x) - 1 else Occurs(w, x)
  {
    if w != [] {
      assert w == [w[0]] + w[1..];
      if w[0] != r {
        EraseTakesOne(w[1..], r, x);
      }
    }
  }

  lemma ErasedOnce(w: seq<Request>, r: Request)
    requires Occurs(w, r) <= 1
    ensures Occurs(Erase(w, r), r) == 0
  {
    EraseTakesOne(w, r, r);
    OccursIfIn(w, r);
  }

  lemma RunCancelMovesOne(p: Pool, r: Request, x: Request)
    requires r in p.cancelling && Places(p, x) <= 1
    ensures Places(RunCancel(p, r), x) == Places(p, x)
  {
    CompletedGrows(p.done, Completion(r, Cancelled), x);
    if x == r {
      ErasedOnce(p.insert, r);
      ErasedOnce(p.remove, r);
    } else {
      EraseTakesOne(p.insert, r, x);
      EraseTakesOne(p.remove, r, x);
    }
  }

  lemma RunCancelKeeps(p: Pool, r: Request)
    requires OnePlaceEach(p) && r in p.cancelling
    ensures OnePlaceEach(RunCancel(p, r))
  {
    forall x ensures Places(RunCancel(p, r), x) == if x in p.arrived then 1 else 0 {
      assert Places(p, x) == if x in p.arrived then 1 else 0;
      RunCancelMovesOne(p, r, x);
    }
  }

  lemma {:induction false} DrainKeeps(p: Pool, list: List, status: Status)
    requires OnePlaceEach(p)
    ensures OnePlaceEach(Drain(p, list, status))
    decreases |Waiting(p, list)|
  {
    if Waiting(p, list) != [] {
      PopKeeps(p, list, status);
      DrainKeeps(Pop(p, list, status), list, status);
    }
  }

  /** Exactly the waiters that are not being cancelled are completed. */
  ghost predicate Serves(done: seq<Completion>, w: seq<Request>, cancelling: set<Request>, status: Status)
  {
    forall c :: c in done <==> c.status == status && c.request in w && c.request !in cancelling
  }

  lemma OneMoreServed(done: seq<Completion>, w: seq<Request>, cancelling: set<Request>, status: Status)
    requires w != [] && Serves(done, w[..|w| - 1], cancelling, status)
    ensures var r := w[|w| - 1];
            Serves((if r in cancelling then [] else [Completion(r, status)]) + done, w, cancelling, status)
  {
    assert forall x :: x in w <==> x == w[|w| - 1] || x in w[..|w| - 1];
  }

  lemma TailGrows(a: seq<Completion>, x: seq<Completion>, c: seq<Completion>)
    requires a + x <= c
    ensures a <= c && c[|a|..] == x + c[|a + x|..]
  {
    assert c == a + x + c[|a + x|..];
  }

  lemma ServesThrough(done: seq<Completion>, all: seq<Completion>, w: seq<Request>, cancelling: set<Request>, status: Status)
    requires w != []
    requires var more := done + if w[|w| - 1] in cancelling then [] else [Completion(w[|w| - 1], status)];
             more <= all && Serves(all[|more|..], w[..|w| - 1], cancelling, status)
    ensures done <= all && Serves(all[|done|..], w, cancelling, status)
  {
    var x := if w[|w| - 1] in cancelling then [] else [Completion(w[|w| - 1], status)];
    OneMoreServed(all[|done + x|..], w, cancelling, status);
    TailGrows(done, x, all);
  }

  /** A drain empties its list, adds completions, and touches nothing else. */
  lemma {:induction false} DrainEmpties(p: Pool, list: List, status: Status)
    ensures var q := Drain(p, list, status);
            q == WithWaiting(p, list, []).(done := q.done) && p.done <= q.done
    decreases |Waiting(p, list)|
  {
    if Waiting(p, list) != [] {
      DrainEmpties(Pop(p, list, status), list, status);
    }
  }

  /** It gives the status to every waiter that is not being cancelled, and
      leaves those to the callback. */
  lemma {:induction false} DrainServesAll(p: Pool, list: List, status: Status)
    ensures var q := Drain(p, list, status);
            && q == WithWaiting(p, list, []).(done := q.done)
            && p.done <= q.done
            && Serves(q.done[|p.done|..], Waiting(p, list), p.cancelling, status)
    decreases |Waiting(p, list)|
  {
    DrainEmpties(p, list, status);
    if Waiting(p, list) != [] {
      DrainServesAll(Pop(p, list, status), list, status);
      PopThenServes(p, list, status, Drain(p, list, status).done);
    }
  }

  lemma PopThenServes(p: Pool, list: List, status: Status, all: seq<Completion>)
    requires Waiting(p, list) != []
    requires var m := Pop(p, list, status);
             m.done <= all && Serves(all[|m.done|..], Waiting(m, list), p.cancelling, status)
    ensures p.done <= all && Serves(all[|p.done|..], Waiting(p, list), p.cancelling, status)
  {
    assert p.done + [] == p.done;
    ServesThrough(p.done, all, Waiting(p, list), p.cancelling, status);
  }
}

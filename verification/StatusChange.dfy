/** The polling loop of SCardGetStatusChange (winscard.c:417-494).  What the
    readers answer at each poll is a parameter. */
module StatusChange {
  datatype Flag = Ignore | Changed | Unknown | Empty | Present | Exclusive | InUse

  datatype ReaderState = ReaderState(name: string, current: set<Flag>, event: set<Flag>)

  /** What one poll finds out about one reader. */
  datatype Sight = Unrecognized | Slot(users: nat, exclusive: bool, card: bool)

  datatype Result = Success | Timeout

  const PNP_NOTIFICATION := "\\\\?PnP?\\Notification"

  const INFINITE := 0xFFFF_FFFF

  function Seconds(timeout: nat): (s: nat)
  {
    if timeout == INFINITE then 60 else timeout / 1000
  }

  predicate Examined(s: ReaderState)
  {
    Ignore !in s.current && s.name != PNP_NOTIFICATION
  }

  /** The caller's EMPTY and PRESENT flags do not say what the reader shows. */
  predicate Differs(s: ReaderState, card: bool)
  {
    (Present in s.current) != card || (Empty in s.current) == card
  }

  function Seen(s: ReaderState, sight: Sight): (t: ReaderState)
  {
    if !Examined(s) then s
    else s.(event :=
      match sight
      case Unrecognized => {Unknown, Changed, Ignore}
      case Slot(users, exclusive, card) =>
        (if users == 0 then {} else if exclusive then {InUse, Exclusive} else {InUse})
        + (if card then {Present} else {Empty})
        + (if Differs(s, card) then {Changed} else {}))
  }

  /** The event flags of an examined reader, one by one, as the slot is seen. */
  predicate Shows(t: ReaderState, sight: Sight)
  {
    && (Present in t.event <==> sight.Slot? && sight.card)
    && (Empty in t.event <==> sight.Slot? && !sight.card)
    && (InUse in t.event <==> sight.Slot? && sight.users > 0)
    && (Exclusive in t.event <==> sight.Slot? && sight.users > 0 && sight.exclusive)
    && (Unknown in t.event <==> sight.Unrecognized?)
    && (Ignore in t.event <==> sight.Unrecognized?)
    && (Changed in t.event <==> IsNews(t.current, sight))
  }

  /** The reader is not known, or its card is not what the caller's flags say. */
  predicate IsNews(current: set<Flag>, sight: Sight)
  {
    match sight
    case Unrecognized => true
    case Slot(_, _, card) => if card then Present !in current || Empty in current
                             else Present in current || Empty !in current
  }

  predicate HasEvent(s: ReaderState)
  {
    Examined(s) && Changed in s.event
  }

  /** A poll of these readers finds nothing to report. */
  predicate Calm(states: seq<ReaderState>, poll: nat, sights: (nat, nat) -> Sight)
  {
    forall i :: 0 <= i < |states| ==> !HasEvent(Seen(states[i], sights(poll, i)))
  }

  /** `sights(poll, i)` is what poll number `poll` sees of reader i, and
      `cancelled(poll)` whether SCardCancel was called by the end of it.  The
      call returns at the first poll that has something to report, or when the
      time is up or it is cancelled; the states are those of the last poll. */
  method GetStatusChange(states: array<ReaderState>, timeout: nat,
                         sights: (nat, nat) -> Sight, cancelled: nat -> bool)
    returns (r: Result, polls: nat)
    modifies states
    ensures 1 <= polls && if timeout == 0xFFFF_FFFF then polls <= 61 else 1000 * (polls - 1) <= timeout
    ensures forall i | 0 <= i < states.Length :: states[i] == Seen(old(states[i]), sights(polls - 1, i))
    ensures forall i | 0 <= i < states.Length ::
              if Ignore in old(states[i]).current || old(states[i]).name == PNP_NOTIFICATION
              then states[i] == old(states[i])
              else Shows(states[i], sights(polls - 1, i)) && states[i].current == old(states[i]).current
    ensures r == Success <==> exists i | 0 <= i < states.Length ::
                                Examined(states[i]) && IsNews(states[i].current, sights(polls - 1, i))
    ensures r == Timeout ==> forall i | 0 <= i < states.Length && Examined(states[i]) :: Agrees(states[i])
    ensures r == Timeout && !cancelled(polls - 1) ==> if timeout == 0xFFFF_FFFF then polls == 61 else timeout < 1000 * polls
    ensures forall k | 0 <= k < polls - 1 :: !cancelled(k) && Calm(old(states[..]), k, sights)
  {
    var seconds := Seconds(timeout);
    var eventCount := 0;
    polls := 0;
    while true
      invariant polls + seconds == Seconds(timeout) && eventCount == 0
      invariant forall i | 0 <= i < states.Length :: SameReader(old(states[i]), states[i])
      invariant forall k | 0 <= k < polls :: !cancelled(k) && Calm(old(states[..]), k, sights)
      decreases seconds
    {
      eventCount := Poll(states, polls, sights);
      assert forall i | 0 <= i < states.Length :: states[i] == Seen(old(states[i]), sights(polls, i));
      assert eventCount == 0 ==> Calm(old(states[..]), polls, sights);
      polls := polls + 1;
      if seconds == 0 || eventCount > 0 {
        break;
      }
      seconds := seconds - 1;
      if cancelled(polls - 1) {
        break;
      }
    }
    r := if eventCount == 0 then Timeout else Success;
    forall i | 0 <= i < states.Length
      ensures Examined(old(states[i])) ==> Shows(states[i], sights(polls - 1, i))
      ensures HasEvent(states[i]) <==> Examined(states[i]) && IsNews(states[i].current, sights(polls - 1, i))
    {
      FlagsShowTheSlot(old(states[i]), sights(polls - 1, i));
    }
    forall i | 0 <= i < states.Length && Examined(states[i]) && r == Timeout
      ensures Agrees(states[i])
    {
      NoEventMeansAgreement(old(states[i]), sights(polls - 1, i));
    }
  }

  /** The event flags apart: polls overwrite them, and only where they look. */
  predicate SameReader(s: ReaderState, t: ReaderState)
  {
    s.name == t.name && s.current == t.current && (!Examined(s) ==> s == t)
  }

  /** The body of the inner loop, for a reader that is not skipped. */
  method Look(state: ReaderState, sight: Sight) returns (t: ReaderState, event: bool)
    requires Examined(state)
    ensures t == Seen(state, sight) && event == HasEvent(t)
  {
    t, event := state.(event := {}), false;
    match sight
    case Unrecognized =>
      t, event := t.(event := {Unknown, Changed, Ignore}), true;
    case Slot(users, exclusive, card) =>
      if users > 0 {
        t := t.(event := t.event + {InUse});
        if exclusive {
          t := t.(event := t.event + {Exclusive});
        }
      }
      t := t.(event := t.event + if card then {Present} else {Empty});
      if (Empty in t.current) != (Empty in t.event) || (Present in t.current) != (Present in t.event) {
        t, event := t.(event := t.event + {Changed}), true;
      }
  }

  /** One pass over the readers. */
  method Poll(states: array<ReaderState>, poll: nat, sights: (nat, nat) -> Sight) returns (eventCount: nat)
    modifies states
    ensures forall i | 0 <= i < states.Length :: states[i] == Seen(old(states[i]), sights(poll, i))
    ensures eventCount > 0 <==> exists i | 0 <= i < states.Length :: HasEvent(states[i])
  {
    eventCount := 0;
    for i := 0 to states.Length
      invariant forall j | 0 <= j < states.Length ::
                  states[j] == if j < i then Seen(old(states[j]), sights(poll, j)) else old(states[j])
      invariant eventCount > 0 <==> exists j | 0 <= j < i :: HasEvent(states[j])
    {
      ghost var before := states[..];
      if Ignore in states[i].current || states[i].name == PNP_NOTIFICATION {
        assert !HasEvent(states[i]);
        continue;
      }
      var event: bool;
      states[i], event := Look(states[i], sights(poll, i));
      assert forall j | 0 <= j < i :: HasEvent(states[j]) == HasEvent(before[j]);
      if event {
        eventCount := eventCount + 1;
      }
    }
  }

  /** The reader shows exactly one of EMPTY and PRESENT, and the caller's own
      flags agree with it on both. */
  predicate Agrees(t: ReaderState)
  {
    && (Empty in t.event) != (Present in t.event)
    && (Empty in t.event <==> Empty in t.current)
    && (Present in t.event <==> Present in t.current)
  }

  lemma FlagsShowTheSlot(s: ReaderState, sight: Sight)
    ensures Examined(s) ==> Shows(Seen(s, sight), sight)
    ensures HasEvent(Seen(s, sight)) <==> Examined(Seen(s, sight)) && IsNews(Seen(s, sight).current, sight)
  {
  }

  lemma NoEventMeansAgreement(s: ReaderState, sight: Sight)
    requires Examined(s)
    ensures !HasEvent(Seen(s, sight)) <==> sight.Slot? && Agrees(Seen(s, sight))
  {
  }
}

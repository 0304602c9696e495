/** The reader table of the device and the power callbacks that fill and empty
    it (device.cpp:169-331). */
module Device {
  import opened Basics

  /** Readers are numbered in the order they are created. */
  const NULL := -1

  function Numbered(from: nat, n: nat): (s: seq<int>)
  {
    seq(n, i => from + i)
  }

  datatype Table = Table(readers: seq<int>, numInstances: nat, created: nat, deleted: seq<int>)

  /** D0Entry with the number of readers the .ini file asks for now. */
  function Entered(t: Table, wanted: int): (u: Table)
  {
    var n := if wanted < 1 then 1 else wanted;
    Table(Numbered(t.created, n), n, t.created + n, t.deleted)
  }

  /** The readers in these slots, in order. */
  function Present(slots: seq<int>): (rs: seq<int>)
  {
    if slots == [] then []
    else Present(slots[..|slots| - 1]) + if slots[|slots| - 1] == NULL then [] else [slots[|slots| - 1]]
  }

  /** Every callback that takes the device down ends here. */
  function Emptied(t: Table): (u: Table)
    requires t.numInstances <= |t.readers|
  {
    t.(readers := seq(t.numInstances, i => NULL) + t.readers[t.numInstances..], numInstances := 0,
       deleted := t.deleted + Present(t.readers[..t.numInstances]))
  }

  /** The reader that an instance number reaches. */
  function Reached(t: Table, instance: int): (r: int)
    requires t.numInstances <= |t.readers|
  {
    if 0 <= instance < t.numInstances then t.readers[instance] else NULL
  }

  class Context {
    var readers: seq<int>
    var numInstances: nat

    // what was created and deleted so far
    var created: nat
    var deleted: seq<int>

    ghost function Get(): (t: Table)
      reads this
    {
      Table(readers, numInstances, created, deleted)
    }

    /** EvtDriverDeviceAdd: a positive count, but no reader yet. */
    constructor (wanted: int)
      ensures Get() == Table([], if wanted < 1 then 1 else wanted, 0, [])
    {
      readers, created, deleted := [], 0, [];
      numInstances := if wanted < 1 then 1 else wanted;
    }

    method D0Entry(wanted: int)
      modifies this
      ensures Get() == Entered(old(Get()), wanted)
    {
      var n := if wanted < 1 then 1 else wanted;
      numInstances := n;
      readers := if n <= |readers| then readers[..n] else readers + seq(n - |readers|, i => NULL);
      var i := 0;
      while i < n
        invariant 0 <= i <= n == |readers| == numInstances
        invariant created == old(created) + i && deleted == old(deleted)
        invariant readers[..i] == Numbered(old(created), i)
      {
        readers := readers[i := created];
        created := created + 1;
        i := i + 1;
      }
    }

    method ShutdownReaders()
      requires numInstances <= |readers|
      modifies this
      ensures Get() == Emptied(old(Get()))
    {
      var i := 0;
      while i < numInstances
        invariant 0 <= i <= numInstances == old(numInstances) <= |readers| == |old(readers)|
        invariant created == old(created)
        invariant forall k :: 0 <= k < |readers| ==> readers[k] == if k < i then NULL else old(readers)[k]
        invariant deleted == old(deleted) + Present(old(readers)[..i])
      {
        var r := readers[i];
        assert old(readers)[..i + 1][..i] == old(readers)[..i];
        if r != NULL {
          deleted := deleted + [r];
          readers := readers[i := NULL];
        }
        i := i + 1;
      }
      assert readers == seq(numInstances, k => NULL) + old(readers)[numInstances..];
      numInstances := 0;
    }

    /** The test BixVReaderProcessIoControl makes before it enters a reader;
        NULL means the request is completed with INVALID_DEVICE_STATE. */
    method Lookup(instance: int) returns (r: int)
      requires numInstances <= |readers|
      ensures r == Reached(Get(), instance)
    {
      if instance < 0 || instance >= numInstances || readers[instance] == NULL {
        return NULL;
      }
      r := readers[instance];
    }
  }

  // ------------------------------------------------------------------ runs

  ghost predicate NothingLost(t: Table)
  {
    forall r :: r != NULL ==> Occurs(t.readers, r) + Occurs(t.deleted, r) == if 0 <= r < t.created then 1 else 0
  }

  /** Every reader created sits in one slot or was deleted once, and the slots
      beyond the count are null. */
  ghost predicate Inv(t: Table)
  {
    && t.numInstances <= |t.readers|
    && (forall i :: t.numInstances <= i < |t.readers| ==> t.readers[i] == NULL)
    && NothingLost(t)
  }

  predicate AllNull(t: Table)
  {
    forall i :: 0 <= i < |t.readers| ==> t.readers[i] == NULL
  }

  lemma {:induction false} NumberedOccurs(from: nat, n: nat, r: int)
    ensures Occurs(Numbered(from, n), r) == if from <= r < from + n then 1 else 0
  {
    if n > 0 {
      NumberedOccurs(from, n - 1, r);
      assert Numbered(from, n) == Numbered(from, n - 1) + [from + n - 1];
    } else {
      assert Numbered(from, 0) == [];
    }
  }

  /** D0Entry overwrites whatever the slots hold: it loses no reader exactly if
      they are all null, as they are after a shutdown and before the first one. */
  lemma EntryLosesExactlyWhatIsThere(t: Table, wanted: int)
    requires NothingLost(t)
    ensures NothingLost(Entered(t, wanted)) <==> AllNull(t)
  {
    var u := Entered(t, wanted);
    forall r | r != NULL
      ensures Occurs(u.readers, r) == if t.created <= r < u.created then 1 else 0
      ensures Occurs(t.readers, r) + Occurs(t.deleted, r) == if 0 <= r < t.created then 1 else 0
    {
      NumberedOccurs(t.created, u.created - t.created, r);
    }
    if AllNull(t) {
      forall r | r != NULL ensures Occurs(t.readers, r) == 0 {
        assert r !in t.readers;
      }
    } else {
      var i :| 0 <= i < |t.readers| && t.readers[i] != NULL;
      var r := t.readers[i];
      assert r in t.readers;
      assert Occurs(t.readers, r) > 0;
      assert Occurs(u.readers, r) + Occurs(u.deleted, r) == 0;
    }
  }

  /** After D0Entry exactly the instances below the number asked for, or below
      one if that is less, reach a reader, each its own and a new one. */
  lemma EntryReachesExactly(t: Table, wanted: int, instance: int)
    ensures var u := Entered(t, wanted);
            && (Reached(u, instance) != NULL <==> instance == 0 || 0 <= instance < wanted)
            && (Reached(u, instance) != NULL ==> Reached(u, instance) == t.created + instance)
  {
  }

  lemma {:induction false} PresentOccurs(slots: seq<int>, r: int)
    requires r != NULL
    ensures Occurs(Present(slots), r) == Occurs(slots, r)
  {
    if slots != [] {
      PresentOccurs(slots[..|slots| - 1], r);
      PresentGrows(Present(slots[..|slots| - 1]), slots, r);
    }
  }

  lemma PresentGrows(rest: seq<int>, slots: seq<int>, r: int)
    requires slots != [] && r != NULL && Occurs(rest, r) == Occurs(slots[..|slots| - 1], r)
    ensures Occurs(rest + if slots[|slots| - 1] == NULL then [] else [slots[|slots| - 1]], r) == Occurs(slots, r)
  {
    OccursLast(slots, r);
  }

  lemma ShutdownMovesOne(t: Table, r: int)
    requires Inv(t) && r != NULL
    ensures Occurs(Emptied(t).readers, r) == 0
    ensures Occurs(Emptied(t).deleted, r) == Occurs(t.readers, r) + Occurs(t.deleted, r)
  {
    var n := t.numInstances;
    PresentOccurs(t.readers[..n], r);
    assert t.readers == t.readers[..n] + t.readers[n..];
    assert r !in t.readers[n..] && r !in Emptied(t).readers;
  }

  lemma ShutdownKeepsInv(t: Table)
    requires Inv(t)
    ensures Inv(Emptied(t)) && AllNull(Emptied(t))
  {
    forall r | r != NULL
      ensures Occurs(Emptied(t).readers, r) + Occurs(Emptied(t).deleted, r) == if 0 <= r < t.created then 1 else 0
    {
      ShutdownMovesOne(t, r);
      assert Occurs(t.readers, r) + Occurs(t.deleted, r) == if 0 <= r < t.created then 1 else 0;
    }
  }

  /** D0Entry with a wanted count, or any of the callbacks that shut down. */
  datatype Callback = Entry(wanted: int) | TakeDown

  /** An entry comes only when the device is down. */
  predicate Alternating(calls: seq<Callback>, up: bool)
  {
    calls == [] || (!(up && calls[0].Entry?) && Alternating(calls[1..], calls[0].Entry?))
  }

  function After(t: Table, calls: seq<Callback>): (u: Table)
    requires t.numInstances <= |t.readers|
    decreases |calls|
  {
    if calls == [] then t
    else After(if calls[0].Entry? then Entered(t, calls[0].wanted) else Emptied(t), calls[1..])
  }

  lemma {:induction false} CallbacksLoseNoReader(t: Table, calls: seq<Callback>, up: bool)
    requires Inv(t) && Alternating(calls, up) && (!up ==> AllNull(t) && t.numInstances == 0)
    ensures Inv(After(t, calls))
    ensures calls != [] && calls[|calls| - 1].TakeDown? ==> After(t, calls).numInstances == 0
    decreases |calls|
  {
    if calls != [] {
      var u := if calls[0].Entry? then Entered(t, calls[0].wanted) else Emptied(t);
      if calls[0].Entry? {
        EntryLosesExactlyWhatIsThere(t, calls[0].wanted);
      } else {
        ShutdownKeepsInv(t);
      }
      CallbacksLoseNoReader(u, calls[1..], calls[0].Entry?);
    }
  }

  /** From the first D0Entry on: each reader is deleted at most once and until
      then sits in exactly one slot, slots beyond the count are null, and after
      a shutdown no instance number reaches a reader. */
  lemma EveryReaderIsDeletedOnce(first: int, wanted: int, calls: seq<Callback>, r: nat)
    requires Alternating(calls, true)
    ensures var t := After(Entered(Table([], if first < 1 then 1 else first, 0, []), wanted), calls);
            && Occurs(t.readers, r) + Occurs(t.deleted, r) == (if r < t.created then 1 else 0)
            && (forall i :: t.numInstances <= i < |t.readers| ==> t.readers[i] == NULL)
            && (calls != [] && calls[|calls| - 1].TakeDown? ==> t.numInstances == 0)
  {
    var t := Table([], if first < 1 then 1 else first, 0, []);
    assert NothingLost(t);
    EntryLosesExactlyWhatIsThere(t, wanted);
    CallbacksLoseNoReader(Entered(t, wanted), calls, true);
  }
}

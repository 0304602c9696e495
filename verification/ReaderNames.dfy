/** The multi-string of reader names that SCardListReaders writes, and the walk
    by strlen that pcsc_connect makes over it (winscard.c:124-177 and 535-584,
    pcsc-relay/src/pcsc.c:113-136). */
module ReaderNames {
  import opened Basics

  const PREFIX := "Virtual PCD "

  function Digit(d: nat): (c: char)
    requires d < 10
  {
    '0' + d as char
  }

  /** snprintf with "Virtual PCD %02u", for the two-digit range. */
  function Name(index: nat): (s: string)
    requires index < 100
  {
    PREFIX + [Digit(index / 10), Digit(index % 10)]
  }

  function Value(c: char): (d: nat)
    requires IsDigit(c)
  {
    (c - '0') as nat
  }

  /** sscanf with the same format: the prefix, then one or two digits.  None is
      a string that does not match. */
  function Scanned(s: string): (r: Option<nat>)
  {
    if |s| <= |PREFIX| || s[..|PREFIX|] != PREFIX || !IsDigit(s[|PREFIX|]) then None
    else
      var tens := Value(s[|PREFIX|]);
      if |s| > |PREFIX| + 1 && IsDigit(s[|PREFIX| + 1]) then Some(10 * tens + Value(s[|PREFIX| + 1]))
      else Some(tens)
  }

  lemma NameRoundTrip(index: nat)
    requires index < 100
    ensures Scanned(Name(index)) == Some(index)
  {
    assert Name(index)[..|PREFIX|] == PREFIX;
  }

  const NAME_LENGTH := 14

  function Names(lo: nat, hi: nat): (names: seq<string>)
    requires lo <= hi <= 100
    ensures |names| == hi - lo
    ensures forall i :: 0 <= i < |names| ==> names[i] == Name(lo + i)
    decreases hi - lo
  {
    if lo == hi then [] else [Name(lo)] + Names(lo + 1, hi)
  }

  /** Each name with its terminator. */
  function Terminated(names: seq<string>): (s: string)
  {
    if names == [] then "" else names[0] + [NUL] + Terminated(names[1..])
  }

  function MultiString(names: seq<string>): (s: string)
  {
    Terminated(names) + [NUL]
  }

  lemma {:induction false} TerminatedAppend(names: seq<string>, name: string)
    ensures Terminated(names + [name]) == Terminated(names) + name + [NUL]
  {
    if names == [] {
      assert (names + [name])[1..] == [];
    } else {
      TerminatedAppend(names[1..], name);
      assert (names + [name])[1..] == names[1..] + [name];
    }
  }

  lemma NamesGrow(i: nat)
    requires i < 100
    ensures Terminated(Names(0, i + 1)) == Terminated(Names(0, i)) + Name(i) + [NUL]
  {
    assert Names(0, i + 1) == Names(0, i) + [Name(i)];
    TerminatedAppend(Names(0, i), Name(i));
  }

  /** The length a null buffer is told. */
  lemma {:induction false} ListLength(n: nat)
    requires n <= 100
    ensures |MultiString(Names(0, n))| == (NAME_LENGTH + 1) * n + 1
  {
    if n > 0 {
      ListLength(n - 1);
      NamesGrow(n - 1);
    }
  }

  /** `Overrun`: the code goes on to write behind the size it was given; the
      model stops there. */
  datatype Result = Success | InsufficientBuffer | Overrun

  /** The sizes of a buffer for which the code stays inside it, though it may
      have to report that the names do not fit. */
  predicate Holds(size: nat, n: nat)
  {
    size > (NAME_LENGTH + 1) * n || (size < (NAME_LENGTH + 1) * n && size % (NAME_LENGTH + 1) != NAME_LENGTH)
  }

  const DWORDS := 0x1_0000_0000

  /** What is left of the buffer, in 32 bits. */
  function Room(size: nat, index: nat): (room: nat)
    requires size < DWORDS && (NAME_LENGTH + 1) * index < DWORDS
  {
    var length := (NAME_LENGTH + 1) * index;
    if length <= size then size - length else size - length + DWORDS
  }

  /** One past the last character that the loop and the final NUL write from
      reader `index` on, for a buffer of any size.  snprintf writes at most the
      room it is told, but reports the whole length of the name. */
  function Reach(index: nat, n: nat, size: nat): (end: nat)
    requires index <= n <= 100 && size < DWORDS
    decreases n - index
  {
    var length := (NAME_LENGTH + 1) * index;
    if index == n then length + 1
    else if NAME_LENGTH > Room(size, index) then 0
    else
      var written := length + if Room(size, index) == NAME_LENGTH then NAME_LENGTH else NAME_LENGTH + 1;
      var rest := Reach(index + 1, n, size);
      if written > rest then written else rest
  }

  lemma {:induction false} BehindIsOutside(index: nat, n: nat, size: nat)
    requires index <= n <= 100 && size < (NAME_LENGTH + 1) * index
    ensures Reach(index, n, size) == 15 * n + 1
    decreases n - index
  {
    if index < n {
      BehindIsOutside(index + 1, n, size);
    }
  }

  lemma Remainder(index: nat, room: nat)
    requires room <= NAME_LENGTH
    ensures ((NAME_LENGTH + 1) * index + room) % (NAME_LENGTH + 1) == room
  {
  }

  lemma FewLeft(index: nat, n: nat, room: nat)
    requires index < n && room <= NAME_LENGTH
    ensures Holds((NAME_LENGTH + 1) * index + room, n) <==> room < NAME_LENGTH
  {
    Remainder(index, room);
  }

  lemma {:induction false} ReachFrom(index: nat, n: nat, size: nat)
    requires index <= n <= 100 && (NAME_LENGTH + 1) * index <= size < DWORDS
    ensures Reach(index, n, size)
            == if size >= 15 * n || size % 15 == 14 then 15 * n + 1
               else if size < 15 * (index + 1) then 0 else 15 * (size / 15)
    decreases n - index
  {
    var room := size - (NAME_LENGTH + 1) * index;
    if index < n && room > NAME_LENGTH {
      ReachFrom(index + 1, n, size);
    } else if index < n {
      Remainder(index, room);
      BehindIsOutside(index + 1, n, size);
    }
  }

  /** How far the code writes into a buffer of any size below 2^32: to the end
      of the list, whether that is inside or not, or to the end of the last name
      that fits. */
  lemma ReachExactly(n: nat, size: nat)
    requires n <= 100 && size < 0x1_0000_0000
    ensures Reach(0, n, size) == if size >= 15 * n || size % 15 == 14 then 15 * n + 1 else 15 * (size / 15)
  {
    ReachFrom(0, n, size);
  }

  /** The code stays inside the buffer it is given exactly if the buffer holds
      more than all names with their NULs, or less but not just one character
      too few behind some name: it needs one character for the last NUL that it
      does not ask for, and takes a name that was cut for a whole one. */
  lemma StaysInsideExactlyIf(n: nat, size: nat)
    requires n <= 100 && size < DWORDS
    ensures Reach(0, n, size) <= size <==> Holds(size, n)
  {
    ReachExactly(n, size);
  }

  /** snprintf into the buffer at `at`, where the whole name and its terminator
      fit. */
  method Snprintf(buffer: array<char>, at: nat, index: nat) returns (length: nat)
    requires index < 100 && at + NAME_LENGTH < buffer.Length
    modifies buffer
    ensures length == NAME_LENGTH
    ensures buffer[..at + NAME_LENGTH + 1] == old(buffer[..at]) + Name(index) + [NUL]
    ensures buffer[at + NAME_LENGTH + 1..] == old(buffer[at + NAME_LENGTH + 1..])
  {
    length := 0;
    var name := Name(index);
    while length < NAME_LENGTH
      invariant 0 <= length <= NAME_LENGTH == |name|
      invariant buffer[..at + length] == old(buffer[..at]) + name[..length]
      invariant buffer[at + NAME_LENGTH + 1..] == old(buffer[at + NAME_LENGTH + 1..])
    {
      buffer[at + length] := name[length];
      length := length + 1;
    }
    assert name[..length] == name;
    buffer[at + length] := NUL;
  }

  /** One name in the list, if there is a buffer. */
  method ListOne(buffer: array?<char>, length: nat, index: nat) returns (next: nat)
    requires index < 100 && length == (NAME_LENGTH + 1) * index
    requires buffer != null ==> length + NAME_LENGTH < buffer.Length && buffer[..length] == Terminated(Names(0, index))
    modifies if buffer == null then {} else {buffer}
    ensures next == (NAME_LENGTH + 1) * (index + 1)
    ensures buffer != null ==> buffer[..next] == Terminated(Names(0, index + 1))
  {
    var readerlen := NAME_LENGTH;
    if buffer != null {
      readerlen := Snprintf(buffer, length, index);
      NamesGrow(index);
    }
    next := length + readerlen;
    next := next + 1;
  }

  /** SCardListReaders for n readers.  A null buffer is told the length. */
  method ListReaders(n: nat, buffer: array?<char>, size: nat) returns (r: Result, length: nat)
    requires n <= 100
    requires buffer != null ==> size <= buffer.Length
    modifies if buffer == null then {} else {buffer}
    ensures buffer == null ==> r == Success
    ensures buffer != null ==> (r == Overrun <==> !Holds(size, n))
    ensures buffer != null ==> (r == Success <==> size >= |MultiString(Names(0, n))|)
    ensures r == Success ==> length == |MultiString(Names(0, n))|
    ensures r == Success && buffer != null ==> buffer[..length] == MultiString(Names(0, n))
  {
    ListLength(n);
    length := 0;
    r := Success;
    var index := 0;
    while index < n
      invariant 0 <= index <= n && length == (NAME_LENGTH + 1) * index && r == Success
      invariant buffer != null ==> length <= size && buffer[..length] == Terminated(Names(0, index))
    {
      if buffer != null {
        var room := size - length;
        if room <= NAME_LENGTH {
          FewLeft(index, n, room);
          return if room < NAME_LENGTH then InsufficientBuffer else Overrun, length;
        }
      }
      length := ListOne(buffer, length, index);
      index := index + 1;
    }
    if buffer != null {
      if length == size {
        return Overrun, length;
      }
      buffer[length] := NUL;
    }
    length := length + 1;
  }

  // ------------------------------------------------------------------ the walk

  function StrLen(s: string): (l: nat)
    requires NUL in s
    ensures l < |s| && s[l] == NUL && NUL !in s[..l]
  {
    if s[0] == NUL then 0 else 1 + StrLen(s[1..])
  }

  predicate AllNulFree(names: seq<string>)
  {
    forall i :: 0 <= i < |names| ==> NulFree(names[i])
  }

  lemma NamesAreNulFree(lo: nat, hi: nat)
    requires lo <= hi <= 100
    ensures AllNulFree(Names(lo, hi))
  {
    assert forall i :: 0 <= i < |PREFIX| ==> PREFIX[i] != NUL;
  }

  /** What SCardListReaders lists can be walked, and each name of it leads back
      to the index it was listed at. */
  lemma ListedNamesLeadBack(n: nat, i: nat)
    requires i < n <= 100
    ensures AllNulFree(Names(0, n)) && Scanned(Names(0, n)[i]) == Some(i)
  {
    NamesAreNulFree(0, n);
    NameRoundTrip(i);
  }

  datatype Found = Reader(index: nat, name: string) | NoCard(index: nat) | NotFound

  /** The loop of pcsc_connect over a list of names, for readernum `wanted` or,
      with None, for the first reader that has a card.  `hasCard` is what
      SCardGetStatusChange reports; an empty name is no reader's. */
  method Walk(readers: string, ghost names: seq<string>, wanted: Option<nat>, hasCard: string -> bool) returns (found: Found)
    requires readers == MultiString(names) && AllNulFree(names) && !hasCard("")
    ensures wanted.None? ==>
      match found
      case Reader(i, name) => i < |names| && name == names[i] && hasCard(name) && forall j | 0 <= j < i :: !hasCard(names[j])
      case NoCard(_) => false
      case NotFound => forall j | 0 <= j < |names| :: !hasCard(names[j])
    ensures wanted.Some? ==>
      found == if wanted.value > |names| then NotFound
               else if wanted.value < |names| && hasCard(names[wanted.value]) then Reader(wanted.value, names[wanted.value])
               else NoCard(wanted.value)
  {
    var reader, i, readerslen := readers, 0, |readers|;
    while readerslen > 0
      invariant 0 <= i <= |names| + 1 && readerslen == |reader|
      invariant i <= |names| ==> reader == MultiString(names[i..]) && readerslen > 0
      invariant i == |names| + 1 ==> readerslen == 0
      invariant wanted.None? ==> forall j | 0 <= j < i && j < |names| :: !hasCard(names[j])
      invariant wanted.Some? ==> wanted.value >= i
      decreases readerslen
    {
      NextName(names, i, reader);
      var l := StrLen(reader);
      if wanted.None? || wanted.value == i {
        if hasCard(reader[..l]) {
          return Reader(i, reader[..l]);
        }
        if wanted.Some? {
          return NoCard(i);
        }
      }
      readerslen, reader, i := readerslen - (l + 1), reader[l + 1..], i + 1;
    }
    found := NotFound;
  }

  lemma FirstName(name: string, rest: string, s: string)
    requires NUL !in name && s == name + [NUL] + rest
    ensures NUL in s && s[..StrLen(s)] == name && s[StrLen(s) + 1..] == rest
  {
    FirstNul(name, rest);
  }

  /** At each name strlen finds its own terminator, and behind the last one the
      final NUL reads as an empty name. */
  lemma {:induction false} NextName(names: seq<string>, i: nat, rest: string)
    requires i <= |names| && AllNulFree(names) && rest == MultiString(names[i..])
    ensures NUL in rest
    ensures i < |names| ==> rest[..StrLen(rest)] == names[i] && rest[StrLen(rest) + 1..] == MultiString(names[i + 1..])
    ensures i == |names| ==> rest[..StrLen(rest)] == "" && |rest| == 1
  {
    if i < |names| {
      assert names[i..][1..] == names[i + 1..];
      assert rest == names[i] + [NUL] + MultiString(names[i + 1..]);
      FirstName(names[i], MultiString(names[i + 1..]), rest);
    } else {
      assert rest == [NUL] && rest[0] == NUL;
    }
  }

  lemma {:induction false} FirstNul(name: string, rest: string)
    requires NUL !in name
    ensures NUL in name + [NUL] + rest && StrLen(name + [NUL] + rest) == |name|
  {
    var s := name + [NUL] + rest;
    assert s[|name|] == NUL;
    if name != [] {
      FirstNul(name[1..], rest);
      assert s[1..] == name[1..] + [NUL] + rest;
      assert s[0] == name[0];
    }
  }
}

/** The buffers of EstablishPACEChannel (ccid/src/ccid.c:939-1160): parsing the
    input data and laying out the output data. */
module Pace {
  import opened Bytes

  type Short = s: seq<byte> | |s| < 0x100      // behind a one-byte length
  type Long = s: seq<byte> | |s| < 0x10000     // behind a two-byte length

  function PutShort(x: Short): (s: seq<byte>)
  {
    [|x|] + x
  }

  function PutLong(x: Long): (s: seq<byte>)
  {
    LE16(|x|) + x
  }

  // ------------------------------------------------------------------ input

  datatype Input = Input(pinId: byte, chat: Short, pin: Short, description: Long)

  function Serialize(i: Input): (s: seq<byte>)
  {
    [i.pinId] + PutShort(i.chat) + PutShort(i.pin) + PutLong(i.description)
  }

  datatype Parse<+T> = Bad | Good(value: T, rest: seq<byte>)

  /** A field behind a one-byte length, and what follows it. */
  function ReadShort(s: seq<byte>): (p: Parse<Short>)
  {
    if s == [] then Bad
    else
      var n: nat := s[0];
      if |s| < 1 + n then Bad else Good(s[1..1 + n], s[1 + n..])
  }

  function ReadLong(s: seq<byte>): (p: Parse<Long>)
  {
    if |s| < 2 then Bad
    else
      var n := FromLE16(s[..2]);
      if |s| < 2 + n then Bad else Good(s[2..2 + n], s[2 + n..])
  }

  lemma ShortRoundTrip(x: Short, rest: seq<byte>)
    ensures ReadShort(PutShort(x) + rest) == Good(x, rest)
  {
  }

  lemma LongRoundTrip(x: Long, rest: seq<byte>)
    ensures ReadLong(PutLong(x) + rest) == Good(x, rest)
  {
    var s := PutLong(x) + rest;
    assert s[..2] == LE16(|x|);
    LE16RoundTrip(|x|);
    assert s[2..2 + |x|] == x && s[2 + |x|..] == rest;
  }

  lemma ShortIsAll(s: seq<byte>)
    requires ReadShort(s).Good?
    ensures s == PutShort(ReadShort(s).value) + ReadShort(s).rest
  {
  }

  lemma LongIsAll(s: seq<byte>)
    requires ReadLong(s).Good?
    ensures s == PutLong(ReadLong(s).value) + ReadLong(s).rest
  {
    assert s[..2] == LE16(|ReadLong(s).value|);
  }

  function ParseInput(s: seq<byte>): (p: Parse<Input>)
  {
    if s == [] then Bad
    else
      match ReadShort(s[1..])
      case Bad => Bad
      case Good(chat, t) =>
        match ReadShort(t)
        case Bad => Bad
        case Good(pin, u) =>
          match ReadLong(u)
          case Bad => Bad
          case Good(description, v) => Good(Input(s[0], chat, pin, description), v)
  }

  /** The fields from the front: each one and then all that follows it. */
  lemma FieldByField(i: Input, rest: seq<byte>)
    ensures Serialize(i) + rest
            == [i.pinId] + (PutShort(i.chat) + (PutShort(i.pin) + (PutLong(i.description) + rest)))
  {
  }

  /** Parsing what was serialised, whatever follows it, gives it back. */
  lemma InputRoundTrip(i: Input, rest: seq<byte>)
    ensures ParseInput(Serialize(i) + rest) == Good(i, rest)
  {
    var d := PutLong(i.description) + rest;
    var p := PutShort(i.pin) + d;
    var c := PutShort(i.chat) + p;
    FieldByField(i, rest);
    assert ([i.pinId] + c)[1..] == c;
    ShortRoundTrip(i.chat, p);
    ShortRoundTrip(i.pin, d);
    LongRoundTrip(i.description, rest);
  }

  /** And nothing else is accepted: an accepted buffer begins with the
      serialised fields. */
  lemma AcceptedIsSerialized(s: seq<byte>)
    requires ParseInput(s).Good?
    ensures s == Serialize(ParseInput(s).value) + ParseInput(s).rest
  {
    ShortIsAll(s[1..]);
    var t := ReadShort(s[1..]).rest;
    ShortIsAll(t);
    LongIsAll(ReadShort(t).rest);
    FieldByField(ParseInput(s).value, ParseInput(s).rest);
    assert s == [s[0]] + s[1..];
  }

  lemma ShortAt(s: seq<byte>, at: nat)
    requires at < |s|
    ensures var n: nat := s[at];
            ReadShort(s[at..]) == if |s| < at + 1 + n then Bad else Good(s[at + 1..at + 1 + n], s[at + 1 + n..])
  {
    var n: nat := s[at];
    if |s| >= at + 1 + n {
      assert s[at..][1..1 + n] == s[at + 1..at + 1 + n] && s[at..][1 + n..] == s[at + 1 + n..];
    }
  }

  lemma LongAt(s: seq<byte>, at: nat)
    requires at + 2 <= |s|
    ensures var n := FromLE16(s[at..at + 2]);
            ReadLong(s[at..]) == if |s| < at + 2 + n then Bad else Good(s[at + 2..at + 2 + n], s[at + 2 + n..])
  {
    assert s[at..][..2] == s[at..at + 2];
    var n := FromLE16(s[at..at + 2]);
    if |s| >= at + 2 + n {
      assert s[at..][2..2 + n] == s[at + 2..at + 2 + n] && s[at..][2 + n..] == s[at + 2 + n..];
    }
  }

  /** A field behind a one-byte length at the cursor, and the cursor behind it. */
  method TakeShort(abData: seq<byte>, start: nat) returns (p: Parse<Short>, parsed: nat)
    requires start <= |abData|
    ensures p == ReadShort(abData[start..])
    ensures p.Good? ==> parsed <= |abData| && p.rest == abData[parsed..]
  {
    parsed := start;
    if |abData| < parsed + 1 {
      return Bad, parsed;
    }
    ShortAt(abData, parsed);
    var length: nat := abData[parsed];
    parsed := parsed + 1;
    if |abData| < parsed + length {
      return Bad, parsed;
    }
    var field := abData[parsed..parsed + length];
    parsed := parsed + length;
    p := Good(field, abData[parsed..]);
  }

  method TakeLong(abData: seq<byte>, start: nat) returns (p: Parse<Long>, parsed: nat)
    requires start <= |abData|
    ensures p == ReadLong(abData[start..])
    ensures p.Good? ==> parsed <= |abData| && p.rest == abData[parsed..]
  {
    parsed := start;
    if |abData| < parsed + 2 {
      return Bad, parsed;
    }
    LongAt(abData, parsed);
    var length := FromLE16(abData[parsed..parsed + 2]);
    parsed := parsed + 2;
    if |abData| < parsed + length {
      return Bad, parsed;
    }
    var field := abData[parsed..parsed + length];
    parsed := parsed + length;
    p := Good(field, abData[parsed..]);
  }

  /** The parser of the code: a cursor over the buffer, with a test before
      every access. */
  method ParseBuffer(abData: seq<byte>) returns (p: Parse<Input>)
    ensures p == ParseInput(abData)
  {
    var parsed := 0;
    if |abData| < parsed + 1 {
      return Bad;
    }
    var pinId := abData[parsed];
    parsed := parsed + 1;
    var chat, pin, description;
    chat, parsed := TakeShort(abData, parsed);
    if chat.Bad? {
      return Bad;
    }
    pin, parsed := TakeShort(abData, parsed);
    if pin.Bad? {
      return Bad;
    }
    description, parsed := TakeLong(abData, parsed);
    if description.Bad? {
      return Bad;
    }
    p := Good(Input(pinId, chat.value, pin.value, description.value), abData[parsed..]);
  }

  // ------------------------------------------------------------------ output

  /** What the PACE protocol delivers; lengths are whatever it delivered. */
  datatype Output = Output(
    result: nat, sw1: byte, sw2: byte,
    cardAccess: seq<byte>, recentCar: seq<byte>, previousCar: seq<byte>, idIcc: seq<byte>)

  predicate Fits(o: Output)
  {
    |o.cardAccess| < 0x10000 && |o.recentCar| < 0x100 && |o.previousCar| < 0x100 && |o.idIcc| < 0x10000
  }

  /** The output data that the 16-bit length field counts. */
  function Body(o: Output): (s: seq<byte>)
    requires Fits(o)
    ensures |s| == BodyLength(o)
  {
    [o.sw1, o.sw2] + PutLong(o.cardAccess) + PutShort(o.recentCar) + PutShort(o.previousCar) + PutLong(o.idIcc)
  }

  function BodyLength(o: Output): (n: nat)
  {
    2 + 2 + |o.cardAccess| + 1 + |o.recentCar| + 1 + |o.previousCar| + 2 + |o.idIcc|
  }

  function Layout(o: Output): (s: seq<byte>)
    requires Fits(o)
  {
    LE32(o.result) + LE16(BodyLength(o)) + Body(o)
  }

  lemma GroupBody(a: seq<byte>, b: seq<byte>, c: seq<byte>, d: seq<byte>, e: seq<byte>, f: seq<byte>, g: seq<byte>)
    ensures a + b + (c + d + e + f + g) == a + b + c + d + e + f + g
    ensures a + b + (c + d + e + f + g) == a + b + c + (d + (e + (f + (g + []))))
  {
  }

  /** memcpy at the cursor. */
  method Copy(p: array<byte>, at: nat, data: seq<byte>) returns (next: nat)
    requires at + |data| <= p.Length
    modifies p
    ensures next == at + |data|
    ensures p[..next] == old(p[..at]) + data
  {
    var i := 0;
    while i < |data|
      invariant 0 <= i <= |data|
      invariant p[..at + i] == old(p[..at]) + data[..i]
    {
      p[at + i] := data[i];
      i := i + 1;
    }
    next := at + i;
  }

  /** A two-byte length and then the field, unless it is too long for that. */
  method CopyLong(p: array<byte>, at: nat, data: seq<byte>) returns (ok: bool, next: nat)
    requires at + 2 + |data| <= p.Length
    modifies p
    ensures ok <==> |data| < 0x10000
    ensures ok ==> next == at + 2 + |data| && p[..next] == old(p[..at]) + PutLong(data)
  {
    ok, next := |data| <= 0xFFFF, at;
    if ok {
      next := Copy(p, at, LE16(|data|));
      next := Copy(p, next, data);
    }
  }

  method CopyShort(p: array<byte>, at: nat, data: seq<byte>) returns (ok: bool, next: nat)
    requires at + 1 + |data| <= p.Length
    modifies p
    ensures ok <==> |data| < 0x100
    ensures ok ==> next == at + 1 + |data| && p[..next] == old(p[..at]) + PutShort(data)
  {
    ok, next := |data| <= 0xFF, at;
    if ok {
      next := Copy(p, at, [|data|]);
      next := Copy(p, next, data);
    }
  }

  /** The writer of the code.  It allocates for all the fields first, and gives
      up at the first one that is too long for its length field. */
  method Print(o: Output) returns (ok: bool, p: array<byte>)
    ensures fresh(p) && p.Length == 6 + BodyLength(o)
    ensures ok <==> Fits(o)
    ensures ok ==> p[..] == Layout(o)
  {
    p := new byte[6 + BodyLength(o)];
    var at := Copy(p, 0, LE32(o.result));
    at := Copy(p, at, LE16(BodyLength(o)));
    at := Copy(p, at, [o.sw1]);
    at := Copy(p, at, [o.sw2]);
    ghost var header := LE32(o.result) + LE16(BodyLength(o)) + [o.sw1, o.sw2];
    assert p[..at] == header;
    ok, at := PrintFields(p, at, o);
    if ok {
      assert p[..] == p[..at];
      GroupBody(LE32(o.result), LE16(BodyLength(o)), [o.sw1, o.sw2],
              PutLong(o.cardAccess), PutShort(o.recentCar), PutShort(o.previousCar), PutLong(o.idIcc));
    }
  }

  method PrintFields(p: array<byte>, start: nat, o: Output) returns (ok: bool, at: nat)
    requires start + BodyLength(o) - 2 == p.Length
    modifies p
    ensures ok <==> Fits(o)
    ensures ok ==> at == p.Length &&
                   p[..at] == old(p[..start]) + PutLong(o.cardAccess) + PutShort(o.recentCar)
                              + PutShort(o.previousCar) + PutLong(o.idIcc)
  {
    at := start;
    ok, at := CopyLong(p, at, o.cardAccess);
    if !ok {
      return;
    }
    ok, at := CopyShort(p, at, o.recentCar);
    if !ok {
      return;
    }
    ok, at := CopyShort(p, at, o.previousCar);
    if !ok {
      return;
    }
    ok, at := CopyLong(p, at, o.idIcc);
  }

  datatype Fields = Fields(cardAccess: Long, recentCar: Short, previousCar: Short, idIcc: Long)

  function ReadFields(s: seq<byte>): (p: Parse<Fields>)
  {
    match ReadLong(s)
    case Bad => Bad
    case Good(cardAccess, t) =>
      match ReadShort(t)
      case Bad => Bad
      case Good(recentCar, u) =>
        match ReadShort(u)
        case Bad => Bad
        case Good(previousCar, v) =>
          match ReadLong(v)
          case Bad => Bad
          case Good(idIcc, w) => Good(Fields(cardAccess, recentCar, previousCar, idIcc), w)
  }

  function ReadOutput(s: seq<byte>): (p: Parse<Output>)
  {
    if |s| < 8 then Bad
    else
      match ReadFields(s[8..])
      case Bad => Bad
      case Good(f, w) =>
        Good(Output(FromLE32(s[..4]), s[6], s[7], f.cardAccess, f.recentCar, f.previousCar, f.idIcc), w)
  }

  lemma {:induction false} FieldsRoundTrip(f: Fields)
    ensures ReadFields(PutLong(f.cardAccess) + (PutShort(f.recentCar) + (PutShort(f.previousCar) + (PutLong(f.idIcc) + []))))
            == Good(f, [])
  {
    var i := PutLong(f.idIcc) + [];
    var v := PutShort(f.previousCar) + i;
    LongRoundTrip(f.cardAccess, PutShort(f.recentCar) + v);
    ShortRoundTrip(f.recentCar, v);
    ShortRoundTrip(f.previousCar, i);
    LongRoundTrip(f.idIcc, []);
  }

  lemma HeaderApart(a: seq<byte>, b: seq<byte>, c: seq<byte>, t: seq<byte>, f: Fields)
    requires |a| == 4 && |b| == 2 && |c| == 2 && ReadFields(t) == Good(f, [])
    ensures ReadOutput(a + b + c + t)
            == Good(Output(FromLE32(a), c[0], c[1], f.cardAccess, f.recentCar, f.previousCar, f.idIcc), [])
  {
    var s := a + b + c + t;
    assert s[..4] == a && s[8..] == t && s[6] == c[0] && s[7] == c[1];
  }

  lemma LayoutFieldByField(o: Output, t: seq<byte>)
    requires Fits(o)
    requires t == PutLong(o.cardAccess) + (PutShort(o.recentCar) + (PutShort(o.previousCar) + (PutLong(o.idIcc) + [])))
    ensures Layout(o) == LE32(o.result) + LE16(BodyLength(o)) + [o.sw1, o.sw2] + t
  {
    GroupBody(LE32(o.result), LE16(BodyLength(o)), [o.sw1, o.sw2],
            PutLong(o.cardAccess), PutShort(o.recentCar), PutShort(o.previousCar), PutLong(o.idIcc));
  }

  lemma OutputRoundTripFrom(o: Output, a: seq<byte>, b: seq<byte>, f: Fields, t: seq<byte>)
    requires |a| == 4 && |b| == 2 && FromLE32(a) == o.result && Fits(o)
    requires f == Fields(o.cardAccess, o.recentCar, o.previousCar, o.idIcc) && ReadFields(t) == Good(f, [])
    ensures ReadOutput(a + b + [o.sw1, o.sw2] + t) == Good(o, [])
  {
    HeaderApart(a, b, [o.sw1, o.sw2], t, f);
  }

  /** Reading the layout back recovers every field, also when the length field
      has overflowed. */
  lemma {:induction false} OutputRoundTrip(o: Output)
    requires Fits(o) && o.result < 0x1_0000_0000
    ensures ReadOutput(Layout(o)) == Good(o, [])
  {
    var f := Fields(o.cardAccess, o.recentCar, o.previousCar, o.idIcc);
    FieldsRoundTrip(f);
    var t := PutLong(f.cardAccess) + (PutShort(f.recentCar) + (PutShort(f.previousCar) + (PutLong(f.idIcc) + [])));
    LayoutFieldByField(o, t);
    LE32Exact(o.result);
    OutputRoundTripFrom(o, LE32(o.result), LE16(BodyLength(o)), f, t);
  }

  lemma LengthFieldAt(a: seq<byte>, b: seq<byte>, c: seq<byte>)
    requires |a| == 4 && |b| == 2
    ensures (a + b + c)[4..6] == b && |(a + b + c)[6..]| == |c|
  {
  }

  /** The length field counts the bytes that follow it exactly if there are at
      most 0xFFFF of them; the code checks each field but not their sum. */
  lemma LengthFieldCounts(o: Output)
    requires Fits(o)
    ensures FromLE16(Layout(o)[4..6]) == |Layout(o)[6..]| <==> BodyLength(o) <= 0xFFFF
  {
    LengthFieldAt(LE32(o.result), LE16(BodyLength(o)), Body(o));
    LE16RoundTrip(BodyLength(o));
    ModuloIsSame(BodyLength(o), 0x10000);
  }
}

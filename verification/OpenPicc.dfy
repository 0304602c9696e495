/** The lines exchanged with the OpenPICC (pcsc-relay/src/opicc.c:43-128). */
module OpenPicc {
  import opened Bytes
  import opened Basics

  const ULONG_MAX := 0xFFFF_FFFF_FFFF_FFFF

  // ------------------------------------------------------------------ the line format

  function HexChar(d: nat): (c: char)
    requires d < 16
  {
    if d < 10 then '0' + d as char else 'A' + (d - 10) as char
  }

  /** %lX: no leading zeros. */
  function Hex(n: nat): (s: string)
    ensures |s| > 0
  {
    if n < 16 then [HexChar(n)] else Hex(n / 16) + [HexChar(n % 16)]
  }

  /** " %02X". */
  function Cell(b: byte): (s: string)
  {
    [' ', HexChar(b / 16), HexChar(b % 16)]
  }

  function Cells(b: seq<byte>): (s: string)
    ensures |s| == 3 * |b|
  {
    if b == [] then "" else Cell(b[0]) + Cells(b[1..])
  }

  function Line(b: seq<byte>): (s: string)
  {
    Hex(|b|) + ":" + Cells(b)
  }

  // ------------------------------------------------------------------ strtoul, base 16

  predicate IsSpace(c: char) { c == ' ' || '\t' <= c <= '\r' }

  function Digit(c: char): (d: Option<nat>)
  {
    if '0' <= c <= '9' then Some((c - '0') as nat)
    else if 'A' <= c <= 'F' then Some((c - 'A') as nat + 10)
    else if 'a' <= c <= 'f' then Some((c - 'a') as nat + 10)
    else None
  }

  predicate DigitAt(s: string, i: nat)
  {
    i < |s| && Digit(s[i]).Some?
  }

  function SkipSpace(s: string, i: nat): (j: nat)
    requires i <= |s|
    ensures i <= j <= |s|
    decreases |s| - i
  {
    if i < |s| && IsSpace(s[i]) then SkipSpace(s, i + 1) else i
  }

  function Accumulate(s: string, i: nat, n: nat): (r: (nat, nat))
    requires i <= |s|
    ensures i <= r.1 <= |s|
    decreases |s| - i
  {
    if DigitAt(s, i) then Accumulate(s, i + 1, 16 * n + Digit(s[i]).value) else (n, i)
  }

  /** The value and the position behind it; (0, i) without any digit. */
  function Strtoul(s: string, i: nat): (r: (nat, nat))
    requires i <= |s|
    ensures i <= r.1 <= |s| && r.0 <= ULONG_MAX
  {
    var j := SkipSpace(s, i);
    var negative := j < |s| && s[j] == '-';
    var k := if j < |s| && (s[j] == '-' || s[j] == '+') then j + 1 else j;
    var m := if k + 1 < |s| && s[k] == '0' && (s[k + 1] == 'x' || s[k + 1] == 'X') && DigitAt(s, k + 2) then k + 2 else k;
    if !DigitAt(s, m) then (0, i)
    else
      var (n, end) := Accumulate(s, m, 0);
      (if n > ULONG_MAX then ULONG_MAX else if negative && n > 0 then ULONG_MAX + 1 - n else n, end)
  }

  /** Both cases of the hexadecimal digits, and nothing else, have a value. */
  lemma DigitValues(c: char, d: nat)
    ensures Digit(c) == Some(d) <==> d < 16 && (c == "0123456789ABCDEF"[d] || c == "0123456789abcdef"[d])
  {
  }

  /** A digit behind white space, a sign or a prefix, as section 7.22.1.4 of
      ISO/IEC 9899:2011 has it. */
  lemma StrtoulSkipsSpace(space: char, c: char, d: nat)
    requires Digit(c) == Some(d) && Digit(space).None? && space !in "+-"
    ensures Strtoul([space] + [c], 0) == if space == ' ' || 9 <= space as int <= 13 then (d, 2) else (0, 0)
  {
    OneDigitOnly([space] + [c], 1, d);
  }

  lemma StrtoulTakesSigns(c: char, d: nat)
    requires Digit(c) == Some(d)
    ensures Strtoul("+" + [c], 0) == (d, 2)
    ensures Strtoul("-" + [c], 0) == (if d == 0 then 0 else 0x1_0000_0000_0000_0000 - d, 2)
  {
    OneDigitOnly("+" + [c], 1, d);
    OneDigitOnly("-" + [c], 1, d);
  }

  lemma StrtoulTakesPrefixes(c: char, d: nat)
    requires Digit(c) == Some(d)
    ensures Strtoul("0x" + [c], 0) == Strtoul("0X" + [c], 0) == (d, 3)
  {
    OneDigitOnly("0x" + [c], 2, d);
    OneDigitOnly("0X" + [c], 2, d);
  }

  lemma OneDigitOnly(s: string, i: nat, d: nat)
    requires |s| == i + 1 && Digit(s[i]) == Some(d)
    ensures Accumulate(s, i, 0) == (d, i + 1) && SkipSpace(s, i) == i
  {
    assert Accumulate(s, i + 1, d) == (d, i + 1);
  }

  // ------------------------------------------------------------------ decoding

  /** The bytes written and the length reported; None for an error. */
  type Decoded = Option<(seq<byte>, nat)>

  function Prepend(p: seq<byte>, v: Option<seq<byte>>): (w: Option<seq<byte>>)
  {
    match v
    case None => None
    case Some(rest) => Some(p + rest)
  }

  function Reported(v: Option<seq<byte>>, length: nat): (d: Decoded)
  {
    match v
    case None => None
    case Some(p) => Some((p, length))
  }

  function Values(s: string, i: nat, length: nat): (v: Option<seq<byte>>)
    requires i <= |s|
    decreases length
    ensures v.Some? ==> |v.value| <= length
  {
    if i < |s| && length > 0 then
      var (b, end) := Strtoul(s, i);
      if b > 0xFF then None else Prepend([b], Values(s, end, length - 1))
    else Some([])
  }

  /** The length and where the values begin; None for a line to be ignored. */
  function LengthField(s: string): (f: Option<(nat, nat)>)
    ensures f.Some? ==> f.value.1 <= |s|
  {
    if s == [] || s[0] == NUL then None
    else
      var (length, end) := Strtoul(s, 0);
      if |s| < end + 1 || s[end] != ':' then None else Some((length, end + 1))
  }

  function Decoding(s: string): (d: Decoded)
    ensures d.Some? ==> |d.value.0| <= d.value.1
  {
    match LengthField(s)
    case None => Some(([], 0))
    case Some((length, start)) => Reported(Values(s, start, length), length)
  }

  /** A line without a length and a colon is taken for an empty APDU. */
  lemma IgnoredLines(s: string)
    requires s == [] || s[0] == NUL || Strtoul(s, 0).1 >= |s| || s[Strtoul(s, 0).1] != ':'
    ensures Decoding(s) == Some(([], 0))
  {
  }

  lemma PrependTwice(p: seq<byte>, q: seq<byte>, v: Option<seq<byte>>)
    ensures Prepend(p, Prepend(q, v)) == Prepend(p + q, v)
    ensures Prepend([], v) == v
  {
    if v.Some? {
      assert p + (q + v.value) == p + q + v.value;
      assert [] + v.value == v.value;
    }
  }

  method ReadLength(inbuf: string) returns (f: Option<(nat, nat)>)
    ensures f == LengthField(inbuf)
  {
    if |inbuf| == 0 || inbuf[0] == NUL {
      return None;
    }
    var (length, end) := Strtoul(inbuf, 0);
    if |inbuf| < end + 1 || inbuf[end] != ':' {
      return None;
    }
    end := end + 1;
    f := Some((length, end));
  }

  /** picc_decode_apdu.  The bytes written may be fewer than the length
      reported, if the line is too short. */
  method DecodeApdu(inbuf: string) returns (d: Decoded)
    ensures d == Decoding(inbuf)
  {
    var f := ReadLength(inbuf);
    match f {
      case None => d := Some(([], 0));
      case Some((length, start)) =>
        var v := DecodeValues(inbuf, start, length);
        d := Reported(v, length);
    }
  }

  /** Its loop. */
  method DecodeValues(inbuf: string, start: nat, length: nat) returns (v: Option<seq<byte>>)
    requires start <= |inbuf|
    ensures v == Values(inbuf, start, length)
  {
    var end: nat, pos: nat, p: seq<byte> := start, 0, [];
    PrependTwice([], [], Values(inbuf, start, length));
    while |inbuf| > end && length > pos
      invariant pos <= length && end <= |inbuf|
      invariant Values(inbuf, start, length) == Prepend(p, Values(inbuf, end, length - pos))
      decreases length - pos
    {
      var (b, next) := Strtoul(inbuf, end);
      if b > 0xFF {
        return None;
      }
      PrependTwice(p, [b], Values(inbuf, next, length - pos - 1));
      p, pos, end := p + [b], pos + 1, next;
    }
    assert p + [] == p;
    v := Some(p);
  }

  // ------------------------------------------------------------------ a line is read back

  lemma HexCharIsDigit(d: nat)
    requires d < 16
    ensures Digit(HexChar(d)) == Some(d)
    ensures HexChar(d) !in {NUL, ':', ' ', '-', '+', 'x', 'X'} && !IsSpace(HexChar(d))
  {
  }

  lemma OneDigit(s: string, i: nat, n: nat, d: nat)
    requires i < |s| && d < 16 && s[i] == HexChar(d)
    ensures Accumulate(s, i, n) == Accumulate(s, i + 1, 16 * n + d) && DigitAt(s, i)
  {
    HexCharIsDigit(d);
  }

  lemma HexInFront(s: string, i: nat, n: nat)
    requires n >= 16 && i + |Hex(n)| <= |s| && s[i..i + |Hex(n)|] == Hex(n)
    ensures |Hex(n)| == |Hex(n / 16)| + 1
    ensures s[i..i + |Hex(n / 16)|] == Hex(n / 16) && s[i + |Hex(n / 16)|] == HexChar(n % 16)
  {
    var h, g := Hex(n), Hex(n / 16);
    assert h == g + [HexChar(n % 16)];
    assert s[i..i + |g|] == s[i..i + |h|][..|g|] && s[i + |g|] == s[i..i + |h|][|g|];
  }

  /** Reading hex digits goes through the number they spell. */
  lemma {:induction false} HexAccumulates(s: string, i: nat, n: nat)
    requires i + |Hex(n)| <= |s| && s[i..i + |Hex(n)|] == Hex(n)
    ensures Accumulate(s, i, 0) == Accumulate(s, i + |Hex(n)|, n)
    ensures DigitAt(s, i) && !IsSpace(s[i]) && s[i] != '-' && s[i] != '+' && s[i] != NUL
    ensures |Hex(n)| > 1 ==> DigitAt(s, i + 1)
    decreases n
  {
    if n >= 16 {
      HexInFront(s, i, n);
      HexAccumulates(s, i, n / 16);
      OneDigit(s, i + |Hex(n / 16)|, n / 16, n % 16);
      assert 16 * (n / 16) + n % 16 == n;
    } else {
      assert s[i] == s[i..i + 1][0] == HexChar(n);
      HexCharIsDigit(n);
      OneDigit(s, i, 0, n);
    }
  }

  lemma StrtoulOfHex(s: string, i: nat, n: nat)
    requires i + |Hex(n)| < |s| && s[i..i + |Hex(n)|] == Hex(n)
    requires Digit(s[i + |Hex(n)|]).None? && s[i + |Hex(n)|] !in {'x', 'X'} && n <= ULONG_MAX
    ensures Strtoul(s, i) == (n, i + |Hex(n)|)
    ensures s[i] != NUL
  {
    HexAccumulates(s, i, n);
    assert SkipSpace(s, i) == i;
    assert Accumulate(s, i + |Hex(n)|, n) == (n, i + |Hex(n)|);
  }

  lemma StrtoulOfCell(s: string, i: nat, b: byte)
    requires i + 3 <= |s| && s[i..i + 3] == Cell(b)
    requires i + 3 == |s| || s[i + 3] == ' '
    ensures Strtoul(s, i) == (b, i + 3)
  {
    assert s[i] == ' ' && s[i + 1] == HexChar(b / 16) && s[i + 2] == HexChar(b % 16);
    HexCharIsDigit(b / 16);
    HexCharIsDigit(b % 16);
    assert SkipSpace(s, i) == SkipSpace(s, i + 1) == i + 1;
    assert Accumulate(s, i + 1, 0) == Accumulate(s, i + 2, b / 16) == Accumulate(s, i + 3, b) == (b, i + 3);
  }

  lemma FirstCell(s: string, i: nat, b: seq<byte>)
    requires i <= |s| && s[i..] == Cells(b) && b != []
    ensures i + 3 <= |s| && s[i + 3..] == Cells(b[1..]) && Strtoul(s, i) == (b[0], i + 3)
  {
    assert s[i..][..3] == Cell(b[0]) && s[i..][3..] == Cells(b[1..]);
    assert s[i..i + 3] == Cell(b[0]) && s[i + 3..] == Cells(b[1..]);
    if i + 3 < |s| {
      assert s[i + 3] == s[i + 3..][0] == ' ';
    }
    StrtoulOfCell(s, i, b[0]);
  }

  lemma OneValue(s: string, i: nat, end: nat, length: nat, b: byte)
    requires i < |s| && end <= |s| && length > 0 && Strtoul(s, i) == (b, end)
    ensures Values(s, i, length) == Prepend([b], Values(s, end, length - 1))
  {
  }

  lemma {:induction false} ValuesOfCells(s: string, i: nat, b: seq<byte>)
    requires i <= |s| && s[i..] == Cells(b)
    ensures Values(s, i, |b|) == Some(b)
    decreases |b|
  {
    if b != [] {
      FirstCell(s, i, b);
      ValuesOfCells(s, i + 3, b[1..]);
      OneValue(s, i, i + 3, |b|, b[0]);
      assert [b[0]] + b[1..] == b;
    }
  }

  lemma HeaderIsRead(s: string, n: nat, body: string)
    requires s == Hex(n) + ":" + body && n <= ULONG_MAX
    ensures s[0] != NUL && Strtoul(s, 0) == (n, |Hex(n)|)
    ensures s[|Hex(n)|] == ':' && s[|Hex(n)| + 1..] == body
    ensures Decoding(s) == Reported(Values(s, |Hex(n)| + 1, n), n)
  {
    var h := Hex(n);
    assert s[0..0 + |h|] == h && s[|h|] == ':' && s[|h| + 1..] == body;
    StrtoulOfHex(s, 0, n);
  }

  /** The line of any data is decoded to just those data. */
  lemma LineRoundTrip(b: seq<byte>)
    requires |b| <= ULONG_MAX
    ensures Decoding(Line(b)) == Some((b, |b|))
  {
    HeaderIsRead(Line(b), |b|, Cells(b));
    ValuesOfCells(Line(b), |Hex(|b|)| + 1, b);
  }

  // ------------------------------------------------------------------ encoding

  /** The C string at the start of a buffer. */
  function CString(s: string): (c: string)
  {
    if s == [] || s[0] == NUL then "" else [s[0]] + CString(s[1..])
  }

  lemma {:induction false} CStringOf(s: string, t: string)
    requires NulFree(t) && |t| < |s| && s[..|t|] == t && s[|t|] == NUL
    ensures CString(s) == t
    decreases |t|
  {
    if t != [] {
      assert s[0] == s[..|t|][0];
      assert s[1..][..|t| - 1] == t[1..];
      CStringOf(s[1..], t[1..]);
    }
  }

  lemma {:induction false} HexLength(n: nat)
    ensures |Hex(n)| == 1 <==> n < 0x10
    ensures |Hex(n)| <= 3 <==> n < 0x1000
    ensures |Hex(n)| <= 4 <==> n < 0x10000
    ensures NulFree(Hex(n))
    decreases n
  {
    HexCharIsDigit(n % 16);
    if n >= 16 {
      HexLength(n / 16);
      if n / 16 >= 16 {
        HexLength(n / 256);
        assert n / 256 == n / 16 / 16;
      }
    }
  }

  lemma {:induction false} CellsSnoc(b: seq<byte>, c: byte)
    ensures Cells(b + [c]) == Cells(b) + Cell(c)
  {
    if b == [] {
    } else {
      assert (b + [c])[1..] == b[1..] + [c];
      CellsSnoc(b[1..], c);
    }
  }

  lemma {:induction false} CellsNulFree(b: seq<byte>)
    ensures NulFree(Cells(b))
  {
    if b != [] {
      HexCharIsDigit(b[0] / 16);
      HexCharIsDigit(b[0] % 16);
      CellsNulFree(b[1..]);
    }
  }

  /** sprintf into a buffer: the characters and a NUL behind them. */
  method Sprintf(p: array<char>, at: nat, s: string)
    requires at + |s| < p.Length
    modifies p
    ensures p[..] == old(p[..at]) + s + [NUL] + old(p[at + |s| + 1..])
  {
    var i := 0;
    while i < |s|
      invariant 0 <= i <= |s|
      invariant forall k :: 0 <= k < i ==> p[at + k] == s[k]
      invariant forall k :: 0 <= k < p.Length && !(at <= k < at + i) ==> p[k] == old(p[k])
    {
      p[at + i] := s[i];
      i := i + 1;
    }
    p[at + i] := NUL;
  }

  const COLUMNS := 5    // reserved for the length and the colon

  /** What picc_encode_rapdu leaves as a C string in its buffer. */
  function Emitted(b: seq<byte>): (s: string)
  {
    if 0 < |b| < 0x1000 then Hex(|b|) + ":" else Line(b)
  }

  /** picc_encode_rapdu. */
  method EncodeRapdu(inbuf: seq<byte>) returns (ok: bool, p: array<char>)
    ensures ok <==> |inbuf| <= 0xFFFF
    ensures ok ==> p.Length == COLUMNS + 3 * |inbuf| + 1 && CString(p[..]) == Emitted(inbuf)
  {
    if |inbuf| > 0xFFFF {
      p := new char[0];
      return false, p;
    }
    HexLength(|inbuf|);
    var header := Hex(|inbuf|) + ":";
    p := new char[COLUMNS + 3 * |inbuf| + 1];
    Sprintf(p, 0, header);
    EncodeCells(p, inbuf, header);
    ok := true;
    Finished(p[..], inbuf);
  }

  /** A buffer with the header and the cells of the first bytes. */
  predicate Encoded(s: string, b: seq<byte>, next: nat, header: string)
  {
    && next <= |b| && |s| == COLUMNS + 3 * |b| + 1
    && |header| <= COLUMNS && s[..|header|] == header
    && (|header| < COLUMNS || next == 0 ==> s[|header|] == NUL)
    && (next > 0 ==> s[COLUMNS + 3 * next] == NUL && s[COLUMNS..COLUMNS + 3 * next] == Cells(b[..next]))
  }

  /** Its loop. */
  method EncodeCells(p: array<char>, inbuf: seq<byte>, ghost header: string)
    requires Encoded(p[..], inbuf, 0, header)
    modifies p
    ensures Encoded(p[..], inbuf, |inbuf|, header)
  {
    var next := 0;
    while next < |inbuf|
      invariant Encoded(p[..], inbuf, next, header)
    {
      ghost var before := p[..];
      Sprintf(p, COLUMNS + 3 * next, Cell(inbuf[next]));
      Grown(before, p[..], inbuf, next, header);
      next := next + 1;
    }
  }

  /** One more cell behind the ones before it. */
  lemma Grown(before: string, s: string, b: seq<byte>, next: nat, header: string)
    requires Encoded(before, b, next, header) && next < |b|
    requires var at := COLUMNS + 3 * next;
             s == before[..at] + Cell(b[next]) + [NUL] + before[at + 4..]
    ensures Encoded(s, b, next + 1, header)
  {
    var at := COLUMNS + 3 * next;
    assert b[..next + 1] == b[..next] + [b[next]];
    CellsSnoc(b[..next], b[next]);
    assert s[COLUMNS..at + 3] == before[COLUMNS..at] + Cell(b[next]);
    if next == 0 {
      assert before[COLUMNS..at] == [] == Cells(b[..next]);
    }
  }

  lemma Finished(s: string, b: seq<byte>)
    requires |b| <= 0xFFFF && Encoded(s, b, |b|, Hex(|b|) + ":")
    ensures CString(s) == Emitted(b)
  {
    HexLength(|b|);
    CellsNulFree(b);
    assert b[..|b|] == b;
    var header := Hex(|b|) + ":";
    if |header| < COLUMNS || b == [] {
      CStringOf(s, header);
    } else {
      assert s[..|Line(b)|] == Line(b);
      CStringOf(s, Line(b));
    }
  }

  /** The line is complete, and decodes to the data, exactly if there are none
      or at least 0x1000 bytes: a shorter length leaves its NUL in front of the
      columns of the data. */
  lemma EmittedIsTheLineExactlyIf(b: seq<byte>)
    requires |b| <= 0xFFFF
    ensures Emitted(b) == Line(b) <==> b == [] || |b| >= 0x1000
    ensures Decoding(Emitted(b)) == Some((b, |b|)) <==> b == [] || |b| >= 0x1000
  {
    LineRoundTrip(b);
    if 0 < |b| < 0x1000 {
      var s := Emitted(b);
      assert s == s + "";
      HeaderIsRead(s, |b|, "");
      assert |Line(b)| > |s|;
    }
  }
}

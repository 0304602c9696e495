/** The PIN block of PC_to_RDR_Secure (ccid/src/ccid.c:780-937 and 1392-1454). */
module PinBlock {
  import opened Basics
  import opened Bytes

  /** `LeavesBlock`: the code writes outside the block, or has the library build
      the PIN there, and does not notice; the model stops there.  `Unbuilt` is
      any failure of the library. */
  datatype Outcome = Success | InvalidArguments | OutOfMemory | NotSupported | Internal | Unbuilt | LeavesBlock

  /** Bit 1 of bmFormatString: the code encodes the PIN itself, or has the
      library build it in ASCII. */
  datatype Encoding = Binary | Ascii

  const BLOCK_BYTES := 15    // sizeof apdu_data

  predicate IsDigit(c: byte) { '0' as int <= c <= '9' as int }

  predicate AllDigits(pin: seq<byte>)
  {
    forall i :: 0 <= i < |pin| ==> IsDigit(pin[i])
  }

  /** The binary encoding: one byte a digit. */
  function Digits(pin: seq<byte>): (s: seq<byte>)
    requires AllDigits(pin)
    ensures |s| == |pin|
    ensures forall i :: 0 <= i < |pin| ==> s[i] == pin[i] - '0' as int
  {
    seq(|pin|, i requires 0 <= i < |pin| => pin[i] - '0' as int)
  }

  /** The ten digits of ASCII and no other character have a value: their own. */
  lemma DigitsAndTheirValues(c: byte)
    ensures AllDigits([c]) <==> 0x30 <= c < 0x3A
    ensures AllDigits([c]) ==> Digits([c]) == [c - 0x30]
  {
    assert [c][0] == c;
    assert AllDigits([c]) <==> IsDigit(c);
  }

  /** The character of a digit as the card takes it back out of the block. */
  function Character(d: byte): (c: byte)
  {
    if d < 208 then d + '0' as int else d - 208
  }

  function Text(s: seq<byte>): (pin: seq<byte>)
    ensures |pin| == |s|
    ensures forall i :: 0 <= i < |s| ==> pin[i] == Character(s[i])
  {
    seq(|s|, i requires 0 <= i < |s| => Character(s[i]))
  }

  /** A block holding the data at `at`, otherwise unchanged. */
  function Placed(block: seq<byte>, at: nat, data: seq<byte>): (s: seq<byte>)
    requires at + |data| <= |block|
    ensures |s| == |block|
  {
    block[..at] + data + block[at + |data|..]
  }

  lemma PlacedThere(before: seq<byte>, after: seq<byte>, at: nat, data: seq<byte>)
    requires at + |data| <= |before| && after == Placed(before, at, data)
    ensures |after| == |before| && after[at..at + |data|] == data && data <= after[at..]
  {
    assert after[at..][..|data|] == data;
  }

  /** The PIN can be encoded: it is all digits, or the library has built it. */
  predicate Encodable(pin: seq<byte>, encoding: Encoding, built: Option<seq<byte>>)
  {
    if encoding == Binary then AllDigits(pin) else built.Some?
  }

  function Encoded(pin: seq<byte>, encoding: Encoding, built: Option<seq<byte>>): (data: seq<byte>)
    requires Encodable(pin, encoding, built)
  {
    if encoding == Binary then Digits(pin) else built.value
  }

  /** encode_pin in binary: the loop over the PIN and the room left for it. */
  method EncodeDigits(buf: array<byte>, at: nat, length: nat, pin: seq<byte>) returns (result: Outcome)
    requires at + length <= buf.Length
    modifies buf
    ensures result.Success? <==> |pin| <= length && AllDigits(pin)
    ensures result.OutOfMemory? <==> |pin| > length && AllDigits(pin[..length])
    ensures result in {Success, OutOfMemory, InvalidArguments}
    ensures result.Success? ==> buf[..] == Placed(old(buf[..]), at, Digits(pin))
    ensures buf[..at] == old(buf[..at]) && buf[at + length..] == old(buf[at + length..])
  {
    var i := 0;
    while i < |pin| && i < length
      invariant 0 <= i <= |pin| && i <= length
      invariant AllDigits(pin[..i])
      invariant forall k :: 0 <= k < i ==> buf[at + k] == pin[k] - '0' as int
      invariant forall k :: 0 <= k < buf.Length && !(at <= k < at + i) ==> buf[k] == old(buf[k])
    {
      if !IsDigit(pin[i]) {
        return InvalidArguments;
      }
      buf[at + i] := pin[i] - '0' as int;
      i := i + 1;
    }
    if i == length && i < |pin| {
      return OutOfMemory;
    }
    assert pin[..i] == pin;
    result := Success;
  }

  /** encode_pin.  `built` is what sc_build_pin puts into the room it is given,
      or None if it fails, and then `rest` is what it leaves there. */
  method EncodePin(buf: array<byte>, at: nat, length: nat, pin: seq<byte>,
                   encoding: Encoding, built: Option<seq<byte>>, rest: seq<byte>)
    returns (result: Outcome)
    requires at + length <= buf.Length && |rest| == length && (built.Some? ==> |built.value| <= length)
    modifies buf
    ensures result.Success? <==> Encodable(pin, encoding, built) && (encoding == Binary ==> |pin| <= length)
    ensures result.OutOfMemory? <==> encoding == Binary && |pin| > length && AllDigits(pin[..length])
    ensures result.Unbuilt? <==> encoding == Ascii && built.None?
    ensures result in {Success, OutOfMemory, InvalidArguments, Unbuilt}
    ensures result.Success? ==> buf[..] == Placed(old(buf[..]), at, Encoded(pin, encoding, built))
    ensures buf[..at] == old(buf[..at]) && buf[at + length..] == old(buf[at + length..])
  {
    if encoding == Binary {
      result := EncodeDigits(buf, at, length, pin);
    } else {
      var data := if built.Some? then built.value else rest;
      forall i | 0 <= i < |data| {
        buf[at + i] := data[i];
      }
      assert buf[..] == Placed(old(buf[..]), at, data);
      result := if built.Some? then Success else Unbuilt;
    }
  }

  /** A right-aligned PIN that is longer than the block is written outside it as
      soon as there is something to write: the library is given the room there,
      and the loop writes its first digit. */
  predicate WritesOutside(pin: seq<byte>, blocksize: nat, justifyRight: bool, encoding: Encoding)
  {
    justifyRight && |pin| > blocksize && (encoding == Binary ==> IsDigit(pin[0]))
  }

  /** write_pin.  For a right-aligned PIN that is longer than the block the
      8-bit offset wraps around, to somewhere behind the block, and the room
      left there is a negative number taken for a huge one. */
  method WritePin(block: array<byte>, pin: seq<byte>, blocksize: nat, justifyRight: bool,
                  encoding: Encoding, built: Option<seq<byte>>, rest: seq<byte>)
    returns (result: Outcome)
    requires blocksize <= block.Length && blocksize < 0x100 && |pin| < 0x100
    requires |rest| == (if justifyRight then |pin| else blocksize) && (built.Some? ==> |built.value| <= |rest|)
    modifies block
    ensures result.LeavesBlock? <==> WritesOutside(pin, blocksize, justifyRight, encoding)
    ensures result.Success? <==>
              && Encodable(pin, encoding, built)
              && (justifyRight || encoding == Binary ==> |pin| <= blocksize)
    ensures result.OutOfMemory? <==>
              encoding == Binary && !justifyRight && |pin| > blocksize && AllDigits(pin[..blocksize])
    ensures result.Unbuilt? <==>
              encoding == Ascii && built.None? && !WritesOutside(pin, blocksize, justifyRight, encoding)
    ensures !result.NotSupported? && !result.Internal?
    ensures result.Success? ==>
              block[..] == Placed(old(block[..]), Edge(blocksize, |pin|, justifyRight), Encoded(pin, encoding, built))
    ensures result.Success? && justifyRight && encoding == Binary ==> block[blocksize - |pin|..blocksize] == Digits(pin)
    ensures result.Success? && justifyRight && encoding == Ascii ==> built.value <= block[blocksize - |pin|..]
    ensures result.Success? && !justifyRight ==> Encoded(pin, encoding, built) <= block[..]
    ensures block[blocksize..] == old(block[blocksize..])
  {
    var justifyOffset: nat := 0;
    if justifyRight {
      justifyOffset := (blocksize - |pin|) % 0x100;
    }
    if justifyOffset > blocksize {
      // the first character is tested before it is written
      return if encoding == Binary && !IsDigit(pin[0]) then InvalidArguments else LeavesBlock;
    }
    result := EncodePin(block, justifyOffset, blocksize - justifyOffset, pin, encoding, built, rest);
    if result.Success? {
      PlacedThere(old(block[..]), block[..], justifyOffset, Encoded(pin, encoding, built));
    }
  }

  function Edge(blocksize: nat, length: nat, justifyRight: bool): (at: nat)
    requires justifyRight ==> length <= blocksize
  {
    if justifyRight then blocksize - length else 0
  }

  /** get_datasize_for_pin: the least number of bytes with room for the PIN at
      its offset, packed two digits a byte if it is in BCD, and for its length. */
  function DataSize(length: nat, offset: nat, bcd: bool, lengthSize: nat): (n: nat)
    ensures n >= offset && (if bcd then 2 * (n - offset) else n - offset) >= length && 8 * n >= lengthSize
    ensures n == 0 || 8 * (n - 1) < lengthSize || n == offset ||
            (if bcd then 2 * (n - 1 - offset) else n - 1 - offset) < length
  {
    var bytesForLength := (lengthSize + 7) / 8;
    var bytesForPin := offset + if bcd then (length + 1) / 2 else length;
    if bytesForLength > bytesForPin then bytesForLength else bytesForPin
  }

  /** The size of the block for a PIN whose offset and encoding are not set yet. */
  function BlockSize(length: nat, lengthSize: nat): (n: nat)
  {
    DataSize(length, 0, false, lengthSize)
  }

  /** PIN verification when the host sends no data for the PIN block: the block
      is sized for the PIN.  It starts as whatever the stack held. */
  method VerificationBlock(block: array<byte>, pin: seq<byte>, lengthSize: nat, justifyRight: bool,
                           encoding: Encoding, built: Option<seq<byte>>, rest: seq<byte>)
    returns (result: Outcome, lc: nat)
    requires block.Length == BLOCK_BYTES && lengthSize < 16 && |pin| < 0x100
    requires |rest| == (if justifyRight then |pin| else BlockSize(|pin|, lengthSize))
    requires built.Some? ==> |built.value| <= |rest|
    modifies block
    ensures lc == BlockSize(|pin|, lengthSize)
    ensures result.Internal? <==> lc > 15
    ensures result.Unbuilt? <==> lc <= BLOCK_BYTES && encoding == Ascii && built.None?
    ensures result.NotSupported? <==> lc <= BLOCK_BYTES && Encodable(pin, encoding, built) && lengthSize !in {0, 8}
    ensures !result.OutOfMemory? && !result.LeavesBlock?
    ensures result.Success? <==> lc <= BLOCK_BYTES && Encodable(pin, encoding, built) && lengthSize in {0, 8}
    ensures result.Success? ==>
              block[..] == Filled(old(block[..]), |pin|, Encoded(pin, encoding, built), lengthSize, justifyRight)
    ensures lc <= BLOCK_BYTES ==> block[lc..] == old(block[lc..])
  {
    lc := BlockSize(|pin|, lengthSize);
    if lc > BLOCK_BYTES {
      return Internal, lc;
    }
    result := WritePin(block, pin, lc, justifyRight, encoding, built, rest);
    if !result.Success? {
      return;
    }
    if lengthSize != 0 {
      if lengthSize != 8 {
        return NotSupported, lc;
      }
      block[0] := |pin|;
    }
  }

  /** The finished block: the PIN at its edge, and then its length over the
      first byte if a length is asked for. */
  function Filled(block: seq<byte>, length: nat, data: seq<byte>, lengthSize: nat, justifyRight: bool): (s: seq<byte>)
    requires |block| == BLOCK_BYTES && lengthSize in {0, 8} && BlockSize(length, lengthSize) <= BLOCK_BYTES
    requires |data| <= if justifyRight then length else BlockSize(length, lengthSize)
  {
    var s := Placed(block, Edge(BlockSize(length, lengthSize), length, justifyRight), data);
    if lengthSize == 0 then s else s[0 := length]
  }

  lemma {:induction false} TextOfDigits(pin: seq<byte>)
    requires AllDigits(pin)
    ensures Text(Digits(pin)) == pin
  {
  }

  lemma SameText(s: seq<byte>, pin: seq<byte>)
    requires |s| == |pin|
    requires forall i :: 1 <= i < |s| ==> Character(s[i]) == pin[i]
    ensures Text(s) == pin <==> s == [] || Character(s[0]) == pin[0]
  {
  }

  lemma OverwrittenText(pin: seq<byte>)
    requires AllDigits(pin) && 0 < |pin| <= BLOCK_BYTES
    ensures Text(Digits(pin)[0 := |pin|]) == pin <==> pin[0] == |pin| + '0' as int
  {
    var s := Digits(pin)[0 := |pin|];
    forall i | 1 <= i < |s| ensures Character(s[i]) == pin[i] {
      assert s[i] == Digits(pin)[i];
    }
    SameText(s, pin);
  }

  lemma PlacedAtEdge(block: seq<byte>, at: nat, data: seq<byte>, first: byte)
    requires at + |data| <= |block|
    ensures Placed(block, at, data)[at..at + |data|] == data
    ensures data != [] && at == 0 ==> Placed(block, 0, data)[0 := first][..|data|] == data[0 := first]
  {
  }

  /** The card finds the PIN at its edge of the block exactly if no length was
      written, the PIN is empty, or its first digit happens to be its length:
      a block sized for the PIN leaves the length no byte of its own. */
  lemma PinSurvivesItsLength(block: seq<byte>, pin: seq<byte>, lengthSize: nat, justifyRight: bool)
    requires |block| == BLOCK_BYTES && AllDigits(pin)
    requires lengthSize in {0, 8} && BlockSize(|pin|, lengthSize) <= BLOCK_BYTES
    ensures var at := Edge(BlockSize(|pin|, lengthSize), |pin|, justifyRight);
            Text(Filled(block, |pin|, Digits(pin), lengthSize, justifyRight)[at..at + |pin|]) == pin
            <==> lengthSize == 0 || pin == [] || pin[0] == |pin| + '0' as int
  {
    var at := Edge(BlockSize(|pin|, lengthSize), |pin|, justifyRight);
    PlacedAtEdge(block, at, Digits(pin), |pin|);
    TextOfDigits(pin);
    if lengthSize == 8 && pin != [] {
      OverwrittenText(pin);
    }
  }
}

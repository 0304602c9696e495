/** The ATR scanner of BixVReader (Reader.cpp, initProtocols) against a
    recursive reading of the interface bytes of section 8.2 of
    ISO/IEC 7816-3:2006, and the protocol choice built on it. */
module AtrScan {
  import opened Bytes

  // ------------------------------------------------------------------ bit masks

  /** Bit k of a mask. */
  predicate Bit(mask: nat, k: nat)
  {
    if k == 0 then mask % 2 == 1 else Bit(mask / 2, k - 1)
  }

  /** mask | (1 << k) */
  function SetBit(mask: nat, k: nat): (m: nat)
  {
    if k == 0 then (if mask % 2 == 1 then mask else mask + 1)
    else mask % 2 + 2 * SetBit(mask / 2, k - 1)
  }

  lemma {:induction false} SetBitSetsOne(mask: nat, k: nat, j: nat)
    ensures Bit(SetBit(mask, k), j) <==> Bit(mask, j) || j == k
    ensures SetBit(mask, k) > 0
  {
    if k > 0 {
      SetBitSetsOne(mask / 2, k - 1, if j > 0 then j - 1 else 0);
    }
  }

  // ------------------------------------------------------------------ the standard's reading

  /** TAi, TBi, TCi announced by a Y nibble. */
  function BytesBeforeTD(y: nat): (n: nat)
  {
    y % 2 + y / 2 % 2 + y / 4 % 2
  }

  /** The TDi bytes of the interface bytes s that Y announces: TDi follows the
      TAi, TBi and TCi of its block and announces the next block. */
  function TDBytes(s: seq<byte>, y: nat): (tds: seq<byte>)
    decreases |s|, 1
  {
    FromTD(s, BytesBeforeTD(y), y / 8 % 2 != 0)
  }

  function FromTD(s: seq<byte>, n: nat, says: bool): (tds: seq<byte>)
    decreases |s|, 0
  {
    if !says || n >= |s| then [] else [s[n]] + TDBytes(s[n + 1..], s[n] / 16)
  }

  /** The TDi bytes of an ATR: T0 announces the first block. */
  function Chain(atr: seq<byte>): (tds: seq<byte>)
  {
    if |atr| < 2 then [] else TDBytes(atr[2..], atr[1] / 16)
  }

  predicate Offers(tds: seq<byte>, k: nat)
  {
    exists i :: 0 <= i < |tds| && tds[i] % 16 == k
  }

  function Offered(tds: seq<byte>, mask: nat): (m: nat)
  {
    if tds == [] then mask else Offered(tds[1..], SetBit(mask, tds[0] % 16))
  }

  lemma {:induction false} OfferedBits(tds: seq<byte>, mask: nat, k: nat)
    ensures Bit(Offered(tds, mask), k) <==> Bit(mask, k) || Offers(tds, k)
    ensures Offered(tds, mask) == 0 <==> mask == 0 && tds == []
  {
    if tds != [] {
      OfferedBits(tds[1..], SetBit(mask, tds[0] % 16), k);
      SetBitSetsOne(mask, tds[0] % 16, k);
      assert Offers(tds[1..], k) ==> Offers(tds, k) by {
        if Offers(tds[1..], k) {
          var i :| 0 <= i < |tds| - 1 && tds[1..][i] % 16 == k;
          assert tds[i + 1] % 16 == k;
        }
      }
      assert Offers(tds, k) ==> Offers(tds[1..], k) || tds[0] % 16 == k by {
        if Offers(tds, k) {
          var i :| 0 <= i < |tds| && tds[i] % 16 == k;
          assert i > 0 ==> tds[1..][i - 1] % 16 == k;
        }
      }
    }
  }

  // ------------------------------------------------------------------ the scanner's position

  /** What the scanner still has to find when it is about to look at s: `let`
      is the letter it stands at ('A' is 0, 'D' is 3) and y the announcement,
      already shifted to that letter. */
  function Rest(s: seq<byte>, letter: nat, y: nat): (tds: seq<byte>)
    requires letter <= 3
    decreases |s|, 3 - letter
  {
    if s == [] || y == 0 then []
    else if y % 2 == 0 then (if letter < 3 then Rest(s, letter + 1, y / 2) else [])
    else if letter < 3 then Rest(s[1..], letter, y - 1)
    else [s[0]] + Rest(s[1..], 0, s[0] / 16)
  }

  /** The scanner's letter 'D' announces one bit, 'C' two, and so on. */
  predicate Announced(letter: nat, y: nat)
  {
    letter <= 3 && y < (if letter == 0 then 16 else if letter == 1 then 8 else if letter == 2 then 4 else 2)
  }

  /** How many bytes the announcement puts before TDi, from this letter on. */
  function Skips(letter: nat, y: nat): (n: nat)
  {
    match letter
    case 0 => BytesBeforeTD(y)
    case 1 => y % 2 + y / 2 % 2
    case 2 => y % 2
    case _ => 0
  }

  /** Whether it announces TDi. */
  predicate SaysTD(letter: nat, y: nat)
  {
    match letter
    case 0 => y / 8 % 2 != 0
    case 1 => y / 4 % 2 != 0
    case 2 => y / 2 % 2 != 0
    case _ => y % 2 != 0
  }

  lemma Shifted(letter: nat, y: nat)
    requires letter < 3 && Announced(letter, y) && y % 2 == 0
    ensures Announced(letter + 1, y / 2)
    ensures Skips(letter + 1, y / 2) == Skips(letter, y) && SaysTD(letter + 1, y / 2) == SaysTD(letter, y)
  {
  }

  lemma OddHalf(y: nat)
    requires y % 2 == 1
    ensures (y - 1) % 2 == 0 && (y - 1) / 2 == y / 2
  {
  }

  lemma Halved(y: nat)
    ensures y / 4 == y / 2 / 2 && y / 8 == y / 4 / 2
  {
  }

  lemma OddHalves(y: nat)
    requires y % 2 == 1
    ensures (y - 1) % 2 == 0 && (y - 1) / 2 == y / 2 && (y - 1) / 4 == y / 4 && (y - 1) / 8 == y / 8
  {
    OddHalf(y);
    Halved(y);
    Halved(y - 1);
  }

  lemma Skipped(letter: nat, y: nat)
    requires letter < 3 && Announced(letter, y) && y % 2 == 1
    ensures Announced(letter, y - 1)
    ensures Skips(letter, y - 1) == Skips(letter, y) - 1 && SaysTD(letter, y - 1) == SaysTD(letter, y)
  {
    OddHalves(y);
  }

  lemma OneLater(s: seq<byte>, n: nat, says: bool)
    requires s != [] && n > 0
    ensures FromTD(s, n, says) == FromTD(s[1..], n - 1, says)
  {
    if n < |s| {
      assert s[1..][n - 1] == s[n] && s[1..][n..] == s[n + 1..];
    }
  }

  /** Letter by letter or block by block. */
  lemma {:induction false} RestIsFromTD(s: seq<byte>, letter: nat, y: nat)
    requires Announced(letter, y)
    ensures Rest(s, letter, y) == FromTD(s, Skips(letter, y), SaysTD(letter, y))
    decreases |s|, 3 - letter
  {
    if s == [] || y == 0 {
    } else if y % 2 == 0 {
      Shifted(letter, y);
      RestIsFromTD(s, letter + 1, y / 2);
    } else if letter < 3 {
      Skipped(letter, y);
      RestIsFromTD(s[1..], letter, y - 1);
      OneLater(s, Skips(letter, y), SaysTD(letter, y));
    } else {
      RestIsFromTD(s[1..], 0, s[0] / 16);
      BlockIsFromTD(s[1..], s[0] / 16);
    }
  }

  lemma BlockIsFromTD(s: seq<byte>, y: nat)
    requires y < 16
    ensures FromTD(s, Skips(0, y), SaysTD(0, y)) == TDBytes(s, y)
  {
  }

  /** Shifting through the letters one at a time is the recursive reading. */
  lemma {:induction false} RestIsTDBytes(s: seq<byte>, y: nat)
    requires y < 16
    ensures Rest(s, 0, y) == TDBytes(s, y)
  {
    RestIsFromTD(s, 0, y);
    BlockIsFromTD(s, y);
  }

  // ------------------------------------------------------------------ what a scan leaves behind

  /** availableProtocol: one bit per protocol offered, or T=0 by default. */
  function Available(atr: seq<byte>): (mask: nat)
  {
    if Chain(atr) == [] then 1 else Offered(Chain(atr), 0)
  }

  lemma AvailableBits(atr: seq<byte>, k: nat)
    ensures Bit(Available(atr), k) <==> if Chain(atr) == [] then k == 0 else Offers(Chain(atr), k)
  {
    OfferedBits(Chain(atr), 0, k);
    SetBitSetsOne(0, 0, k);
    assert SetBit(0, 0) == 1;
    NoBitsInZero(k);
  }

  lemma {:induction false} NoBitsInZero(k: nat)
    ensures !Bit(0, k)
  {
    if k > 0 {
      NoBitsInZero(k - 1);
    }
  }

  /** The low nibble of the last TDi, which the scanner leaves in `protocol`. */
  function LastNibble(tds: seq<byte>, before: nat): (p: nat)
  {
    if tds == [] then before else LastNibble(tds[1..], tds[0] % 16)
  }

  const SCARD_PROTOCOL_T0 := 1
  const SCARD_PROTOCOL_T1 := 2

  datatype Choice = Chosen(protocol: nat) | NotSupported

  /** The chain of tests of IoSmartCardSetProtocol; bit 31 of the request is
      SCARD_PROTOCOL_DEFAULT. */
  function Choose(requested: nat, available: nat): (c: Choice)
  {
    if Bit(requested, 1) && Bit(available, 1) then Chosen(SCARD_PROTOCOL_T1)
    else if Bit(requested, 0) && Bit(available, 0) then Chosen(SCARD_PROTOCOL_T0)
    else if Bit(requested, 31) && Bit(available, 1) then Chosen(SCARD_PROTOCOL_T1)
    else if Bit(requested, 31) && Bit(available, 0) then Chosen(SCARD_PROTOCOL_T0)
    else NotSupported
  }

  /** T=k is on offer: some TDi names it, or none names anything and k is 0. */
  predicate OnOffer(atr: seq<byte>, k: nat)
  {
    Offers(Chain(atr), k) || (Chain(atr) == [] && k == 0)
  }

  lemma OfferIsAvailable(atr: seq<byte>, k: nat)
    ensures Bit(Available(atr), k) <==> OnOffer(atr, k)
  {
    AvailableBits(atr, k);
    assert Chain(atr) == [] ==> !Offers(Chain(atr), k);
  }

  lemma ChoiceByBits(requested: nat, available: nat)
    ensures var c := Choose(requested, available);
            && (c == Chosen(SCARD_PROTOCOL_T1) <==>
                  Bit(available, 1)
                  && (Bit(requested, 1) || (Bit(requested, 31) && !(Bit(requested, 0) && Bit(available, 0)))))
            && (c.NotSupported? <==>
                 && (Bit(available, 0) ==> !Bit(requested, 0) && !Bit(requested, 31))
                 && (Bit(available, 1) ==> !Bit(requested, 1) && !Bit(requested, 31)))
            && (c != Chosen(SCARD_PROTOCOL_T1) && !c.NotSupported? ==>
                 c == Chosen(SCARD_PROTOCOL_T0) && Bit(available, 0) && (Bit(requested, 0) || Bit(requested, 31)))
  {
  }

  /** After a scan of atr, the protocol set is one the card offers and the
      caller asked for (by name or by default), T=1 wins when both are
      requested and offered, and the call fails exactly when nothing requested
      is on offer. */
  lemma ChoiceIsOffered(atr: seq<byte>, requested: nat)
    ensures var c := Choose(requested, Available(atr));
            && (c == Chosen(SCARD_PROTOCOL_T1) ==> OnOffer(atr, 1) && (Bit(requested, 1) || Bit(requested, 31)))
            && (c == Chosen(SCARD_PROTOCOL_T0) ==> OnOffer(atr, 0) && (Bit(requested, 0) || Bit(requested, 31)))
            && (Bit(requested, 1) && OnOffer(atr, 1) ==> c == Chosen(SCARD_PROTOCOL_T1))
            && (c.NotSupported? <==>
                 forall k | 0 <= k <= 1 :: OnOffer(atr, k) ==> !Bit(requested, k) && !Bit(requested, 31))
            && (c.Chosen? ==> c.protocol == SCARD_PROTOCOL_T0 || c.protocol == SCARD_PROTOCOL_T1)
  {
    OfferIsAvailable(atr, 0);
    OfferIsAvailable(atr, 1);
    ChoiceByBits(requested, Available(atr));
  }

  // ------------------------------------------------------------------ the scanner

  /** Its inner loop: on to the next letter that is announced; without any,
      the historical bytes begin here. */
  method SkipLetters(ghost s: seq<byte>, letter: nat, y: nat) returns (isHist: bool, at: nat, left: nat)
    requires s != [] && Announced(letter, y)
    ensures isHist ==> Rest(s, letter, y) == []
    ensures !isHist ==> Announced(at, left) && left % 2 == 1 && Rest(s, at, left) == Rest(s, letter, y)
  {
    isHist, at, left := false, letter, y;
    while left % 2 == 0
      invariant Announced(at, left)
      invariant Rest(s, at, left) == Rest(s, letter, y)
      decreases 3 - at
    {
      at, left := at + 1, left / 2;
      if left == 0 {
        return true, at, left;
      }
    }
  }

  lemma AnnouncedByte(s: seq<byte>, letter: nat, y: nat)
    requires s != [] && Announced(letter, y) && y % 2 == 1
    ensures Rest(s, letter, y) == if letter < 3 then Rest(s[1..], letter, y - 1) else [s[0]] + Rest(s[1..], 0, s[0] / 16)
  {
  }

  /** The TDi bytes still to be read make up for what is missing so far. */
  predicate Completes(left: seq<byte>, available: nat, protocol: nat, chain: seq<byte>, before: nat)
  {
    Offered(left, available) == Offered(chain, 0) && LastNibble(left, protocol) == LastNibble(chain, before)
  }

  lemma OneFound(td: byte, left: seq<byte>, available: nat, protocol: nat, chain: seq<byte>, before: nat)
    requires Completes([td] + left, available, protocol, chain, before)
    ensures Completes(left, SetBit(available, td % 16), td % 16, chain, before)
  {
    assert ([td] + left)[1..] == left;
  }

  /** The body of the loop for a byte behind T0, which is the first of s. */
  method Look(s: seq<byte>, letter: nat, y: nat, protocol: nat, available: nat, ghost chain: seq<byte>, ghost before: nat)
    returns (isHist: bool, nextLetter: nat, nextY: nat, nextProtocol: nat, nextAvailable: nat)
    requires s != [] && Announced(letter, y) && Completes(Rest(s, letter, y), available, protocol, chain, before)
    ensures isHist || Announced(nextLetter, nextY)
    ensures Completes(if isHist then [] else Rest(s[1..], nextLetter, nextY), nextAvailable, nextProtocol, chain, before)
  {
    nextProtocol, nextAvailable := protocol, available;
    isHist, nextLetter, nextY := SkipLetters(s, letter, y);
    if isHist {
      return;
    }
    AnnouncedByte(s, nextLetter, nextY);
    nextY := nextY - 1;
    if nextLetter == 3 {
      OneFound(s[0], Rest(s[1..], 0, s[0] / 16), available, protocol, chain, before);
      nextProtocol := s[0] % 16;
      nextAvailable := SetBit(nextAvailable, nextProtocol);
      nextLetter, nextY := 0, s[0] / 16;
    }
  }

  lemma AtT0(atr: seq<byte>, before: nat)
    requires |atr| >= 2
    ensures Completes(Rest(atr[2..], 0, atr[1] / 16), 0, before, Chain(atr), before)
  {
    RestIsTDBytes(atr[2..], atr[1] / 16);
  }

  lemma AtEnd(atr: seq<byte>, available: nat, protocol: nat, before: nat)
    requires Completes([], available, protocol, Chain(atr), before)
    ensures Available(atr) == (if available == 0 then 1 else available) && protocol == LastNibble(Chain(atr), before)
  {
    OfferedBits(Chain(atr), 0, 0);
  }

  /** The loop of initProtocols.  It walks the letters by shifting y to the
      right, so that the bit it tests is always bit 0; running out of bits means
      the historical bytes begin here, and steps the index back by one. */
  method Scan(atr: seq<byte>, before: nat) returns (protocol: nat, available: nat)
    ensures available == Available(atr)
    ensures protocol == LastNibble(Chain(atr), before)
  {
    protocol, available := before, 0;
    ghost var chain := Chain(atr);
    var y: nat, letter: nat := 0, 0;
    var i, isHist := 0, false;
    while i < |atr| && !isHist
      invariant 0 <= i <= |atr| && (isHist || Announced(letter, y))
      invariant i <= 1 ==> !isHist && available == 0 && protocol == before
      invariant isHist ==> i >= 2
      invariant i >= 2 ==>
        Completes(if isHist then [] else Rest(atr[i..], letter, y), available, protocol, chain, before)
      decreases |atr| - i, !isHist
    {
      if i == 0 {
        // TS
      } else if i == 1 {
        letter, y := 0, atr[1] / 16;
        AtT0(atr, before);
      } else {
        assert atr[i..][1..] == atr[i + 1..];
        isHist, letter, y, protocol, available := Look(atr[i..], letter, y, protocol, available, chain, before);
        if isHist {
          i := i - 1;
        }
      }
      i := i + 1;
    }
    AtEnd(atr, available, protocol, before);
    if available == 0 {
      available := 1;
    }
  }
}

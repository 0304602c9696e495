/** Padding method 2 of ISO/IEC 9797-1 (CryptoUtils.py:107-137). */
module Padding {
  import opened Bytes
  import opened Basics

  const MARKER: byte := 0x80

  function Zeros(n: nat): (z: seq<byte>)
    ensures |z| == n
    ensures forall i :: 0 <= i < n ==> z[i] == 0
  {
    if n == 0 then [] else Zeros(n - 1) + [0]
  }

  /** append_padding.  Its branch for a padding of no bytes is left out, as a
      remainder is always less than the block length. */
  function Pad(blocklen: nat, data: seq<byte>): (p: seq<byte>)
    requires blocklen > 0
  {
    var lastBlockLength := |data| % blocklen;
    data + [MARKER] + Zeros(blocklen - lastBlockLength - 1)
  }

  /** The padding completes the last block, or adds one: a byte 80 and then
      zeros. */
  lemma {:induction false} PadFillsBlocks(blocklen: nat, data: seq<byte>)
    requires blocklen > 0
    ensures |Pad(blocklen, data)| % blocklen == 0
    ensures |data| < |Pad(blocklen, data)| <= |data| + blocklen
    ensures data + [0x80] <= Pad(blocklen, data)
    ensures forall i :: |data| < i < |Pad(blocklen, data)| ==> Pad(blocklen, data)[i] == 0
  {
    var q, r := |data| / blocklen, |data| % blocklen;
    assert |Pad(blocklen, data)| == (q + 1) * blocklen by {
      assert |data| == q * blocklen + r;
      assert (q + 1) * blocklen == q * blocklen + blocklen;
    }
    Multiple(q + 1, blocklen);
  }

  lemma {:induction false} Larger(k: nat, l: nat, m: nat)
    requires k < l
    ensures l * m >= k * m + m
  {
    if l > k + 1 {
      Larger(k, l - 1, m);
    }
    assert l * m == (l - 1) * m + m;
  }

  /** There is one quotient and one remainder. */
  lemma {:induction false} Division(m: nat, k: nat, r: nat, l: nat, s: nat)
    requires k * m + r == l * m + s && r < m && s < m
    ensures k == l && r == s
  {
    if k < l {
      Larger(k, l, m);
    } else if l < k {
      Larger(l, k, m);
    }
  }

  lemma {:induction false} Multiple(k: nat, m: nat)
    requires m > 0
    ensures k * m % m == 0
  {
    var n := k * m;
    assert n / m >= 0 && n == n / m * m + n % m;
    Division(m, k, 0, n / m, n % m);
  }

  // ------------------------------------------------------------------ removing it

  /** Where the last marker is; nowhere if there is none. */
  function LastMarker(data: seq<byte>): (at: Option<nat>)
    ensures at.None? <==> MARKER !in data
    ensures at.Some? ==> at.value < |data| && data[at.value] == MARKER && MARKER !in data[at.value + 1..]
  {
    if data == [] then None
    else if data[|data| - 1] == MARKER then Some(|data| - 1)
    else
      assert data == data[..|data| - 1] + [data[|data| - 1]];
      var at := LastMarker(data[..|data| - 1]);
      assert at.Some? ==> data[at.value + 1..] == data[..|data| - 1][at.value + 1..] + [data[|data| - 1]];
      at
  }

  function Stripped(data: seq<byte>): (d: Option<seq<byte>>)
  {
    match LastMarker(data)
    case None => None
    case Some(at) => Some(data[..at])
  }

  /** Indexing in Python: negative indices count from the end. */
  predicate InRange(b: seq<byte>, i: int) { -|b| <= i < |b| }

  function Item(b: seq<byte>, i: int): (x: byte)
    requires InRange(b, i)
  {
    if i >= 0 then b[i] else b[|b| + i]
  }

  lemma MarkerIsUnique(data: seq<byte>, at: nat)
    requires at < |data| && data[at] == MARKER && MARKER !in data[at + 1..]
    ensures LastMarker(data) == Some(at)
  {
    var last := LastMarker(data).value;
    assert forall k :: at < k < |data| ==> data[k] in data[at + 1..];
    assert forall k :: last < k < |data| ==> data[k] in data[last + 1..];
  }

  /** strip_padding.  Without a marker the search runs through the data once
      more by negative indices and ends in an IndexError. */
  method StripPadding(data: seq<byte>) returns (d: Option<seq<byte>>)
    ensures d == Stripped(data)
  {
    var tail := |data| - 1;
    while InRange(data, tail) && Item(data, tail) != MARKER
      invariant -|data| - 1 <= tail < |data|
      invariant tail >= 0 ==> MARKER !in data[tail + 1..]
      invariant tail < 0 ==> MARKER !in data
      decreases tail + |data| + 1
    {
      if tail >= 0 {
        assert data[tail..] == [data[tail]] + data[tail + 1..];
      }
      tail := tail - 1;
    }
    if !InRange(data, tail) {
      return None;
    }
    MarkerIsUnique(data, tail);
    d := Some(data[..tail]);
  }

  /** Whatever was padded is recovered; the block length is not needed. */
  lemma PaddingRoundTrip(blocklen: nat, data: seq<byte>)
    requires blocklen > 0
    ensures Stripped(Pad(blocklen, data)) == Some(data)
  {
    var p := Pad(blocklen, data);
    assert p[|data|] == MARKER;
    assert p[|data| + 1..] == Zeros(|p| - |data| - 1);
    MarkerIsUnique(p, |data|);
    assert p[..|data|] == data;
  }

  lemma PadIsInjective(blocklen: nat, d: seq<byte>, e: seq<byte>)
    requires blocklen > 0 && Pad(blocklen, d) == Pad(blocklen, e)
    ensures d == e
  {
    PaddingRoundTrip(blocklen, d);
    PaddingRoundTrip(blocklen, e);
  }

  /** Complete padding: whole blocks, and behind the last marker only zeros,
      fewer than a block of them. */
  predicate WellPadded(blocklen: nat, p: seq<byte>)
    requires blocklen > 0
  {
    |p| % blocklen == 0
    && match LastMarker(p)
       case None => false
       case Some(at) => p[at + 1..] == Zeros(|p| - at - 1) && |p| - at <= blocklen
  }

  /** strip_padding undoes padding exactly for well padded data; for other data
      with a marker it answers too, with something that pads differently. */
  lemma {:induction false} StripUndoesExactlyWellPadded(blocklen: nat, p: seq<byte>)
    requires blocklen > 0 && MARKER in p
    ensures Pad(blocklen, Stripped(p).value) == p <==> WellPadded(blocklen, p)
  {
    var at := LastMarker(p).value;
    var d := p[..at];
    assert p == d + [MARKER] + p[at + 1..];
    if Pad(blocklen, d) == p {
      PadFillsBlocks(blocklen, d);
      assert p[at + 1..] == Zeros(|p| - at - 1);
    }
    if WellPadded(blocklen, p) {
      PadFillsBlocks(blocklen, d);
      SameBlock(blocklen, |p|, |Pad(blocklen, d)|, at);
      assert Pad(blocklen, d) == d + [MARKER] + Zeros(|p| - at - 1);
    }
  }

  /** Only one multiple of the block length lies in (n, n + blocklen]. */
  lemma {:induction false} SameBlock(blocklen: nat, a: nat, b: nat, n: nat)
    requires blocklen > 0 && a % blocklen == 0 && b % blocklen == 0
    requires n < a <= n + blocklen && n < b <= n + blocklen
    ensures a == b
  {
    var i, j := a / blocklen, b / blocklen;
    assert i >= 0 && j >= 0 && a == i * blocklen && b == j * blocklen;
    if i < j {
      Larger(i, j, blocklen);
    } else if j < i {
      Larger(j, i, blocklen);
    }
  }
}

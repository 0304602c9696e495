/** Bytes and the fixed-width integers the wire formats are built from. */
module Bytes {
  type byte = b: int | 0 <= b < 256

  /** htons: the two bytes of a 16-bit number, most significant first. */
  function BE16(n: nat): (s: seq<byte>)
    requires n < 0x10000
  {
    [n / 256, n % 256]
  }

  /** ntohs. */
  function FromBE16(s: seq<byte>): (n: nat)
    requires |s| == 2
    ensures n < 0x10000 && BE16(n) == s
  {
    256 * (s[0] as nat) + s[1] as nat
  }

  /** The two digits of a number to a base. */
  lemma DigitsApart(lo: nat, hi: nat, base: nat)
    requires base in {0x100, 0x10000} && lo < base && hi < base
    ensures var n := lo + base * hi;
            n % base == lo && n / base == hi && hi % base == hi && n < base * base
  {
  }

  lemma DigitsTogether(n: nat, base: nat)
    requires base in {0x100, 0x10000}
    ensures n % (base * base) == n % base + base * (n / base % base)
  {
  }

  /** cpu_to_le16, which keeps only the low 16 bits of its argument. */
  function LE16(n: nat): (s: seq<byte>)
  {
    [n % 256, n / 256 % 256]
  }

  function FromLE16(s: seq<byte>): (n: nat)
    requires |s| == 2
    ensures n < 0x10000 && LE16(n) == s
  {
    var lo: nat, hi: nat := s[0], s[1];
    DigitsApart(lo, hi, 0x100);
    lo + 0x100 * hi
  }

  /** cpu_to_le32, which keeps only the low 32 bits of its argument. */
  function LE32(n: nat): (s: seq<byte>)
  {
    LE16(n % 0x10000) + LE16(n / 0x10000 % 0x10000)
  }

  function FromLE32(s: seq<byte>): (n: nat)
    requires |s| == 4
    ensures n < 0x1_0000_0000 && LE32(n) == s
  {
    var lo, hi := FromLE16(s[..2]), FromLE16(s[2..]);
    DigitsApart(lo, hi, 0x10000);
    assert s == LE16(lo) + LE16(hi);
    lo + 0x10000 * hi
  }

  lemma LE16RoundTrip(n: nat)
    ensures FromLE16(LE16(n)) == n % 0x10000
  {
    DigitsTogether(n, 0x100);
  }

  lemma SmallModulo(n: nat, m: nat)
    requires n < m
    ensures n % m == n
  {
  }

  lemma ModuloIsSame(n: nat, m: nat)
    requires m > 0
    ensures n % m == n <==> n < m
  {
  }

  lemma LE16Exact(n: nat)
    requires n < 0x10000
    ensures FromLE16(LE16(n)) == n
  {
    LE16RoundTrip(n);
    SmallModulo(n, 0x10000);
  }

  lemma FromHalves(lo: seq<byte>, hi: seq<byte>)
    requires |lo| == 2 && |hi| == 2
    ensures FromLE32(lo + hi) == FromLE16(lo) + 0x10000 * FromLE16(hi)
  {
    assert (lo + hi)[..2] == lo && (lo + hi)[2..] == hi;
  }

  lemma LE32RoundTrip(n: nat)
    ensures FromLE32(LE32(n)) == n % 0x1_0000_0000
  {
    var lo, hi := n % 0x10000, n / 0x10000 % 0x10000;
    LE16Exact(lo);
    LE16Exact(hi);
    FromHalves(LE16(lo), LE16(hi));
    DigitsTogether(n, 0x10000);
  }

  lemma LE32Exact(n: nat)
    requires n < 0x1_0000_0000
    ensures FromLE32(LE32(n)) == n
  {
    LE32RoundTrip(n);
    SmallModulo(n, 0x1_0000_0000);
  }
}

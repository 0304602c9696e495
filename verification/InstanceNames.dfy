/** Which reader a request is for: the number at the end of the name of the
    file object (device.cpp:80-95 and 283-305). */
module InstanceNames {
  import opened Basics

  const INT_MAX := 0x7FFF_FFFF

  /** %d of a number that is not negative. */
  function Decimal(n: nat): (s: string)
    ensures s != ""
  {
    var last := ['0' + (n % 10) as char];
    if n < 10 then last else Decimal(n / 10) + last
  }

  predicate AllDigits(s: string)
  {
    forall i :: 0 <= i < |s| ==> IsDigit(s[i])
  }

  function Number(s: string): (n: nat)
    requires AllDigits(s)
  {
    if s == "" then 0 else 10 * Number(s[..|s| - 1]) + (s[|s| - 1] - '0') as nat
  }

  /** Where the digits at the end of a name begin. */
  function Start(name: string): (at: nat)
    ensures at <= |name| && AllDigits(name[at..])
    ensures at > 0 ==> !IsDigit(name[at - 1])
  {
    if name == "" || !IsDigit(name[|name| - 1]) then |name|
    else
      assert name == name[..|name| - 1] + [name[|name| - 1]];
      Start(name[..|name| - 1])
  }

  /** _wtoi stops at the largest int. */
  function Wtoi(s: string): (n: nat)
    requires AllDigits(s)
  {
    if Number(s) > INT_MAX then INT_MAX else Number(s)
  }

  /** A name without a number means the first reader. */
  function InstanceOf(name: string): (instance: nat)
  {
    if Start(name) == |name| then 0 else Wtoi(name[Start(name)..])
  }

  lemma DigitsFrom(name: string, at: nat)
    requires at <= |name| && AllDigits(name[at..])
    ensures forall k :: at <= k < |name| ==> IsDigit(name[k])
  {
    forall k | at <= k < |name| ensures IsDigit(name[k]) {
      assert name[at..][k - at] == name[k];
    }
  }

  lemma StartIsUnique(name: string, at: nat)
    requires at <= |name| && AllDigits(name[at..]) && (at > 0 ==> !IsDigit(name[at - 1]))
    ensures at == Start(name)
  {
    DigitsFrom(name, at);
    DigitsFrom(name, Start(name));
  }

  method InstanceFromRequest(name: string) returns (instance: nat)
    ensures instance == InstanceOf(name)
  {
    var count := |name|;
    var end := count;
    while end > 0 && IsDigit(name[end - 1])
      invariant 0 <= end <= count
      invariant AllDigits(name[end..])
    {
      assert name[end - 1..] == [name[end - 1]] + name[end..];
      end := end - 1;
    }
    StartIsUnique(name, end);
    if end == count {
      return 0;
    }
    instance := Wtoi(name[end..]);
  }

  lemma {:induction false} NumberOfDecimal(n: nat)
    ensures AllDigits(Decimal(n)) && Number(Decimal(n)) == n
    decreases n
  {
    if n >= 10 {
      NumberOfDecimal(n / 10);
      assert Decimal(n)[..|Decimal(n)| - 1] == Decimal(n / 10);
    }
  }

  /** A name that does not end in a digit means the first reader. */
  lemma NoNumberIsTheFirst(name: string)
    requires name == "" || !('0' <= name[|name| - 1] <= '9')
    ensures InstanceOf(name) == 0
  {
  }

  /** The name made for instance n, whatever stands before the number, is read
      back as n, or as the largest int if n is larger. */
  lemma InstanceRoundTrip(prefix: string, n: nat)
    requires prefix == "" || !IsDigit(prefix[|prefix| - 1])
    ensures InstanceOf(prefix + Decimal(n)) == if n < 0x8000_0000 then n else 0x7FFF_FFFF
  {
    var name := prefix + Decimal(n);
    NumberOfDecimal(n);
    assert name[|prefix|..] == Decimal(n);
    StartIsUnique(name, |prefix|);
  }
}

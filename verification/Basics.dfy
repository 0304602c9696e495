/** What several modules share and no source file owns. */
module Basics {
  datatype Option<+T> = None | Some(value: T)

  const NUL: char := '\0'

  predicate IsDigit(c: char) { '0' <= c <= '9' }

  /** A text that a C string can hold. */
  predicate NulFree(s: string) { NUL !in s }

  function Occurs<T(==)>(s: seq<T>, x: T): (n: nat)
  {
    multiset(s)[x]
  }

  lemma OccursLast<T>(s: seq<T>, x: T)
    requires s != []
    ensures Occurs(s, x) == Occurs(s[..|s| - 1], x) + if x == s[|s| - 1] then 1 else 0
  {
    assert s == s[..|s| - 1] + [s[|s| - 1]];
  }

  lemma OccursIfIn<T>(s: seq<T>, x: T)
    ensures x in s <==> Occurs(s, x) > 0
  {
  }

  lemma Regroup<T>(a: seq<T>, b: seq<T>, c: seq<T>)
    ensures a + (b + c) == a + b + c
  {
  }
}

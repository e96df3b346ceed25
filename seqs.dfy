/**
 * Facts about concatenation, stated once for any element type so that the
 * proofs that use them need not reason about sequence equality themselves.
 */
module Seqs {

  /** Taking the last element off the right operand of a concatenation. */
  lemma SnocSplit<T>(a: seq<T>, b: seq<T>)
    requires |b| > 0
    ensures a + b == (a + b[..|b| - 1]) + [b[|b| - 1]]
  {
  }

  lemma AppendEmpty<T>(a: seq<T>)
    ensures a + [] == a && [] + a == a
  {
  }

  lemma AppendAssoc<T>(a: seq<T>, b: seq<T>, c: seq<T>)
    ensures a + b + c == a + (b + c)
  {
  }

  /** Cutting a sequence in three keeps every element's multiplicity. */
  lemma MultisetThirds<T>(s: seq<T>, i: int, j: int)
    requires 0 <= i <= j <= |s|
    ensures multiset(s) == multiset(s[..i]) + multiset(s[i..j]) + multiset(s[j..])
  {
    assert s == s[..i] + s[i..j] + s[j..];
  }

  /** A prefix one longer is the shorter prefix and the next element. */
  lemma TakeSnoc<T>(s: seq<T>, i: int)
    requires 0 <= i < |s|
    ensures s[..i + 1] == s[..i] + [s[i]]
  {
  }

  lemma TakeAll<T>(s: seq<T>)
    ensures s[..|s|] == s
  {
  }

  /** A non-empty sequence is its front and its last element. */
  lemma DropLast<T>(s: seq<T>)
    requires |s| > 0
    ensures s == s[..|s| - 1] + [s[|s| - 1]]
  {
  }

  /** The number of occurrences of x in s. */
  function Count<T(==)>(s: seq<T>, x: T): (n: nat)
    ensures n <= |s|
  {
    if s == [] then 0 else Count(s[..|s| - 1], x) + (if s[|s| - 1] == x then 1 else 0)
  }

  /** Counting agrees with the multiset of the sequence. */
  lemma {:induction false} CountMultiset<T>(s: seq<T>, x: T)
    ensures Count(s, x) == multiset(s)[x]
  {
    if s != [] {
      CountMultiset(s[..|s| - 1], x);
      DropLast(s);
    }
  }

  /** The occurrences in a concatenation are those in each part. */
  lemma {:induction false} CountAppend<T>(a: seq<T>, b: seq<T>, x: T)
    ensures Count(a + b, x) == Count(a, x) + Count(b, x)
  {
    if b == [] {
      AppendEmpty(a);
    } else {
      CountAppend(a, b[..|b| - 1], x);
      SnocSplit(a, b);
    }
  }
}

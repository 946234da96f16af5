/** Counting the elements of a sequence that satisfy a predicate, and how updates change the count. */
module Counting {

  /** How many of the first n elements satisfy p. */
  function CountTo<T>(s: seq<T>, n: nat, p: T -> bool): nat
    requires n <= |s|
  {
    if n == 0 then 0 else CountTo(s, n - 1, p) + if p(s[n - 1]) then 1 else 0
  }

  function Count<T>(s: seq<T>, p: T -> bool): nat {
    CountTo(s, |s|, p)
  }

  function Bit(b: bool): int {
    if b then 1 else 0
  }

  lemma {:induction false} CountUpdate<T>(s: seq<T>, n: nat, p: T -> bool, i: nat, c: T)
    requires n <= |s| && i < |s|
    ensures CountTo(s[i := c], n, p) == CountTo(s, n, p) + if i < n then Bit(p(c)) - Bit(p(s[i])) else 0
  {
    if n > 0 {
      CountUpdate(s, n - 1, p, i, c);
    }
  }

  lemma {:induction false} CountExtend<T>(s: seq<T>, more: seq<T>, n: nat, p: T -> bool)
    requires n <= |s|
    ensures CountTo(s + more, n, p) == CountTo(s, n, p)
  {
    if n > 0 {
      CountExtend(s, more, n - 1, p);
    }
  }

  /** Where every p is a q, there are at most as many p's as q's. */
  lemma {:induction false} CountWeaker<T>(s: seq<T>, n: nat, p: T -> bool, q: T -> bool)
    requires n <= |s| && forall i :: 0 <= i < n && p(s[i]) ==> q(s[i])
    ensures CountTo(s, n, p) <= CountTo(s, n, q)
  {
    if n > 0 {
      CountWeaker(s, n - 1, p, q);
    }
  }

  lemma {:induction false} CountPositive<T>(s: seq<T>, n: nat, p: T -> bool, i: nat)
    requires n <= |s| && i < n && p(s[i])
    ensures CountTo(s, n, p) > 0
  {
    if i < n - 1 {
      CountPositive(s, n - 1, p, i);
    }
  }

  lemma {:induction false} CountZero<T>(s: seq<T>, n: nat, p: T -> bool)
    requires n <= |s| && forall i :: 0 <= i < n ==> !p(s[i])
    ensures CountTo(s, n, p) == 0
  {
    if n > 0 {
      CountZero(s, n - 1, p);
    }
  }

  /** Replacing element i. */
  lemma CountReplace<T>(s: seq<T>, p: T -> bool, i: nat, c: T)
    requires i < |s|
    ensures Count(s[i := c], p) == Count(s, p) + Bit(p(c)) - Bit(p(s[i]))
  {
    CountUpdate(s, |s|, p, i, c);
  }

  /** Adding one element at the end. */
  lemma CountAppend<T>(s: seq<T>, p: T -> bool, c: T)
    ensures Count(s + [c], p) == Count(s, p) + Bit(p(c))
  {
    CountExtend(s, [c], |s|, p);
  }
}

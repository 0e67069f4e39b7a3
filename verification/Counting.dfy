/**
 How many of the first n naturals satisfy a predicate.
 */
module Counting {
  function Tally(n: nat, f: nat -> bool): (t: nat)
    ensures t <= n
  {
    if n == 0 then 0 else Tally(n - 1, f) + if f(n - 1) then 1 else 0
  }

  lemma {:induction false} TallyChange(n: nat, f: nat -> bool, g: nat -> bool, i: nat)
    requires i < n && forall j: nat | j < n && j != i :: f(j) == g(j)
    ensures Tally(n, g) + (if f(i) then 1 else 0) == Tally(n, f) + (if g(i) then 1 else 0)
  {
    if i == n - 1 { TallySame(n - 1, f, g); } else { TallyChange(n - 1, f, g, i); }
  }

  lemma {:induction false} TallySame(n: nat, f: nat -> bool, g: nat -> bool)
    requires forall j: nat | j < n :: f(j) == g(j)
    ensures Tally(n, f) == Tally(n, g)
  {
    if n > 0 { TallySame(n - 1, f, g); }
  }

  lemma {:induction false} TallyMiss(n: nat, f: nat -> bool, i: nat)
    requires i < n && !f(i)
    ensures Tally(n, f) < n
  {
    if i < n - 1 { TallyMiss(n - 1, f, i); }
  }

  lemma {:induction false} TallyNone(n: nat, f: nat -> bool)
    requires forall j: nat | j < n :: !f(j)
    ensures Tally(n, f) == 0
  {
    if n > 0 { TallyNone(n - 1, f); }
  }

  lemma {:induction false} TallyAll(n: nat, f: nat -> bool)
    requires forall j: nat | j < n :: f(j)
    ensures Tally(n, f) == n
  {
    if n > 0 { TallyAll(n - 1, f); }
  }
}

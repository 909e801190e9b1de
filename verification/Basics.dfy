/** What several modules share. */
module Basics {

  datatype Option<+T> = None | Some(value: T)

  const NUL: char := 0 as char

  function Min(a: int, b: int): int { if a < b then a else b }

  function Max(a: int, b: int): int { if a < b then b else a }

  function Clamp(x: int, lo: int, hi: int): int { if x < lo then lo else if x > hi then hi else x }

  function Pow2(n: nat): (p: nat)
    ensures p >= 1
  {
    if n == 0 then 1 else 2 * Pow2(n - 1)
  }

  lemma {:induction false} Pow2Monotone(m: nat, n: nat)
    requires m <= n
    ensures Pow2(m) <= Pow2(n)
  {
    if m < n { Pow2Monotone(m, n - 1); }
  }

  function Elements<T>(xs: seq<T>): set<T> { set x | x in xs }

  predicate Indices<T>(all: seq<T>, at: seq<nat>) { forall i :: 0 <= i < |at| ==> at[i] < |all| }

  // What stands at these positions.
  function Pick<T>(all: seq<T>, at: seq<nat>): (picked: seq<T>)
    requires Indices(all, at)
    ensures |picked| == |at|
  {
    seq(|at|, i requires 0 <= i < |at| => all[at[i]])
  }

  ghost predicate Rising(q: seq<nat>) { forall i, j :: 0 <= i < j < |q| ==> q[i] < q[j] }

  // Of the first n of xs, `kept` are those at the positions `at`, which are the ones that satisfy `keep`.
  ghost predicate Selects<T(!new)>(xs: seq<T>, n: nat, keep: nat -> bool, at: seq<nat>, kept: seq<T>) {
    && n <= |xs| && Rising(at) && Indices(xs, at) && kept == Pick(xs, at)
    && forall i: nat :: i in at <==> i < n && keep(i)
  }

  lemma SelectsNone<T(!new)>(xs: seq<T>, keep: nat -> bool)
    ensures Selects(xs, 0, keep, [], [])
  {
  }

  lemma SelectsNext<T(!new)>(xs: seq<T>, n: nat, keep: nat -> bool, at: seq<nat>, kept: seq<T>)
    requires Selects(xs, n, keep, at, kept) && n < |xs|
    ensures if keep(n) then Selects(xs, n + 1, keep, at + [n], kept + [xs[n]]) else Selects(xs, n + 1, keep, at, kept)
  {
    InSnoc(at, n);
    assert forall i :: 0 <= i < |at| ==> at[i] in at;
  }

  // The sum of f over xs.
  function Total<T>(xs: seq<T>, f: T -> int): int {
    if xs == [] then 0 else Total(xs[..|xs| - 1], f) + f(xs[|xs| - 1])
  }

  lemma ConcatAssociates<T>(a: seq<T>, b: seq<T>, c: seq<T>)
    ensures (a + b) + c == a + (b + c)
  {
  }

  lemma InSnoc<T>(xs: seq<T>, x: T)
    ensures forall y :: y in xs + [x] <==> y in xs || y == x
  {
  }

  lemma HeadAndTail<T>(s: seq<T>, n: nat, x: T, tail: seq<T>)
    requires n <= |s| && s[n..] == [x] + tail
    ensures n < |s| && s[n] == x && s[n + 1..] == tail
  {
    assert s[n] == s[n..][0];
    assert s[n + 1..] == s[n..][1..];
  }

  lemma PrefixCancels<T>(a: seq<T>, x: seq<T>, y: seq<T>)
    requires a + x == a + y
    ensures x == y
  {
    assert x == (a + x)[|a|..] && y == (a + y)[|a|..];
  }
}

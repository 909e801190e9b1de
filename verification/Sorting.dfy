/**
 sort.Strings: byte-wise lexicographic order, a sort, and the fact that a sorted list is
 determined by what it holds.
 */
module Sorting {

  predicate LexLe(a: string, b: string) {
    a == "" || (b != "" && (a[0] < b[0] || (a[0] == b[0] && LexLe(a[1..], b[1..]))))
  }

  lemma {:induction false} LexTotal(a: string, b: string)
    ensures LexLe(a, b) || LexLe(b, a)
    ensures LexLe(a, b) && LexLe(b, a) ==> a == b
  {
    if a != "" && b != "" && a[0] == b[0] {
      LexTotal(a[1..], b[1..]);
      assert a == [a[0]] + a[1..] && b == [b[0]] + b[1..];
    }
  }

  lemma {:induction false} LexTransitive(a: string, b: string, c: string)
    requires LexLe(a, b) && LexLe(b, c)
    ensures LexLe(a, c)
  {
    if a != "" && a[0] == b[0] && b[0] == c[0] { LexTransitive(a[1..], b[1..], c[1..]); }
  }

  ghost predicate Sorted(xs: seq<string>) {
    forall i, j :: 0 <= i < j < |xs| ==> LexLe(xs[i], xs[j])
  }

  function Insert(x: string, xs: seq<string>): seq<string> {
    if xs == [] then [x] else if LexLe(x, xs[0]) then [x] + xs else [xs[0]] + Insert(x, xs[1..])
  }

  function Sort(xs: seq<string>): seq<string> {
    if xs == [] then [] else Insert(xs[0], Sort(xs[1..]))
  }

  lemma {:induction false} InsertHolds(x: string, xs: seq<string>)
    ensures multiset(Insert(x, xs)) == multiset{x} + multiset(xs)
  {
    if xs != [] {
      assert xs == [xs[0]] + xs[1..];
      if !LexLe(x, xs[0]) { InsertHolds(x, xs[1..]); }
    }
  }

  lemma SortedFromHead(x: string, xs: seq<string>)
    requires Sorted(xs) && forall y :: y in xs ==> LexLe(x, y)
    ensures Sorted([x] + xs)
  {
    var ys := [x] + xs;
    forall i, j | 0 <= i < j < |ys| ensures LexLe(ys[i], ys[j]) {
      assert ys[j] == xs[j - 1];
    }
  }

  lemma {:induction false} InsertSorted(x: string, xs: seq<string>)
    requires Sorted(xs)
    ensures Sorted(Insert(x, xs))
  {
    if xs != [] {
      LexTotal(x, xs[0]);
      if LexLe(x, xs[0]) {
        forall y | y in xs ensures LexLe(x, y) {
          var k :| 0 <= k < |xs| && xs[k] == y;
          if k > 0 { LexTransitive(x, xs[0], y); }
        }
        SortedFromHead(x, xs);
      } else {
        InsertSorted(x, xs[1..]);
        InsertHolds(x, xs[1..]);
        forall y | y in Insert(x, xs[1..]) ensures LexLe(xs[0], y) {
          assert y in multiset(Insert(x, xs[1..]));
          assert y == x || y in xs[1..];
        }
        SortedFromHead(xs[0], Insert(x, xs[1..]));
      }
    }
  }

  lemma {:induction false} SortSorts(xs: seq<string>)
    ensures Sorted(Sort(xs)) && multiset(Sort(xs)) == multiset(xs)
  {
    if xs != [] {
      SortSorts(xs[1..]);
      InsertSorted(xs[0], Sort(xs[1..]));
      InsertHolds(xs[0], Sort(xs[1..]));
      assert xs == [xs[0]] + xs[1..];
    }
  }

  // Sorting keeps the elements.
  lemma SortElements(xs: seq<string>)
    ensures forall x :: x in Sort(xs) <==> x in xs
  {
    SortSorts(xs);
    forall x ensures x in Sort(xs) <==> x in xs {
      assert x in Sort(xs) <==> x in multiset(Sort(xs));
    }
  }

  lemma HeadLeast(xs: seq<string>, y: string)
    requires Sorted(xs) && y in xs
    ensures LexLe(xs[0], y)
  {
    LexTotal(y, y);
  }

  lemma TailHolds(xs: seq<string>)
    requires xs != []
    ensures multiset(xs[1..]) == multiset(xs) - multiset{xs[0]}
  {
    assert xs == [xs[0]] + xs[1..];
  }

  lemma SameHead(xs: seq<string>, ys: seq<string>)
    requires Sorted(xs) && Sorted(ys) && multiset(xs) == multiset(ys) && xs != []
    ensures ys != [] && xs[0] == ys[0] && multiset(xs[1..]) == multiset(ys[1..])
  {
    assert xs[0] in multiset(ys);
    assert ys[0] in multiset(xs);
    HeadLeast(xs, ys[0]);
    HeadLeast(ys, xs[0]);
    LexTotal(xs[0], ys[0]);
    TailHolds(xs);
    TailHolds(ys);
  }

  /** Two sorted lists with the same elements, repetitions counted, are the same list. */
  lemma {:induction false} SortedUnique(xs: seq<string>, ys: seq<string>)
    requires Sorted(xs) && Sorted(ys) && multiset(xs) == multiset(ys)
    ensures xs == ys
  {
    if xs == [] {
      assert |ys| == |multiset(ys)| == |multiset(xs)| == 0;
    } else {
      SameHead(xs, ys);
      SortedUnique(xs[1..], ys[1..]);
      assert xs == [xs[0]] + xs[1..] && ys == [ys[0]] + ys[1..];
    }
  }
}

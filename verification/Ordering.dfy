/**
 Code-point order on text, and the sorts the program takes from its library. `Sorted` stands
 for both `sorted` and ORDER BY: its result is a permutation in order, it is the only one
 when no two elements compare equal, and then it does not depend on the order of the input.
 Totals are those of the input.
 */
module Ordering {
  import opened Common

  /** Strict code-point order: Python's `<` on str and SQLite's BINARY order on UTF-8. */
  predicate Less(a: string, b: string) {
    |b| > 0 && (|a| == 0 || a[0] < b[0] || (a[0] == b[0] && Less(a[1..], b[1..])))
  }

  predicate AtMost(a: string, b: string) {
    !Less(b, a)
  }

  lemma {:induction false} LessIrreflexive(a: string)
    ensures !Less(a, a)
  {
    if |a| > 0 { LessIrreflexive(a[1..]); }
  }

  lemma {:induction false} LessTransitive(a: string, b: string, c: string)
    requires Less(a, b) && Less(b, c)
    ensures Less(a, c)
  {
    if |a| > 0 && a[0] == b[0] && b[0] == c[0] {
      LessTransitive(a[1..], b[1..], c[1..]);
    }
  }

  lemma {:induction false} LessTotal(a: string, b: string)
    ensures a == b || Less(a, b) || Less(b, a)
    ensures !(Less(a, b) && Less(b, a))
  {
    if |a| > 0 && |b| > 0 && a[0] == b[0] {
      LessTotal(a[1..], b[1..]);
      if a[1..] == b[1..] { assert a == [a[0]] + a[1..] && b == [b[0]] + b[1..]; }
    }
  }

  lemma AtMostTransitive(a: string, b: string, c: string)
    requires AtMost(a, b) && AtMost(b, c)
    ensures AtMost(a, c)
  {
    LessTotal(a, b);
    LessTotal(b, c);
    if Less(c, a) {
      if a == b || b == c { assert false; }
      LessTransitive(a, b, c);
      LessTotal(a, c);
    }
  }

  /** Comparing two names below one directory ignores the directory. */
  lemma {:induction false} LessBelowPrefix(prefix: string, a: string, b: string)
    ensures Less(prefix + a, prefix + b) == Less(a, b)
  {
    if prefix == [] {
      assert prefix + a == a && prefix + b == b;
    } else {
      assert (prefix + a)[1..] == prefix[1..] + a;
      assert (prefix + b)[1..] == prefix[1..] + b;
      LessBelowPrefix(prefix[1..], a, b);
    }
  }

  // ----------------------------------------------------------------- sorting

  ghost predicate IsOrder<T(!new)>(leq: (T, T) -> bool) {
    && (forall a, b :: leq(a, b) || leq(b, a))
    && (forall a, b, c :: leq(a, b) && leq(b, c) ==> leq(a, c))
  }

  ghost predicate SortedBy<T>(xs: seq<T>, leq: (T, T) -> bool) {
    forall i, j :: 0 <= i < j < |xs| ==> leq(xs[i], xs[j])
  }

  /** No two positions compare equal. */
  ghost predicate StrictOn<T>(xs: seq<T>, leq: (T, T) -> bool) {
    forall i, j :: 0 <= i < |xs| && 0 <= j < |xs| && i != j ==> !(leq(xs[i], xs[j]) && leq(xs[j], xs[i]))
  }

  /** Place `x` after every element that is not greater: a stable insertion. */
  function Insert<T>(xs: seq<T>, x: T, leq: (T, T) -> bool): (r: seq<T>)
    ensures multiset(r) == multiset(xs) + multiset{x}
  {
    if xs == [] then [x]
    else
      assert xs == xs[..|xs| - 1] + [Last(xs)];
      if leq(Last(xs), x) then xs + [x]
      else Insert(xs[..|xs| - 1], x, leq) + [Last(xs)]
  }

  /** Python's stable `sorted`. */
  function Sorted<T>(xs: seq<T>, leq: (T, T) -> bool): (r: seq<T>)
    ensures multiset(r) == multiset(xs)
  {
    if xs == [] then []
    else
      assert xs == xs[..|xs| - 1] + [Last(xs)];
      Insert(Sorted(xs[..|xs| - 1], leq), Last(xs), leq)
  }

  lemma {:induction false} InsertSorted<T(!new)>(xs: seq<T>, x: T, leq: (T, T) -> bool)
    requires IsOrder(leq) && SortedBy(xs, leq)
    ensures SortedBy(Insert(xs, x, leq), leq)
  {
    if xs == [] {
    } else if leq(Last(xs), x) {
      forall y | y in xs ensures leq(y, x) {
        assert leq(y, Last(xs)) || y == Last(xs);
      }
    } else {
      var front := xs[..|xs| - 1];
      InsertSorted(front, x, leq);
      forall y | y in Insert(front, x, leq) ensures leq(y, Last(xs)) {
        assert y in multiset(Insert(front, x, leq));
        assert y == x || y in multiset(front);
      }
    }
  }

  lemma {:induction false} SortedIsSorted<T(!new)>(xs: seq<T>, leq: (T, T) -> bool)
    requires IsOrder(leq)
    ensures SortedBy(Sorted(xs, leq), leq)
  {
    if xs != [] {
      SortedIsSorted(xs[..|xs| - 1], leq);
      InsertSorted(Sorted(xs[..|xs| - 1], leq), Last(xs), leq);
    }
  }

  lemma SortedMinimum<T(!new)>(xs: seq<T>, x: T, leq: (T, T) -> bool)
    requires IsOrder(leq) && SortedBy(xs, leq) && x in xs
    ensures leq(xs[0], x)
  {
  }

  lemma SortedTail<T>(xs: seq<T>, leq: (T, T) -> bool)
    requires xs != []
    ensures SortedBy(xs, leq) ==> SortedBy(xs[1..], leq)
    ensures StrictOn(xs, leq) ==> StrictOn(xs[1..], leq)
    ensures multiset(xs[1..]) == multiset(xs) - multiset{xs[0]}
  {
    assert xs == [xs[0]] + xs[1..];
  }

  /** Two sorted arrangements of the same elements agree when no two elements tie. */
  lemma {:induction false} SortedUnique<T(!new)>(a: seq<T>, b: seq<T>, leq: (T, T) -> bool)
    requires IsOrder(leq)
    requires SortedBy(a, leq) && SortedBy(b, leq) && StrictOn(a, leq)
    requires multiset(a) == multiset(b)
    ensures a == b
  {
    hide IsOrder, SortedBy, StrictOn;
    SameSize(a, b);
    if a != [] {
      SameFirst(a, b, leq);
      SortedTail(a, leq);
      SortedTail(b, leq);
      SortedUnique(a[1..], b[1..], leq);
      SameFromTails(a, b);
    }
  }

  lemma SameFromTails<T>(a: seq<T>, b: seq<T>)
    requires a != [] && b != [] && a[0] == b[0] && a[1..] == b[1..]
    ensures a == b
  {
    assert a == [a[0]] + a[1..] && b == [b[0]] + b[1..];
  }

  lemma SameFirst<T(!new)>(a: seq<T>, b: seq<T>, leq: (T, T) -> bool)
    requires IsOrder(leq) && a != [] && b != []
    requires SortedBy(a, leq) && SortedBy(b, leq) && StrictOn(a, leq)
    requires multiset(a) == multiset(b)
    ensures a[0] == b[0]
  {
    assert a[0] in multiset(a) && b[0] in multiset(b);
    SortedMinimum(a, b[0], leq);
    SortedMinimum(b, a[0], leq);
    hide IsOrder, SortedBy;
    assert b[0] in multiset(a);
    var i :| 0 <= i < |a| && a[i] == b[0];
    assert i == 0;
  }

  /** Sorting forgets the order the elements were met in. */
  lemma SortForgetsOrder<T(!new)>(xs: seq<T>, ys: seq<T>, leq: (T, T) -> bool)
    requires IsOrder(leq) && multiset(xs) == multiset(ys)
    requires StrictOn(Sorted(xs, leq), leq)
    ensures Sorted(xs, leq) == Sorted(ys, leq)
  {
    SortedIsSorted(xs, leq);
    SortedIsSorted(ys, leq);
    SortedUnique(Sorted(xs, leq), Sorted(ys, leq), leq);
  }

  // ------------------------------------------------------- facts about orderings

  /** No two positions hold elements that count as the same. */
  ghost predicate Apart<T>(xs: seq<T>, same: (T, T) -> bool) {
    forall i, j :: 0 <= i < j < |xs| ==> !same(xs[i], xs[j])
  }

  lemma {:induction false} ApartHoldsOnce<T>(xs: seq<T>, x: T, same: (T, T) -> bool)
    requires Apart(xs, same) && same(x, x)
    ensures multiset(xs)[x] <= 1
  {
    if xs != [] {
      var front := xs[..|xs| - 1];
      assert xs == front + [Last(xs)];
      ApartHoldsOnce(front, x, same);
      assert Last(xs) == x ==> x !in front;
    }
  }

  lemma CountedTwice<T>(xs: seq<T>, i: nat, j: nat)
    requires i < j < |xs| && xs[i] == xs[j]
    ensures multiset(xs)[xs[i]] >= 2
  {
    assert xs == xs[..j] + [xs[j]] + xs[j + 1..];
    assert xs[..j][i] == xs[i];
    assert xs[i] in multiset(xs[..j]);
  }

  /** Being apart survives reordering. */
  lemma ApartPermuted<T(!new)>(a: seq<T>, b: seq<T>, same: (T, T) -> bool)
    requires multiset(a) == multiset(b) && Apart(a, same)
    requires (forall x :: same(x, x)) && (forall x, y :: same(x, y) == same(y, x))
    ensures Apart(b, same)
  {
    forall i, j | 0 <= i < j < |b| ensures !same(b[i], b[j]) {
      if b[i] == b[j] {
        CountedTwice(b, i, j);
        ApartHoldsOnce(a, b[i], same);
        assert false;
      } else {
        assert b[i] in multiset(b) && b[j] in multiset(b);
        var m :| 0 <= m < |a| && a[m] == b[i];
        var n :| 0 <= n < |a| && a[n] == b[j];
        assert m != n;
      }
    }
  }

  function Sum<T>(xs: seq<T>, weight: T -> nat): nat {
    if xs == [] then 0 else weight(xs[0]) + Sum(xs[1..], weight)
  }

  lemma {:induction false} SumWithout<T>(xs: seq<T>, k: nat, weight: T -> nat)
    requires k < |xs|
    ensures Sum(xs, weight) == weight(xs[k]) + Sum(xs[..k] + xs[k + 1..], weight)
  {
    var rest := xs[..k] + xs[k + 1..];
    if k == 0 {
      assert rest == xs[1..];
    } else {
      SumWithout(xs[1..], k - 1, weight);
      assert rest[1..] == xs[1..][..k - 1] + xs[1..][k..];
    }
  }

  lemma WithoutAt<T>(xs: seq<T>, k: nat)
    requires k < |xs|
    ensures multiset(xs[..k] + xs[k + 1..]) == multiset(xs) - multiset{xs[k]}
  {
    assert xs == xs[..k] + [xs[k]] + xs[k + 1..];
  }

  lemma SameSize<T>(a: seq<T>, b: seq<T>)
    requires multiset(a) == multiset(b)
    ensures |a| == |b|
  {
    assert |multiset(a)| == |a| && |multiset(b)| == |b|;
  }

  /** A total does not depend on the order of its parts. */
  lemma {:induction false} SumPermuted<T>(a: seq<T>, b: seq<T>, weight: T -> nat)
    requires multiset(a) == multiset(b)
    ensures Sum(a, weight) == Sum(b, weight)
  {
    if a != [] {
      assert a[0] in multiset(a) && a[0] in multiset(b);
      var k := IndexOf(b, a[0]);
      var rest := b[..k] + b[k + 1..];
      SameWithoutFirst(a, b, k);
      SumPermuted(a[1..], rest, weight);
      SumWithout(b, k, weight);
    }
  }

  lemma SameWithoutFirst<T>(a: seq<T>, b: seq<T>, k: nat)
    requires multiset(a) == multiset(b) && a != [] && k < |b| && b[k] == a[0]
    ensures multiset(a[1..]) == multiset(b[..k] + b[k + 1..])
  {
    WithoutAt(b, k);
    WithoutAt(a, 0);
    assert a[..0] + a[1..] == a[1..];
  }

  lemma IndexOf<T>(xs: seq<T>, x: T) returns (k: nat)
    requires x in xs
    ensures k < |xs| && xs[k] == x
  {
    k :| 0 <= k < |xs| && xs[k] == x;
  }
}

/** Occurrence counts and sums over sequences, used wherever a shared counter of the source is
    tied to the threads or processes it counts. */
module Counting {

  function Count<T(==)>(s: seq<T>, x: T): nat {
    if s == [] then 0 else (if s[0] == x then 1 else 0) + Count(s[1..], x)
  }

  /** Replacing one element moves one occurrence. */
  lemma {:induction false} CountUpdate<T>(s: seq<T>, i: nat, y: T, x: T)
    requires i < |s|
    ensures Count(s[i := y], x) == Count(s, x) - (if s[i] == x then 1 else 0) + (if y == x then 1 else 0)
  {
    if i == 0 {
      assert s[i := y][1..] == s[1..];
    } else {
      assert s[i := y][1..] == s[1..][i - 1 := y];
      CountUpdate(s[1..], i - 1, y, x);
    }
  }

  lemma CountMove<T(!new)>(s: seq<T>, i: nat, y: T)
    requires i < |s|
    ensures forall x :: Count(s[i := y], x) == Count(s, x) - (if s[i] == x then 1 else 0) + (if y == x then 1 else 0)
  {
    forall x ensures Count(s[i := y], x) == Count(s, x) - (if s[i] == x then 1 else 0) + (if y == x then 1 else 0) {
      CountUpdate(s, i, y, x);
    }
  }

  /** A count is positive exactly when there is an occurrence. */
  lemma {:induction false} CountOccurs<T>(s: seq<T>, x: T)
    ensures Count(s, x) > 0 <==> x in s
  {
    if s != [] {
      CountOccurs(s[1..], x);
    }
  }

  /** The same for all elements. */
  lemma Occurrences<T(!new)>(s: seq<T>)
    ensures forall x :: x in s <==> Count(s, x) > 0
  {
    forall x ensures x in s <==> Count(s, x) > 0 { CountOccurs(s, x); }
  }

  /** Two different positions make the count at least two. */
  lemma {:induction false} CountTwice<T>(s: seq<T>, x: T, i: nat, j: nat)
    requires i < j < |s| && s[i] == s[j] == x
    ensures Count(s, x) >= 2
  {
    if i == 0 {
      assert s[1..][j - 1] == x;
      CountOccurs(s[1..], x);
    } else {
      CountTwice(s[1..], x, i - 1, j - 1);
    }
  }

  lemma {:induction false} CountConstant<T>(s: seq<T>, y: T, x: T)
    requires forall i | 0 <= i < |s| :: s[i] == y
    ensures Count(s, x) == if x == y then |s| else 0
  {
    if s != [] {
      CountConstant(s[1..], y, x);
    }
  }

  /** A count is at most the length, and that exactly when all elements are the same. */
  lemma {:induction false} CountAll<T>(s: seq<T>, x: T)
    ensures Count(s, x) <= |s| && (Count(s, x) == |s| <==> forall i | 0 <= i < |s| :: s[i] == x)
  {
    if s != [] {
      CountAll(s[1..], x);
      assert forall i | 1 <= i < |s| :: s[i] == s[1..][i - 1];
    }
  }

  /** An element that has not changed is not among those that have become `x`. */
  lemma UnchangedIsNotCounted<T>(before: seq<T>, after: seq<T>, i: nat, x: T)
    requires |before| == |after| && i < |before| && after[i] == before[i]
    ensures Count(after, x) - Count(before, x) < |before|
  {
    CountAll(after, x);
    CountOccurs(before, x);
  }

  function Sum(s: seq<int>): int {
    if s == [] then 0 else s[0] + Sum(s[1..])
  }

  lemma {:induction false} SumUpdate(s: seq<int>, i: nat, y: int)
    requires i < |s|
    ensures Sum(s[i := y]) == Sum(s) - s[i] + y
  {
    if i == 0 {
      assert s[i := y][1..] == s[1..];
    } else {
      assert s[i := y][1..] == s[1..][i - 1 := y];
      SumUpdate(s[1..], i - 1, y);
    }
  }

  lemma {:induction false} SumConstant(s: seq<int>, y: int)
    requires forall i | 0 <= i < |s| :: s[i] == y
    ensures Sum(s) == |s| * y
  {
    if s != [] {
      SumConstant(s[1..], y);
    }
  }

  lemma {:induction false} SumNonNegative(s: seq<int>)
    requires forall i | 0 <= i < |s| :: s[i] >= 0
    ensures Sum(s) >= 0 && (forall i | 0 <= i < |s| :: s[i] <= Sum(s))
  {
    if s != [] {
      SumNonNegative(s[1..]);
      assert forall i | 1 <= i < |s| :: s[i] == s[1..][i - 1];
    }
  }
}

/** What several models use. */
module Common {

  /** The source's null pointers and -1 results. */
  datatype Option<+T> = None | Some(value: T)

  function Min(a: int, b: int): int { if a < b then a else b }

  lemma ConcatAssociative<T>(a: seq<T>, b: seq<T>, c: seq<T>)
    ensures a + (b + c) == (a + b) + c
  {
  }

  lemma Quotient(p: nat, j: nat, m: nat)
    requires m > 0 && j * m <= p < j * m + m
    ensures p / m == j
  {
    var q := p / m;
    assert q * m <= p < q * m + m;
    TimesMonotone(q, j, m);
    TimesMonotone(j, q, m);
  }

  lemma TimesMonotone(a: nat, b: nat, m: nat)
    ensures a < b ==> a * m + m <= b * m
  {
    if a < b {
      var d := b - a - 1;
      assert b * m == (a + 1 + d) * m == a * m + m + d * m;
    }
  }

  lemma RemainderRepeats(x: nat, m: nat)
    requires m > 0
    ensures (x + m) % m == x % m
  {
    var q := x / m;
    assert (q + 1) * m == q * m + m;
    Quotient(x + m, q + 1, m);
  }
}

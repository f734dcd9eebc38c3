/** Facts about integer division by a positive number. */
module Division {

  lemma QuotientDrops(a: nat, n: nat)
    requires 0 < n <= a
    ensures (a - n) / n + 1 == a / n
  {
    var q, r := (a - n) / n, (a - n) % n;
    Distributes(n, q);
    QuotientIsUnique(a, n, q + 1, r);
  }

  lemma QuotientIsUnique(a: int, n: int, q: int, r: int)
    requires 0 <= r < n && a == n * q + r
    ensures a / n == q
  {
    var k := a / n - q;
    RemainderGap(a, n, q, k);
    if k >= 1 {
      MultipleAtLeast(n, k);
    } else if k <= -1 {
      MultipleAtLeast(n, -k);
    }
  }

  lemma RemainderGap(a: int, n: int, q: int, k: int)
    requires n > 0 && a / n == q + k
    ensures n * k == a - a % n - n * q
  {
    assert a == n * (q + k) + a % n;
    assert n * (q + k) == n * q + n * k;
  }

  lemma MultipleAtLeast(n: int, k: int)
    requires n > 0 && k >= 1
    ensures n * k >= n && n * -k == -(n * k)
  {
  }

  lemma Distributes(n: int, q: int)
    ensures n * (q + 1) == n + n * q
  {
  }
}

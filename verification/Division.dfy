/** Division with a remainder, where the divisor is a variable. */
module Division {
  import opened Powers

  lemma {:induction false} Multiple(i: nat, total: nat)
    requires 0 < total
    ensures (i * total) % total == 0
  {
    if i > 0 {
      Multiple(i - 1, total);
      MulSum(i - 1, 1, total);
      AddMultiple((i - 1) * total, total);
    }
  }

  lemma {:induction false} AddMultiple(x: nat, total: nat)
    requires 0 < total
    ensures (x + total) % total == x % total
  {
    var q, r := x / total, x % total;
    MulSum(q, 1, total);
    QuotientUnique(x + total, total, q + 1, r);
  }

  lemma {:induction false} QuotientUnique(x: nat, total: nat, q: nat, r: nat)
    requires 0 < total && r < total && x == q * total + r
    ensures x / total == q && x % total == r
  {
    var q', r' := x / total, x % total;
    if q' > q {
      MulSum(q, q' - q, total);
      AtLeastOne(q' - q, total);
    } else if q' < q {
      MulSum(q', q - q', total);
      AtLeastOne(q - q', total);
    }
  }

  lemma {:induction false} AtLeastOne(k: nat, total: nat)
    requires 0 < k
    ensures total <= k * total
  {
    MulSum(1, k - 1, total);
    MulNonNegative(k - 1, total);
  }

  /** The remainders of consecutive numbers. */
  lemma {:induction false} NextRemainder(n: nat, k: nat)
    requires 0 < k
    ensures (n + 1) % k == if n % k + 1 == k then 0 else n % k + 1
  {
    var q, m := n / k, n % k;
    if m + 1 == k {
      MulSum(q, 1, k);
      QuotientUnique(n + 1, k, q + 1, 0);
    } else {
      QuotientUnique(n + 1, k, q, m + 1);
    }
  }
}

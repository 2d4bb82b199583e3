/** Integer facts about multiplication and division by a variable. */
module Arith {
  lemma MulLe(a: nat, c: nat, b: nat)
    requires a <= c
    ensures a * b <= c * b
  {
  }

  /** Modulo `n`, a value within one length of the range `0..n` is brought into it by at most one `n`. */
  lemma ModOneWrap(x: int, n: nat)
    requires n > 0 && 0 <= x + n && x < n
    ensures x % n == if x < 0 then x + n else x
  {
    if x < 0 {
      assert x == (-1) * n + (x + n);
    } else {
      assert x == 0 * n + x;
    }
  }

  /** Modulo `n`, a value below `2 * n` loses at most one `n`. */
  lemma ModTwoLengths(x: nat, n: nat)
    requires n > 0 && x < 2 * n
    ensures x % n == if x < n then x else x - n
  {
    if x < n {
      assert x == 0 * n + x;
    } else {
      assert x == 1 * n + (x - n);
    }
  }

  /** One more factor adds `c` once more. */
  lemma MulNext(a: nat, b: nat, c: nat)
    requires b == a + 1
    ensures b * c == a * c + c
  {
  }

  /** A quotient is at most `b` when the dividend is at most `b` times the divisor. */
  lemma DivAtMost(x: nat, d: nat, b: nat)
    requires d > 0 && x <= d * b
    ensures x / d <= b
  {
    var q := x / d;
    assert x == d * q + x % d;
    if q > b {
      MulLe(b + 1, q, d);
    }
  }

  /** Division undoes multiplication. */
  lemma DivExact(d: nat, q: nat)
    requires d > 0
    ensures (d * q) / d == q
  {
    var q' := (d * q) / d;
    assert d * q == d * q' + (d * q) % d;
    if q' < q {
      MulLe(q' + 1, q, d);
    } else if q' > q {
      MulLe(q + 1, q', d);
    }
  }

  /** `n / d` rounded up. */
  function CeilDiv(n: nat, d: nat): nat
    requires d > 0
  {
    (n + d - 1) / d
  }

  /** The rounded-up quotient is the least count of `d`-sized groups that holds `n`. */
  lemma CeilDivSpec(n: nat, d: nat)
    requires d > 0
    ensures n <= CeilDiv(n, d) * d
    ensures CeilDiv(n, d) > 0 ==> (CeilDiv(n, d) - 1) * d < n
    ensures CeilDiv(n, d) == 0 <==> n == 0
  {
    var x := n + d - 1;
    var t := x / d;
    assert x == d * t + x % d;
    assert (t - 1) * d == t * d - d;
  }
}

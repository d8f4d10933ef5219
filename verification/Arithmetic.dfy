/** Repeated addition, kept apart from multiplication so that sums stay linear. */
module Arithmetic {

  /** `v` added up `n` times. */
  ghost function Times(n: nat, v: real): real {
    if n == 0 then 0.0 else Times(n - 1, v) + v
  }

  lemma {:induction false} TimesIsProduct(n: nat, v: real)
    ensures Times(n, v) == n as real * v
  {
    if n > 0 {
      TimesIsProduct(n - 1, v);
      assert n as real == (n - 1) as real + 1.0;
      assert n as real * v == (n - 1) as real * v + v;
    }
  }
}

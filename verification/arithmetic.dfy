/** Facts about remainders that the prover does not find alone. */
module Arithmetic {
  lemma AtLeastOnce(e: int, interval: nat)
    ensures e >= 1 ==> e * interval >= interval
    ensures e <= -1 ==> e * interval + interval <= 0
  {
  }

  lemma Difference(q: int, d: int, interval: nat)
    ensures q * interval - d * interval == (q - d) * interval
  {
  }

  /** What is left after `q` times `interval` is the remainder, if it is smaller. */
  lemma Remainder(n: nat, interval: nat, q: nat, r: nat)
    requires interval >= 1 && n == q * interval + r && r < interval
    ensures n % interval == r
  {
    var d := n / interval;
    assert n == d * interval + n % interval;
    Difference(q, d, interval);
    AtLeastOnce(q - d, interval);
  }
}

/** Facts about quotients, remainders and signs of products. */
module Arithmetic {

  lemma MultipleIsFar(k: int, d: int)
    requires k != 0 && d >= 1
    ensures k * d >= d || k * d <= -d
  {
    if k > 0 {
      assert (k - 1) * d >= 0;
    } else {
      assert (-k - 1) * d >= 0;
    }
  }

  lemma ModUnique(n: nat, d: nat, q: nat, r: nat)
    requires d >= 1 && n == d * q + r && r < d
    ensures n % d == r && n / d == q
  {
    var gap := n / d - q;
    assert gap * d == r - n % d;
    if gap != 0 {
      MultipleIsFar(gap, d);
    }
  }

  lemma ProductSign(a: real, d: real)
    requires d > 0.0
    ensures a * d >= 0.0 <==> a >= 0.0
  {
    if a < 0.0 {
      assert (-a) * d > 0.0;
    }
  }
}

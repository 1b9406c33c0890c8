/** Facts about integer products, one product at a time, so that each is cheap to prove. */
module Arithmetic {
  const U32_MAX: int := 0xFFFF_FFFF

  lemma MulMono(a: int, b: int, c: int)
    requires a <= b && c >= 0
    ensures a * c <= b * c
  {
  }

  lemma MulStrict(a: int, b: int, c: int)
    requires a < b && c >= 1
    ensures a * c < b * c
  {
  }

  lemma MulSign(x: int, t: int)
    ensures x >= 0 && t <= 0 ==> x * t <= 0
  {
  }

  lemma AtLeast(x: int, k: int)
    requires x >= 0 && k >= 1
    ensures x * k >= x
  {
  }

  lemma Rearrange(a: int, b: int, c: int)
    ensures (a * b) * c == b * (a * c)
    ensures (a * b) * c == (a * c) * b
  {
  }

  lemma CancelLeft(d: int, a: int, b: int)
    requires d > 0 && d * a <= d * b
    ensures a <= b
  {
  }

  lemma CancelRight(a: int, b: int, c: int)
    requires c > 0 && a * c == b * c
    ensures a == b
  {
    assert (a - b) * c == 0;
  }

  lemma StrictCancel(d: int, a: int, b: int)
    requires d >= 1 && d * a < d * b
    ensures a < b
  {
  }

  lemma PositiveFactors(k: nat, b: nat)
    requires k * b >= 1
    ensures k >= 1 && b >= 1 && b <= k * b
    ensures k > 1 ==> b < k * b
  {
    MulSign(k, b);
    MulSign(b, k);
    if k > 1 {
      AtLeast(b, k - 1);
      assert k * b == b + b * (k - 1);
    }
  }

  lemma FactorAtLeast(q: int, x: int, t: int)
    requires q >= 1 && x >= 1 && q == x * t
    ensures q >= x
  {
    MulSign(x, t);
    AtLeast(x, t);
  }

  lemma ProductAtLeast(x: int, y: int, bound: int)
    requires x >= 1 && y >= 1 && x + y > bound
    ensures x * y >= bound
  {
    AtLeast(x - 1, y);
    assert x * y == (x - 1) * y + y;
  }
}

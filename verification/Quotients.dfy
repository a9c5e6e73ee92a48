/** Integer quotients by a variable window. */
module Quotients {

  lemma MulMonotone(a: nat, b: nat, w: nat)
    requires a <= b
    ensures a * w <= b * w
  {
  }

  lemma Division(x: nat, w: nat)
    requires w > 0
    ensures x / w * w <= x < x / w * w + w
    ensures x / w <= x
  {
    if x / w > 0 {
      MulMonotone(1, w, x / w);
    }
  }

  lemma ProductGap(p: nat, k: nat, q: nat, w: nat)
    requires q > p + k
    ensures q * w >= p * w + k * w + w
  {
    MulMonotone(p + k + 1, q, w);
    assert (p + k + 1) * w == p * w + k * w + w;
  }

  lemma QuotientsClose(x: nat, y: nat, w: nat, k: nat)
    requires w > 0 && x <= y <= x + k * w
    ensures x / w <= y / w <= x / w + k
  {
    var p, q := x / w, y / w;
    Division(x, w);
    Division(y, w);
    if q > p + k {
      ProductGap(p, k, q, w);
    }
    if q < p {
      ProductGap(q, 0, p, w);
    }
  }
}

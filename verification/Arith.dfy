// Division and remainder by a variable.

module Arith {
  lemma MulStep(k: nat, b: nat)
    ensures k * (b + 1) == k * b + k
  {}

  lemma {:induction false} MulMono(k: nat, a: nat, b: nat)
    requires a <= b
    ensures k * a <= k * b
    decreases b
  {
    if a < b {
      MulMono(k, a, b - 1);
      MulStep(k, b - 1);
    }
  }

  lemma DivModUnique(x: nat, k: nat, q: nat, r: nat)
    requires x == k * q + r && r < k
    ensures x / k == q && x % k == r
  {
    var p := x / k;
    assert x == k * p + x % k;
    MulStep(k, p);
    MulStep(k, q);
    if q < p { MulMono(k, q + 1, p); }
    if p < q { MulMono(k, p + 1, q); }
  }

  // Counting modulo k.
  lemma ModStep(e: nat, k: nat)
    requires k > 0
    ensures (e + 1) % k == if e % k == k - 1 then 0 else e % k + 1
  {
    var q := e / k;
    MulStep(k, q);
    if e % k == k - 1 { DivModUnique(e + 1, k, q + 1, 0); }
    else { DivModUnique(e + 1, k, q, e % k + 1); }
  }

  lemma AddMod(x: nat, k: nat)
    requires k > 0
    ensures (x + k) % k == x % k
  {
    MulStep(k, x / k);
    DivModUnique(x + k, k, x / k + 1, x % k);
  }

  lemma SmallMod(e: nat, k: nat)
    requires e < k
    ensures e % k == e
  {
    DivModUnique(e, k, 0, e);
  }
}

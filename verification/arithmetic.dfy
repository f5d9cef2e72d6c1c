/** Facts about division, remainder and powers that the other modules share. */
module Arithmetic {
  function Max(a: int, b: int): int { if a < b then b else a }

  /** Division as C++ does it, toward zero. */
  function Quotient(a: int, b: int): int
    requires b > 0
  {
    if a >= 0 then a / b else -((-a) / b)
  }

  predicate AllBytes(data: seq<nat>) { forall i :: 0 <= i < |data| ==> data[i] < 0x100 }

  lemma MulMono(a: int, x: int, y: int)
    requires 0 <= a && x <= y
    ensures a * x <= a * y
  {
  }

  lemma DivModUnique(x: int, a: int, q: int, r: int)
    requires a > 0 && x == a * q + r && 0 <= r < a
    ensures x / a == q && x % a == r
  {
    var q', r' := x / a, x % a;
    assert x == a * q' + r';
    assert a * (q - q') == r' - r;
    if q - q' >= 1 { MulMono(a, 1, q - q'); }
    if q - q' <= -1 { MulMono(a, q - q', -1); }
  }

  lemma MultipleMod(k: int, a: int)
    requires a > 0
    ensures (a * k) % a == 0 && (a * k) / a == k
  {
    DivModUnique(a * k, a, k, 0);
  }

  lemma MulAssoc(a: int, b: int, c: int)
    ensures a * (b * c) == a * b * c
  {
  }

  function Pow2(k: nat): (p: nat)
    ensures p > 0
  {
    if k == 0 then 1 else 2 * Pow2(k - 1)
  }

  lemma {:induction false} Pow2Add(a: nat, b: nat)
    ensures Pow2(a + b) == Pow2(a) * Pow2(b)
  {
    if a > 0 {
      Pow2Add(a - 1, b);
      MulAssoc(2, Pow2(a - 1), Pow2(b));
    }
  }

  /** The powers that give the widths of bytes and words. */
  lemma Pow2Values()
    ensures Pow2(3) == 8 && Pow2(8) == 0x100 && Pow2(12) == 0x1000 && Pow2(24) == 0x100_0000 && Pow2(28) == 0x1000_0000
            && Pow2(32) == 0x1_0000_0000
  {
    assert Pow2(3) == 8;
    assert Pow2(6) == 64;
    assert Pow2(9) == 0x200;
    assert Pow2(12) == 0x1000;
    Pow2Add(12, 12);
    Pow2Add(24, 4);
    Pow2Add(28, 4);
    assert Pow2(4) == 16;
  }
}

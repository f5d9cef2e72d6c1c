/**
 The divisibility tests of the vendored dragonbox header: division by an odd power as one
 multiplication by its inverse modulo the word size, and the stripping of trailing zeros that
 rests on it. Words are numbers below a power of two; products wrap explicitly.
 */
module Dragonbox {
  import opened Arithmetic

  function Pow(b: nat, e: nat): nat { if e == 0 then 1 else b * Pow(b, e - 1) }

  lemma {:induction false} PowPositive(b: nat, e: nat)
    requires b > 0
    ensures Pow(b, e) > 0
  {
    if e > 0 {
      PowPositive(b, e - 1);
      MulMono(b, 1, Pow(b, e - 1));
    }
  }

  lemma {:induction false} PowAdd(b: nat, e: nat, f: nat)
    ensures Pow(b, e + f) == Pow(b, e) * Pow(b, f)
  {
    if e > 0 {
      PowAdd(b, e - 1, f);
      MulAssoc(b, Pow(b, e - 1), Pow(b, f));
    }
  }

  // ---------------------------------------------------------------------------------------------
  // Congruence
  // ---------------------------------------------------------------------------------------------

  ghost predicate Congruent(x: int, y: int, m: nat) { exists k: int :: x == y + k * m }

  lemma ModIsCongruent(x: int, m: nat)
    requires m > 0
    ensures Congruent(x % m, x, m) && Congruent(x, x % m, m)
  {
    assert x == x % m + x / m * m;
    assert x % m == x + (-(x / m)) * m;
  }

  /** Two numbers of one residue class below the modulus are the same. */
  lemma ResidueIsUnique(x: int, y: int, m: nat)
    requires Congruent(x, y, m) && 0 <= x < m && 0 <= y < m
    ensures x == y
  {
    var k: int :| x == y + k * m;
    if k >= 1 { MulMono(m, 1, k); }
    if k <= -1 { MulMono(m, k, -1); }
  }

  lemma CongruentTransitive(x: int, y: int, z: int, m: nat)
    requires Congruent(x, y, m) && Congruent(y, z, m)
    ensures Congruent(x, z, m)
  {
    var k: int :| x == y + k * m;
    var l: int :| y == z + l * m;
    assert x == z + (k + l) * m;
  }

  lemma CongruentMul(x: int, y: int, c: int, m: nat)
    requires Congruent(x, y, m)
    ensures Congruent(x * c, y * c, m) && Congruent(c * x, c * y, m)
  {
    var k: int :| x == y + k * m;
    assert x * c == y * c + (k * c) * m;
    assert c * x == c * y + (k * c) * m;
  }

  /** A congruence holds modulo every divisor of the modulus. */
  lemma CongruentDivisor(x: int, y: int, m: nat, f: nat)
    requires Congruent(x, y, m * f)
    ensures Congruent(x, y, m)
  {
    var k: int :| x == y + k * (m * f);
    assert x == y + (k * f) * m;
  }

  // ---------------------------------------------------------------------------------------------
  // The modular inverse
  // ---------------------------------------------------------------------------------------------

  /** What `x * x * a` leaves in a word of `m` values. */
  function Step(x: int, a: int, m: nat): int
    requires m > 0
  {
    x * x % m * a % m
  }

  lemma StepIsCongruent(x: int, a: int, m: nat)
    requires m > 0
    ensures Congruent(Step(x, a, m), x * x * a, m) && 0 <= Step(x, a, m) < m
  {
    ModIsCongruent(x * x, m);
    CongruentMul(x * x % m, x * x, a, m);
    ModIsCongruent(x * x % m * a, m);
    CongruentTransitive(Step(x, a, m), x * x % m * a, x * x * a, m);
  }

  /** Squaring doubles how many low bits of the product with `a` are those of 1. */
  lemma SquareDoubles(x: int, a: int, half: nat)
    requires Congruent(x * a, 1, 2 * half)
    ensures Congruent(x * x * a * a, 1, 2 * (2 * half))
  {
    var k: int :| x * a == 1 + k * (2 * half);
    Reorder(x, a);
    SquareOfOneMore(x * a, k, half);
  }

  lemma SquareOfOneMore(y: int, k: int, half: nat)
    requires y == 1 + k * (2 * half)
    ensures Congruent(y * y, 1, 2 * (2 * half))
  {
    var c := k * half;
    assert y == 1 + 2 * c;
    Binomial(c);
    FourTimes(k, half);
    var n := k + k * c;
    assert y * y == 1 + n * (2 * (2 * half));
  }

  lemma FourTimes(k: int, half: int)
    ensures 4 * (k * half) + 4 * ((k * half) * (k * half)) == (k + k * (k * half)) * (2 * (2 * half))
  {
    Distribute(k, k * (k * half), 2 * (2 * half));
    var c := k * half;
    assert 4 * c == k * (2 * (2 * half));
    assert k * c * (2 * (2 * half)) == 4 * (c * (k * half)) by { Gather(k, c, half); }
  }

  lemma Distribute(a: int, b: int, c: int)
    ensures (a + b) * c == a * c + b * c
  {
  }

  lemma Gather(k: int, c: int, half: int)
    ensures k * c * (2 * (2 * half)) == 4 * (c * (k * half))
  {
    MulAssoc(c, k, half);
  }

  lemma Reorder(x: int, a: int)
    ensures x * x * a * a == (x * a) * (x * a)
  {
  }

  lemma Binomial(c: int)
    ensures (1 + 2 * c) * (1 + 2 * c) == 1 + 4 * c + 4 * (c * c)
  {
  }

  lemma StepKeeps(x: int, a: int, i: nat, width: nat)
    requires 1 <= i < width && Congruent(x * a, 1, Pow(2, i))
    ensures Pow(2, width) > 0 && Congruent(Step(x, a, Pow(2, width)) * a, 1, Pow(2, i + 1))
  {
    var m, low := Pow(2, width), Pow(2, i + 1);
    PowPositive(2, width);
    var x' := Step(x, a, m);
    StepIsCongruent(x, a, m);
    PowAdd(2, i + 1, width - i - 1);
    CongruentDivisor(x', x * x * a, low, Pow(2, width - i - 1));
    CongruentMul(x', x * x * a, a, low);
    SquareDoubles(x, a, Pow(2, i - 1));
    CongruentTransitive(x' * a, x * x * a * a, 1, low);
  }

  /** `width` is that of the words the loop computes in, `bits` how many of the result are wanted. */
  method ModularInverse(a: nat, width: nat, bits: nat) returns (r: nat)
    requires a % 2 == 1 && 1 <= bits <= width
    ensures r < Pow(2, bits) && Congruent(r * a, 1, Pow(2, bits))
  {
    PowPositive(2, width);
    var x: int := 1 % Pow(2, width);
    OddIsOne(a);
    OneFits(width);
    for i := 1 to bits
      invariant 0 <= x < Pow(2, width) && Congruent(x * a, 1, Pow(2, i))
    {
      StepKeeps(x, a, i, width);
      StepIsCongruent(x, a, Pow(2, width));
      x := Step(x, a, Pow(2, width));
    }
    PowPositive(2, bits);
    r := if bits < width then x % Pow(2, bits) else x;
    ModIsCongruent(x, Pow(2, bits));
    CongruentMul(x % Pow(2, bits), x, a, Pow(2, bits));
    if bits < width { CongruentTransitive(r * a, x * a, 1, Pow(2, bits)); }
  }

  lemma OddIsOne(a: nat)
    requires a % 2 == 1
    ensures Congruent(1 * a, 1, Pow(2, 1))
  {
    assert Pow(2, 1) == 2 * Pow(2, 0);
    assert 1 * a == 1 + (a / 2) * 2;
  }

  lemma OneFits(width: nat)
    requires width >= 1
    ensures Pow(2, width) >= 2 && 1 % Pow(2, width) == 1
  {
    PowPositive(2, width - 1);
    SmallMod(1, Pow(2, width));
  }

  // ---------------------------------------------------------------------------------------------
  // The table and the test
  // ---------------------------------------------------------------------------------------------

  datatype Table = Table(modInv: seq<nat>, maxQuotients: seq<nat>)

  /** The table is right for words of `m` values. */
  ghost predicate TableOk(t: Table, a: nat, m: nat) {
    && |t.modInv| == |t.maxQuotients|
    && forall e :: 0 <= e < |t.modInv| ==> EntryOk(t.modInv[e], t.maxQuotients[e], Pow(a, e), m)
  }

  ghost predicate EntryOk(inv: nat, maxQuotient: nat, d: nat, m: nat) {
    0 < d < m && inv < m && Congruent(inv * d, 1, m) && maxQuotient == (m - 1) / d
  }

  /** The powers fit a word as long as the table is: the source's instances are made so. */
  method BuildTable(a: nat, width: nat, size: nat) returns (t: Table)
    requires a % 2 == 1 && width >= 1 && size > 0 && forall e :: 0 <= e < size ==> Pow(a, e) < Pow(2, width)
    ensures |t.modInv| == size && TableOk(t, a, Pow(2, width))
  {
    var m := Pow(2, width);
    OneFits(width);
    var modInverse := ModularInverse(a, width, width);
    var modInv: seq<nat>, maxQuotients: seq<nat> := [], [];
    var powInverse: nat, powA: nat := 1, 1;
    OneIsItself(m);
    for i := 0 to size
      invariant |modInv| == |maxQuotients| == i && TableOk(Table(modInv, maxQuotients), a, m)
      invariant powInverse < m && Congruent(powInverse * Pow(a, i), 1, m) && (i < size ==> powA == Pow(a, i))
    {
      AddEntry(Table(modInv, maxQuotients), powInverse, powA, a, m);
      modInv, maxQuotients := modInv + [powInverse], maxQuotients + [(m - 1) / powA];
      NextInverse(powInverse, modInverse, a, i, m);
      if i + 1 < size { SmallMod(a * powA, m); }
      powInverse, powA := powInverse * modInverse % m, a * powA % m;
    }
    t := Table(modInv, maxQuotients);
  }

  lemma AddEntry(t: Table, inv: nat, d: nat, a: nat, m: nat)
    requires TableOk(t, a, m) && d == Pow(a, |t.modInv|) && a > 0 && d < m && inv < m && Congruent(inv * d, 1, m)
    ensures d > 0 && TableOk(Table(t.modInv + [inv], t.maxQuotients + [(m - 1) / d]), a, m)
  {
    PowPositive(a, |t.modInv|);
    assert EntryOk(inv, (m - 1) / d, d, m);
  }

  lemma OneIsItself(m: nat)
    ensures Congruent(1 * 1, 1, m)
  {
    assert 1 * 1 == 1 + 0 * m;
  }

  lemma SmallMod(x: nat, m: nat)
    requires x < m
    ensures x % m == x
  {
  }

  lemma NextInverse(p: int, v: int, a: nat, i: nat, m: nat)
    requires m > 0 && Congruent(p * Pow(a, i), 1, m) && Congruent(v * a, 1, m)
    ensures 0 <= p * v % m < m && Congruent((p * v % m) * Pow(a, i + 1), 1, m)
  {
    var d, d' := Pow(a, i), Pow(a, i + 1);
    ModIsCongruent(p * v, m);
    CongruentMul(p * v % m, p * v, d', m);
    CongruentMul(p * d, 1, v * a, m);
    assert p * v * d' == (p * d) * (v * a) by { Exchange(p, v, a, d); }
    CongruentTransitive((p * d) * (v * a), 1 * (v * a), 1, m);
    CongruentTransitive((p * v % m) * d', p * v * d', 1, m);
  }

  lemma Exchange(p: int, v: int, a: int, d: int)
    ensures p * v * (a * d) == (p * d) * (v * a)
  {
  }

  lemma Product(x: nat, inv: nat, d: nat, m: nat) returns (q: nat)
    requires m > 0 && Congruent(inv * d, 1, m)
    ensures q == x * inv % m && q < m && Congruent(q, x * inv, m) && Congruent(q * d, x, m)
  {
    q := x * inv % m;
    ModIsCongruent(x * inv, m);
    CongruentMul(q, x * inv, d, m);
    CongruentMul(inv * d, 1, x, m);
    MulAssoc(x, inv, d);
    CongruentTransitive(q * d, x * inv * d, x * 1, m);
  }

  /** A small product is the quotient. */
  lemma SmallIsExact(x: nat, q: nat, d: nat, m: nat)
    requires 0 < d < m && x < m && Congruent(q * d, x, m) && q <= (m - 1) / d
    ensures x % d == 0 && x / d == q
  {
    QuotientBound(q, d, m);
    ResidueIsUnique(q * d, x, m);
    MultipleMod(q, d);
  }

  /** The product of a multiple is small. */
  lemma MultipleIsSmall(x: nat, q: nat, inv: nat, d: nat, m: nat)
    requires 0 < d < m && x < m && q < m && Congruent(q, x * inv, m) && Congruent(inv * d, 1, m) && x % d == 0
    ensures q <= (m - 1) / d
  {
    var k := Quotient(x, d);
    DivisionMonotone(d, k, m);
    CancelInverse(q, x, inv, d, k, m);
    ResidueIsUnique(q, k, m);
  }

  lemma Quotient(x: nat, d: nat) returns (k: nat)
    requires d > 0 && x % d == 0
    ensures x == d * k
  {
    k := x / d;
  }

  /** The test is exact, and when it succeeds the product is the quotient. */
  lemma InverseDivides(x: nat, inv: nat, maxQuotient: nat, d: nat, m: nat)
    requires x < m && EntryOk(inv, maxQuotient, d, m)
    ensures x * inv % m <= maxQuotient <==> x % d == 0
    ensures x * inv % m <= maxQuotient ==> x * inv % m == x / d
  {
    var q := Product(x, inv, d, m);
    if q <= maxQuotient {
      SmallIsExact(x, q, d, m);
    } else if x % d == 0 {
      MultipleIsSmall(x, q, inv, d, m);
    }
  }

  lemma QuotientBound(q: nat, d: nat, m: nat)
    requires 0 < d && 0 < m && q <= (m - 1) / d
    ensures q * d < m
  {
    assert (m - 1) / d * d <= m - 1;
    MulMono(d, q, (m - 1) / d);
  }

  lemma DivisionMonotone(d: nat, k: nat, m: nat)
    requires 0 < d && d * k < m
    ensures k <= (m - 1) / d && k < m
  {
    var q := (m - 1) / d;
    assert m - 1 == d * q + (m - 1) % d;
    if k > q { MulMono(d, q + 1, k); }
    MulMono(k, 1, d);
  }

  lemma CancelInverse(q: int, x: nat, inv: nat, d: nat, k: nat, m: nat)
    requires m > 0 && Congruent(q, x * inv, m) && x == d * k && Congruent(inv * d, 1, m)
    ensures Congruent(q, k, m)
  {
    CongruentMul(inv * d, 1, k, m);
    assert x * inv == (inv * d) * k;
    CongruentTransitive(q, x * inv, 1 * k, m);
  }

  /** `divisible_by_power_of_5` for every word and every exponent in the table. */
  method DivisibleByPowerOf5(t: Table, width: nat, x: nat, exp: nat) returns (divisible: bool)
    requires TableOk(t, 5, Pow(2, width)) && x < Pow(2, width) && exp < |t.modInv|
    ensures Pow(5, exp) > 0 && (divisible <==> x % Pow(5, exp) == 0)
  {
    PowPositive(5, exp);
    PowPositive(2, width);
    InverseDivides(x, t.modInv[exp], t.maxQuotients[exp], Pow(5, exp), Pow(2, width));
    divisible := x * t.modInv[exp] % Pow(2, width) <= t.maxQuotients[exp];
  }
}

/**
 The 32-bit `remove_trailing_zeros` of the dragonbox header: it divides by 25 and by 5 through
 the table of inverses and shifts the matching powers of two out at the end.
 */
module TrailingZeros {
  import opened Arithmetic
  import opened Dragonbox

  const WORD := 0x1_0000_0000

  /** The number of zero bits below the lowest one bit. */
  function CountZeros(n: nat): (t: nat)
    requires n > 0
    decreases n
  {
    if n % 2 == 1 then 0 else 1 + CountZeros(n / 2)
  }

  ghost predicate Divides(d: int, n: int) { exists k: int :: n == d * k }

  lemma ModDivides(d: int, n: int)
    requires d > 0
    ensures n % d == 0 <==> Divides(d, n)
  {
    if n % d == 0 { assert n == d * (n / d); }
    if k: int :| n == d * k { MultipleMod(k, d); }
  }

  lemma {:induction false} ZerosAre(n: nat)
    requires n > 0
    ensures exists odd: int :: n == Pow(2, CountZeros(n)) * odd && odd % 2 == 1
    decreases n
  {
    if n % 2 == 1 {
      assert n == Pow(2, 0) * n;
    } else {
      ZerosAre(n / 2);
      var odd: int :| n / 2 == Pow(2, CountZeros(n / 2)) * odd && odd % 2 == 1;
      MulAssoc(2, Pow(2, CountZeros(n / 2)), odd);
      assert n == Pow(2, CountZeros(n)) * odd;
    }
  }

  /** A power of two that divides `5 * n` divides `n`. */
  lemma {:induction false} FiveIsOdd(n: int, t: nat)
    requires Divides(Pow(2, t), 5 * n)
    ensures Divides(Pow(2, t), n)
    decreases t
  {
    if t == 0 {
      assert n == Pow(2, 0) * n;
    } else {
      var k: int :| 5 * n == Pow(2, t) * k;
      MulAssoc(2, Pow(2, t - 1), k);
      var half := n / 2;
      assert n == 2 * half && 5 * half == Pow(2, t - 1) * k;
      FiveIsOdd(half, t - 1);
      var j: int :| half == Pow(2, t - 1) * j;
      MulAssoc(2, Pow(2, t - 1), j);
      assert n == Pow(2, t) * j;
    }
  }

  lemma {:induction false} FivesAreOdd(n: int, s: nat, t: nat)
    requires Divides(Pow(2, t), n * Pow(5, s))
    ensures Divides(Pow(2, t), n)
    decreases s
  {
    if s > 0 {
      MulAssoc(5, n, Pow(5, s - 1));
      assert n * Pow(5, s) == 5 * (n * Pow(5, s - 1)) by { Swap(n, Pow(5, s - 1)); }
      FiveIsOdd(n * Pow(5, s - 1), t);
      FivesAreOdd(n, s - 1, t);
    }
  }

  lemma Swap(n: int, p: int)
    ensures n * (5 * p) == 5 * (n * p)
  {
  }

  lemma {:induction false} TenIsTwoFive(s: nat)
    ensures Pow(10, s) == Pow(2, s) * Pow(5, s)
  {
    if s > 0 {
      TenIsTwoFive(s - 1);
      Shuffle(Pow(2, s - 1), Pow(5, s - 1));
    }
  }

  lemma Shuffle(a: int, b: int)
    ensures 10 * (a * b) == (2 * a) * (5 * b)
  {
  }

  lemma Words()
    ensures Pow(2, 32) == WORD && (forall e: nat :: e < 9 ==> Pow(5, e) < WORD) && Pow(5, 1) == 5 && Pow(5, 2) == 25
  {
    var p := Pow(2, 8);
    assert p == 256 by { assert Pow(2, 4) == 16; PowAdd(2, 4, 4); }
    PowAdd(2, 8, 8);
    PowAdd(2, 16, 16);
    assert Pow(5, 1) == 5 && Pow(5, 2) == 25 && Pow(5, 3) == 125 && Pow(5, 4) == 625;
    PowAdd(5, 4, 1);
    PowAdd(5, 4, 2);
    PowAdd(5, 4, 3);
    PowAdd(5, 4, 4);
  }

  /** The largest power of ten looked for, from the largest significand that the caller can have. */
  method MaxPower() returns (k: nat)
    ensures k == 7
  {
    var maxSignificand := (WORD - 1) / 100;
    k := 0;
    var p := 1;
    while p < maxSignificand / 10
      invariant k <= 7 && p == [1, 10, 100, 1000, 10000, 100000, 1000000, 10000000][k]
      decreases 7 - k
    {
      p := p * 10;
      k := k + 1;
    }
  }

  /** Division by `d`, which is `5^e`, through the table: the quotient, if there is no remainder. */
  method TryDivide(table: Table, e: nat, ghost d: nat, n: nat) returns (ok: bool, q: nat)
    requires TableOk(table, 5, WORD) && e < |table.modInv| && n < WORD && d == Pow(5, e)
    ensures d > 0 && (ok <==> n % d == 0) && (ok ==> n == d * q)
  {
    PowPositive(5, e);
    InverseDivides(n, table.modInv[e], table.maxQuotients[e], d, WORD);
    q := n * table.modInv[e] % WORD;
    ok := q <= table.maxQuotients[e];
  }

  /** `n` is `n0` with `s` fives divided out. */
  ghost predicate FivesOut(n: nat, s: nat, n0: nat) { n * Pow(5, s) == n0 }

  method RemoveTrailingZeros(n0: nat) returns (n: nat, s: nat)
    requires 0 < n0 < WORD
    ensures s <= 7 && n * Pow(10, s) == n0
    ensures n % 10 == 0 <==> n0 % 1_0000_0000 == 0
  {
    hide Pow, TableOk, CountZeros, FivesOut;
    Words();
    var table := BuildTable(5, 32, 9);
    var t := CountZeros(n0);
    var maxPower := MaxPower();
    if t > maxPower { t := maxPower; }
    n, s := DivideFives(table, n0, t);
    ShiftOut(n0, n, s, t);
    PowPositive(2, s);
    n := n / Pow(2, s);
  }

  /** Fives out of `n0`, two at a time and one more at the end, but no more than `t`. */
  method DivideFives(table: Table, n0: nat, t: nat) returns (n: nat, s: nat)
    requires TableOk(table, 5, WORD) && |table.modInv| == 9 && 0 < n0 < WORD
    ensures s <= t && FivesOut(n, s, n0) && (s == t || n % 5 != 0)
  {
    hide Pow, TableOk, FivesOut;
    Words();
    NoFives(n0);
    n, s := n0, 0;
    var stuck := false;
    while s < t - 1 && !stuck
      invariant s <= t && n <= n0 && FivesOut(n, s, n0) && (stuck ==> n % 25 != 0)
      decreases t - s, !stuck
    {
      var ok, q := TryDivide(table, 2, 25, n);
      if !ok {
        stuck := true;
      } else {
        FivesMove(q, s, 2, 25, n, n0);
        n, s := q, s + 2;
      }
    }
    if s < t {
      var ok, q := TryDivide(table, 1, 5, n);
      if ok {
        FivesMove(q, s, 1, 5, n, n0);
        n, s := q, s + 1;
      }
    }
  }

  lemma NoFives(n0: nat)
    ensures FivesOut(n0, 0, n0)
  {
  }

  /** Dividing by a power of five moves it into the count. */
  lemma FivesMove(q: nat, s: nat, k: nat, d: nat, n: nat, n0: nat)
    requires d == Pow(5, k) && n == d * q && FivesOut(n, s, n0)
    ensures FivesOut(q, s + k, n0) && q <= n
  {
    PowAdd(5, s, k);
    PowPositive(5, k);
    MulAssoc(q, d, Pow(5, s));
    MulMono(q, 1, d);
    assert Pow(5, s) * d == d * Pow(5, s);
  }

  /** The twos that belong to the fives divided out, and what is left. */
  lemma ShiftOut(n0: nat, n: nat, s: nat, t: nat)
    requires 0 < n0 && FivesOut(n, s, n0) && s <= t && t == (if CountZeros(n0) > 7 then 7 else CountZeros(n0))
             && (s == t || n % 5 != 0)
    ensures Pow(2, s) > 0 && n / Pow(2, s) * Pow(10, s) == n0
    ensures (n / Pow(2, s)) % 10 == 0 <==> n0 % 1_0000_0000 == 0
  {
    PowPositive(2, s);
    var r := ShiftedIs(n0, n, s, t);
    MultipleMod(r, Pow(2, s));
    TensLeft(n0, n, r, s, t);
    ModDivides(1_0000_0000, n0);
    ModDivides(10, r);
  }

  lemma ShiftedIs(n0: nat, n: nat, s: nat, t: nat) returns (r: nat)
    requires 0 < n0 && n * Pow(5, s) == n0 && s <= t <= CountZeros(n0)
    ensures n == Pow(2, s) * r && r * Pow(10, s) == n0
  {
    ZerosAre(n0);
    var odd: int :| n0 == Pow(2, CountZeros(n0)) * odd && odd % 2 == 1;
    PowAdd(2, s, CountZeros(n0) - s);
    MulAssoc(Pow(2, s), Pow(2, CountZeros(n0) - s), odd);
    assert n0 == Pow(2, s) * (Pow(2, CountZeros(n0) - s) * odd);
    FivesAreOdd(n, s, s);
    var k: int :| n == Pow(2, s) * k;
    PowPositive(2, s);
    if k < 0 { MulMono(Pow(2, s), k, -1); }
    r := k;
    TenIsTwoFive(s);
    assert r * (Pow(2, s) * Pow(5, s)) == Pow(2, s) * r * Pow(5, s) by { MulAssoc(r, Pow(2, s), Pow(5, s)); }
  }

  lemma TensLeft(n0: nat, n: nat, r: nat, s: nat, t: nat)
    requires 0 < n0 && n * Pow(5, s) == n0 && n == Pow(2, s) * r && r * Pow(10, s) == n0
    requires s <= t && t == (if CountZeros(n0) > 7 then 7 else CountZeros(n0)) && (s == t || n % 5 != 0)
    ensures Divides(10, r) <==> Divides(1_0000_0000, n0)
  {
    if Divides(10, r) {
      var j: int :| r == 10 * j;
      if n % 5 != 0 { FiveStays(n, s, r, j); }
      if CountZeros(n0) <= 7 { OddPartIsOdd(n0, n, r, s); }
      SevenTens();
      assert n0 == 1_0000_0000 * j by { TimesTen(j, r, n0); }
    }
    if Divides(1_0000_0000, n0) {
      var j: int :| n0 == 1_0000_0000 * j;
      EightTens(r, s, j, n0);
    }
  }

  lemma FiveStays(n: nat, s: nat, r: nat, j: int)
    requires n == Pow(2, s) * r && r == 10 * j
    ensures n % 5 == 0
  {
    MulAssoc(Pow(2, s), 5, 2 * j);
    Swap(Pow(2, s), 2 * j);
    MultipleMod(Pow(2, s) * (2 * j), 5);
  }

  lemma TimesTen(j: int, r: nat, n0: nat)
    requires r == 10 * j && n0 == r * 1000_0000
    ensures n0 == 1_0000_0000 * j
  {
  }

  lemma SevenTens()
    ensures Pow(10, 7) == 1000_0000
  {
    assert Pow(10, 3) == 1000 && Pow(10, 4) == 1_0000;
    PowAdd(10, 3, 4);
  }

  lemma EightTens(r: int, s: nat, j: int, n0: int)
    requires s <= 7 && r * Pow(10, s) == n0 && n0 == 1_0000_0000 * j
    ensures Divides(10, r)
  {
    SevenTens();
    PowAdd(10, s, 7 - s);
    PowPositive(10, s);
    var p, q := Pow(10, s), Pow(10, 7 - s);
    assert r * p == 10 * (p * q) * j;
    assert p * r == p * (10 * (q * j)) by { Regroup(p, q, j); }
    Cancel(p, r, 10 * (q * j));
  }

  lemma Regroup(p: int, q: int, j: int)
    ensures 10 * (p * q) * j == p * (10 * (q * j))
  {
  }

  lemma Cancel(p: int, x: int, y: int)
    requires p > 0 && p * x == p * y
    ensures x == y
  {
    if x < y { MulMono(p, x + 1, y); }
    if y < x { MulMono(p, y + 1, x); }
  }

  /** If all twos are shifted out, what is left is odd. */
  lemma OddPartIsOdd(n0: nat, n: nat, r: nat, s: nat)
    requires 0 < n0 && s == CountZeros(n0) && n * Pow(5, s) == n0 && n == Pow(2, s) * r
    ensures r % 2 == 1
  {
    ZerosAre(n0);
    var odd: int :| n0 == Pow(2, s) * odd && odd % 2 == 1;
    MulAssoc(Pow(2, s), r, Pow(5, s));
    PowPositive(2, s);
    Cancel(Pow(2, s), r * Pow(5, s), odd);
    var half := r / 2;
    MulAssoc(2, half, Pow(5, s));
    assert (2 * half * Pow(5, s)) % 2 == 0;
    if r == 2 * half { assert false; }
  }

  /** On the range that the caller promises, no trailing zero is left. */
  lemma NoneLeft(n0: nat, n: nat, s: nat)
    requires 0 < n0 <= (WORD - 1) / 100 && n * Pow(10, s) == n0 && (n % 10 == 0 <==> n0 % 1_0000_0000 == 0)
    ensures n % 10 != 0
  {
  }
}

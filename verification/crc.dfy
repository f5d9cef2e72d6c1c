/**
 The table-driven CRC of `FileUtil.cpp`. A number stands for the polynomial over GF(2) whose
 coefficients are its bits: addition is `Xor`, doubling multiplies by x, and a 32-bit register
 holds a polynomial of degree below 32.
 */
module Crc {
  import opened Arithmetic

  // ---------------------------------------------------------------------------------------------
  // Polynomials over GF(2)
  // ---------------------------------------------------------------------------------------------

  /** Bitwise exclusive or. */
  function Xor(a: nat, b: nat): nat {
    if a == 0 then b else if b == 0 then a else 2 * Xor(a / 2, b / 2) + (a + b) % 2
  }

  lemma {:induction false} XorStep(a: nat, b: nat)
    ensures Xor(a, b) / 2 == Xor(a / 2, b / 2) && Xor(a, b) % 2 == (a + b) % 2
  {
  }

  lemma SameHalves(x: nat, y: nat)
    requires x / 2 == y / 2 && x % 2 == y % 2
    ensures x == y
  {
  }

  lemma Halves(x: nat, c: nat)
    requires c < 2
    ensures (2 * x + c) / 2 == x && (2 * x + c) % 2 == c
  {
  }

  lemma XorBits(x: nat, y: nat, c: nat, d: nat)
    requires c < 2 && d < 2
    ensures Xor(2 * x + c, 2 * y + d) == 2 * Xor(x, y) + (c + d) % 2
  {
    hide Xor;
    XorStep(2 * x + c, 2 * y + d);
    Halves(x, c);
    Halves(y, d);
    Halves(Xor(x, y), (c + d) % 2);
    SameHalves(Xor(2 * x + c, 2 * y + d), 2 * Xor(x, y) + (c + d) % 2);
  }

  lemma {:induction false} XorCommutes(a: nat, b: nat)
    ensures Xor(a, b) == Xor(b, a)
  {
    if a > 0 && b > 0 { XorCommutes(a / 2, b / 2); }
  }

  lemma XorZero(a: nat)
    ensures Xor(a, 0) == a && Xor(0, a) == a
  {
  }

  lemma {:induction false} XorAssociates(a: nat, b: nat, c: nat)
    ensures Xor(Xor(a, b), c) == Xor(a, Xor(b, c))
  {
    hide Xor;
    if a == 0 {
      XorZero(b);
      XorZero(Xor(b, c));
    } else if b == 0 {
      XorZero(a);
      XorZero(c);
    } else if c == 0 {
      XorZero(b);
      XorZero(Xor(a, b));
    } else {
      XorAssociates(a / 2, b / 2, c / 2);
      XorStep(a, b);
      XorStep(b, c);
      XorStep(Xor(a, b), c);
      XorStep(a, Xor(b, c));
      Parities(a, b, c, Xor(a, b), Xor(b, c));
      SameHalves(Xor(Xor(a, b), c), Xor(a, Xor(b, c)));
    }
  }

  lemma Parities(a: nat, b: nat, c: nat, ab: nat, bc: nat)
    requires ab % 2 == (a + b) % 2 && bc % 2 == (b + c) % 2
    ensures (ab + c) % 2 == (a + bc) % 2
  {
  }

  lemma {:induction false} XorSelf(a: nat)
    ensures Xor(a, a) == 0
  {
    if a > 0 { XorSelf(a / 2); }
  }

  /** Sums of four, paired the other way. */
  lemma XorFour(a: nat, b: nat, c: nat, d: nat)
    ensures Xor(Xor(a, b), Xor(c, d)) == Xor(Xor(a, c), Xor(b, d))
  {
    XorAssociates(a, b, Xor(c, d));
    XorAssociates(b, c, d);
    XorCommutes(b, c);
    XorAssociates(c, b, d);
    XorAssociates(a, c, Xor(b, d));
  }

  /** What is added twice is gone. */
  lemma XorTwice(a: nat, b: nat, p: nat)
    ensures Xor(Xor(a, p), Xor(b, p)) == Xor(a, b)
  {
    XorFour(a, p, b, p);
    XorSelf(p);
  }

  /** The leading coefficients add like the rest. */
  lemma {:induction false} XorTop(a: nat, b: nat, k: nat)
    requires a < Pow2(k + 1) && b < Pow2(k + 1)
    ensures Xor(a, b) < Pow2(k + 1)
    ensures Xor(a, b) >= Pow2(k) <==> (a >= Pow2(k)) != (b >= Pow2(k))
  {
    XorStep(a, b);
    if k > 0 {
      XorTop(a / 2, b / 2, k - 1);
    } else {
      assert a < 2 && b < 2 && Xor(a / 2, b / 2) == 0;
    }
  }

  lemma {:induction false} XorSmall(a: nat, b: nat, k: nat)
    requires a < Pow2(k) && b < Pow2(k)
    ensures Xor(a, b) < Pow2(k)
  {
    if k > 0 { XorTop(a, b, k - 1); }
  }

  /** Polynomials with no power in common add like numbers. */
  lemma {:induction false} XorDisjoint(h: nat, l: nat, k: nat)
    requires l < Pow2(k)
    ensures Xor(h * Pow2(k), l) == h * Pow2(k) + l
  {
    hide Xor;
    if k == 0 {
      XorZero(h * Pow2(k));
    } else {
      var p := Pow2(k - 1);
      XorDisjoint(h, l / 2, k - 1);
      Doubled(h, p);
      XorBits(h * p, l / 2, 0, l % 2);
    }
  }

  lemma Doubled(h: nat, p: nat)
    ensures h * (2 * p) == 2 * (h * p)
  {
  }

  /** The product of two polynomials. */
  function Product(q: nat, p: nat): nat {
    if q == 0 then 0 else Xor(Term(q, p), 2 * Product(q / 2, p))
  }

  const LOW_POLYNOMIAL := 0x04c11db7
  const WORD := 0x1_0000_0000
  const POLYNOMIAL := WORD + LOW_POLYNOMIAL

  /** `m` divided by the generator leaves `r`. */
  ghost predicate Leaves(m: nat, r: nat) {
    r < WORD && exists q: nat :: m == Xor(Product(q, POLYNOMIAL), r)
  }

  /** A multiple of the generator that is not zero has degree 32 or more. */
  lemma {:induction false} ProductIsLong(q: nat)
    requires q > 0
    ensures Product(q, POLYNOMIAL) >= WORD
  {
    var rest := Product(q / 2, POLYNOMIAL);
    if q >= 2 {
      ProductIsLong(q / 2);
      if q % 2 == 1 { LongPlusShort(2 * rest); }
    } else {
      assert rest == 0 && Xor(POLYNOMIAL, 2 * rest) == POLYNOMIAL;
    }
  }

  lemma LongPlusShort(a: nat)
    requires a >= 2 * WORD
    ensures Xor(POLYNOMIAL, a) >= WORD
  {
    var s := Xor(POLYNOMIAL, a);
    if s < WORD {
      Pow2Values();
      XorSmall(POLYNOMIAL, s, 33);
      XorAssociates(POLYNOMIAL, POLYNOMIAL, a);
      XorSelf(POLYNOMIAL);
    }
  }

  lemma {:induction false} ProductAdds(q: nat, q': nat, p: nat)
    ensures Xor(Product(q, p), Product(q', p)) == Product(Xor(q, q'), p)
  {
    if q == 0 {
      XorZero(q');
      XorZero(Product(q', p));
    } else if q' == 0 {
      XorZero(q);
      XorZero(Product(q, p));
    } else {
      ProductAdds(q / 2, q' / 2, p);
      ProductAddsStep(q, q', p);
    }
  }

  lemma ProductAddsStep(q: nat, q': nat, p: nat)
    requires Xor(Product(q / 2, p), Product(q' / 2, p)) == Product(Xor(q / 2, q' / 2), p)
    ensures Xor(Product(q, p), Product(q', p)) == Product(Xor(q, q'), p)
  {
    hide Xor, Product, Term;
    XorStep(q, q');
    ProductUnfolds(q, p);
    ProductUnfolds(q', p);
    ProductUnfolds(Xor(q, q'), p);
    var b, b' := Product(q / 2, p), Product(q' / 2, p);
    XorFour(Term(q, p), 2 * b, Term(q', p), 2 * b');
    XorBits(b, b', 0, 0);
    TermAdds(q, q', p, Xor(q, q'));
  }

  /** The generator, if the lowest coefficient of the factor is one. */
  function Term(q: nat, p: nat): nat { if q % 2 == 1 then p else 0 }

  lemma TermAdds(q: nat, q': nat, p: nat, sum: nat)
    requires sum % 2 == (q + q') % 2
    ensures Xor(Term(q, p), Term(q', p)) == Term(sum, p)
  {
    XorSelf(p);
    XorZero(p);
  }

  lemma ProductUnfolds(q: nat, p: nat)
    ensures Product(q, p) == Xor(Term(q, p), 2 * Product(q / 2, p))
  {
  }

  /** There is only one remainder. */
  lemma RemainderIsUnique(m: nat, r: nat, r': nat)
    requires Leaves(m, r) && Leaves(m, r')
    ensures r == r'
  {
    var q: nat :| m == Xor(Product(q, POLYNOMIAL), r);
    var q': nat :| m == Xor(Product(q', POLYNOMIAL), r');
    var c, c' := Product(q, POLYNOMIAL), Product(q', POLYNOMIAL);
    XorFour(c, r, c', r');
    XorSelf(m);
    ProductAdds(q, q', POLYNOMIAL);
    var d, e := Xor(c, c'), Xor(r, r');
    ZeroSum(d, e);
    Pow2Values();
    XorSmall(r, r', 32);
    if Xor(q, q') > 0 { ProductIsLong(Xor(q, q')); }
    ZeroSum(r, r');
  }

  lemma {:induction false} ZeroSum(a: nat, b: nat)
    ensures Xor(a, b) == 0 <==> a == b
  {
    if a > 0 && b > 0 {
      ZeroSum(a / 2, b / 2);
      XorStep(a, b);
    }
  }

  // ---------------------------------------------------------------------------------------------
  // The shift register
  // ---------------------------------------------------------------------------------------------

  /** Division of a polynomial of degree at most 32. */
  function Reduce(s: nat): nat { if s >= WORD then Xor(s, POLYNOMIAL) else s }

  /** One more bit of the message. */
  function Feed(r: nat, bit: nat): nat { Reduce(2 * r + bit) }

  lemma ReduceAdds(s: nat, t: nat)
    requires s < 2 * WORD && t < 2 * WORD
    ensures Reduce(Xor(s, t)) == Xor(Reduce(s), Reduce(t)) && Reduce(s) < WORD
  {
    Pow2Values();
    XorTop(s, t, 32);
    XorTop(s, POLYNOMIAL, 32);
    XorTwice(s, t, POLYNOMIAL);
    XorAssociates(s, t, POLYNOMIAL);
    XorCommutes(t, POLYNOMIAL);
    XorAssociates(s, POLYNOMIAL, t);
  }

  lemma FeedAdds(r: nat, bit: nat, r': nat, bit': nat)
    requires r < WORD && r' < WORD && bit < 2 && bit' < 2
    ensures Feed(Xor(r, r'), (bit + bit') % 2) == Xor(Feed(r, bit), Feed(r', bit')) && Feed(r, bit) < WORD
  {
    hide Xor, Reduce;
    XorBits(r, r', bit, bit');
    ReduceSum(Xor(r, r'), (bit + bit') % 2, 2 * r + bit, 2 * r' + bit');
  }

  lemma ReduceSum(x: nat, c: nat, s: nat, t: nat)
    requires Xor(s, t) == 2 * x + c && s < 2 * WORD && t < 2 * WORD
    ensures Reduce(2 * x + c) == Xor(Reduce(s), Reduce(t)) && Reduce(s) < WORD
  {
    ReduceAdds(s, t);
  }

  /** Feeding a bit keeps the register the remainder of what was fed. */
  lemma FeedLeaves(m: nat, r: nat, bit: nat)
    requires Leaves(m, r) && bit < 2
    ensures Leaves(2 * m + bit, Feed(r, bit))
  {
    hide Xor, Product, Reduce;
    var q: nat :| m == Xor(Product(q, POLYNOMIAL), r);
    XorBits(Product(q, POLYNOMIAL), r, 0, bit);
    ReduceLeaves(2 * m + bit, q, 2 * r + bit);
  }

  lemma ReduceLeaves(m: nat, q: nat, s: nat)
    requires m == Xor(2 * Product(q, POLYNOMIAL), s) && s < 2 * WORD
    ensures Leaves(m, Reduce(s))
  {
    hide Xor, Product;
    NextProduct(q, POLYNOMIAL);
    ReduceAdds(s, 0);
    if s < WORD {
      assert m == Xor(Product(2 * q, POLYNOMIAL), Reduce(s));
    } else {
      XorTwice(2 * Product(q, POLYNOMIAL), s, POLYNOMIAL);
      assert m == Xor(Product(2 * q + 1, POLYNOMIAL), Reduce(s));
    }
  }

  lemma NextProduct(q: nat, p: nat)
    ensures Product(2 * q, p) == 2 * Product(q, p) && Product(2 * q + 1, p) == Xor(2 * Product(q, p), p)
  {
    hide Xor, Product;
    Halves(q, 0);
    Halves(q, 1);
    ProductUnfolds(2 * q, p);
    ProductUnfolds(2 * q + 1, p);
    XorZero(2 * Product(q, p));
    XorCommutes(p, 2 * Product(q, p));
  }

  /** The lowest `k` bits of `v`, highest first. */
  function FeedBits(r: nat, v: nat, k: nat): nat {
    if k == 0 then r else Feed(FeedBits(r, v / 2, k - 1), v % 2)
  }

  /** The register after a message, bit by bit. */
  function Register(data: seq<nat>): nat {
    if data == [] then 0 else FeedBits(Register(data[..|data| - 1]), data[|data| - 1], 8)
  }


  /** The message as a polynomial, its first bit leading. */
  function Message(data: seq<nat>): nat {
    if data == [] then 0 else Message(data[..|data| - 1]) * 0x100 + data[|data| - 1]
  }

  lemma {:induction false} FeedBitsLeaves(m: nat, r: nat, v: nat, k: nat)
    requires Leaves(m, r) && v < Pow2(k)
    ensures Leaves(m * Pow2(k) + v, FeedBits(r, v, k))
  {
    if k > 0 {
      FeedBitsLeaves(m, r, v / 2, k - 1);
      FeedLeaves(m * Pow2(k - 1) + v / 2, FeedBits(r, v / 2, k - 1), v % 2);
      Doubled(m, Pow2(k - 1));
    }
  }

  /** The register holds the remainder of the message. */
  lemma {:induction false} RegisterIsRemainder(data: seq<nat>)
    requires AllBytes(data)
    ensures Leaves(Message(data), Register(data))
  {
    if data == [] {
      assert 0 == Xor(Product(0, POLYNOMIAL), 0);
    } else {
      RegisterIsRemainder(data[..|data| - 1]);
      Pow2Values();
      FeedBitsLeaves(Message(data[..|data| - 1]), Register(data[..|data| - 1]), data[|data| - 1], 8);
    }
  }

  // ---------------------------------------------------------------------------------------------
  // The table
  // ---------------------------------------------------------------------------------------------

  /** The register after `k` zero bits. */
  function Zeros(r: nat, k: nat): nat { FeedBits(r, 0, k) }

  lemma {:induction false} ZerosSmall(r: nat, k: nat)
    requires r < WORD
    ensures Zeros(r, k) < WORD
  {
    if k > 0 {
      ZerosSmall(r, k - 1);
      FeedAdds(Zeros(r, k - 1), 0, 0, 0);
    }
  }

  lemma {:induction false} ZerosAdd(r: nat, r': nat, k: nat)
    requires r < WORD && r' < WORD
    ensures Zeros(Xor(r, r'), k) == Xor(Zeros(r, k), Zeros(r', k))
  {
    if k > 0 {
      ZerosAdd(r, r', k - 1);
      ZerosSmall(r, k - 1);
      ZerosSmall(r', k - 1);
      FeedAdds(Zeros(r, k - 1), 0, Zeros(r', k - 1), 0);
    }
  }

  /** Short polynomials only move up. */
  lemma {:induction false} ZerosShift(r: nat, k: nat)
    requires r * Pow2(k) < WORD
    ensures Zeros(r, k) == r * Pow2(k)
  {
    if k > 0 {
      Doubled(r, Pow2(k - 1));
      ZerosShift(r, k - 1);
    }
  }

  /** Feeding bits is feeding zeros and adding the bits at the end. */
  lemma {:induction false} BitsAtTheEnd(r: nat, v: nat, k: nat)
    requires r < WORD && v < Pow2(k) && k <= 32
    ensures FeedBits(r, v, k) == Xor(Zeros(r, k), v)
  {
    if k > 0 {
      BitsAtTheEnd(r, v / 2, k - 1);
      ZerosSmall(r, k - 1);
      HalfFits(v, k);
      FeedAdds(Zeros(r, k - 1), 0, v / 2, v % 2);
    }
  }

  lemma {:induction false} HalfFits(v: nat, k: nat)
    requires 0 < k <= 32 && v < Pow2(k)
    ensures v < WORD
  {
    Pow2Values();
    Pow2Grows(k, 32);
  }

  lemma {:induction false} Pow2Grows(k: nat, n: nat)
    requires k <= n
    ensures Pow2(k) <= Pow2(n)
    decreases n
  {
    if k < n { Pow2Grows(k, n - 1); }
  }

  /** One byte through the table: the entry of the leading byte, added to the rest moved up. */
  lemma TableStep(crc: nat, byte: nat)
    requires crc < WORD && byte < 0x100
    ensures FeedBits(crc, byte, 8) == Xor(Zeros(crc / 0x100_0000 * 0x100_0000, 8), crc * 0x100 % WORD + byte)
  {
    hide Xor, FeedBits;
    var hi, lo := Split(crc);
    Pow2Values();
    XorDisjoint(hi, lo, 24);
    BitsAtTheEnd(crc, byte, 8);
    ZerosAdd(hi * 0x100_0000, lo, 8);
    ZerosShift(lo, 8);
    XorAssociates(Zeros(hi * 0x100_0000, 8), lo * 0x100, byte);
    XorDisjoint(lo, byte, 8);
  }

  lemma Split(crc: nat) returns (hi: nat, lo: nat)
    requires crc < WORD
    ensures hi == crc / 0x100_0000 && lo < 0x100_0000 && crc == hi * 0x100_0000 + lo && crc * 0x100 % WORD == lo * 0x100
  {
    hi, lo := crc / 0x100_0000, crc % 0x100_0000;
  }

  /** `init_crc`: the global table, entry by entry and bit by bit. */
  method InitCrc(table: array<nat>)
    requires table.Length == 0x100
    modifies table
    ensures forall i :: 0 <= i < 0x100 ==> table[i] == Zeros(i * 0x100_0000, 8)
  {
    for i := 0 to 0x100
      invariant forall k :: 0 <= k < i ==> table[k] == Zeros(k * 0x100_0000, 8)
    {
      var n := i * 0x100_0000;
      for j := 0 to 8
        invariant forall k :: 0 <= k < i ==> table[k] == Zeros(k * 0x100_0000, 8)
        invariant n == Zeros(i * 0x100_0000, j) && n < WORD
      {
        ShiftIsFeed(n);
        n := if n >= 0x8000_0000 then Xor(2 * n % WORD, LOW_POLYNOMIAL) else 2 * n % WORD;
      }
      table[i] := n;
    }
  }

  /** The register drops its leading bit before the low half of the generator is added. */
  lemma ShiftIsFeed(n: nat)
    requires n < WORD
    ensures Feed(n, 0) == (if n >= 0x8000_0000 then Xor(2 * n % WORD, LOW_POLYNOMIAL) else 2 * n % WORD)
            && Feed(n, 0) < WORD
  {
    ReduceAdds(2 * n, 0);
    if n >= 0x8000_0000 {
      var low := 2 * n - WORD;
      assert 2 * n % WORD == low;
      Pow2Values();
      XorDisjoint(1, low, 32);
      XorDisjoint(1, LOW_POLYNOMIAL, 32);
      XorFour(WORD, low, WORD, LOW_POLYNOMIAL);
      XorSelf(WORD);
    }
  }

  /** `crc32`: the complement of the remainder of the message, for every message. */
  method Crc32(table: array<nat>, data: seq<nat>) returns (crc: nat)
    requires table.Length == 0x100 && (forall i :: 0 <= i < 0x100 ==> table[i] == Zeros(i * 0x100_0000, 8))
             && AllBytes(data)
    ensures crc < WORD && crc == WORD - 1 - Register(data) && Leaves(Message(data), WORD - 1 - crc)
  {
    crc := 0;
    for i := 0 to |data|
      invariant crc < WORD && crc == Register(data[..i])
    {
      TableStep(crc, data[i]);
      assert data[..i + 1][..i] == data[..i];
      FedIsSmall(data, i + 1);
      crc := Xor(table[crc / 0x100_0000], crc * 0x100 % WORD + data[i]);
    }
    assert data[..|data|] == data;
    RegisterIsRemainder(data);
    crc := WORD - 1 - crc;
  }

  lemma FedIsSmall(data: seq<nat>, i: nat)
    requires i <= |data| && AllBytes(data)
    ensures Register(data[..i]) < WORD
  {
    RegisterIsRemainder(data[..i]);
  }
}

/**
 The PS2 ADPCM decoder and the encoder analysis beside it, from `audio_formats.cpp`. A block holds
 a shift, a filter and 28 nibbles; every sample is a shifted nibble on top of a prediction from the
 two samples before it, also across blocks.
 */
module Adpcm {
  import opened Arithmetic
  import opened Wrappers

  const BLOCK := 28
  const F1: seq<int> := [0, 60, 115, 98, 122]
  const F2: seq<int> := [0, 0, -52, -55, -60]

  function Predict(prev0: int, prev1: int, filter: nat): int
    requires filter <= 4
  {
    Quotient(prev0 * F1[filter] + prev1 * F2[filter] + 32, 64)
  }

  function Clamp(x: int): int { if x > 0x7fff then 0x7fff else if x < -0x8000 then -0x8000 else x }

  predicate IsS16(x: int) { -0x8000 <= x <= 0x7fff }

  function Signed4(nibble: nat): int
    requires nibble < 16
  {
    if nibble < 8 then nibble else nibble - 16
  }

  /** The nibble at the top of 16 bits, shifted down with its sign. */
  function Scaled(nibble: nat, shift: nat): int
    requires nibble < 16
  {
    Signed4(nibble) * 0x1000 / Pow2(shift)
  }

  // ---------------------------------------------------------------------------------------------
  // Decoding
  // ---------------------------------------------------------------------------------------------

  predicate AllNibbles(ns: seq<nat>) { forall i :: 0 <= i < |ns| ==> ns[i] < 16 }

  function DecodeNibbles(ns: seq<nat>, shift: nat, filter: nat, prev0: int, prev1: int): (r: seq<int>)
    requires AllNibbles(ns) && filter <= 4
    ensures |r| == |ns|
  {
    if ns == [] then []
    else
      var sample := Clamp(Scaled(ns[0], shift) + Predict(prev0, prev1, filter));
      [sample] + DecodeNibbles(ns[1..], shift, filter, sample, prev0)
  }

  /** The low nibble of each byte comes first. */
  function Unpack(bytes: seq<nat>): (ns: seq<nat>)
    requires |bytes| == 14 && forall i :: 0 <= i < 14 ==> bytes[i] < 0x100
    ensures |ns| == BLOCK && AllNibbles(ns)
  {
    seq(BLOCK, i requires 0 <= i < BLOCK => if i % 2 == 0 then bytes[i / 2] % 16 else bytes[i / 2] / 16)
  }


  /** `None` when the data ends inside a block or asks for a shift or filter that there is not. */
  function Decode(data: seq<nat>, prev0: int, prev1: int): Option<seq<int>>
    requires AllBytes(data)
    decreases |data|
  {
    if data == [] then Some([])
    else if |data| < 2 || data[0] % 16 > 12 || data[0] / 16 > 4 then None
    else if data[1] == 7 then Some([])
    else if |data| < 16 then None
    else
      var block := DecodeNibbles(Unpack(data[2..16]), data[0] % 16, data[0] / 16, prev0, prev1);
      match Decode(data[16..], block[27], block[26])
      case None => None
      case Some(rest) => Some(block + rest)
  }

  method DecodeAdpcm(data: seq<nat>) returns (decoded: Option<seq<int>>)
    requires AllBytes(data)
    ensures decoded == Decode(data, 0, 0)
  {
    var samples: seq<int> := [];
    var prev0, prev1 := 0, 0;
    var pos := 0;
    assert data[0..] == data;
    NothingOnto(Decode(data, 0, 0));
    while pos < |data|
      invariant 0 <= pos <= |data|
      invariant Onto(samples, Decode(data[pos..], prev0, prev1)) == Decode(data, 0, 0)
    {
      ghost var start := pos;
      if pos + 2 > |data| { return None; }
      var shift, filter := data[pos] % 16, data[pos] / 16;
      var flags := data[pos + 1];
      pos := pos + 2;
      if shift > 12 || filter > 4 { return None; }
      if flags == 7 { break; }
      if pos + 14 > |data| { return None; }
      ghost var rest := data[start..];
      assert rest[2..16] == data[pos..pos + 14] && rest[16..] == data[pos + 14..];
      ghost var before, p0, p1 := samples, prev0, prev1;
      samples, prev0, prev1 := DecodeBlock(samples, data[pos..pos + 14], shift, filter, prev0, prev1);
      pos := pos + 14;
      BlockOnto(before, DecodeNibbles(Unpack(rest[2..16]), shift, filter, p0, p1), Decode(rest[16..], prev0, prev1));
    }
    decoded := Some(samples);
    assert samples + [] == samples;
  }

  /** The samples so far before those still to come. */
  function Onto(samples: seq<int>, rest: Option<seq<int>>): Option<seq<int>> {
    match rest
    case None => None
    case Some(more) => Some(samples + more)
  }

  lemma NothingOnto(rest: Option<seq<int>>)
    ensures Onto([], rest) == rest
  {
    if rest.Some? { assert [] + rest.value == rest.value; }
  }

  lemma BlockOnto(samples: seq<int>, block: seq<int>, rest: Option<seq<int>>)
    ensures Onto(samples, Onto(block, rest)) == Onto(samples + block, rest)
  {
    if rest.Some? { assert samples + (block + rest.value) == samples + block + rest.value; }
  }

  /** The loop over one block; the two latest samples are carried on. */
  method DecodeBlock(samples: seq<int>, bytes: seq<nat>, shift: nat, filter: nat, p0: int, p1: int)
      returns (r: seq<int>, prev0: int, prev1: int)
    requires |bytes| == 14 && AllBytes(bytes) && shift <= 12 && filter <= 4
    ensures var block := DecodeNibbles(Unpack(bytes), shift, filter, p0, p1);
        r == samples + block && prev0 == block[27] && prev1 == block[26]
  {
    r, prev0, prev1 := samples, p0, p1;
    ghost var ns := Unpack(bytes);
    ghost var block := DecodeNibbles(ns, shift, filter, p0, p1);
    for i := 0 to BLOCK
      invariant r == samples + block[..i] && block[i..] == DecodeNibbles(ns[i..], shift, filter, prev0, prev1)
      invariant (i >= 1 ==> prev0 == block[i - 1]) && (i >= 2 ==> prev1 == block[i - 2])
    {
      var nibble := if i % 2 == 0 then bytes[i / 2] % 16 else bytes[i / 2] / 16;
      assert nibble == ns[i] && ns[i..][0] == ns[i] && ns[i..][1..] == ns[i + 1..];
      var sample := Scaled(nibble, shift);
      sample := sample + Predict(prev0, prev1, filter);
      if sample > 0x7fff { sample := 0x7fff; }
      if sample < -0x8000 { sample := -0x8000; }
      assert block[i] == block[i..][0] == sample && block[i + 1..] == block[i..][1..];
      prev0, prev1 := sample, prev0;
      r := r + [sample];
    }
    assert block[..BLOCK] == block;
  }

  // ---------------------------------------------------------------------------------------------
  // Encoding
  // ---------------------------------------------------------------------------------------------

  /** What each sample adds to its prediction. */
  function Deltas(samples: seq<int>, filter: nat, prev0: int, prev1: int): (d: seq<int>)
    requires filter <= 4
    ensures |d| == |samples|
  {
    if samples == [] then []
    else [samples[0] - Predict(prev0, prev1, filter)] + Deltas(samples[1..], filter, samples[0], prev0)
  }

  method EncodeBlockWithFilter(filter: nat, samples: array<int>, out: array<int>, p0: int, p1: int)
    requires filter <= 4 && samples.Length == out.Length == BLOCK && samples != out
    modifies out
    ensures out[..] == Deltas(samples[..], filter, p0, p1)
  {
    var prev0, prev1 := p0, p1;
    ghost var all := Deltas(samples[..], filter, p0, p1);
    for i := 0 to BLOCK
      invariant out[..i] == all[..i] && all[i..] == Deltas(samples[i..], filter, prev0, prev1)
    {
      var sample := samples[i];
      assert samples[i..][1..] == samples[i + 1..] && samples[i..][0] == sample;
      out[i] := sample - Predict(prev0, prev1, filter);
      assert all[i] == all[i..][0] && all[i + 1..] == all[i..][1..];
      prev0, prev1 := sample, prev0;
    }
    assert out[..] == out[..BLOCK] && all[..BLOCK] == all;
  }

  /** A 32-bit word read as a signed number. */
  function Wrap32(x: int): int { (x + 0x8000_0000) % 0x1_0000_0000 - 0x8000_0000 }

  /** The four bits that a shift keeps of a delta, with their sign: moved to the top of the word and back. */
  function Kept(delta: int, shift: int): int
    requires -16 <= shift <= 12
  {
    Wrap32(delta * Pow2(16 + shift)) / 0x1000_0000
  }

  function Abs(x: int): nat { if x < 0 then -x else x }

  /** How far off the deltas are when only those bits are kept. */
  function ShiftError(shift: int, deltas: seq<int>): nat
    requires -16 <= shift <= 12
  {
    if deltas == [] then 0
    else
      ShiftError(shift, deltas[..|deltas| - 1])
      + Abs(Kept(deltas[|deltas| - 1], shift) * Pow2(12 - shift) - deltas[|deltas| - 1])
  }

  method GetShiftError(shift: int, deltas: array<int>) returns (r: nat)
    requires -16 <= shift <= 12 && deltas.Length == BLOCK
    ensures r == ShiftError(shift, deltas[..])
  {
    r := 0;
    for i := 0 to BLOCK
      invariant r == ShiftError(shift, deltas[..i])
    {
      assert deltas[..i + 1][..i] == deltas[..i];
      var left := Wrap32(deltas[i] * Pow2(16 + shift));
      var right := left / 0x1000_0000;
      r := r + Abs(right * Pow2(12 - shift) - deltas[i]);
    }
    assert deltas[..] == deltas[..BLOCK];
  }

  /** The least width of a two's complement number. */
  function Width(value: int): (n: nat)
    decreases Abs(value)
  {
    if value == 0 || value == -1 then 1 else 1 + Width(value / 2)
  }

  lemma {:induction false} WidthIsLeast(value: int, n: nat)
    requires n >= 1
    ensures Width(value) <= n <==> -(Pow2(n - 1) as int) <= value < Pow2(n - 1)
    decreases Abs(value)
  {
    if value == 0 || value == -1 {
    } else if n == 1 {
      WidthPositive(value / 2);
    } else {
      WidthIsLeast(value / 2, n - 1);
    }
  }

  lemma WidthPositive(value: int)
    ensures Width(value) >= 1
  {
  }

  method GetMaxBits(value: int) returns (bits: nat)
    ensures bits == Width(value)
  {
    bits := 0;
    var v := value;
    if value >= 0 {
      var last := 1;
      while v != 0
        invariant v >= 0 && (last == 1 || v > 0) && bits + (if v == 0 then 1 else Width(v)) == Width(value)
        decreases v
      {
        bits := bits + 1;
        last := v % 2;
        v := v / 2;
      }
      if last != 0 { bits := bits + 1; }
    } else {
      var last := 0;
      while v != -1
        invariant v < 0 && (last == 0 || v < -1) && bits + Width(v) == Width(value)
        decreases -v
      {
        bits := bits + 1;
        last := v % 2;
        v := v / 2;
      }
      if last == 0 { bits := bits + 1; }
    }
  }

  // ---------------------------------------------------------------------------------------------
  // Decoding undoes encoding
  // ---------------------------------------------------------------------------------------------

  /** A nibble keeps its four bits through the decoder's shifts. */
  lemma ScaledIs(nibble: nat, shift: nat)
    requires nibble < 16 && shift <= 12
    ensures Scaled(nibble, shift) == Signed4(nibble) * Pow2(12 - shift)
  {
    Pow2Values();
    Pow2Add(shift, 12 - shift);
    DivideThrough(Signed4(nibble), Pow2(shift), Pow2(12 - shift));
  }

  lemma DivideThrough(s: int, p: int, q: int)
    requires p > 0 && p * q == 0x1000
    ensures s * 0x1000 / p == s * q
  {
    MulAssoc(p, s, q);
    MulAssoc(s, p, q);
    MultipleMod(s * q, p);
  }

  lemma KeptFits(delta: int, shift: int)
    requires -16 <= shift <= 12
    ensures -8 <= Kept(delta, shift) < 8
  {
  }

  /** The nibble that stands for a delta. */
  function NibbleOf(delta: int, shift: nat): (n: nat)
    requires shift <= 12
    ensures n < 16 && Signed4(n) == Kept(delta, shift)
  {
    KeptFits(delta, shift);
    if Kept(delta, shift) < 0 then Kept(delta, shift) + 16 else Kept(delta, shift)
  }

  function NibblesOf(deltas: seq<int>, shift: nat): (ns: seq<nat>)
    requires shift <= 12
    ensures |ns| == |deltas| && AllNibbles(ns)
  {
    if deltas == [] then [] else [NibbleOf(deltas[0], shift)] + NibblesOf(deltas[1..], shift)
  }

  /** The delta is its four bits, moved up. */
  predicate Exact(delta: int, shift: int)
    requires -16 <= shift <= 12
  {
    Kept(delta, shift) * Pow2(12 - shift) == delta
  }

  predicate AllExact(deltas: seq<int>, shift: int)
    requires -16 <= shift <= 12
  {
    forall i :: 0 <= i < |deltas| ==> Exact(deltas[i], shift)
  }

  lemma ExactParts(deltas: seq<int>, shift: int)
    requires -16 <= shift <= 12 && deltas != [] && AllExact(deltas, shift)
    ensures Exact(deltas[0], shift) && AllExact(deltas[1..], shift)
  {
  }

  /** No error means that every delta is. */
  lemma {:induction false} NoErrorIsExact(shift: int, deltas: seq<int>, i: nat)
    requires -16 <= shift <= 12 && ShiftError(shift, deltas) == 0 && i < |deltas|
    ensures Exact(deltas[i], shift)
  {
    if i < |deltas| - 1 {
      NoErrorIsExact(shift, deltas[..|deltas| - 1], i);
    }
  }

  predicate AllS16(samples: seq<int>) { forall i :: 0 <= i < |samples| ==> IsS16(samples[i]) }

  lemma {:induction false} BlockRoundTrip(samples: seq<int>, shift: nat, filter: nat, prev0: int, prev1: int)
    requires shift <= 12 && filter <= 4 && AllS16(samples)
    requires AllExact(Deltas(samples, filter, prev0, prev1), shift)
    ensures DecodeNibbles(NibblesOf(Deltas(samples, filter, prev0, prev1), shift), shift, filter, prev0, prev1)
        == samples
  {
    hide Exact, AllExact, Scaled, Predict, Kept, NibblesOf;
    if samples != [] {
      var d := Deltas(samples, filter, prev0, prev1);
      var rest := Deltas(samples[1..], filter, samples[0], prev0);
      assert d[0] == samples[0] - Predict(prev0, prev1, filter) && d[1..] == rest;
      ExactParts(d, shift);
      BlockRoundTrip(samples[1..], shift, filter, samples[0], prev0);
      FirstNibble(d, shift);
      NibbleIsExact(d[0], shift);
      assert IsS16(samples[0]);
      assert [samples[0]] + samples[1..] == samples;
    } else {
      NoNibbles(shift);
    }
  }

  lemma NoNibbles(shift: nat)
    requires shift <= 12
    ensures NibblesOf([], shift) == []
  {
  }

  lemma NibbleIsExact(delta: int, shift: nat)
    requires shift <= 12 && Exact(delta, shift)
    ensures Scaled(NibbleOf(delta, shift), shift) == delta
  {
    ScaledIs(NibbleOf(delta, shift), shift);
  }

  lemma FirstNibble(d: seq<int>, shift: nat)
    requires shift <= 12 && d != []
    ensures NibblesOf(d, shift) != [] && NibblesOf(d, shift)[0] == NibbleOf(d[0], shift)
            && NibblesOf(d, shift)[1..] == NibblesOf(d[1..], shift)
  {
  }

  function Pack(ns: seq<nat>): (bytes: seq<nat>)
    requires |ns| == BLOCK && AllNibbles(ns)
    ensures |bytes| == 14 && AllBytes(bytes)
  {
    seq(14, i requires 0 <= i < 14 => ns[2 * i] + 16 * ns[2 * i + 1])
  }

  lemma UnpackPack(ns: seq<nat>)
    requires |ns| == BLOCK && AllNibbles(ns)
    ensures Unpack(Pack(ns)) == ns
  {
    forall i | 0 <= i < BLOCK ensures Unpack(Pack(ns))[i] == ns[i] {
      var j := i / 2;
      assert ns[2 * j] < 16 && ns[2 * j + 1] < 16;
      assert i == 2 * j || i == 2 * j + 1;
    }
  }

  datatype Block = Block(samples: seq<int>, filter: nat, shift: nat, flags: nat) {
    predicate Ok()
    {
      |samples| == BLOCK && AllS16(samples) && filter <= 4 && shift <= 12 && flags < 0x100 && flags != 7
    }
  }

  predicate AllOk(blocks: seq<Block>) { forall i :: 0 <= i < |blocks| ==> blocks[i].Ok() }

  function Samples(blocks: seq<Block>): seq<int> {
    if blocks == [] then [] else blocks[0].samples + Samples(blocks[1..])
  }

  /** Each block loses nothing, given the samples before it. */
  predicate NoError(blocks: seq<Block>, prev0: int, prev1: int)
    requires AllOk(blocks)
  {
    blocks != [] ==>
      && ShiftError(blocks[0].shift, Deltas(blocks[0].samples, blocks[0].filter, prev0, prev1)) == 0
      && NoError(blocks[1..], blocks[0].samples[27], blocks[0].samples[26])
  }

  function EncodeBlock(b: Block, prev0: int, prev1: int): (bytes: seq<nat>)
    requires b.Ok()
    ensures |bytes| == 16 && AllBytes(bytes)
  {
    [b.shift + 16 * b.filter, b.flags] + Pack(NibblesOf(Deltas(b.samples, b.filter, prev0, prev1), b.shift))
  }

  function Encode(blocks: seq<Block>, prev0: int, prev1: int): (bytes: seq<nat>)
    requires AllOk(blocks)
    ensures AllBytes(bytes)
  {
    if blocks == [] then []
        else EncodeBlock(blocks[0], prev0, prev1) + Encode(blocks[1..], blocks[0].samples[27], blocks[0].samples[26])
  }

  /** Decoding gives the original samples, across any number of blocks, from any state. */
  lemma {:induction false} DecodeUndoesEncode(blocks: seq<Block>, prev0: int, prev1: int)
    requires AllOk(blocks) && NoError(blocks, prev0, prev1)
    ensures Decode(Encode(blocks, prev0, prev1), prev0, prev1) == Some(Samples(blocks))
  {
    if blocks != [] {
      var b := blocks[0];
      var rest := Encode(blocks[1..], b.samples[27], b.samples[26]);
      DecodeUndoesEncode(blocks[1..], b.samples[27], b.samples[26]);
      FirstBlock(b, rest, prev0, prev1);
    }
  }

  lemma FirstBlock(b: Block, rest: seq<nat>, prev0: int, prev1: int)
    requires b.Ok() && AllBytes(rest) && ShiftError(b.shift, Deltas(b.samples, b.filter, prev0, prev1)) == 0
    ensures Decode(EncodeBlock(b, prev0, prev1) + rest, prev0, prev1)
        == Onto(b.samples, Decode(rest, b.samples[27], b.samples[26]))
  {
    var d := Deltas(b.samples, b.filter, prev0, prev1);
    hide DecodeNibbles, Deltas, NibblesOf, Pack, Unpack, ShiftError, Exact;
    forall i | 0 <= i < |d| ensures Exact(d[i], b.shift) { NoErrorIsExact(b.shift, d, i); }
    BlockRoundTrip(b.samples, b.shift, b.filter, prev0, prev1);
    var ns := NibblesOf(d, b.shift);
    UnpackPack(ns);
    var data := EncodeBlock(b, prev0, prev1) + rest;
    assert data[2..16] == Pack(ns) && data[16..] == rest && data[1] == b.flags;
    HeaderSplits(b.shift, b.filter);
    assert data[0] == b.shift + 16 * b.filter;
  }

  lemma HeaderSplits(shift: nat, filter: nat)
    requires shift <= 12
    ensures (shift + 16 * filter) % 16 == shift && (shift + 16 * filter) / 16 == filter
  {
  }

  // ---------------------------------------------------------------------------------------------
  // The error bound
  // ---------------------------------------------------------------------------------------------

  /** The bits kept are the quotient, when that fits four bits. */
  lemma KeptIsQuotient(delta: int, shift: int, q: int, r: int)
    requires -16 <= shift <= 12 && delta == q * Pow2(12 - shift) + r && 0 <= r < Pow2(12 - shift) && -8 <= q < 8
    ensures Kept(delta, shift) == q
  {
    var p, left := Pow2(12 - shift), Pow2(16 + shift);
    Pow2Values();
    Pow2Add(12 - shift, 16 + shift);
    assert delta * left == q * 0x1000_0000 + r * left by { Spread(delta, q, r, p, left); }
    RemainderFits(r, p, left);
    assert -0x8000_0000 <= delta * left < 0x8000_0000;
    DivModUnique(delta * left, 0x1000_0000, q, r * left);
  }

  lemma Spread(delta: int, q: int, r: int, p: int, left: int)
    requires delta == q * p + r
    ensures delta * left == q * (p * left) + r * left
  {
  }

  lemma RemainderFits(r: nat, p: nat, left: nat)
    requires r < p && left > 0
    ensures 0 <= r * left < p * left
  {
  }

  /** A delta of that width loses only what is below the bits kept. */
  lemma DeltaErrorBound(delta: int, shift: int)
    requires -16 <= shift <= 12 && Width(delta) <= 16 - shift
    ensures Abs(Kept(delta, shift) * Pow2(12 - shift) - delta) <= Pow2(12 - shift) - 1
  {
    WidthIsLeast(delta, 16 - shift);
    var q, r := SplitDelta(delta, 12 - shift);
    KeptIsQuotient(delta, shift, q, r);
  }

  lemma SplitDelta(delta: int, k: nat) returns (q: int, r: int)
    requires -(Pow2(k + 3) as int) <= delta < Pow2(k + 3)
    ensures delta == q * Pow2(k) + r && 0 <= r < Pow2(k) && -8 <= q < 8
  {
    var p := Pow2(k);
    Pow2Values();
    Pow2Add(k, 3);
    q, r := delta / p, delta % p;
    assert delta == p * q + r;
    if q >= 8 { MulMono(p, 8, q); }
    if q <= -9 { MulMono(p, q, -9); }
  }

  /** A delta of that width loses nothing exactly if the bits below are zero. */
  lemma ExactDivides(delta: int, shift: int)
    requires -16 <= shift <= 12 && Width(delta) <= 16 - shift
    ensures Exact(delta, shift) <==> delta % Pow2(12 - shift) == 0
  {
    WidthIsLeast(delta, 16 - shift);
    var q, r := SplitDelta(delta, 12 - shift);
    KeptIsQuotient(delta, shift, q, r);
    DivModUnique(delta, Pow2(12 - shift), q, r);
  }

  /** No error is that, for all deltas. */
  lemma {:induction false} NoErrorDivides(shift: int, deltas: seq<int>)
    requires -16 <= shift <= 12 && forall i :: 0 <= i < |deltas| ==> Width(deltas[i]) <= 16 - shift
    ensures ShiftError(shift, deltas) == 0 <==> forall i :: 0 <= i < |deltas| ==> deltas[i] % Pow2(12 - shift) == 0
  {
    hide Kept, Width, Exact;
    if deltas != [] {
      NoErrorDivides(shift, deltas[..|deltas| - 1]);
      NoErrorMore(shift, deltas);
      ExactDivides(deltas[|deltas| - 1], shift);
      MultiplesMore(deltas, deltas[..|deltas| - 1], Pow2(12 - shift));
    }
  }

  lemma NoErrorMore(shift: int, deltas: seq<int>)
    requires -16 <= shift <= 12 && deltas != []
    ensures ShiftError(shift, deltas) == 0 <==>
            ShiftError(shift, deltas[..|deltas| - 1]) == 0 && Exact(deltas[|deltas| - 1], shift)
  {
    hide Kept;
  }

  lemma MultiplesMore(deltas: seq<int>, init: seq<int>, p: nat)
    requires p > 0 && deltas != [] && init == deltas[..|deltas| - 1]
    ensures (forall i :: 0 <= i < |deltas| ==> deltas[i] % p == 0) <==>
            (forall i :: 0 <= i < |init| ==> init[i] % p == 0) && deltas[|deltas| - 1] % p == 0
  {
    assert forall i :: 0 <= i < |init| ==> init[i] == deltas[i];
  }

  lemma {:induction false} ErrorBound(shift: int, deltas: seq<int>)
    requires -16 <= shift <= 12 && forall i :: 0 <= i < |deltas| ==> Width(deltas[i]) <= 16 - shift
    ensures ShiftError(shift, deltas) <= |deltas| * (Pow2(12 - shift) - 1)
  {
    if deltas != [] {
      ErrorBound(shift, deltas[..|deltas| - 1]);
      DeltaErrorBound(deltas[|deltas| - 1], shift);
      OneMore(|deltas| - 1, Pow2(12 - shift) - 1);
    }
  }

  lemma OneMore(n: nat, x: int)
    ensures (n + 1) * x == n * x + x
  {
  }

  /** Everything between two numbers is no wider than the wider of them. */
  lemma WidthBetween(lo: int, x: int, hi: int)
    requires lo <= x <= hi
    ensures Width(x) <= Max(Width(lo), Width(hi))
  {
    var n := Max(Width(lo), Width(hi));
    WidthIsLeast(lo, n);
    WidthIsLeast(hi, n);
    WidthIsLeast(x, n);
  }

  predicate AllS32(deltas: seq<int>) { forall i :: 0 <= i < |deltas| ==> -0x8000_0000 <= deltas[i] < 0x8000_0000 }

  lemma WordWidth(x: int)
    requires -0x8000_0000 <= x < 0x8000_0000
    ensures Width(x) <= 32
  {
    Pow2Values();
    Pow2Add(3, 28);
    WidthIsLeast(x, 32);
  }

  /** The starting shift for the widest delta, and the range of the deltas. */
  method StartShift(deltas: array<int>) returns (shift: int)
    requires deltas.Length == BLOCK && AllS32(deltas[..])
    ensures -16 <= shift <= 12 && ShiftError(shift, deltas[..]) <= BLOCK * (Pow2(12 - shift) - 1)
    ensures forall i :: 0 <= i < BLOCK ==> Width(deltas[i]) <= 16 - shift
    ensures shift < 12 ==> exists i :: 0 <= i < BLOCK && Width(deltas[i]) == 16 - shift
  {
    var maxSample, minSample := -0x8000_0000, 0x7fff_ffff;
    for i := 0 to BLOCK
      invariant forall k :: 0 <= k < i ==> minSample <= deltas[k] <= maxSample
      invariant i > 0 ==>
          (exists k :: 0 <= k < i && deltas[k] == minSample) && exists k :: 0 <= k < i && deltas[k] == maxSample
      invariant i == 0 ==> maxSample == -0x8000_0000 && minSample == 0x7fff_ffff
    {
      assert deltas[..][i] == deltas[i];
      maxSample := Max(deltas[i], maxSample);
      minSample := if deltas[i] < minSample then deltas[i] else minSample;
    }
    var bitsMin := GetMaxBits(minSample);
    var bitsMax := GetMaxBits(maxSample);
    var lo :| 0 <= lo < BLOCK && deltas[lo] == minSample;
    var hi :| 0 <= hi < BLOCK && deltas[hi] == maxSample;
    assert deltas[..][lo] == minSample && deltas[..][hi] == maxSample;
    WordWidth(minSample);
    WordWidth(maxSample);
    shift := 4 + 12 - Max(4, Max(bitsMin, bitsMax));
    forall i | 0 <= i < BLOCK ensures Width(deltas[i]) <= 16 - shift { WidthBetween(minSample, deltas[i], maxSample); }
    ErrorBound(shift, deltas[..]);
  }

  /** A multiple of 0x2000 is one of every lower power that a shift from -1 up asks for. */
  lemma LowerPowersDivide(delta: int, shift: int)
    requires -1 <= shift <= 12 && delta % 0x2000 == 0
    ensures delta % Pow2(12 - shift) == 0
  {
    Pow2Values();
    Pow2Add(12 - shift, shift + 1);
    assert Pow2(13) == 0x2000;
    var p, q, k := Pow2(12 - shift), Pow2(shift + 1), delta / 0x2000;
    assert delta == 0x2000 * k;
    MulAssoc(p, q, k);
    MultipleMod(q * k, p);
  }

  /** No width is wider than at shift 0, so going one further down fits too. */
  lemma BelowZeroExactly(deltas: seq<int>, start: int, shift: int)
    requires 0 <= start <= 12 && -1 <= shift <= start
    requires forall i :: 0 <= i < |deltas| ==> Width(deltas[i]) <= 16 - start
    requires ShiftError(shift, deltas) == 0 || shift == start
    requires shift >= 0 ==> ShiftError(shift, deltas) != 0 || ShiftError(shift - 1, deltas) != 0
    ensures shift < 0 <==> forall i :: 0 <= i < |deltas| ==> deltas[i] % 0x2000 == 0
  {
    assert Pow2(13) == 0x2000 by { Pow2Values(); }
    NoErrorDivides(shift, deltas);
    if shift >= 0 {
      NoErrorDivides(shift - 1, deltas);
      if forall i :: 0 <= i < |deltas| ==> deltas[i] % 0x2000 == 0 {
        forall i | 0 <= i < |deltas|
          ensures deltas[i] % Pow2(12 - shift) == 0 && deltas[i] % Pow2(12 - (shift - 1)) == 0
        {
          LowerPowersDivide(deltas[i], shift);
          LowerPowersDivide(deltas[i], shift - 1);
        }
      }
    }
  }

  /**
   The shift is lowered as long as nothing is lost. It is one that a block can be written with unless a delta needs
   more than 16 bits, or all deltas are multiples of 0x2000.
   */
  method SelectShift(deltas: array<int>) returns (shift: int, error: nat, ghost start: int)
    requires deltas.Length == BLOCK && AllS32(deltas[..])
    ensures -16 <= shift <= start <= 12 && error == ShiftError(start, deltas[..]) <= BLOCK * (Pow2(12 - start) - 1)
    ensures forall i :: 0 <= i < BLOCK ==> Width(deltas[i]) <= 16 - start
    ensures start < 12 ==> exists i :: 0 <= i < BLOCK && Width(deltas[i]) == 16 - start
    ensures error == ShiftError(shift, deltas[..]) && (error != 0 || start < 0 ==> shift == start)
    ensures error == 0 && start >= 0 ==> shift >= -1 && forall k :: shift <= k <= start ==>
        ShiftError(k, deltas[..]) == 0
    ensures error == 0 && shift >= 0 ==> ShiftError(shift - 1, deltas[..]) != 0
    ensures start < 0 <==> exists i :: 0 <= i < BLOCK && Width(deltas[i]) > 16
    ensures shift < 0 <==> start < 0 || forall i :: 0 <= i < BLOCK ==> deltas[i] % 0x2000 == 0
  {
    hide ShiftError, Width;
    shift := StartShift(deltas);
    start := shift;
    error := GetShiftError(shift, deltas);
    if error == 0 {
      var done := false;
      while shift >= 0 && !done
        invariant -16 <= shift <= start && ShiftError(shift, deltas[..]) == 0 && (start < 0 ==> shift == start)
        invariant start >= 0 ==> shift >= -1 && forall k :: shift <= k <= start ==> ShiftError(k, deltas[..]) == 0
        invariant done && shift >= 0 ==> ShiftError(shift - 1, deltas[..]) != 0
        decreases shift + 1, !done
      {
        var nextError := GetShiftError(shift - 1, deltas);
        if nextError == 0 { shift := shift - 1; } else { done := true; }
      }
    }
    if start >= 0 { BelowZeroExactly(deltas[..], start, shift); }
  }

  /** A silent block loses nothing at any shift. */
  lemma {:induction false} SilenceLosesNothing(shift: int, n: nat)
    requires -16 <= shift <= 12
    ensures ShiftError(shift, seq(n, _ => 0)) == 0
  {
    if n > 0 {
      SilenceLosesNothing(shift, n - 1);
      assert seq(n, _ => 0)[..n - 1] == seq(n - 1, _ => 0);
    }
  }
}

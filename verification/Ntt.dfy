/** The number-theoretic transform of the X-Wing reference script: section 4.3
    of FIPS 203, coefficients modulo 3329, 256 of them, seven layers.

    The loops work layer by layer over one array.  The specification works block
    by block: `Transform(h, x, c)` handles one block of size 2 * 2^h at node `x`
    of the tree of layers, whose factor is the power `Zeta(x)` of 17.
 */
module Ntt {
  import opened Prelude

  const Q := 3329
  const N := 256
  const INV2 := 1665

  type Coef = x: int | 0 <= x < Q

  function M(x: int): Coef { x % 3329 }

  // ---------------------------------------------------------------------
  // Arithmetic modulo 3329
  // ---------------------------------------------------------------------

  ghost predicate Same(x: int, y: int) { M(x) == M(y) }

  lemma Shift(x: int, k: int)
    ensures M(x + 3329 * k) == M(x)
  {
  }

  lemma Quotient(x: int) returns (k: int)
    ensures x == M(x) + 3329 * k
  {
    k := x / 3329;
  }

  lemma {:induction false} SumOf(x: int, y: int)
    ensures M(x + y) == M(M(x) + M(y)) && M(x - y) == M(M(x) - M(y))
  {
    var k := Quotient(x);
    var l := Quotient(y);
    hide M;
    Shift(M(x) + M(y), k + l);
    Shift(M(x) - M(y), k - l);
  }

  lemma {:induction false} ProductOf(x: int, y: int)
    ensures M(x * y) == M(M(x) * M(y))
  {
    var k := Quotient(x);
    var l := Quotient(y);
    hide M;
    var r, t := M(x), M(y);
    Expand(r, k, t, l);
    Shift(r * t, k * t + l * r + 3329 * (k * l));
  }

  lemma {:induction false} Expand(r: int, k: int, t: int, l: int)
    ensures (r + 3329 * k) * (t + 3329 * l) == r * t + 3329 * (k * t + l * r + 3329 * (k * l))
  {
    assert (r + 3329 * k) * (t + 3329 * l) == r * t + r * (3329 * l) + (3329 * k) * t + (3329 * k) * (3329 * l);
    assert r * (3329 * l) == 3329 * (l * r);
    assert (3329 * k) * t == 3329 * (k * t);
    assert (3329 * k) * (3329 * l) == 3329 * (3329 * (k * l));
  }

  lemma {:induction false} SameSum(x: int, x': int, y: int, y': int)
    requires Same(x, x') && Same(y, y')
    ensures Same(x + y, x' + y') && Same(x - y, x' - y')
  {
    hide M;
    SumOf(x, y);
    SumOf(x', y');
  }

  lemma {:induction false} SameProduct(x: int, x': int, y: int, y': int)
    requires Same(x, x') && Same(y, y')
    ensures Same(x * y, x' * y')
  {
    hide M;
    ProductOf(x, y);
    ProductOf(x', y');
  }

  lemma Reduce(x: int)
    ensures Same(M(x), x)
  {
  }

  function Power(e: nat): Coef { if e == 0 then 1 else M(17 * Power(e - 1)) }

  lemma {:induction false} PowerSum(a: nat, b: nat)
    ensures Power(a + b) == M(Power(a) * Power(b))
  {
    hide M, Power;
    var p: int, r: int := Power(a), 1;
    if b == 0 {
      PowerZero(a);
    } else {
      PowerSum(a, b - 1);
      PowerNext(a + b - 1);
      PowerNext(b - 1);
      r := Power(b - 1);
      Reduce(p * r);
      Reduce(17 * r);
      SameProduct(17, 17, M(p * r), p * r);
      SameProduct(p, p, M(17 * r), 17 * r);
      assert 17 * (p * r) == p * (17 * r);
    }
  }

  lemma PowerZero(a: nat)
    ensures Power(0) == 1 && Power(a) == M(Power(a) * Power(0))
  {
  }

  lemma PowerNext(e: nat)
    ensures Power(e + 1) == M(17 * Power(e))
  {
  }

  lemma {:induction false} Doubled(e: nat, x: int, y: int)
    requires Power(e) == x && M(x * x) == y
    ensures Power(e + e) == y
  {
    PowerSum(e, e);
  }

  /** 17 has order 256: its 128th power is -1. */
  lemma {:induction false} HalfTurn()
    ensures Power(128) == 3328
  {
    assert Power(1) == 17 by { PowerNext(0); assert Power(0) == 1; }
    hide Power;
    Doubled(1, 17, 289);
    Doubled(2, 289, 296);
    Doubled(4, 296, 1062);
    Doubled(8, 1062, 2642);
    Doubled(16, 2642, 2580);
    Doubled(32, 2580, 1729);
    Doubled(64, 1729, 3328);
  }

  // ---------------------------------------------------------------------
  // Bit reversal and the factor of a node
  // ---------------------------------------------------------------------

  lemma {:induction false} PowMonotone(a: nat, b: nat)
    requires a <= b
    ensures Pow2(a) <= Pow2(b)
  {
    if a < b { PowMonotone(a, b - 1); }
  }

  /** The lowest `bits` bits of `x` in reverse order. */
  function Reversed(x: nat, bits: nat): nat {
    if bits == 0 then 0 else (x % 2) * Pow2(bits - 1) + Reversed(x / 2, bits - 1)
  }

  function Zeta(x: nat): Coef { Power(Reversed(x, 7)) }

  /** The node at the mirrored place of the same layer. */
  function Mirror(k: nat, x: nat): int { 3 * Pow2(k) - 1 - x }

  lemma {:induction false} MirrorHalves(k: nat, x: nat)
    requires k > 0 && Pow2(k) <= x < 2 * Pow2(k)
    ensures Mirror(k, x) >= 0 && x % 2 + Mirror(k, x) % 2 == 1
    ensures Pow2(k - 1) <= x / 2 < 2 * Pow2(k - 1) && Mirror(k, x) / 2 == Mirror(k - 1, x / 2)
  {
  }

  lemma {:induction false} ReversedMirror(k: nat, x: nat, bits: nat)
    requires k < bits && Pow2(k) <= x < 2 * Pow2(k)
    ensures Mirror(k, x) >= 0
    ensures Reversed(x, bits) + Reversed(Mirror(k, x), bits) == Pow2(bits)
  {
    if k == 0 {
      ReversedZero(bits - 1);
    } else {
      MirrorHalves(k, x);
      hide Mirror, Reversed, Pow2;
      ReversedMirror(k - 1, x / 2, bits - 1);
      ReversedStep(x, Mirror(k, x), bits);
    }
  }

  lemma {:induction false} ReversedStep(x: nat, y: nat, bits: nat)
    requires bits > 0 && x % 2 + y % 2 == 1 && Reversed(x / 2, bits - 1) + Reversed(y / 2, bits - 1) == Pow2(bits - 1)
    ensures Reversed(x, bits) + Reversed(y, bits) == Pow2(bits)
  {
    if x % 2 == 1 { assert y % 2 == 0; } else { assert y % 2 == 1; }
  }

  lemma {:induction false} ReversedZero(bits: nat)
    ensures Reversed(0, bits) == 0
  {
    if bits > 0 { ReversedZero(bits - 1); }
  }

  /** Mirrored factors multiply to -1: the reason the inverse may walk its
      factors backwards. */
  lemma {:induction false} MirrorFactor(k: nat, x: nat)
    requires k < 7 && Pow2(k) <= x < 2 * Pow2(k)
    ensures Mirror(k, x) >= 0 && M(Zeta(x) * Zeta(Mirror(k, x))) == 3328
  {
    ReversedMirror(k, x, 7);
    PowerSum(Reversed(x, 7), Reversed(Mirror(k, x), 7));
    assert Pow2(7) == 128;
    HalfTurn();
  }

  // ---------------------------------------------------------------------
  // One butterfly
  // ---------------------------------------------------------------------

  function Up(a: Coef, b: Coef, z: Coef): Coef { M(a + z * b) }
  function Down(a: Coef, b: Coef, z: Coef): Coef { M(a - z * b) }
  function Mean(c: Coef, d: Coef): Coef { M(INV2 * (c + d)) }
  function Gap(c: Coef, d: Coef, y: Coef): Coef { M(INV2 * y * M(d - c)) }

  lemma {:induction false} ButterflyUndone(a: Coef, b: Coef, z: Coef, y: Coef)
    requires M(z * y) == 3328
    ensures Mean(Up(a, b, z), Down(a, b, z)) == a
    ensures Gap(Up(a, b, z), Down(a, b, z), y) == b
  {
    var zb: int := z * b;
    var c: int, d: int := Up(a, b, z), Down(a, b, z);
    assert Same(c, a + zb) && Same(d, a - zb) by { Reduce(a + zb); Reduce(a - zb); }
    assert M(INV2 * (c + d)) == a by {
      hide Up, Down;
      SameSum(c, a + zb, d, a - zb);
      Halved(a, 2 * a, c + d);
    }
    hide Up, Down;
    SameSum(d, a - zb, c, a + zb);
    Reduce(d - c);
    Undo(b, z, y, M(d - c));
  }

  // Halving a doubled value.
  lemma {:induction false} Halved(a: Coef, twice: int, x: int)
    requires twice == 2 * a && Same(x, twice)
    ensures M(1665 * x) == a
  {
    hide M;
    SameProduct(1665, 1665, x, twice);
    Shift(a, a);
    Small(a);
  }

  lemma Small(a: Coef)
    ensures M(a) == a
  {
  }

  lemma {:induction false} Undo(b: Coef, z: Coef, y: Coef, x: int)
    requires M(z * y) == 3328 && Same(x, -2 * (z * b))
    ensures M(1665 * y * x) == b
  {
    hide M;
    var zy: int := z * y;
    SameProduct(1665 * y, 1665 * y, x, -2 * (z * b));
    assert (1665 * y) * (-2 * (z * b)) == -3330 * (zy * b) by {
      assert y * (z * b) == zy * b;
      assert (1665 * y) * (-2 * (z * b)) == (1665 * -2) * (y * (z * b));
    }
    MinusOne(zy);
    SameProduct(zy, -1, b, b);
    SameProduct(-3330, -3330, zy * b, -1 * b);
    Shift(b, b);
    Small(b);
  }

  lemma MinusOne(x: int)
    requires M(x) == 3328
    ensures Same(x, -1)
  {
  }

  lemma {:induction false} ButterflyRedone(c: Coef, d: Coef, z: Coef, y: Coef)
    requires M(z * y) == 3328
    ensures Up(Mean(c, d), Gap(c, d, y), z) == c
    ensures Down(Mean(c, d), Gap(c, d, y), z) == d
  {
    var mean: int, gap: int := INV2 * (c + d), z * Gap(c, d, y);
    Redo(c, d, z, y);
    assert Same(Mean(c, d), mean) by { Reduce(mean); }
    hide Mean, Gap;
    SameSum(Mean(c, d), mean, gap, 1665 * (c - d));
    Halved(c, 2 * c, 2 * c);
    Halved(d, 2 * d, 2 * d);
    assert mean + 1665 * (c - d) == 1665 * (2 * c) && mean - 1665 * (c - d) == 1665 * (2 * d);
  }

  lemma {:induction false} Redo(c: Coef, d: Coef, z: Coef, y: Coef)
    requires M(z * y) == 3328
    ensures Same(z * Gap(c, d, y), 1665 * (c - d))
  {
    var diff: int, zy: int := M(d - c), z * y;
    var g: int := 1665 * y * diff;
    assert Same(Gap(c, d, y), g) by { Reduce(g); }
    assert Same(diff, d - c) by { Reduce(d - c); }
    hide M, Gap;
    SameProduct(z, z, Gap(c, d, y), g);
    assert z * g == 1665 * (zy * diff) by {
      assert z * (1665 * y * diff) == 1665 * (z * (y * diff));
      assert z * (y * diff) == zy * diff;
    }
    MinusOne(zy);
    SameProduct(zy, -1, diff, d - c);
    SameProduct(1665, 1665, zy * diff, -1 * (d - c));
  }

  // ---------------------------------------------------------------------
  // One block, and the tree of blocks
  // ---------------------------------------------------------------------

  type Block = seq<Coef>

  function Ups(c: Block, z: Coef): (lo: Block)
    requires |c| % 2 == 0
    ensures |lo| == |c| / 2
  {
    seq(|c| / 2, k requires 0 <= k < |c| / 2 => Up(c[k], c[k + |c| / 2], z))
  }

  function Downs(c: Block, z: Coef): (hi: Block)
    requires |c| % 2 == 0
    ensures |hi| == |c| / 2
  {
    seq(|c| / 2, k requires 0 <= k < |c| / 2 => Down(c[k], c[k + |c| / 2], z))
  }

  function Means(lo: Block, hi: Block): (c: Block)
    requires |lo| == |hi|
    ensures |c| == |lo|
  {
    seq(|lo|, k requires 0 <= k < |lo| => Mean(lo[k], hi[k]))
  }

  function Gaps(lo: Block, hi: Block, y: Coef): (c: Block)
    requires |lo| == |hi|
    ensures |c| == |lo|
  {
    seq(|lo|, k requires 0 <= k < |lo| => Gap(lo[k], hi[k], y))
  }

  ghost predicate Sized(h: nat, c: Block) { |c| == 2 * Pow2(h) }

  ghost function Transform(h: nat, x: nat, c: Block): (d: Block)
    requires Sized(h, c)
    ensures Sized(h, d)
  {
    if h == 0 then c
    else Transform(h - 1, 2 * x, Ups(c, Zeta(x))) + Transform(h - 1, 2 * x + 1, Downs(c, Zeta(x)))
  }

  // Node `x` lies in the layer of blocks of height `h`.
  ghost predicate InLayer(h: nat, x: nat) { h <= 7 && Pow2(7 - h) <= x < 2 * Pow2(7 - h) }

  function Mirrored(h: nat, x: nat): (y: nat)
    requires h <= 7
  {
    if Mirror(7 - h, x) >= 0 then Mirror(7 - h, x) else 0
  }

  ghost function Inverse(h: nat, x: nat, c: Block): (d: Block)
    requires h <= 7 && Sized(h, c)
    ensures Sized(h, d)
  {
    if h == 0 then c
    else
      var lo := Inverse(h - 1, 2 * x, c[..Pow2(h)]);
      var hi := Inverse(h - 1, 2 * x + 1, c[Pow2(h)..]);
      Means(lo, hi) + Gaps(lo, hi, Zeta(Mirrored(h, x)))
  }

  lemma {:induction false} BlockUndone(c: Block, z: Coef, y: Coef)
    requires |c| % 2 == 0 && M(z * y) == 3328
    ensures Means(Ups(c, z), Downs(c, z)) + Gaps(Ups(c, z), Downs(c, z), y) == c
  {
    forall k | 0 <= k < |c| / 2
      ensures Mean(Ups(c, z)[k], Downs(c, z)[k]) == c[k] && Gap(Ups(c, z)[k], Downs(c, z)[k], y) == c[k + |c| / 2]
    {
      ButterflyUndone(c[k], c[k + |c| / 2], z, y);
    }
    hide Mean, Gap, Up, Down;
  }

  lemma {:induction false} BlockRedone(lo: Block, hi: Block, z: Coef, y: Coef)
    requires |lo| == |hi| && M(z * y) == 3328
    ensures var c := Means(lo, hi) + Gaps(lo, hi, y);
      Ups(c, z) == lo && Downs(c, z) == hi
  {
    forall k | 0 <= k < |lo|
      ensures Up(Mean(lo[k], hi[k]), Gap(lo[k], hi[k], y), z) == lo[k]
      ensures Down(Mean(lo[k], hi[k]), Gap(lo[k], hi[k], y), z) == hi[k]
    {
      ButterflyRedone(lo[k], hi[k], z, y);
    }
    hide Mean, Gap, Up, Down;
  }

  lemma TransformStep(h: nat, x: nat, c: Block)
    requires h > 0 && Sized(h, c)
    ensures |c| % 2 == 0 && |c| / 2 == 2 * Pow2(h - 1) == Pow2(h)
    ensures Transform(h, x, c) ==
      Transform(h - 1, 2 * x, Ups(c, Zeta(x))) + Transform(h - 1, 2 * x + 1, Downs(c, Zeta(x)))
  {
  }

  lemma InverseStep(h: nat, x: nat, lo: Block, hi: Block)
    requires 0 < h <= 7 && Sized(h - 1, lo) && Sized(h - 1, hi)
    ensures var a, b := Inverse(h - 1, 2 * x, lo), Inverse(h - 1, 2 * x + 1, hi);
      |a| == |b| && Sized(h, lo + hi) && Inverse(h, x, lo + hi) == Means(a, b) + Gaps(a, b, Zeta(Mirrored(h, x)))
  {
    assert (lo + hi)[..Pow2(h)] == lo && (lo + hi)[Pow2(h)..] == hi;
  }

  lemma Children(h: nat, x: nat)
    requires h > 0 && InLayer(h, x)
    ensures h <= 7 && InLayer(h - 1, 2 * x) && InLayer(h - 1, 2 * x + 1)
    ensures M(Zeta(x) * Zeta(Mirrored(h, x))) == 3328
  {
    MirrorFactor(7 - h, x);
  }

  lemma Leaf(x: nat, c: Block)
    requires Sized(0, c)
    ensures Transform(0, x, c) == c && Inverse(0, x, c) == c
  {
  }

  /** The inverse transform undoes the transform. */
  lemma {:induction false} InverseOfTransform(h: nat, x: nat, c: Block)
    requires InLayer(h, x) && Sized(h, c)
    ensures h <= 7 && Inverse(h, x, Transform(h, x, c)) == c
  {
    hide Ups, Downs, Means, Gaps, Zeta, Transform, Inverse, Pow2, M, Mirrored;
    if h == 0 {
      Leaf(x, c);
    } else {
      Children(h, x);
      TransformStep(h, x, c);
      var z := Zeta(x);
      var lo, hi := Ups(c, z), Downs(c, z);
      InverseOfTransform(h - 1, 2 * x, lo);
      InverseOfTransform(h - 1, 2 * x + 1, hi);
      InverseStep(h, x, Transform(h - 1, 2 * x, lo), Transform(h - 1, 2 * x + 1, hi));
      BlockUndone(c, z, Zeta(Mirrored(h, x)));
    }
  }

  /** ... and the other way round. */
  lemma {:induction false} TransformOfInverse(h: nat, x: nat, c: Block)
    requires InLayer(h, x) && Sized(h, c)
    ensures h <= 7 && Transform(h, x, Inverse(h, x, c)) == c
  {
    hide Ups, Downs, Means, Gaps, Zeta, Transform, Inverse, Pow2, M, Mirrored;
    if h == 0 {
      Leaf(x, c);
    } else {
      Children(h, x);
      TransformStep(h, x, c);
      var a, b := c[..Pow2(h)], c[Pow2(h)..];
      assert c == a + b;
      TransformOfInverse(h - 1, 2 * x, a);
      TransformOfInverse(h - 1, 2 * x + 1, b);
      InverseStep(h, x, a, b);
      TransformStep(h, x, Inverse(h, x, c));
      BlockRedone(Inverse(h - 1, 2 * x, a), Inverse(h - 1, 2 * x + 1, b), Zeta(x), Zeta(Mirrored(h, x)));
    }
  }

  // ---------------------------------------------------------------------
  // Whole layers
  // ---------------------------------------------------------------------

  // `s` is `n` blocks of height `h`.
  ghost predicate Tiled(h: nat, n: nat, s: Block) {
    if n == 0 then s == [] else |s| >= 2 * Pow2(h) && Tiled(h, n - 1, s[2 * Pow2(h)..])
  }

  ghost function Layer(h: nat, x: nat, n: nat, s: Block): (t: Block)
    requires Tiled(h, n, s)
    ensures Tiled(h, n, t) && |t| == |s|
    decreases n
  {
    if n == 0 then []
    else
      var b := s[..2 * Pow2(h)];
      var first := Ups(b, Zeta(x)) + Downs(b, Zeta(x));
      var rest := Layer(h, x + 1, n - 1, s[2 * Pow2(h)..]);
      assert (first + rest)[2 * Pow2(h)..] == rest;
      first + rest
  }

  // Neighbouring blocks of one layer, each with the transform still to come.
  ghost function Forest(h: nat, x: nat, n: nat, s: Block): Block
    requires Tiled(h, n, s)
    decreases n
  {
    if n == 0 then []
    else Transform(h, x, s[..2 * Pow2(h)]) + Forest(h, x + 1, n - 1, s[2 * Pow2(h)..])
  }

  lemma {:induction false} TiledTwice(h: nat, n: nat, a: Block, b: Block, rest: Block)
    requires Sized(h, a) && Sized(h, b) && Tiled(h, n, rest)
    ensures Tiled(h, n + 2, a + b + rest)
  {
    var B := 2 * Pow2(h);
    var s := a + b + rest;
    assert s[B..] == b + rest && (b + rest)[B..] == rest;
    assert Tiled(h, n + 1, b + rest);
  }

  lemma {:induction false} ForestTwice(h: nat, x: nat, n: nat, a: Block, b: Block, rest: Block)
    requires Sized(h, a) && Sized(h, b) && Tiled(h, n, rest)
    ensures Tiled(h, n + 2, a + b + rest)
    ensures Forest(h, x, n + 2, a + b + rest) == Transform(h, x, a) + Transform(h, x + 1, b) + Forest(h, x + 2, n, rest)
  {
    TiledTwice(h, n, a, b, rest);
    var B := 2 * Pow2(h);
    var s := a + b + rest;
    assert s[..B] == a && s[B..] == b + rest && (b + rest)[..B] == b && (b + rest)[B..] == rest;
    assert Forest(h, x, n + 2, s) == Transform(h, x, a) + Forest(h, x + 1, n + 1, b + rest);
    assert Forest(h, x + 1, n + 1, b + rest) == Transform(h, x + 1, b) + Forest(h, x + 2, n, rest);
  }

  lemma {:induction false} LayerFirst(h: nat, x: nat, n: nat, s: Block) returns (b: Block, rest: Block)
    requires h > 0 && n > 0 && Tiled(h, n, s)
    ensures Sized(h, b) && Tiled(h, n - 1, rest) && Sized(h - 1, Ups(b, Zeta(x))) && Sized(h - 1, Downs(b, Zeta(x)))
    ensures Layer(h, x, n, s) == Ups(b, Zeta(x)) + Downs(b, Zeta(x)) + Layer(h, x + 1, n - 1, rest)
    ensures Forest(h, x, n, s) == Transform(h, x, b) + Forest(h, x + 1, n - 1, rest)
  {
    hide Transform, Zeta;
    b, rest := s[..2 * Pow2(h)], s[2 * Pow2(h)..];
  }

  lemma NoLayer(h: nat, x: nat)
    ensures Tiled(h, 0, []) && Layer(h, x, 0, []) == [] && Forest(h, x, 0, []) == []
  {
  }

  /** Running one layer over all blocks is one step of every block's transform. */
  lemma {:induction false} LayerStep(h: nat, x: nat, n: nat, s: Block)
    requires h > 0 && Tiled(h, n, s)
    ensures Tiled(h - 1, 2 * n, Layer(h, x, n, s))
    ensures Forest(h, x, n, s) == Forest(h - 1, 2 * x, 2 * n, Layer(h, x, n, s))
    decreases n
  {
    hide Transform, Ups, Downs, Zeta, Layer, Forest, Pow2, Sized;
    if n == 0 {
      NoLayer(h, x);
      NoLayer(h - 1, 2 * x);
    } else {
      hide Tiled;
      var b, rest := LayerFirst(h, x, n, s);
      LayerStep(h, x + 1, n - 1, rest);
      TransformStep(h, x, b);
      ForestTwice(h - 1, 2 * x, 2 * n - 2, Ups(b, Zeta(x)), Downs(b, Zeta(x)), Layer(h, x + 1, n - 1, rest));
      assert 2 * (x + 1) == 2 * x + 2 && 2 * (n - 1) == 2 * n - 2;
    }
  }

  lemma {:induction false} ForestEnds(x: nat, n: nat, s: Block)
    requires Tiled(0, n, s)
    ensures Forest(0, x, n, s) == s
    decreases n
  {
    if n > 0 {
      ForestEnds(x + 1, n - 1, s[2..]);
      assert s == s[..2] + s[2..];
    }
  }

  function Nat(y: int): nat { if y < 0 then 0 else y }

  ghost function InverseLayer(h: nat, y: int, n: nat, s: Block): (t: Block)
    requires Tiled(h, n, s)
    ensures Tiled(h, n, t) && |t| == |s|
    decreases n
  {
    if n == 0 then []
    else
      var B := 2 * Pow2(h);
      var lo, hi := s[..Pow2(h)], s[Pow2(h)..B];
      var first := Means(lo, hi) + Gaps(lo, hi, Zeta(Nat(y)));
      var rest := InverseLayer(h, y - 1, n - 1, s[B..]);
      assert (first + rest)[B..] == rest;
      first + rest
  }

  ghost function InverseForest(h: nat, x: nat, n: nat, s: Block): (t: Block)
    requires h <= 7 && Tiled(h, n, s)
    ensures Tiled(h, n, t) && |t| == |s|
    decreases n
  {
    if n == 0 then []
    else
      var first := Inverse(h, x, s[..2 * Pow2(h)]);
      var rest := InverseForest(h, x + 1, n - 1, s[2 * Pow2(h)..]);
      assert (first + rest)[2 * Pow2(h)..] == rest;
      first + rest
  }

  lemma {:induction false} InverseForestFirst(h: nat, x: nat, n: nat, b: Block, rest: Block)
    requires h <= 7 && Sized(h, b) && Tiled(h, n, rest)
    ensures Tiled(h, n + 1, b + rest)
    ensures InverseForest(h, x, n + 1, b + rest) == Inverse(h, x, b) + InverseForest(h, x + 1, n, rest)
  {
    hide Inverse;
    assert (b + rest)[..2 * Pow2(h)] == b && (b + rest)[2 * Pow2(h)..] == rest;
  }

  lemma {:induction false} InverseForestTwice(h: nat, x: nat, n: nat, a: Block, b: Block, rest: Block)
    requires h <= 7 && Sized(h, a) && Sized(h, b) && Tiled(h, n, rest)
    ensures Tiled(h, n + 2, a + b + rest)
    ensures InverseForest(h, x, n + 2, a + b + rest) ==
      Inverse(h, x, a) + Inverse(h, x + 1, b) + InverseForest(h, x + 2, n, rest)
  {
    hide Inverse, InverseForest, Tiled, Sized;
    InverseForestFirst(h, x + 1, n, b, rest);
    InverseForestFirst(h, x, n + 1, a, b + rest);
    assert a + b + rest == a + (b + rest);
  }

  lemma {:induction false} InverseLayerFirst(h: nat, y: int, n: nat, lo: Block, hi: Block, rest: Block)
    requires |lo| == |hi| == Pow2(h) && Tiled(h, n, rest)
    ensures Tiled(h, n + 1, lo + hi + rest)
    ensures InverseLayer(h, y, n + 1, lo + hi + rest)
         == Means(lo, hi) + Gaps(lo, hi, Zeta(Nat(y))) + InverseLayer(h, y - 1, n, rest)
  {
    hide Means, Gaps, Zeta;
    var s, B := lo + hi + rest, 2 * Pow2(h);
    assert s[..Pow2(h)] == lo && s[Pow2(h)..B] == hi && s[B..] == rest;
  }

  lemma MirroredNext(h: nat, x: nat)
    requires h <= 7 && x < 2 * Pow2(7 - h)
    ensures Mirrored(h, x) > 0 && Mirrored(h, x + 1) == Mirrored(h, x) - 1
  {
  }

  lemma NoInverseLayer(h: nat, y: int)
    ensures InverseLayer(h, y, 0, []) == []
    ensures h <= 7 && y >= 0 ==> InverseForest(h, y, 0, []) == []
  {
  }

  lemma {:induction false} TiledSplit(h: nat, n: nat, s: Block) returns (a: Block, b: Block, rest: Block)
    requires h > 0 && n > 0 && Tiled(h, n, s)
    ensures s == a + b + rest && Sized(h - 1, a) && Sized(h - 1, b) && |a| == |b| == Pow2(h) && Sized(h, a + b)
    ensures Tiled(h, n - 1, rest)
  {
    var B := 2 * Pow2(h);
    a, b, rest := s[..Pow2(h)], s[Pow2(h)..B], s[B..];
  }

  /** Running one layer backwards over all blocks joins them in pairs. */
  lemma {:induction false} InverseLayerStep(h: nat, x: nat, n: nat, s: Block)
    requires 0 < h <= 7 && Tiled(h, n, s) && x + n <= 2 * Pow2(7 - h)
    ensures Tiled(h - 1, 2 * n, s) && Tiled(h, n, InverseForest(h - 1, 2 * x, 2 * n, s))
    ensures InverseForest(h, x, n, s) == InverseLayer(h, Mirrored(h, x), n, InverseForest(h - 1, 2 * x, 2 * n, s))
    decreases n
  {
    hide Inverse, Means, Gaps, Zeta, InverseForest, InverseLayer, Mirrored, Pow2;
    if n == 0 {
      NoInverseLayer(h, x);
      NoInverseLayer(h, Mirrored(h, x));
      NoInverseLayer(h - 1, 2 * x);
    } else {
      hide Tiled;
      MirroredNext(h, x);
      var a, b, rest := TiledSplit(h, n, s);
      InverseLayerStep(h, x + 1, n - 1, rest);
      InverseForestTwice(h - 1, 2 * x, 2 * n - 2, a, b, rest);
      InverseForestFirst(h, x, n - 1, a + b, rest);
      InverseStep(h, x, a, b);
      assert 2 * (x + 1) == 2 * x + 2 && 2 * (n - 1) == 2 * n - 2;
      var lo, hi := Inverse(h - 1, 2 * x, a), Inverse(h - 1, 2 * x + 1, b);
      var tail := InverseForest(h - 1, 2 * x + 2, 2 * n - 2, rest);
      InverseLayerFirst(h, Mirrored(h, x), n - 1, lo, hi, tail);
    }
  }

  lemma {:induction false} InverseForestStarts(x: nat, n: nat, s: Block)
    requires Tiled(0, n, s)
    ensures InverseForest(0, x, n, s) == s
    decreases n
  {
    if n > 0 {
      InverseForestStarts(x + 1, n - 1, s[2..]);
      assert s == s[..2] + s[2..];
    }
  }
}

/** The transform and its inverse as the script runs them: three nested loops
    over one list of 256 coefficients, changed in place. */
module NttLoops {
  import opened Prelude
  import opened Ntt

  ghost predicate Butterflied(s: Block, t: Block, offset: nat, layer: nat, upto: nat, z: Coef)
    requires offset + 2 * layer <= |s| == |t| && offset <= upto <= offset + layer
  {
    && (forall k | 0 <= k < |s| && !(offset <= k < upto) && !(offset + layer <= k < upto + layer) :: t[k] == s[k])
    && (forall k | offset <= k < upto :: t[k] == Up(s[k], s[k + layer], z))
    && (forall k | offset + layer <= k < upto + layer :: t[k] == Down(s[k - layer], s[k], z))
  }

  // A sequence is its parts: before the block, its halves, after it.
  lemma InParts(t: Block, offset: nat, layer: nat, a: Block, lo: Block, hi: Block, b: Block)
    requires offset + 2 * layer <= |t|
    requires t[..offset] == a && t[offset..offset + layer] == lo && t[offset + layer..offset + 2 * layer] == hi
    requires t[offset + 2 * layer..] == b
    ensures t == a + (lo + hi) + b
  {
    assert t == t[..offset] + t[offset..];
    assert t[offset..] == t[offset..offset + 2 * layer] + t[offset + 2 * layer..];
    assert t[offset..offset + 2 * layer] == t[offset..offset + layer] + t[offset + layer..offset + 2 * layer];
  }

  lemma {:induction false} ButterfliedBlock(s: Block, t: Block, offset: nat, layer: nat, z: Coef)
    requires offset + 2 * layer <= |s| == |t| && Butterflied(s, t, offset, layer, offset + layer, z)
    ensures var b := s[offset..offset + 2 * layer];
      t == s[..offset] + (Ups(b, z) + Downs(b, z)) + s[offset + 2 * layer..]
  {
    hide Up, Down;
    var b := s[offset..offset + 2 * layer];
    assert t[..offset] == s[..offset];
    assert t[offset + 2 * layer..] == s[offset + 2 * layer..];
    assert t[offset..offset + layer] == Ups(b, z);
    assert t[offset + layer..offset + 2 * layer] == Downs(b, z);
    hide Butterflied;
    InParts(t, offset, layer, s[..offset], Ups(b, z), Downs(b, z), s[offset + 2 * layer..]);
  }

  // One block: `cs[offset..offset + 2 * layer]`.
  method ForwardBlock(cs: array<Coef>, offset: nat, layer: nat, z: Coef)
    requires offset + 2 * layer <= cs.Length
    modifies cs
    ensures var b := old(cs[..])[offset..offset + 2 * layer];
      cs[..] == old(cs[..])[..offset] + (Ups(b, z) + Downs(b, z)) + old(cs[..])[offset + 2 * layer..]
  {
    hide Up, Down, M, Butterflied;
    ghost var s := cs[..];
    NotYet(s, offset, layer, z);
    for j := offset to offset + layer
      invariant Butterflied(s, cs[..], offset, layer, j, z)
    {
      var a: int, b: int := cs[j], cs[j + layer];
      TwiceReduced(cs[j], cs[j + layer], z);
      ButterfliedNext(s, cs[..], offset, layer, j, z);
      var t: int := M(z * b);
      ghost var before: Block := cs[..];
      cs[j + layer] := M(a - t);
      cs[j] := M(a + t);
      assert cs[..] == before[j + layer := M(a - t)][j := M(a + t)];
    }
    ButterfliedBlock(s, cs[..], offset, layer, z);
  }

  lemma NotYet(s: Block, offset: nat, layer: nat, z: Coef)
    requires offset + 2 * layer <= |s|
    ensures Butterflied(s, s, offset, layer, offset, z) && Joined(s, s, offset, layer, offset, z)
  {
  }

  lemma {:induction false} ButterfliedNext(s: Block, t: Block, offset: nat, layer: nat, j: nat, z: Coef)
    requires offset + 2 * layer <= |s| == |t| && offset <= j < offset + layer && Butterflied(s, t, offset, layer, j, z)
    ensures Butterflied(s, t[j + layer := Down(t[j], t[j + layer], z)][j := Up(t[j], t[j + layer], z)], offset, layer,
      j + 1, z)
  {
    hide Up, Down;
  }

  lemma {:induction false} JoinedNext(s: Block, t: Block, offset: nat, layer: nat, j: nat, z: Coef)
    requires offset + 2 * layer <= |s| == |t| && offset <= j < offset + layer && Joined(s, t, offset, layer, j, z)
    ensures Joined(s, t[j := Mean(t[j], t[j + layer])][j + layer := Gap(t[j], t[j + layer], z)], offset, layer, j + 1,
      z)
  {
    hide Mean, Gap;
  }

  lemma {:induction false} TwiceReduced(a: Coef, b: Coef, z: Coef)
    ensures var x: int, y: int := a, b;
      M(x + M(z * y)) == Up(a, b, z) && M(x - M(z * y)) == Down(a, b, z)
  {
    var zb: int := z * b;
    Reduce(zb);
    SameSum(a, a, M(zb), zb);
  }

  lemma {:induction false} LayerFirst(h: nat, x: nat, n: nat, s: Block)
    requires Tiled(h, n, s) && s != []
    ensures n > 0 && |s| >= 2 * Pow2(h) && Tiled(h, n - 1, s[2 * Pow2(h)..])
    ensures var b, rest := s[..2 * Pow2(h)], s[2 * Pow2(h)..];
      Layer(h, x, n, s) == Ups(b, Zeta(x)) + Downs(b, Zeta(x)) + Layer(h, x + 1, n - 1, rest)
  {
  }

  lemma NoLayer(h: nat, x: nat, n: nat, s: Block)
    requires Tiled(h, n, s) && |s| < 2 * Pow2(h)
    ensures n == 0 && s == [] && Layer(h, x, n, s) == []
  {
  }

  method ForwardLayer(cs: array<Coef>, layer: nat, start: nat, ghost h: nat, ghost n: nat) returns (zi: nat)
    requires cs.Length == N && layer == Pow2(h) && Tiled(h, n, cs[..])
    modifies cs
    ensures Tiled(h, n, old(cs[..])) && cs[..] == Layer(h, start + 1, n, old(cs[..])) && zi == start + n
  {
    hide Ups, Downs, Zeta, Layer, Tiled, Pow2;
    zi := start;
    var offset := 0;
    ghost var s: Block, left: nat := cs[..], n;
    assert s[0..] == s;
    while offset < N - layer
      invariant offset <= N && left <= n && zi == start + (n - left)
      invariant Tiled(h, left, cs[..][offset..])
      invariant cs[..][..offset] + Layer(h, zi + 1, left, cs[..][offset..]) == Layer(h, start + 1, n, s)
      decreases N - offset
    {
      ghost var t := cs[..];
      ghost var todo := t[offset..];
      LayerFirst(h, zi + 1, left, todo);
      zi := zi + 1;
      ForwardBlock(cs, offset, layer, Zeta(zi));
      ghost var b := t[offset..offset + 2 * layer];
      ghost var first := Ups(b, Zeta(zi)) + Downs(b, Zeta(zi));
      assert todo[..2 * layer] == b && todo[2 * layer..] == t[offset + 2 * layer..];
      Reassemble(t, offset, 2 * layer, first, cs[..]);
      offset := offset + 2 * layer;
      left := left - 1;
    }
    NoLayer(h, zi + 1, left, cs[..][offset..]);
    assert cs[..][..offset] == cs[..];
  }

  lemma {:induction false} Reassemble(t: Block, offset: nat, size: nat, first: Block, u: Block)
    requires offset + size <= |t| && |first| == size && u == t[..offset] + first + t[offset + size..]
    ensures u[..offset + size] == t[..offset] + first && u[offset + size..] == t[offset + size..]
  {
  }

  method Forward(cs: array<Coef>)
    requires cs.Length == N
    modifies cs
    ensures Sized(7, old(cs[..])) && cs[..] == Transform(7, 1, old(cs[..]))
  {
    hide Transform, Layer, Forest, Tiled, Pow2, InverseForest, Inverse;
    Whole(cs[..]);
    var layer, zi := 128, 0;
    ghost var h: nat, n: nat, goal := 7, 1, Transform(7, 1, cs[..]);
    Heights(7);
    while layer >= 2
      invariant h <= 7 && layer == Pow2(h) && n == Pow2(7 - h) && zi + 1 == n
      invariant Tiled(h, n, cs[..]) && Forest(h, n, n, cs[..]) == goal
      decreases layer
    {
      Heights(h);
      LayerStep(h, n, n, cs[..]);
      zi := ForwardLayer(cs, layer, zi, h, n);
      layer := layer / 2;
      h, n := h - 1, 2 * n;
    }
    Heights(h);
    ForestEnds(n, n, cs[..]);
  }

  lemma Heights(h: nat)
    requires h <= 7
    ensures Pow2(0) == 1 && Pow2(6) == 64 && Pow2(7) == 128
    ensures h > 0 ==> Pow2(h) >= 2 && Pow2(h) / 2 == Pow2(h - 1) && Pow2(7 - (h - 1)) == 2 * Pow2(7 - h)
  {
    assert Pow2(2) == 4 && Pow2(4) == 16 && Pow2(6) == 64;
  }

  lemma Whole(s: Block)
    requires |s| == N
    ensures Pow2(7) == 128 && Sized(7, s) && Tiled(7, 1, s)
    ensures Forest(7, 1, 1, s) == Transform(7, 1, s) && InverseForest(7, 1, 1, s) == Inverse(7, 1, s)
  {
    assert Pow2(7) == 128;
    assert s[..256] == s && s[256..] == [];
  }

  ghost predicate Joined(s: Block, t: Block, offset: nat, layer: nat, upto: nat, z: Coef)
    requires offset + 2 * layer <= |s| == |t| && offset <= upto <= offset + layer
  {
    && (forall k | 0 <= k < |s| && !(offset <= k < upto) && !(offset + layer <= k < upto + layer) :: t[k] == s[k])
    && (forall k | offset <= k < upto :: t[k] == Mean(s[k], s[k + layer]))
    && (forall k | offset + layer <= k < upto + layer :: t[k] == Gap(s[k - layer], s[k], z))
  }

  lemma {:induction false} JoinedBlock(s: Block, t: Block, offset: nat, layer: nat, z: Coef)
    requires offset + 2 * layer <= |s| == |t| && Joined(s, t, offset, layer, offset + layer, z)
    ensures var lo, hi := s[offset..offset + layer], s[offset + layer..offset + 2 * layer];
      t == s[..offset] + (Means(lo, hi) + Gaps(lo, hi, z)) + s[offset + 2 * layer..]
  {
    hide Mean, Gap;
    var lo, hi := s[offset..offset + layer], s[offset + layer..offset + 2 * layer];
    assert t[..offset] == s[..offset];
    assert t[offset + 2 * layer..] == s[offset + 2 * layer..];
    assert t[offset..offset + layer] == Means(lo, hi);
    assert t[offset + layer..offset + 2 * layer] == Gaps(lo, hi, z);
    hide Joined;
    InParts(t, offset, layer, s[..offset], Means(lo, hi), Gaps(lo, hi, z), s[offset + 2 * layer..]);
  }

  method BackwardBlock(cs: array<Coef>, offset: nat, layer: nat, z: Coef)
    requires offset + 2 * layer <= cs.Length
    modifies cs
    ensures var s := old(cs[..]);
      var lo, hi := s[offset..offset + layer], s[offset + layer..offset + 2 * layer];
      cs[..] == s[..offset] + (Means(lo, hi) + Gaps(lo, hi, z)) + s[offset + 2 * layer..]
  {
    hide M, Mean, Gap, Joined;
    ghost var s := cs[..];
    NotYet(s, offset, layer, z);
    for j := offset to offset + layer
      invariant Joined(s, cs[..], offset, layer, j, z)
    {
      var a: int, b: int := cs[j], cs[j + layer];
      JoinIs(cs[j], cs[j + layer], z);
      JoinedNext(s, cs[..], offset, layer, j, z);
      var t: int := M(b - a);
      ghost var before: Block := cs[..];
      cs[j] := M(INV2 * (a + b));
      cs[j + layer] := M(INV2 * z * t);
      assert cs[..] == before[j := M(INV2 * (a + b))][j + layer := M(INV2 * z * t)];
    }
    JoinedBlock(s, cs[..], offset, layer, z);
  }

  lemma JoinIs(a: Coef, b: Coef, z: Coef)
    ensures var x: int, y: int := a, b;
      M(INV2 * (x + y)) == Mean(a, b) && M(INV2 * z * M(y - x)) == Gap(a, b, z)
  {
  }

  lemma {:induction false} InverseLayerNext(h: nat, y: int, n: nat, s: Block)
    requires Tiled(h, n, s) && s != []
    ensures n > 0 && |s| >= 2 * Pow2(h) && Tiled(h, n - 1, s[2 * Pow2(h)..])
    ensures var lo, hi, rest := s[..Pow2(h)], s[Pow2(h)..2 * Pow2(h)], s[2 * Pow2(h)..];
      InverseLayer(h, y, n, s) == Means(lo, hi) + Gaps(lo, hi, Zeta(Nat(y))) + InverseLayer(h, y - 1, n - 1, rest)
  {
  }

  // One block of the layer: what is done grows by it, what is left shrinks.
  lemma {:induction false} BackwardTurn(h: nat, y: int, left: nat, t: Block, u: Block, offset: nat, layer: nat)
    requires layer == Pow2(h) && offset + 2 * layer <= |t| && Tiled(h, left, t[offset..])
    requires var lo, hi := t[offset..offset + layer], t[offset + layer..offset + 2 * layer];
      u == t[..offset] + (Means(lo, hi) + Gaps(lo, hi, Zeta(Nat(y)))) + t[offset + 2 * layer..]
    ensures left > 0 && |u| == |t| && Tiled(h, left - 1, u[offset + 2 * layer..])
    ensures u[..offset + 2 * layer] + InverseLayer(h, y - 1, left - 1, u[offset + 2 * layer..])
         == t[..offset] + InverseLayer(h, y, left, t[offset..])
  {
    hide Means, Gaps, Zeta, InverseLayer, Tiled, Pow2;
    var todo := t[offset..];
    InverseLayerNext(h, y, left, todo);
    var lo, hi := t[offset..offset + layer], t[offset + layer..offset + 2 * layer];
    assert todo[..layer] == lo && todo[layer..2 * layer] == hi && todo[2 * layer..] == t[offset + 2 * layer..];
    Reassemble(t, offset, 2 * layer, Means(lo, hi) + Gaps(lo, hi, Zeta(Nat(y))), u);
  }

  lemma RoomForBlock(h: nat, left: nat, s: Block)
    requires Tiled(h, left, s) && s != []
    ensures 2 * Pow2(h) <= |s| && left > 0
  {
  }

  lemma NoInverseLayerLeft(h: nat, y: int, n: nat, s: Block)
    requires Tiled(h, n, s) && |s| < 2 * Pow2(h)
    ensures n == 0 && s == [] && InverseLayer(h, y, n, s) == []
  {
  }

  method BackwardLayer(cs: array<Coef>, layer: nat, start: nat, ghost h: nat, ghost n: nat) returns (zi: nat)
    requires cs.Length == N && layer == Pow2(h) && Tiled(h, n, cs[..]) && 0 < n <= start
    modifies cs
    ensures Tiled(h, n, old(cs[..])) && cs[..] == InverseLayer(h, start - 1, n, old(cs[..])) && zi == start - n
  {
    hide Means, Gaps, Zeta, InverseLayer, Tiled, Pow2;
    zi := start;
    var offset := 0;
    ghost var s: Block, left: nat := cs[..], n;
    assert s[0..] == s;
    while offset < N - layer
      invariant offset <= N && left <= n && zi == start - (n - left)
      invariant Tiled(h, left, cs[..][offset..])
      invariant cs[..][..offset] + InverseLayer(h, zi - 1, left, cs[..][offset..]) == InverseLayer(h, start - 1, n, s)
      decreases N - offset
    {
      ghost var t: Block := cs[..];
      RoomForBlock(h, left, t[offset..]);
      zi := zi - 1;
      BackwardBlock(cs, offset, layer, Zeta(zi));
      BackwardTurn(h, zi, left, t, cs[..], offset, layer);
      offset := offset + 2 * layer;
      left := left - 1;
    }
    NoInverseLayerLeft(h, zi - 1, left, cs[..][offset..]);
    assert cs[..][..offset] == cs[..];
  }

  lemma MirroredStart(h: nat, n: nat)
    requires 0 < h <= 7 && n == Pow2(7 - h)
    ensures n > 0 && n + n <= 2 * Pow2(7 - h) && Mirrored(h, n) == 2 * n - 1
  {
  }

  lemma {:induction false} TiledUp(h: nat, n: nat, s: Block)
    requires Tiled(h, 2 * n, s)
    ensures Tiled(h + 1, n, s)
    decreases n
  {
    if n > 0 {
      var B := 2 * Pow2(h);
      assert s[B..][B..] == s[2 * B..];
      TiledUp(h, n - 1, s[2 * B..]);
    }
  }

  method Backward(cs: array<Coef>)
    requires cs.Length == N
    modifies cs
    ensures Sized(7, old(cs[..])) && cs[..] == Inverse(7, 1, old(cs[..]))
  {
    hide Inverse, InverseLayer, InverseForest, Tiled, Pow2, Forest, Transform, Mirrored;
    ghost var s := cs[..];
    Whole(s);
    AllTiled(s);
    var layer, zi := 2, 128;
    ghost var g: nat, n: nat := 0, 128;
    Heights(0);
    InverseForestStarts(128, 128, s);
    while layer < N
      invariant g <= 7 && layer == 2 * Pow2(g) && zi == n == Pow2(7 - g)
      invariant Tiled(g, n, s) && cs[..] == InverseForest(g, n, n, s)
      decreases N - layer
    {
      Grown(g);
      ghost var m := Pow2(7 - (g + 1));
      TiledUp(g, m, s);
      MirroredStart(g + 1, m);
      InverseLayerStep(g + 1, m, m, s);
      zi := BackwardLayer(cs, layer, zi, g + 1, m);
      layer := layer * 2;
      g, n := g + 1, m;
    }
    if g < 7 { Grown(g); }
  }

  lemma Grown(g: nat)
    requires g <= 7
    ensures g < 7 <==> 2 * Pow2(g) < 256
    ensures g < 7 ==> 2 * Pow2(g) == Pow2(g + 1) && Pow2(7 - g) == 2 * Pow2(7 - (g + 1))
  {
    Heights(7);
    if g < 7 {
      PowMonotone(g, 6);
    }
  }

  lemma {:induction false} TiledDown(h: nat, n: nat, s: Block)
    requires h > 0 && Tiled(h, n, s)
    ensures Tiled(h - 1, 2 * n, s)
    decreases n
  {
    if n > 0 {
      var B := Pow2(h);
      TiledDown(h, n - 1, s[2 * B..]);
      assert s[B..][B..] == s[2 * B..];
      assert Tiled(h - 1, 2 * n - 1, s[B..]);
    }
  }

  lemma {:induction false} AllTiled(s: Block)
    requires Tiled(7, 1, s)
    ensures Tiled(0, 128, s)
  {
    hide Tiled;
    TiledDown(7, 1, s);
    TiledDown(6, 2, s);
    TiledDown(5, 4, s);
    TiledDown(4, 8, s);
    TiledDown(3, 16, s);
    TiledDown(2, 32, s);
    TiledDown(1, 64, s);
  }

  /** The two transforms that the loops compute undo each other, in either order. */
  lemma {:induction false} RoundTrips(s: Block)
    requires |s| == N
    ensures Sized(7, s) && InLayer(7, 1)
    ensures Inverse(7, 1, Transform(7, 1, s)) == s && Transform(7, 1, Inverse(7, 1, s)) == s
  {
    hide Transform, Inverse, Pow2;
    Whole(s);
    Root();
    InverseOfTransform(7, 1, s);
    TransformOfInverse(7, 1, s);
  }

  lemma Root()
    ensures InLayer(7, 1)
  {
  }
}

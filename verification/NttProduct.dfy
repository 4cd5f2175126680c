/** What the transform is for: multiplying pairs of coefficients at the leaves is
    multiplying polynomials modulo X^256 + 1.

    Node `x` of the tree stands for arithmetic modulo X^m - Weight(x); one
    butterfly splits X^(2m) - z^2 into X^m - z and X^m + z.
 */
module NttProduct {
  import opened Prelude
  import opened Ntt

  // ---------------------------------------------------------------------
  // Products modulo X^m - w, over the integers
  // ---------------------------------------------------------------------

  // The k-th coefficient of X^i * b modulo X^m - w.
  function Shifted(b: seq<int>, w: int, i: nat, k: nat): int
    requires i < |b| && k < |b|
  {
    if i <= k then b[k - i] else w * b[|b| + k - i]
  }

  function Coefficient(a: seq<int>, b: seq<int>, w: int, k: nat, n: nat): int
    requires n <= |a| == |b| && k < |b|
  {
    if n == 0 then 0 else Coefficient(a, b, w, k, n - 1) + a[n - 1] * Shifted(b, w, n - 1, k)
  }

  /** The product of the polynomials `a` and `b` modulo X^m - w. */
  function Product(a: seq<int>, b: seq<int>, w: int): (c: seq<int>)
    requires |a| == |b|
    ensures |c| == |b|
  {
    seq(|b|, k requires 0 <= k < |b| => Coefficient(a, b, w, k, |a|))
  }

  /** The remainder of `a` modulo X^m - z, where `a` has 2m coefficients. */
  function Fold(a: seq<int>, z: int): (c: seq<int>)
    requires |a| % 2 == 0
    ensures |c| == |a| / 2
  {
    seq(|a| / 2, k requires 0 <= k < |a| / 2 => a[k] + z * a[k + |a| / 2])
  }

  lemma {:induction false} ShiftedFold(b: seq<int>, z: int, i: nat, k: nat)
    requires |b| % 2 == 0 && i < |b| / 2 && k < |b| / 2
    ensures Shifted(b, z * z, i, k) + z * Shifted(b, z * z, i, k + |b| / 2) == Shifted(Fold(b, z), z, i, k)
  {
    var m := |b| / 2;
    if i > k {
      Distribute(z, b[m + k - i], b[2 * m + k - i]);
    }
  }

  lemma {:induction false} ShiftedFoldHigh(b: seq<int>, z: int, i: nat, k: nat)
    requires |b| % 2 == 0 && i < |b| / 2 && k < |b| / 2
    ensures Shifted(b, z * z, i + |b| / 2, k) + z * Shifted(b, z * z, i + |b| / 2, k + |b| / 2)
         == z * Shifted(Fold(b, z), z, i, k)
  {
    var m := |b| / 2;
    if i <= k {
      Distribute(z, b[k - i], b[m + k - i]);
    } else {
      Distribute(z, b[m + k - i], b[2 * m + k - i]);
      DistributeTwice(z, b[m + k - i], b[2 * m + k - i]);
    }
  }

  lemma Distribute(z: int, x: int, y: int)
    ensures z * (x + z * y) == z * z * y + z * x
  {
    assert z * (x + z * y) == z * x + z * (z * y);
    assert z * (z * y) == z * z * y;
  }

  lemma DistributeTwice(z: int, x: int, y: int)
    ensures z * (z * (x + z * y)) == z * z * x + z * (z * z * y)
  {
    Distribute(z, x, y);
    assert z * (z * z * y + z * x) == z * (z * z * y) + z * (z * x);
    assert z * (z * x) == z * z * x;
  }

  lemma CoefficientNext(a: seq<int>, b: seq<int>, w: int, k: nat, n: nat)
    requires n < |a| == |b| && k < |b|
    ensures Coefficient(a, b, w, k, n + 1) == Coefficient(a, b, w, k, n) + a[n] * Shifted(b, w, n, k)
  {
  }

  // The terms at `n` and `m + n` of both coefficients, folded together.
  lemma {:induction false} TermFold(a: seq<int>, b: seq<int>, z: int, k: nat, i: nat)
    requires |a| == |b| && |b| % 2 == 0 && k < |b| / 2 && i < |b| / 2
    ensures var m, w := |b| / 2, z * z;
      a[i] * Shifted(b, w, i, k) + z * (a[i] * Shifted(b, w, i, k + m))
        + a[i + m] * Shifted(b, w, i + m, k) + z * (a[i + m] * Shifted(b, w, i + m, k + m))
      == Fold(a, z)[i] * Shifted(Fold(b, z), z, i, k)
  {
    var m, w := |b| / 2, z * z;
    ShiftedFold(b, z, i, k);
    ShiftedFoldHigh(b, z, i, k);
    assert Fold(a, z)[i] == a[i] + z * a[i + m];
    hide Shifted, Fold;
    OneTerm(a[i], a[i + m], z, Shifted(Fold(b, z), z, i, k),
            Shifted(b, w, i, k), Shifted(b, w, i, k + m), Shifted(b, w, i + m, k), Shifted(b, w, i + m, k + m));
  }

  /** Both halves of the sum, folded together term by term. */
  lemma {:induction false} CoefficientFold(a: seq<int>, b: seq<int>, z: int, k: nat, n: nat)
    requires |a| == |b| && |b| % 2 == 0 && k < |b| / 2 && n <= |b| / 2
    ensures var m, w := |b| / 2, z * z;
      Coefficient(a, b, w, k, n) + z * Coefficient(a, b, w, k + m, n)
        + (Coefficient(a, b, w, k, m + n) - Coefficient(a, b, w, k, m))
        + z * (Coefficient(a, b, w, k + m, m + n) - Coefficient(a, b, w, k + m, m))
      == Coefficient(Fold(a, z), Fold(b, z), z, k, n)
  {
    hide Shifted, Fold;
    var m, w := |b| / 2, z * z;
    if n > 0 {
      var i := n - 1;
      CoefficientFold(a, b, z, k, i);
      TermFold(a, b, z, k, i);
      hide Coefficient;
      CoefficientNext(a, b, w, k, i);
      CoefficientNext(a, b, w, k + m, i);
      CoefficientNext(a, b, w, k, m + i);
      CoefficientNext(a, b, w, k + m, m + i);
      CoefficientNext(Fold(a, z), Fold(b, z), z, k, i);
      Gather(z, Coefficient(a, b, w, k + m, i), a[i] * Shifted(b, w, i, k + m));
      Gather(z, Coefficient(a, b, w, k + m, m + i) - Coefficient(a, b, w, k + m, m),
        a[i + m] * Shifted(b, w, i + m, k + m));
    }
  }

  lemma Gather(z: int, x: int, y: int)
    ensures z * (x + y) == z * x + z * y
  {
  }

  lemma {:induction false} OneTerm(a: int, a': int, z: int, g: int, p: int, q: int, p': int, q': int)
    requires p + z * q == g && p' + z * q' == z * g
    ensures a * p + z * (a * q) + a' * p' + z * (a' * q') == (a + z * a') * g
  {
    assert z * (a * q) == a * (z * q) && z * (a' * q') == a' * (z * q');
    assert a * p + a * (z * q) == a * (p + z * q);
    assert a' * p' + a' * (z * q') == a' * (p' + z * q');
    assert (a + z * a') * g == a * g + z * a' * g;
    assert a' * (z * g) == z * a' * g;
  }

  lemma {:induction false} FoldedCoefficient(a: seq<int>, b: seq<int>, z: int, k: nat)
    requires |a| == |b| && |b| % 2 == 0 && k < |b| / 2
    ensures var m, w := |b| / 2, z * z;
      Coefficient(a, b, w, k, |b|) + z * Coefficient(a, b, w, k + m, |b|) ==
        Coefficient(Fold(a, z), Fold(b, z), z, k, m)
  {
    hide Coefficient, Fold;
    var m, w := |b| / 2, z * z;
    CoefficientFold(a, b, z, k, m);
    Gather(z, Coefficient(a, b, w, k + m, m), Coefficient(a, b, w, k + m, m + m) - Coefficient(a, b, w, k + m, m));
  }

  /** Taking remainders is multiplicative. */
  lemma {:induction false} FoldProduct(a: seq<int>, b: seq<int>, z: int)
    requires |a| == |b| && |b| % 2 == 0
    ensures Fold(Product(a, b, z * z), z) == Product(Fold(a, z), Fold(b, z), z)
  {
    hide Coefficient;
    forall k | 0 <= k < |b| / 2
      ensures Fold(Product(a, b, z * z), z)[k] == Product(Fold(a, z), Fold(b, z), z)[k]
    {
      FoldedCoefficient(a, b, z, k);
    }
  }

  // ---------------------------------------------------------------------
  // The same modulo 3329
  // ---------------------------------------------------------------------

  ghost predicate Alike(a: seq<int>, b: seq<int>) { |a| == |b| && forall k | 0 <= k < |a| :: Same(a[k], b[k]) }

  function Reduced(a: seq<int>): (c: Block)
    ensures |c| == |a|
  {
    seq(|a|, k requires 0 <= k < |a| => M(a[k]))
  }

  lemma {:induction false} ShiftedAlike(b: seq<int>, b': seq<int>, w: int, w': int, i: nat, k: nat)
    requires Alike(b, b') && Same(w, w') && i < |b| && k < |b|
    ensures Same(Shifted(b, w, i, k), Shifted(b', w', i, k))
  {
    hide M;
    if i > k { SameProduct(w, w', b[|b| + k - i], b'[|b| + k - i]); }
  }

  lemma {:induction false} CoefficientAlike(a: seq<int>, a': seq<int>, b: seq<int>, b': seq<int>, w: int, w': int,
                                            k: nat, n: nat)
    requires Alike(a, a') && Alike(b, b') && |a| == |b| && Same(w, w') && k < |b| && n <= |a|
    ensures Same(Coefficient(a, b, w, k, n), Coefficient(a', b', w', k, n))
  {
    hide M, Shifted;
    if n > 0 {
      CoefficientAlike(a, a', b, b', w, w', k, n - 1);
      ShiftedAlike(b, b', w, w', n - 1, k);
      SameProduct(a[n - 1], a'[n - 1], Shifted(b, w, n - 1, k), Shifted(b', w', n - 1, k));
      SameSum(Coefficient(a, b, w, k, n - 1), Coefficient(a', b', w', k, n - 1),
              a[n - 1] * Shifted(b, w, n - 1, k), a'[n - 1] * Shifted(b', w', n - 1, k));
    }
  }

  lemma {:induction false} ProductAlike(a: seq<int>, a': seq<int>, b: seq<int>, b': seq<int>, w: int, w': int)
    requires Alike(a, a') && Alike(b, b') && |a| == |b| && Same(w, w')
    ensures Alike(Product(a, b, w), Product(a', b', w'))
  {
    hide Coefficient, M;
    forall k | 0 <= k < |b| ensures Same(Product(a, b, w)[k], Product(a', b', w')[k]) {
      CoefficientAlike(a, a', b, b', w, w', k, |a|);
    }
  }

  lemma {:induction false} FoldAlike(a: seq<int>, a': seq<int>, z: int, z': int)
    requires Alike(a, a') && Same(z, z') && |a| % 2 == 0
    ensures Alike(Fold(a, z), Fold(a', z'))
  {
    hide M;
    var m := |a| / 2;
    forall k | 0 <= k < m ensures Same(Fold(a, z)[k], Fold(a', z')[k]) {
      SameProduct(z, z', a[k + m], a'[k + m]);
      SameSum(a[k], a'[k], z * a[k + m], z' * a'[k + m]);
    }
  }

  lemma {:induction false} AlikeReduced(a: seq<int>, b: seq<int>)
    ensures Alike(a, Reduced(a))
    ensures Alike(a, b) ==> Reduced(a) == Reduced(b)
  {
    forall k | 0 <= k < |a| ensures Same(a[k], Reduced(a)[k]) { Reduce(a[k]); }
    hide M;
  }

  // ---------------------------------------------------------------------
  // The tree of moduli
  // ---------------------------------------------------------------------

  function Neg(x: int): int { -x }

  /** Node `x` works modulo X^m - Weight(x). */
  function Weight(x: nat): int {
    if x <= 1 then -1 else if x % 2 == 0 then Zeta(x / 2) else Neg(Zeta(x / 2))
  }

  lemma {:induction false} ReversedWide(y: nat, bits: nat)
    requires y < Pow2(bits)
    ensures Reversed(y, bits + 1) == 2 * Reversed(y, bits)
  {
    if bits > 0 {
      ReversedWide(y / 2, bits - 1);
      if y % 2 == 1 {} else {}
    }
  }

  lemma ReversedOf(x: nat)
    ensures Reversed(x, 7) == (x % 2) * 64 + Reversed(x / 2, 6)
  {
    assert Pow2(6) == 64;
  }

  lemma {:induction false} ReversedChild(y: nat)
    requires y < 64
    ensures 2 * Reversed(2 * y, 7) == Reversed(y, 7)
    ensures 2 * Reversed(2 * y + 1, 7) == Reversed(y, 7) + 128
  {
    assert Pow2(6) == 64;
    ReversedWide(y, 6);
    ReversedOf(2 * y);
    ReversedOf(2 * y + 1);
    hide Reversed;
    assert (2 * y) / 2 == y && (2 * y + 1) / 2 == y;
  }

  lemma {:induction false} Negated(e: nat)
    ensures Same(Power(e + 128), Neg(Power(e)))
  {
    hide Power, M;
    PowerSum(e, 128);
    HalfTurn();
    Reduce(Power(e) * 3328);
    Shift(Neg(Power(e)), Power(e));
  }

  lemma {:induction false} RootReversed()
    ensures Reversed(1, 7) == 64
  {
    ReversedZero(6);
    ReversedOf(1);
  }

  /** The factor of a node is a square root of its weight. */
  lemma {:induction false} ZetaSquared(x: nat)
    requires 1 <= x < 128
    ensures Same(Zeta(x) * Zeta(x), Weight(x))
  {
    hide Power, Reversed, M, Neg;
    var e := Reversed(x, 7);
    PowerSum(e, e);
    Reduce(Power(e) * Power(e));
    if x == 1 {
      RootReversed();
      HalfTurn();
      MinusOne(Power(128) as int);
    } else {
      ReversedChild(x / 2);
      if x % 2 == 0 {
        assert 2 * (x / 2) == x;
        Small(Zeta(x / 2));
      } else {
        assert 2 * (x / 2) + 1 == x;
        Negated(Reversed(x / 2, 7));
      }
    }
  }

  lemma {:induction false} UpsFold(c: Block, z: Coef)
    requires |c| % 2 == 0
    ensures Ups(c, z) == Reduced(Fold(c, z)) && Downs(c, z) == Reduced(Fold(c, Neg(z)))
  {
    hide M;
    var m := |c| / 2;
    forall k | 0 <= k < m ensures Down(c[k], c[k + m], z) == M(Fold(c, Neg(z))[k]) {
      NegTimes(z, c[k + m]);
    }
  }

  lemma NegTimes(z: int, y: int)
    ensures Neg(z) * y == -(z * y) && Neg(z) * Neg(z) == z * z
  {
  }

  /** One butterfly of a product is the product of the butterflies. */
  lemma {:induction false} ButterflyProduct(a: Block, b: Block, w: int, z: int)
    requires |a| == |b| && |b| % 2 == 0 && Same(w, z * z)
    ensures Reduced(Fold(Reduced(Product(a, b, w)), z)) == Reduced(Product(Reduced(Fold(a, z)), Reduced(Fold(b, z)), z))
  {
    hide M, Product, Fold, Reduced;
    var p, q: seq<int> := Product(a, b, w), Product(a, b, z * z);
    AlikeSelf(a);
    AlikeSelf(b);
    AlikeReduced(p, p);
    ProductAlike(a, a, b, b, w, z * z);
    AlikeChain(p, q, Reduced(p));
    FoldAlike(q, Reduced(p), z, z);
    FoldProduct(a, b, z);
    AlikeReduced(Fold(q, z), Fold(Reduced(p), z));
    AlikeReduced(Fold(a, z), Fold(a, z));
    AlikeReduced(Fold(b, z), Fold(b, z));
    ProductAlike(Fold(a, z), Reduced(Fold(a, z)), Fold(b, z), Reduced(Fold(b, z)), z, z);
    AlikeReduced(Product(Fold(a, z), Fold(b, z), z), Product(Reduced(Fold(a, z)), Reduced(Fold(b, z)), z));
  }

  lemma AlikeSelf(a: seq<int>)
    ensures Alike(a, a)
  {
  }

  lemma AlikeChain(p: seq<int>, q: seq<int>, r: seq<int>)
    requires Alike(p, q) && Alike(p, r)
    ensures Alike(q, r)
  {
  }

  /** Leaf by leaf multiplication of two transformed blocks. */
  ghost function Pairwise(h: nat, x: nat, c: Block, d: Block): (p: Block)
    requires Sized(h, c) && Sized(h, d)
    ensures Sized(h, p)
  {
    if h == 0 then Reduced(Product(c, d, Weight(x)))
    else
      var m := Pow2(h);
      Pairwise(h - 1, 2 * x, c[..m], d[..m]) + Pairwise(h - 1, 2 * x + 1, c[m..], d[m..])
  }

  lemma PairwiseStep(h: nat, x: nat, c: Block, c': Block, d: Block, d': Block)
    requires h > 0 && Sized(h - 1, c) && Sized(h - 1, c') && Sized(h - 1, d) && Sized(h - 1, d')
    ensures Sized(h, c + c') && Sized(h, d + d')
    ensures Pairwise(h, x, c + c', d + d') == Pairwise(h - 1, 2 * x, c, d) + Pairwise(h - 1, 2 * x + 1, c', d')
  {
    var m := Pow2(h);
    assert (c + c')[..m] == c && (c + c')[m..] == c' && (d + d')[..m] == d && (d + d')[m..] == d';
  }

  lemma {:induction false} SplitUps(a: Block, b: Block, w: int, z: Coef)
    requires |a| == |b| && |b| % 2 == 0 && Same(w, z as int * z as int)
    ensures Ups(Reduced(Product(a, b, w)), z) == Reduced(Product(Ups(a, z), Ups(b, z), z))
    ensures Downs(Reduced(Product(a, b, w)), z) == Reduced(Product(Downs(a, z), Downs(b, z), Neg(z)))
  {
    hide M, Ups, Downs, Product, Fold, Reduced, Neg;
    UpsFold(a, z);
    UpsFold(b, z);
    UpsFold(Reduced(Product(a, b, w)), z);
    ButterflyProduct(a, b, w, z);
    NegTimes(z, z);
    ButterflyProduct(a, b, w, Neg(z));
  }

  lemma {:induction false} SplitProduct(x: nat, a: Block, b: Block)
    requires 1 <= x < 128 && |a| == |b| && |b| % 2 == 0
    ensures var p, z := Reduced(Product(a, b, Weight(x))), Zeta(x);
      && Ups(p, z) == Reduced(Product(Ups(a, z), Ups(b, z), Weight(2 * x)))
      && Downs(p, z) == Reduced(Product(Downs(a, z), Downs(b, z), Weight(2 * x + 1)))
  {
    hide Zeta, M, Ups, Downs, Product, Fold, Reduced;
    ZetaSquared(x);
    SplitUps(a, b, Weight(x), Zeta(x));
    assert (2 * x) / 2 == x && (2 * x + 1) / 2 == x;
  }

  /** The transform of a product is the pairwise product of the transforms. */
  lemma {:induction false} TransformProduct(h: nat, x: nat, a: Block, b: Block)
    requires InLayer(h, x) && Sized(h, a) && Sized(h, b)
    ensures Transform(h, x, Reduced(Product(a, b, Weight(x)))) == Pairwise(h, x, Transform(h, x, a), Transform(h, x, b))
  {
    hide Ups, Downs, Zeta, Transform, Pow2, M, Product, Reduced, Weight, Pairwise;
    if h == 0 {
      Leaf(x, a);
      Leaf(x, b);
      Leaf(x, Reduced(Product(a, b, Weight(x))));
      PairwiseLeaf(x, a, b);
    } else {
      var p, z := Reduced(Product(a, b, Weight(x))), Zeta(x);
      Children(h, x);
      NodeRange(h, x);
      TransformStep(h, x, a);
      TransformStep(h, x, b);
      TransformStep(h, x, p);
      SplitProduct(x, a, b);
      TransformProduct(h - 1, 2 * x, Ups(a, z), Ups(b, z));
      TransformProduct(h - 1, 2 * x + 1, Downs(a, z), Downs(b, z));
      PairwiseStep(h, x, Transform(h - 1, 2 * x, Ups(a, z)), Transform(h - 1, 2 * x + 1, Downs(a, z)),
                   Transform(h - 1, 2 * x, Ups(b, z)), Transform(h - 1, 2 * x + 1, Downs(b, z)));
    }
  }

  lemma PairwiseLeaf(x: nat, a: Block, b: Block)
    requires Sized(0, a) && Sized(0, b)
    ensures Pairwise(0, x, a, b) == Reduced(Product(a, b, Weight(x)))
  {
  }

  lemma NodeRange(h: nat, x: nat)
    requires 0 < h && InLayer(h, x)
    ensures 1 <= x < 128
  {
    assert Pow2(7) == 128;
    PowMonotone(7 - h, 6);
  }

  /** Multiplication modulo X^256 + 1 and 3329. */
  function Negacyclic(f: Block, g: Block): (c: Block)
    requires |f| == |g|
    ensures |c| == |g|
  {
    Reduced(Product(f, g, -1))
  }

  /** Transform, multiply pairwise, transform back: the product of polynomials. */
  lemma {:induction false} MultiplicationTheorem(f: Block, g: Block)
    requires |f| == |g| == N
    ensures Sized(7, f) && Sized(7, g)
    ensures Inverse(7, 1, Pairwise(7, 1, Transform(7, 1, f), Transform(7, 1, g))) == Negacyclic(f, g)
  {
    hide Transform, Inverse, Pairwise, Product, Reduced;
    assert Pow2(7) == 128;
    TransformProduct(7, 1, f, g);
    InverseOfTransform(7, 1, Negacyclic(f, g));
  }

  // ---------------------------------------------------------------------
  // The loop over pairs
  // ---------------------------------------------------------------------

  // Leaves from node `x` on, `n` of them.
  ghost function Leaves(x: nat, n: nat, c: Block, d: Block): (p: Block)
    requires |c| == |d| == 2 * n
    ensures |p| == 2 * n
    decreases n
  {
    if n == 0 then [] else Reduced(Product(c[..2], d[..2], Weight(x))) + Leaves(x + 1, n - 1, c[2..], d[2..])
  }

  lemma {:induction false} LeavesConcat(x: nat, n: nat, n': nat, c: Block, c': Block, d: Block, d': Block)
    requires |c| == |d| == 2 * n && |c'| == |d'| == 2 * n'
    ensures Leaves(x, n + n', c + c', d + d') == Leaves(x, n, c, d) + Leaves(x + n, n', c', d')
    decreases n
  {
    hide Product, Reduced, Weight;
    if n == 0 {
      assert c + c' == c' && d + d' == d';
    } else {
      LeavesConcat(x + 1, n - 1, n', c[2..], c', d[2..], d');
      assert (c + c')[..2] == c[..2] && (c + c')[2..] == c[2..] + c';
      assert (d + d')[..2] == d[..2] && (d + d')[2..] == d[2..] + d';
    }
  }

  /** The pairwise product runs over the leaves from left to right. */
  lemma {:induction false} PairwiseIsLeaves(h: nat, x: nat, c: Block, d: Block)
    requires Sized(h, c) && Sized(h, d)
    ensures Pairwise(h, x, c, d) == Leaves(x * Pow2(h), Pow2(h), c, d)
  {
    hide Product, Reduced, Weight;
    if h == 0 {
      assert x * Pow2(0) == x;
      assert c[..2] == c && d[..2] == d && c[2..] == [] && d[2..] == [];
      assert Leaves(x + 1, 0, [], []) == [];
    } else {
      var m := Pow2(h);
      PairwiseIsLeaves(h - 1, 2 * x, c[..m], d[..m]);
      PairwiseIsLeaves(h - 1, 2 * x + 1, c[m..], d[m..]);
      LeafNumbers(h, x);
      LeavesConcat(x * m, Pow2(h - 1), Pow2(h - 1), c[..m], c[m..], d[..m], d[m..]);
      assert c[..m] + c[m..] == c && d[..m] + d[m..] == d;
    }
  }

  lemma LeafNumbers(h: nat, x: nat)
    requires h > 0
    ensures Pow2(h) == Pow2(h - 1) + Pow2(h - 1)
    ensures 2 * x * Pow2(h - 1) == x * Pow2(h) && (2 * x + 1) * Pow2(h - 1) == x * Pow2(h) + Pow2(h - 1)
  {
    var p := Pow2(h - 1);
    assert 2 * x * p == x * (2 * p) && (2 * x + 1) * p == 2 * x * p + p;
  }

  lemma {:induction false} ReversedTop(b: nat, k: nat)
    requires b < Pow2(k)
    ensures Reversed(Pow2(k) + b, k + 1) == Reversed(b, k + 1) + 1
  {
    if k > 0 {
      ReversedTop(b / 2, k - 1);
      assert (Pow2(k) + b) % 2 == b % 2 && (Pow2(k) + b) / 2 == Pow2(k - 1) + b / 2;
    }
  }

  /** The script's power for the i-th pair is the weight of the i-th leaf. */
  lemma {:induction false} LeafWeight(i: nat)
    requires i < 128
    ensures Same(Power(2 * Reversed(i, 7) + 1), Weight(128 + i))
  {
    hide Power, M, Reversed;
    var b := i / 2;
    assert Pow2(6) == 64;
    ReversedTop(b, 6);
    ReversedChild(b);
    if i % 2 == 0 {
      assert i == 2 * b && (128 + i) / 2 == 64 + b;
    } else {
      assert i == 2 * b + 1 && (128 + i) / 2 == 64 + b;
      Negated(Reversed(b, 7) + 1);
    }
  }

  lemma {:induction false} PairProduct(c: Block, d: Block, w: int)
    requires |c| == |d| == 2
    ensures Product(c, d, w) == [c[0] as int * d[0] as int + c[1] as int * (w * d[1] as int),
                                 c[0] as int * d[1] as int + c[1] as int * d[0] as int]
  {
    assert Coefficient(c, d, w, 0, 0) == 0 && Coefficient(c, d, w, 1, 0) == 0;
    assert Coefficient(c, d, w, 0, 1) == c[0] as int * d[0] as int &&
      Coefficient(c, d, w, 1, 1) == c[0] as int * d[1] as int;
  }

  lemma {:induction false} OnePair(c: Block, d: Block, z: Coef, w: int)
    requires |c| == |d| == 2 && Same(z, w)
    ensures var a1: int, a2: int, b1: int, b2: int := c[0], c[1], d[0], d[1];
      [M(a1 * b1 + z * a2 * b2), M(a2 * b1 + a1 * b2)] == Reduced(Product(c, d, w))
  {
    var a1: int, a2: int, b1: int, b2: int := c[0], c[1], d[0], d[1];
    PairProduct(c, d, w);
    hide M, Product;
    SameProduct(z, w, a2 * b2, a2 * b2);
    SameSum(a1 * b1, a1 * b1, z * (a2 * b2), w * (a2 * b2));
    assert z * a2 * b2 == z * (a2 * b2) && a2 * (w * b2) == w * (a2 * b2);
  }

  // The pair that the loop computes at index `i`.
  function MulPair(c: Block, d: Block, i: nat): Block
    requires |c| == |d| == N && i < 128
  {
    var a1: int, a2: int, b1: int, b2: int := c[2 * i], c[2 * i + 1], d[2 * i], d[2 * i + 1];
    var z := Power(2 * Reversed(i, 7) + 1);
    [M(a1 * b1 + z * a2 * b2), M(a2 * b1 + a1 * b2)]
  }

  lemma {:induction false} PairIsLeaf(c: Block, d: Block, i: nat)
    requires |c| == |d| == N && i < 128
    ensures Leaves(128 + i, 128 - i, c[2 * i..], d[2 * i..])
         == MulPair(c, d, i) + Leaves(129 + i, 127 - i, c[2 * i + 2..], d[2 * i + 2..])
  {
    hide Leaves, Product, Reduced, Weight, Power, M, Reversed;
    LeafWeight(i);
    OnePair(c[2 * i..2 * i + 2], d[2 * i..2 * i + 2], Power(2 * Reversed(i, 7) + 1), Weight(128 + i));
    NextLeaf(128 + i, 128 - i, c[2 * i..], d[2 * i..]);
    assert c[2 * i..][..2] == c[2 * i..2 * i + 2] && c[2 * i..][2..] == c[2 * i + 2..];
    assert d[2 * i..][..2] == d[2 * i..2 * i + 2] && d[2 * i..][2..] == d[2 * i + 2..];
  }

  /** Multiplying two transformed polynomials. */
  method MulNtt(c: Block, d: Block) returns (p: Block)
    requires |c| == |d| == N
    ensures Sized(7, c) && Sized(7, d) && p == Pairwise(7, 1, c, d)
  {
    hide Leaves, Product, Reduced, Weight, Power, M, Pairwise, Reversed;
    p := [];
    assert c[0..] == c && d[0..] == d;
    for i := 0 to 128
      invariant |p| == 2 * i
      invariant p + Leaves(128 + i, 128 - i, c[2 * i..], d[2 * i..]) == Leaves(128, 128, c, d)
    {
      var a1: int, a2: int, b1: int, b2: int := c[2 * i], c[2 * i + 1], d[2 * i], d[2 * i + 1];
      var z := Power(2 * Reversed(i, 7) + 1);
      PairIsLeaf(c, d, i);
      p := p + [M(a1 * b1 + z * a2 * b2), M(a2 * b1 + a1 * b2)];
    }
    NoLeaves(256, c[256..], d[256..]);
    assert Pow2(7) == 128;
    PairwiseIsLeaves(7, 1, c, d);
  }

  lemma NextLeaf(x: nat, n: nat, c: Block, d: Block)
    requires n > 0 && |c| == |d| == 2 * n
    ensures Leaves(x, n, c, d) == Reduced(Product(c[..2], d[..2], Weight(x))) + Leaves(x + 1, n - 1, c[2..], d[2..])
  {
  }

  lemma NoLeaves(x: nat, c: Block, d: Block)
    requires c == [] && d == []
    ensures Leaves(x, 0, c, d) == []
  {
  }
}

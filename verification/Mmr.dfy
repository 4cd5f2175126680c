/** The changelog commitment: an append-only Merkle log kept as a list of peaks.

    Digests are terms of a free algebra, so `HLeaf`, `HInit` and `HNode` are
    injective and never confused with each other.  `TreeHash` is the Merkle Tree
    Hash of section 2.1 of RFC 6962 and is the reference for everything here.
 */
module Mmr {
  import opened Prelude

  // Leaf entries are `E`; the initial leaf carries a data commitment `D`.
  datatype Digest<E, D> =
    | HLeaf(entry: E)
    | HInit(dc: D)
    | HNode(left: Digest<E, D>, right: Digest<E, D>)

  const MAX_INCLUSION_PROOF_SIBLINGS := 32
  const TREE_SIZE_LIMIT := 0x1_0000_0000

  // The largest power of two below `n`.
  function SplitPoint(n: nat): (k: nat)
    requires n >= 2
    ensures 0 < k < n <= 2 * k
  {
    if n == 2 then 1 else 2 * SplitPoint((n + 1) / 2)
  }

  function TreeHash<E, D>(leaves: seq<Digest<E, D>>): Digest<E, D>
    requires leaves != []
  {
    if |leaves| == 1 then leaves[0]
    else
      var k := SplitPoint(|leaves|);
      HNode(TreeHash(leaves[..k]), TreeHash(leaves[k..]))
  }

  // ---------------------------------------------------------------------
  // The writer
  // ---------------------------------------------------------------------

  datatype TreeHead<E, D> = TreeHead(root: Digest<E, D>, treeSize: nat, peaks: seq<Digest<E, D>>)

  /** Fold the peaks, shortest first, into one root. */
  method FoldPeaks<E, D>(peaks: seq<Digest<E, D>>) returns (root: Digest<E, D>)
    requires peaks != []
    ensures root == Fold(peaks)
  {
    var i := |peaks| - 1;
    root := peaks[i];
    while i > 0
      invariant 0 <= i < |peaks|
      invariant root == Fold(peaks[i..])
    {
      i := i - 1;
      root := HNode(peaks[i], root);
      assert peaks[i..][1..] == peaks[i + 1..];
    }
    assert peaks[0..] == peaks;
  }

  function Fold<E, D>(peaks: seq<Digest<E, D>>): Digest<E, D>
    requires peaks != []
  {
    if |peaks| == 1 then peaks[0] else HNode(peaks[0], Fold(peaks[1..]))
  }

  // Level by level: an odd leaf out becomes a peak, the rest pair up.
  function Pairs<E, D>(leaves: seq<Digest<E, D>>): (r: seq<Digest<E, D>>)
    requires |leaves| % 2 == 0
    ensures |r| == |leaves| / 2
  {
    seq(|leaves| / 2, i requires 0 <= i < |leaves| / 2 => HNode(leaves[2 * i], leaves[2 * i + 1]))
  }

  function Peaks<E, D>(leaves: seq<Digest<E, D>>): (r: seq<Digest<E, D>>)
    decreases |leaves|
  {
    var n := |leaves|;
    if n == 0 then []
    else if n % 2 == 0 then Peaks(Pairs(leaves))
    else Peaks(Pairs(leaves[..n - 1])) + [leaves[n - 1]]
  }

  // The number of one bits, which is the number of peaks.
  function PopCount(n: nat): nat {
    if n == 0 then 0 else n % 2 + PopCount(n / 2)
  }

  function PushPeak<E, D>(peaks: seq<Digest<E, D>>, k: nat, carry: Digest<E, D>): seq<Digest<E, D>>
    requires |peaks| == PopCount(k)
    decreases k
  {
    if k % 2 == 0 then peaks + [carry]
    else PushPeak(peaks[..|peaks| - 1], k / 2, HNode(peaks[|peaks| - 1], carry))
  }

  /** Append one leaf hash: merge it with the trailing peaks of equal height. */
  method AppendHash<E, D>(peaks: seq<Digest<E, D>>, treeSize: nat, leaf: Digest<E, D>)
    returns (peaks': seq<Digest<E, D>>)
    requires |peaks| == PopCount(treeSize)
    ensures peaks' == PushPeak(peaks, treeSize, leaf)
  {
    peaks' := peaks;
    var carry, k := leaf, treeSize;
    while k % 2 == 1
      invariant |peaks'| == PopCount(k)
      invariant PushPeak(peaks, treeSize, leaf) == PushPeak(peaks', k, carry)
      decreases k
    {
      carry := HNode(peaks'[|peaks'| - 1], carry);
      peaks' := peaks'[..|peaks'| - 1];
      k := k / 2;
    }
    peaks' := peaks' + [carry];
  }

  lemma {:induction false} PeaksCount<E, D>(leaves: seq<Digest<E, D>>)
    ensures |Peaks(leaves)| == PopCount(|leaves|)
    decreases |leaves|
  {
    var n := |leaves|;
    if n > 0 { PeaksCount(Pairs(if n % 2 == 0 then leaves else leaves[..n - 1])); }
  }

  /** The carry loop computes the peaks of the extended log. */
  lemma {:induction false} PushPeakExtends<E, D>(leaves: seq<Digest<E, D>>, leaf: Digest<E, D>)
    ensures |Peaks(leaves)| == PopCount(|leaves|)
    ensures PushPeak(Peaks(leaves), |leaves|, leaf) == Peaks(leaves + [leaf])
    decreases |leaves|
  {
    hide Peaks, Pairs;
    PeaksCount(leaves);
    var n := |leaves|;
    PeaksUnfold(leaves);
    PeaksUnfold(leaves + [leaf]);
    if n % 2 == 0 {
      assert (leaves + [leaf])[..n] == leaves;
    } else {
      var rest, top := Pairs(leaves[..n - 1]), HNode(leaves[n - 1], leaf);
      PairsCarry(leaves, leaf);
      PushPeakExtends(rest, top);
      assert Peaks(leaves)[..|Peaks(leaves)| - 1] == Peaks(rest);
    }
  }

  lemma {:induction false} PairsCarry<E, D>(level: seq<Digest<E, D>>, carry: Digest<E, D>)
    requires |level| % 2 == 1
    ensures var n := |level|;
      Pairs(level + [carry]) == Pairs(level[..n - 1]) + [HNode(level[n - 1], carry)]
  {
    var n, m := |level|, |level| / 2;
    assert n == 2 * m + 1;
    var all, rest := Pairs(level + [carry]), Pairs(level[..n - 1]);
    assert |all| == m + 1 && |rest| == m;
    forall i | 0 <= i < m ensures all[i] == rest[i] {
      assert 2 * i + 1 < n - 1;
    }
  }

  lemma {:induction false} PeaksUnfold<E, D>(leaves: seq<Digest<E, D>>)
    ensures var n := |leaves|;
      Peaks(leaves) == if n % 2 == 0 then Peaks(Pairs(leaves)) else Peaks(Pairs(leaves[..n - 1])) + [leaves[n - 1]]
  {
    assert |leaves| == 0 ==> |Pairs(leaves)| == 0;
  }

  lemma {:induction false} PairsSplit<E, D>(leaves: seq<Digest<E, D>>, k: nat)
    requires |leaves| % 2 == 0 && 2 * k <= |leaves|
    ensures Pairs(leaves)[..k] == Pairs(leaves[..2 * k])
    ensures Pairs(leaves)[k..] == Pairs(leaves[2 * k..])
  {
  }

  /** Pairing up the leaves of an even level does not change the root. */
  lemma {:induction false} TreeHashPairs<E, D>(leaves: seq<Digest<E, D>>)
    requires |leaves| >= 2 && |leaves| % 2 == 0
    ensures TreeHash(leaves) == TreeHash(Pairs(leaves))
    decreases |leaves|
  {
    if |leaves| > 2 {
      var k := SplitPoint(|leaves| / 2);
      assert (|leaves| + 1) / 2 == |leaves| / 2;
      PairsSplit(leaves, k);
      TreeHashPairs(leaves[..2 * k]);
      TreeHashPairs(leaves[2 * k..]);
    }
  }

  predicate PowerOfTwo(n: nat) { n == 1 || (n > 0 && n % 2 == 0 && PowerOfTwo(n / 2)) }

  /** The tallest peak covers the largest power of two of leaves, the others the rest. */
  lemma {:induction false} PeaksSplit<E, D>(leaves: seq<Digest<E, D>>, k: nat)
    requires PowerOfTwo(k) && k <= |leaves| < 2 * k
    ensures Peaks(leaves) == [TreeHash(leaves[..k])] + Peaks(leaves[k..])
    decreases k
  {
    hide Peaks, Pairs, TreeHash;
    var n := |leaves|;
    PeaksUnfold(leaves);
    PeaksUnfold(leaves[k..]);
    if k == 1 {
      PeaksOfOne(leaves[0]);
      assert leaves == [leaves[0]] == leaves[..1] && leaves[1..] == [];
    } else {
      var even := if n % 2 == 0 then leaves else leaves[..n - 1];
      PairsSplit(even, k / 2);
      PeaksSplit(Pairs(even), k / 2);
      TreeHashPairs(leaves[..k]);
      assert even[..k] == leaves[..k];
      assert n % 2 == 1 ==> leaves[k..][..n - k - 1] == even[k..];
    }
  }

  lemma {:induction false} PeaksOfOne<E, D>(leaf: Digest<E, D>)
    ensures Peaks<E, D>([]) == [] && Peaks([leaf]) == [leaf] && TreeHash([leaf]) == leaf
  {
    assert |Pairs([leaf][..0])| == 0;
  }

  lemma {:induction false} SplitPointIsPower(n: nat)
    requires n >= 2
    ensures PowerOfTwo(SplitPoint(n))
  {
    if n > 2 { SplitPointIsPower((n + 1) / 2); }
  }

  /** The peaks fold into the Merkle Tree Hash of all leaves. */
  lemma {:induction false} FoldIsTreeHash<E, D>(leaves: seq<Digest<E, D>>)
    requires leaves != []
    ensures Peaks(leaves) != [] && Fold(Peaks(leaves)) == TreeHash(leaves)
    decreases |leaves|
  {
    var n := |leaves|;
    if PowerOfTwo(n) {
      PeaksSplit(leaves, n);
      assert leaves[..n] == leaves && leaves[n..] == [];
    } else {
      var k := SplitPoint(n);
      SplitPointIsPower(n);
      PeaksSplit(leaves, k);
      FoldIsTreeHash(leaves[k..]);
    }
  }

  // ---------------------------------------------------------------------
  // Heads and the logs they stand for
  // ---------------------------------------------------------------------

  predicate PeaksMatch<E, D>(head: TreeHead<E, D>) { |head.peaks| == PopCount(head.treeSize) }

  predicate WellFormed<E(==), D(==)>(head: TreeHead<E, D>) {
    head.treeSize > 0 && PeaksMatch(head) && head.peaks != [] && Fold(head.peaks) == head.root
  }

  function HeadOf<E, D>(leaves: seq<Digest<E, D>>): TreeHead<E, D>
    requires leaves != []
  {
    TreeHead(TreeHash(leaves), |leaves|, Peaks(leaves))
  }

  function Append<E, D>(head: TreeHead<E, D>, leaf: Digest<E, D>): TreeHead<E, D>
    requires PeaksMatch(head)
  {
    var peaks := PushPeak(head.peaks, head.treeSize, leaf);
    PushPeakCount(head.peaks, head.treeSize, leaf);
    TreeHead(Fold(peaks), head.treeSize + 1, peaks)
  }

  lemma {:induction false} PushPeakCount<E, D>(peaks: seq<Digest<E, D>>, k: nat, carry: Digest<E, D>)
    requires |peaks| == PopCount(k)
    ensures |PushPeak(peaks, k, carry)| == PopCount(k + 1) > 0
    decreases k
  {
    if k % 2 == 1 { PushPeakCount(peaks[..|peaks| - 1], k / 2, HNode(peaks[|peaks| - 1], carry)); }
  }

  /** Appending to the head of a log gives the head of the longer log. */
  lemma {:induction false} AppendExtends<E, D>(leaves: seq<Digest<E, D>>, leaf: Digest<E, D>)
    requires leaves != []
    ensures WellFormed(HeadOf(leaves))
    ensures Append(HeadOf(leaves), leaf) == HeadOf(leaves + [leaf])
  {
    PushPeakExtends(leaves, leaf);
    FoldIsTreeHash(leaves);
    FoldIsTreeHash(leaves + [leaf]);
    hide Peaks, Fold, TreeHash, PopCount, PushPeak;
  }

  /** A head commits to its whole log. */
  lemma {:induction false} HeadBinds<E, D>(a: seq<Digest<E, D>>, b: seq<Digest<E, D>>)
    requires a != [] && |a| == |b| && TreeHash(a) == TreeHash(b)
    ensures a == b
    decreases |a|
  {
    if |a| > 1 {
      var k := SplitPoint(|a|);
      HeadBinds(a[..k], b[..k]);
      HeadBinds(a[k..], b[k..]);
      assert a == a[..k] + a[k..] && b == b[..k] + b[k..];
    }
  }

  // ---------------------------------------------------------------------
  // Inclusion proofs
  // ---------------------------------------------------------------------

  datatype InclusionProof<E, D> = InclusionProof(i: nat, treeSize: nat, siblings: seq<Digest<E, D>>)

  // At each level from the root down: does leaf `i` lie on the left?
  function Directions(n: nat, i: nat): seq<bool>
    requires i < n
  {
    if n == 1 then []
    else
      var k := SplitPoint(n);
      if i < k then [true] + Directions(k, i) else [false] + Directions(n - k, i - k)
  }

  lemma DirectionsStep(n: nat, i: nat)
    requires 1 < n && i < n
    ensures 0 < SplitPoint(n) < n
    ensures Directions(n, i) == if i < SplitPoint(n) then [true] + Directions(SplitPoint(n), i)
                                else [false] + Directions(n - SplitPoint(n), i - SplitPoint(n))
  {
  }

  lemma {:induction false} TreeSizeLimit()
    ensures Pow2(MAX_INCLUSION_PROOF_SIBLINGS) == TREE_SIZE_LIMIT
  {
    assert Pow2(2) == 4;
    assert Pow2(4) == 16;
    assert Pow2(6) == 64;
    assert Pow2(8) == 256;
    assert Pow2(10) == 1024;
    assert Pow2(12) == 4096;
    assert Pow2(14) == 16384;
    assert Pow2(16) == 65536;
    assert Pow2(18) == 262144;
    assert Pow2(20) == 1048576;
    assert Pow2(22) == 4194304;
    assert Pow2(24) == 16777216;
    assert Pow2(26) == 67108864;
    assert Pow2(28) == 268435456;
    assert Pow2(30) == 1073741824;
    assert Pow2(32) == 4294967296;
  }

  lemma {:induction false} DirectionsShort(n: nat, i: nat, d: nat)
    requires i < n <= Pow2(d)
    ensures |Directions(n, i)| <= d
    decreases n
  {
    if n > 1 {
      var k := SplitPoint(n);
      SplitPointHalf(n, d);
      if i < k { DirectionsShort(k, i, d - 1); } else { DirectionsShort(n - k, i - k, d - 1); }
    }
  }

  lemma {:induction false} SplitPointHalf(n: nat, d: nat)
    requires 2 <= n <= Pow2(d)
    ensures d > 0 && SplitPoint(n) <= Pow2(d - 1)
    decreases n
  {
    if n > 2 {
      SplitPointHalf((n + 1) / 2, d - 1);
    }
  }

  /** The loop that computes the directions, with its cap on the proof length. */
  method ProofDirections(treeSize: nat, i: nat) returns (ok: bool, directions: seq<bool>)
    requires treeSize < TREE_SIZE_LIMIT
    ensures ok <==> i < treeSize
    ensures ok ==> directions == Directions(treeSize, i)
  {
    hide Directions, SplitPoint, Pow2;
    directions := [];
    if treeSize == 0 || i >= treeSize { return false, directions; }
    var lo: nat, hi: nat := 0, treeSize;
    TreeSizeLimit();
    DirectionsShort(treeSize, i, MAX_INCLUSION_PROOF_SIBLINGS);
    while hi - lo > 1
      invariant lo <= i < hi
      invariant directions + Directions(hi - lo, i - lo) == Directions(treeSize, i)
      decreases hi - lo
    {
      DirectionsStep(hi - lo, i - lo);
      if |directions| == MAX_INCLUSION_PROOF_SIBLINGS { return false, directions; }
      var mid := lo + SplitPoint(hi - lo);
      if i < mid {
        directions, hi := directions + [true], mid;
      } else {
        directions, lo := directions + [false], mid;
      }
    }
    NoDirections();
    ok := true;
  }

  lemma NoDirections()
    ensures Directions(1, 0) == []
  {
  }

  // Climb from the leaf to the root; siblings are ordered leaf to root.
  function Climb<E, D>(directions: seq<bool>, siblings: seq<Digest<E, D>>, leaf: Digest<E, D>): Digest<E, D>
    requires |directions| == |siblings|
  {
    if directions == [] then leaf
    else
      var m := |siblings| - 1;
      var inner := Climb(directions[1..], siblings[..m], leaf);
      if directions[0] then HNode(inner, siblings[m]) else HNode(siblings[m], inner)
  }

  predicate VerifyInclusion<E(==), D(==)>(head: TreeHead<E, D>, proof: InclusionProof<E, D>, leaf: Digest<E, D>) {
    && WellFormed(head)
    && proof.treeSize == head.treeSize
    && |proof.siblings| <= MAX_INCLUSION_PROOF_SIBLINGS
    && proof.i < proof.treeSize
    && |Directions(proof.treeSize, proof.i)| == |proof.siblings|
    && Climb(Directions(proof.treeSize, proof.i), proof.siblings, leaf) == head.root
  }

  method VerifyWithLeafHash<E(==), D(==)>(head: TreeHead<E, D>, proof: InclusionProof<E, D>, leaf: Digest<E, D>)
    returns (ok: bool)
    requires head.treeSize < TREE_SIZE_LIMIT
    ensures ok <==> VerifyInclusion(head, proof, leaf)
  {
    if !WellFormed(head) || proof.treeSize != head.treeSize { return false; }
    if |proof.siblings| > MAX_INCLUSION_PROOF_SIBLINGS { return false; }
    var found, directions := ProofDirections(proof.treeSize, proof.i);
    if !found || |directions| != |proof.siblings| { return false; }
    var acc, m := leaf, |directions|;
    for j := 0 to m
      invariant acc == Climb(directions[m - j..], proof.siblings[..j], leaf)
    {
      var up := m - j - 1;
      assert directions[up..][1..] == directions[m - j..];
      assert proof.siblings[..j + 1][..j] == proof.siblings[..j];
      acc := if directions[up] then HNode(acc, proof.siblings[j]) else HNode(proof.siblings[j], acc);
    }
    assert directions[0..] == directions && proof.siblings[..m] == proof.siblings;
    ok := acc == head.root;
  }

  /** The honest proof for leaf `i`. */
  function AuditPath<E, D>(leaves: seq<Digest<E, D>>, i: nat): (path: seq<Digest<E, D>>)
    requires i < |leaves|
    ensures |path| == |Directions(|leaves|, i)|
  {
    if |leaves| == 1 then []
    else
      var k := SplitPoint(|leaves|);
      if i < k then AuditPath(leaves[..k], i) + [TreeHash(leaves[k..])]
      else AuditPath(leaves[k..], i - k) + [TreeHash(leaves[..k])]
  }

  lemma TreeHashStep<E, D>(leaves: seq<Digest<E, D>>)
    requires |leaves| > 1
    ensures 0 < SplitPoint(|leaves|) < |leaves|
    ensures TreeHash(leaves) ==
      HNode(TreeHash(leaves[..SplitPoint(|leaves|)]), TreeHash(leaves[SplitPoint(|leaves|)..]))
  {
  }

  lemma ClimbStep<E, D>(below: seq<bool>, left: bool, siblings: seq<Digest<E, D>>, top: Digest<E, D>,
                        leaf: Digest<E, D>)
    requires |below| == |siblings|
    ensures Climb([left] + below, siblings + [top], leaf)
         == if left then HNode(Climb(below, siblings, leaf), top) else HNode(top, Climb(below, siblings, leaf))
  {
    assert ([left] + below)[1..] == below && (siblings + [top])[..|siblings|] == siblings;
  }

  lemma AuditPathStep<E, D>(leaves: seq<Digest<E, D>>, i: nat)
    requires i < |leaves| && |leaves| > 1
    ensures var k := SplitPoint(|leaves|);
      && 0 < k < |leaves|
      && AuditPath(leaves, i) == if i < k then AuditPath(leaves[..k], i) + [TreeHash(leaves[k..])]
                                 else AuditPath(leaves[k..], i - k) + [TreeHash(leaves[..k])]
  {
  }

  lemma {:induction false} ClimbIff<E, D>(leaves: seq<Digest<E, D>>, i: nat, siblings: seq<Digest<E, D>>,
                                          leaf: Digest<E, D>)
    requires i < |leaves| && |siblings| == |Directions(|leaves|, i)|
    ensures Climb(Directions(|leaves|, i), siblings, leaf) == TreeHash(leaves)
      <==> leaf == leaves[i] && siblings == AuditPath(leaves, i)
    decreases |leaves|
  {
    hide Directions, TreeHash, Climb, AuditPath, SplitPoint;
    if |leaves| == 1 {
      OneLeaf(leaves, siblings, leaf);
    } else {
      DirectionsStep(|leaves|, i);
      TreeHashStep(leaves);
      AuditPathStep(leaves, i);
      var k, m := SplitPoint(|leaves|), |siblings| - 1;
      var below, top := siblings[..m], siblings[m];
      assert siblings == below + [top];
      if i < k {
        ClimbIff(leaves[..k], i, below, leaf);
        ClimbStep(Directions(k, i), true, below, top, leaf);
        SameEnds(below, AuditPath(leaves[..k], i), top, TreeHash(leaves[k..]));
      } else {
        ClimbIff(leaves[k..], i - k, below, leaf);
        ClimbStep(Directions(|leaves| - k, i - k), false, below, top, leaf);
        SameEnds(below, AuditPath(leaves[k..], i - k), top, TreeHash(leaves[..k]));
      }
    }
  }

  lemma OneLeaf<E, D>(leaves: seq<Digest<E, D>>, siblings: seq<Digest<E, D>>, leaf: Digest<E, D>)
    requires |leaves| == 1
    ensures Directions(1, 0) == [] && TreeHash(leaves) == leaves[0] && AuditPath(leaves, 0) == [] &&
      Climb([], [], leaf) == leaf
  {
  }

  lemma SameEnds<T>(a: seq<T>, b: seq<T>, x: T, y: T)
    requires |a| == |b|
    ensures a + [x] == b + [y] <==> a == b && x == y
  {
    if a + [x] == b + [y] {
      assert a == (a + [x])[..|a|] && b == (b + [y])[..|b|] && (a + [x])[|a|] == x && (b + [y])[|b|] == y;
    }
  }

  /** Whatever verifies against the head of a log is in that log, at that index. */
  lemma {:induction false} InclusionSound<E, D>(leaves: seq<Digest<E, D>>, proof: InclusionProof<E, D>,
                                                leaf: Digest<E, D>)
    requires leaves != [] && VerifyInclusion(HeadOf(leaves), proof, leaf)
    ensures proof.i < |leaves| && leaf == leaves[proof.i]
  {
    hide Peaks, Fold, PopCount, TreeHash, Climb, Directions;
    ClimbIff(leaves, proof.i, proof.siblings, leaf);
  }

  /** Against the head of a log, exactly one proof and one leaf hash verify at
      each index: the audit path and the leaf that is there. */
  lemma {:induction false} InclusionIff<E, D>(leaves: seq<Digest<E, D>>, proof: InclusionProof<E, D>,
                                              leaf: Digest<E, D>)
    requires 0 < |leaves| < TREE_SIZE_LIMIT
    ensures VerifyInclusion(HeadOf(leaves), proof, leaf) <==>
      && proof.treeSize == |leaves|
      && proof.i < |leaves|
      && leaf == leaves[proof.i]
      && proof.siblings == AuditPath(leaves, proof.i)
  {
    PeaksCount(leaves);
    FoldIsTreeHash(leaves);
    hide Peaks, Fold, PopCount, TreeHash, Climb, AuditPath, Directions;
    if proof.i < |leaves| {
      TreeSizeLimit();
      DirectionsShort(|leaves|, proof.i, MAX_INCLUSION_PROOF_SIBLINGS);
      if |proof.siblings| == |Directions(|leaves|, proof.i)| {
        ClimbIff(leaves, proof.i, proof.siblings, leaf);
      }
    }
  }
}

/** Key material: 32 bytes, little endian, that stand for an integer below p^8,
    and the same integer as eight limbs of the KoalaBear field. */
module Limbs {
  import opened Prelude

  const P := 2130706433          // 2^31 - 2^24 + 1
  const LIMBS := 8
  const SIZE := 32

  type Byte = b: nat | b < 256
  type Limb = x: nat | x < P
  type Bytes = seq<Byte>

  // ---------------------------------------------------------------------
  // Positional notation
  // ---------------------------------------------------------------------

  function Pow(base: nat, n: nat): nat { if n == 0 then 1 else base * Pow(base, n - 1) }

  /** The number with these digits, least significant first. */
  function Number(base: nat, digits: seq<nat>): nat {
    if digits == [] then 0 else digits[0] + base * Number(base, digits[1..])
  }

  /** The first digit is the least significant one. */
  lemma {:induction false} LeastFirst(base: nat, digits: seq<nat>)
    requires Below(base, digits) && digits != []
    ensures base > 0 && Number(base, digits) % base == digits[0]
    ensures Number(base, digits) / base == Number(base, digits[1..])
  {
    assert digits[0] < base;
    DivMod(base, digits[0], Number(base, digits[1..]));
  }

  function Rem(x: nat, base: nat): (r: nat)
    requires base > 0
    ensures r < base
  {
    x % base
  }

  function Quo(x: nat, base: nat): nat
    requires base > 0
  {
    x / base
  }

  lemma QuoRem(x: nat, base: nat)
    requires base > 0
    ensures x == Rem(x, base) + base * Quo(x, base)
  {
  }

  function Digits(base: nat, x: nat, n: nat): (d: seq<nat>)
    requires base > 0
    ensures |d| == n
    decreases n
  {
    if n == 0 then [] else [Rem(x, base)] + Digits(base, Quo(x, base), n - 1)
  }

  ghost predicate Below(base: nat, digits: seq<nat>) { forall k | 0 <= k < |digits| :: digits[k] < base }

  lemma {:induction false} DigitsBelow(base: nat, x: nat, n: nat)
    requires base > 0
    ensures Below(base, Digits(base, x, n))
    decreases n
  {
    hide Rem, Quo;
    if n > 0 { DigitsBelow(base, Quo(x, base), n - 1); }
  }

  lemma Ordered(base: nat, a: nat, b: nat)
    requires a <= b
    ensures base * a <= base * b
  {
  }

  lemma Gap(base: nat, q: nat, x: nat)
    requires q < x
    ensures base * x >= base * q + base
  {
    Ordered(base, q + 1, x);
    assert base * (q + 1) == base * q + base;
  }

  lemma {:induction false} DivMod(base: nat, d: nat, x: nat)
    requires d < base
    ensures Rem(d + base * x, base) == d && Quo(d + base * x, base) == x
  {
    var y := d + base * x;
    QuoRem(y, base);
    var q := Quo(y, base);
    hide Rem, Quo;
    if q < x { Gap(base, q, x); } else if q > x { Gap(base, x, q); }
  }

  lemma {:induction false} NumberBelow(base: nat, digits: seq<nat>)
    requires Below(base, digits)
    ensures Number(base, digits) < Pow(base, |digits|)
  {
    if digits != [] {
      NumberBelow(base, digits[1..]);
      var x, m := Number(base, digits[1..]), Pow(base, |digits| - 1);
      Gap(base, x, m);
    }
  }

  /** Digits undo the number ... */
  lemma {:induction false} DigitsOfNumber(base: nat, digits: seq<nat>)
    requires base > 0 && Below(base, digits)
    ensures Digits(base, Number(base, digits), |digits|) == digits
  {
    if digits != [] {
      DivMod(base, digits[0], Number(base, digits[1..]));
      DigitsOfNumber(base, digits[1..]);
    }
  }

  /** ... and the number undoes its digits, if there is room. */
  lemma {:induction false} NumberOfDigits(base: nat, x: nat, n: nat)
    requires base > 0 && x < Pow(base, n)
    ensures Number(base, Digits(base, x, n)) == x
  {
    hide Rem, Quo;
    if n > 0 {
      var q := Quo(x, base);
      QuoRem(x, base);
      if q >= Pow(base, n - 1) { Ordered(base, Pow(base, n - 1), q); }
      NumberOfDigits(base, q, n - 1);
      assert Digits(base, x, n)[1..] == Digits(base, q, n - 1);
    }
  }

  /** Eight limbs fit into 32 bytes, because a limb fits into four. */
  lemma {:induction false} Fits(base: nat, wide: nat, k: nat)
    requires base <= wide * wide * wide * wide
    ensures Pow(base, k) <= Pow(wide, 4 * k)
  {
    if k > 0 {
      Fits(base, wide, k - 1);
      var m, w := Pow(base, k - 1), Pow(wide, 4 * k - 4);
      assert Pow(wide, 4 * k - 3) == wide * w;
      assert Pow(wide, 4 * k - 2) == wide * Pow(wide, 4 * k - 3);
      assert Pow(wide, 4 * k - 1) == wide * Pow(wide, 4 * k - 2);
      assert Pow(wide, 4 * k) == wide * Pow(wide, 4 * k - 1);
      Product(base, wide * wide * wide * wide, m, w);
      assert wide * wide * wide * wide * w == wide * (wide * (wide * (wide * w)));
    }
  }

  lemma Product(a: nat, b: nat, c: nat, d: nat)
    requires a <= b && c <= d
    ensures a * c <= b * d
  {
    Ordered(a, c, d);
    assert b * d == a * d + (b - a) * d;
  }

  function Capacity(): nat { Pow(P, LIMBS) }

  lemma {:induction false} CapacityFits()
    ensures 0 < Capacity() <= Pow(256, SIZE)
  {
    Fits(P, 256, LIMBS);
    Positive(P, LIMBS);
  }

  lemma {:induction false} Positive(base: nat, n: nat)
    requires base > 0
    ensures Pow(base, n) > 0
  {
    if n > 0 { Positive(base, n - 1); }
  }

  // ---------------------------------------------------------------------
  // Key material
  // ---------------------------------------------------------------------

  type Encoding = seq<Limb>   // eight limbs

  function ToBytes(x: nat): (b: Bytes)
    ensures |b| == SIZE
  {
    DigitsBelow(256, x, SIZE);
    Digits(256, x, SIZE)
  }

  function ToLimbs(x: nat): (l: Encoding)
    ensures |l| == LIMBS
  {
    DigitsBelow(P, x, LIMBS);
    Digits(P, x, LIMBS)
  }

  predicate Canonical(bytes: Bytes) { |bytes| == SIZE && Number(256, bytes) < Capacity() }

  function Decode(bytes: Bytes): Option<Encoding> {
    if Canonical(bytes) then Some(ToLimbs(Number(256, bytes))) else None
  }

  function Encode(limbs: Encoding): (b: Bytes)
    ensures |b| == SIZE
  {
    ToBytes(Number(P, limbs))
  }

  lemma {:induction false} BytesNumber(bytes: Bytes)
    requires |bytes| == SIZE
    ensures ToBytes(Number(256, bytes)) == bytes && Number(256, bytes) < Pow(256, SIZE)
  {
    DigitsOfNumber(256, bytes);
    NumberBelow(256, bytes);
  }

  lemma {:induction false} NumberBytes(x: nat)
    requires x < Capacity()
    ensures Number(256, ToBytes(x)) == x && Canonical(ToBytes(x))
  {
    CapacityFits();
    NumberOfDigits(256, x, SIZE);
    hide Pow, Number, Digits;
  }

  /** Eight limbs, written as 32 bytes, read back as the same limbs. */
  lemma {:induction false} DecodeEncode(limbs: Encoding)
    requires |limbs| == LIMBS
    ensures Canonical(Encode(limbs)) && Decode(Encode(limbs)) == Some(limbs)
  {
    NumberBelow(P, limbs);
    NumberBytes(Number(P, limbs));
    DigitsOfNumber(P, limbs);
    hide Pow, Number, Digits, ToBytes;
  }

  /** Accepted bytes are written back as they were. */
  lemma {:induction false} EncodeDecode(bytes: Bytes)
    requires Decode(bytes).Some?
    ensures |Decode(bytes).value| == LIMBS && Encode(Decode(bytes).value) == bytes
  {
    NumberOfDigits(P, Number(256, bytes), LIMBS);
    BytesNumber(bytes);
    hide Pow, Number, Digits, ToBytes;
  }

  /** The limbs of a key, as weights of its integer: p^0 first, p^7 last. */
  lemma {:induction false} LimbWeights(bytes: Bytes)
    requires Canonical(bytes)
    ensures var l := Decode(bytes).value;
      && |l| == 8
      && Number(256, bytes) == l[0] as nat + P * (l[1] as nat + P * (l[2] as nat + P * (l[3] as nat + P *
           (l[4] as nat + P * (l[5] as nat + P * (l[6] as nat + P * l[7] as nat))))))
  {
    var l := ToLimbs(Number(256, bytes));
    NumberOfDigits(P, Number(256, bytes), LIMBS);
    hide Canonical;
    EightDigits(l);
  }

  // The number from digit `k` on.
  lemma NumberFrom(base: nat, l: seq<nat>, k: nat)
    requires k < |l|
    ensures Number(base, l[k..]) == l[k] + base * (if k + 1 < |l| then Number(base, l[k + 1..]) else 0)
  {
    assert l[k..][1..] == l[k + 1..];
  }

  lemma {:induction false} EightDigits(l: seq<nat>)
    requires |l| == 8
    ensures Number(P, l) == l[0] + P * (l[1] + P * (l[2] + P * (l[3] + P *
      (l[4] + P * (l[5] + P * (l[6] + P * l[7]))))))
  {
    hide Number;
    assert l[0..] == l;
    NumberFrom(P, l, 0);
    NumberFrom(P, l, 1);
    NumberFrom(P, l, 2);
    NumberFrom(P, l, 3);
    NumberFrom(P, l, 4);
    NumberFrom(P, l, 5);
    NumberFrom(P, l, 6);
    NumberFrom(P, l, 7);
  }

  /** Distinct canonical byte strings have distinct limbs (keys and tags alike). */
  lemma {:induction false} DecodeInjective(a: Bytes, b: Bytes)
    requires Canonical(a) && Canonical(b) && Decode(a) == Decode(b)
    ensures a == b
  {
    hide Canonical;
    assert Decode(a).Some? && Decode(b).Some?;
    hide Decode;
    EncodeDecode(a);
    EncodeDecode(b);
  }

  /** Any 32 bytes, reduced into the range of keys. */
  function Clamp(bytes: Bytes): (key: Bytes)
    requires |bytes| == SIZE
    ensures |key| == SIZE
  {
    CapacityFits();
    ToBytes(Rem(Number(256, bytes), Capacity()))
  }

  /** Clamping gives a key, leaves keys alone and changes everything else. */
  lemma {:induction false} ClampLaws(bytes: Bytes)
    requires |bytes| == SIZE
    ensures Canonical(Clamp(bytes)) && Clamp(Clamp(bytes)) == Clamp(bytes)
    ensures Clamp(bytes) == bytes <==> Canonical(bytes)
    ensures Number(256, Clamp(bytes)) == Number(256, bytes) % Capacity()
  {
    CapacityFits();
    var x := Number(256, bytes);
    hide Capacity, Pow, Number, ToBytes;
    NumberBytes(Rem(x, Capacity()));
    SmallRem(Rem(x, Capacity()), Capacity());
    BytesNumber(bytes);
    if Canonical(bytes) { SmallRem(x, Capacity()); }
  }

  lemma SmallRem(x: nat, base: nat)
    requires x < base
    ensures Rem(x, base) == x
  {
  }

  // ---------------------------------------------------------------------
  // The loops
  // ---------------------------------------------------------------------

  // `done` and the digits of what remains are the digits of `start`, and what
  // remains fits into the limbs left exactly if `start` fits into all.
  ghost predicate Split(start: nat, done: seq<nat>, remaining: nat) {
    && |done| <= LIMBS
    && (remaining < Pow(P, LIMBS - |done|) <==> start < Pow(P, LIMBS))
    && forall n: nat :: done + Digits(P, remaining, n) == Digits(P, start, |done| + n)
  }

  lemma SplitStart(start: nat)
    ensures Split(start, [], start)
  {
    assert forall n: nat :: [] + Digits(P, start, n) == Digits(P, start, n);
  }

  lemma {:induction false} SplitNext(start: nat, done: seq<nat>, remaining: nat)
    requires Split(start, done, remaining) && |done| < LIMBS
    ensures Split(start, done + [Rem(remaining, P)], Quo(remaining, P))
  {
    hide Pow, Digits, Rem, Quo;
    NextDigit(P, start, remaining, done, |done|);
    PowStep(P, remaining, LIMBS - |done|);
  }

  lemma {:induction false} SplitEnd(start: nat, done: seq<nat>, state: seq<nat>)
    requires Split(start, done, 0) && |state| == LIMBS && state[..|done|] == done
    requires forall k | |done| <= k < LIMBS :: state[k] == 0
    ensures start < Capacity() && state == ToLimbs(start)
  {
    hide Pow, Digits;
    ZeroDigits(P, LIMBS - |done|);
    Positive(P, LIMBS - |done|);
    assert done + Digits(P, 0, LIMBS - |done|) == Digits(P, start, |done| + (LIMBS - |done|));
    assert state == done + Digits(P, 0, LIMBS - |done|);
  }

  lemma SplitFull(start: nat, done: seq<nat>, remaining: nat)
    requires Split(start, done, remaining) && |done| == LIMBS && remaining > 0
    ensures start >= Capacity()
  {
    PowNone(P);
  }

  method DecodeBytes(bytes: Bytes) returns (limbs: Option<Encoding>)
    ensures limbs == Decode(bytes)
  {
    if |bytes| != SIZE { return None; }
    hide Pow, Digits, Number, Rem, Quo, Split, ToLimbs;
    var remaining: nat := Number(256, bytes);
    var state: Encoding := [0, 0, 0, 0, 0, 0, 0, 0];
    ghost var start: nat := remaining;
    SplitStart(start);
    var k := 0;
    while k < LIMBS
      invariant 0 <= k <= LIMBS && |state| == LIMBS
      invariant forall j | k <= j < LIMBS :: state[j] == 0
      invariant Split(start, state[..k], remaining)
    {
      if remaining == 0 { break; }
      SplitNext(start, state[..k], remaining);
      assert state[k := Rem(remaining, P)][..k + 1] == state[..k] + [Rem(remaining, P)];
      state := state[k := Rem(remaining, P)];
      remaining := Quo(remaining, P);
      k := k + 1;
    }
    if remaining != 0 {
      SplitFull(start, state[..k], remaining);
      return None;
    }
    SplitEnd(start, state[..k], state);
    return Some(state);
  }

  lemma {:induction false} ZeroDigits(base: nat, n: nat)
    requires base > 0
    ensures forall k | 0 <= k < n :: Digits(base, 0, n)[k] == 0
  {
    if n > 0 { ZeroDigits(base, n - 1); }
  }

  lemma PowNone(base: nat)
    ensures Pow(base, 0) == 1
  {
  }

  lemma {:induction false} PowStep(base: nat, x: nat, n: nat)
    requires base > 0 && n > 0
    ensures x < Pow(base, n) <==> Quo(x, base) < Pow(base, n - 1)
  {
    QuoRem(x, base);
    var q, m := Quo(x, base), Pow(base, n - 1);
    hide Rem, Quo;
    if q < m { Gap(base, q, m); } else { Ordered(base, m, q); }
  }

  lemma {:induction false} NextDigit(base: nat, start: nat, remaining: nat, state: seq<nat>, k: nat)
    requires base > 0 && forall n: nat :: state + Digits(base, remaining, n) == Digits(base, start, k + n)
    ensures state + [Rem(remaining, base)] == Digits(base, start, k + 1)
    ensures forall n: nat ::
      state + [Rem(remaining, base)] + Digits(base, Quo(remaining, base), n) == Digits(base, start, k + 1 + n)
  {
    hide Rem, Quo;
    assert Digits(base, Quo(remaining, base), 0) == [];
    assert Digits(base, remaining, 1) == [Rem(remaining, base)];
    assert state + Digits(base, remaining, 1) == Digits(base, start, k + 1);
    forall n: nat
      ensures state + [Rem(remaining, base)] + Digits(base, Quo(remaining, base), n) == Digits(base, start, k + 1 + n)
    {
      assert state + Digits(base, remaining, n + 1) == Digits(base, start, k + (n + 1));
      assert Digits(base, remaining, n + 1) == [Rem(remaining, base)] + Digits(base, Quo(remaining, base), n);
    }
  }

  lemma {:induction false} NumberSnoc(base: nat, d: seq<nat>, x: nat)
    ensures Number(base, d + [x]) == Number(base, d) + x * Pow(base, |d|)
  {
    if d == [] {
      assert d + [x] == [x] && [x][1..] == [];
    } else {
      NumberSnoc(base, d[1..], x);
      assert (d + [x])[1..] == d[1..] + [x];
      Regroup(base, Number(base, d[1..]), x, Pow(base, |d| - 1));
    }
  }

  lemma Regroup(base: nat, n: nat, x: nat, m: nat)
    ensures base * (n + x * m) == base * n + x * (base * m)
  {
    assert base * (n + x * m) == base * n + base * (x * m);
    assert base * (x * m) == x * (base * m);
  }

  method EncodeLimbs(limbs: Encoding) returns (bytes: Bytes)
    ensures bytes == Encode(limbs)
  {
    hide Number, Pow, ToBytes;
    var acc: nat, basePow: nat := 0, 1;
    assert Number(P, limbs[..0]) == 0 && Pow(P, 0) == 1 by { NumberNone(P); PowNone(P); }
    for k := 0 to |limbs|
      invariant acc == Number(P, limbs[..k]) && basePow == Pow(P, k)
    {
      NumberSnoc(P, limbs[..k], limbs[k]);
      assert limbs[..k + 1] == limbs[..k] + [limbs[k]];
      if limbs[k] != 0 { acc := acc + limbs[k] * basePow; }
      PowNext(P, k);
      basePow := basePow * P;
    }
    assert limbs[..|limbs|] == limbs;
    bytes := ToBytes(acc);
  }

  lemma NumberNone(base: nat)
    ensures Number(base, []) == 0
  {
  }

  lemma PowNext(base: nat, k: nat)
    ensures Pow(base, k + 1) == base * Pow(base, k)
  {
  }

  // ---------------------------------------------------------------------
  // Derivation tags
  // ---------------------------------------------------------------------

  predicate IsTag(bytes: Bytes) { Canonical(bytes) && exists k | 0 <= k < |bytes| :: bytes[k] != 0 }

  lemma {:induction false} ZeroNumber(bytes: Bytes)
    ensures Number(256, bytes) == 0 <==> forall k | 0 <= k < |bytes| :: bytes[k] == 0
  {
    if bytes != [] { ZeroNumber(bytes[1..]); }
  }

  /** A tag is an integer from 1 to p^8 - 1: it has limbs, they tell tags apart,
      and they are not all zero, which is reserved for commitments. */
  lemma {:induction false} TagLimbs(tag: Bytes)
    requires IsTag(tag)
    ensures 0 < Number(256, tag) < Capacity()
    ensures Decode(tag).Some? && exists k | 0 <= k < LIMBS :: Decode(tag).value[k] != 0
  {
    ZeroNumber(tag);
    var x := Number(256, tag);
    var limbs := ToLimbs(x);
    NumberOfDigits(P, x, LIMBS);
    if forall k | 0 <= k < LIMBS :: limbs[k] == 0 { ZeroLimbs(limbs); }
  }

  lemma {:induction false} ZeroLimbs(limbs: seq<nat>)
    requires forall k | 0 <= k < |limbs| :: limbs[k] == 0
    ensures Number(P, limbs) == 0
  {
    if limbs != [] { ZeroLimbs(limbs[1..]); }
  }

  /** The first non-zero output of the hash, reduced; `squeezed` is what the
      hash gives in turn. */
  method TagFromHash(squeezed: seq<Bytes>) returns (tag: Option<Bytes>)
    requires forall i | 0 <= i < |squeezed| :: |squeezed[i]| == SIZE
    ensures tag.Some? ==> IsTag(tag.value)
    ensures tag.None? ==> forall i | 0 <= i < |squeezed| :: !IsTag(Clamp(squeezed[i]))
    ensures tag.Some? ==> exists i | 0 <= i < |squeezed| ::
      Clamp(squeezed[i]) == tag.value && forall j | 0 <= j < i :: !IsTag(Clamp(squeezed[j]))
  {
    hide Canonical, Clamp;
    for i := 0 to |squeezed|
      invariant forall j | 0 <= j < i :: !IsTag(Clamp(squeezed[j]))
    {
      ClampLaws(squeezed[i]);
      var candidate := Clamp(squeezed[i]);
      if exists k | 0 <= k < |candidate| :: candidate[k] != 0 { return Some(candidate); }
    }
    return None;
  }

  // ---------------------------------------------------------------------
  // The field one-time pad
  // ---------------------------------------------------------------------

  function AddLimb(a: Limb, b: Limb): Limb { (a + b) % P }
  function SubLimb(a: Limb, b: Limb): Limb { (a - b) % P }

  lemma LimbLaws(a: Limb, b: Limb)
    ensures SubLimb(AddLimb(a, b), a) == b && AddLimb(a, SubLimb(b, a)) == b
  {
  }

  function Plus(a: Encoding, b: Encoding): (c: Encoding)
    requires |a| == |b|
    ensures |c| == |a|
  {
    seq(|a|, k requires 0 <= k < |a| => AddLimb(a[k], b[k]))
  }

  function Minus(a: Encoding, b: Encoding): (c: Encoding)
    requires |a| == |b|
    ensures |c| == |a|
  {
    seq(|a|, k requires 0 <= k < |a| => SubLimb(a[k], b[k]))
  }

  /** Limb by limb, addition and subtraction modulo 2^31 - 2^24 + 1. */
  lemma {:induction false} LimbArithmetic(a: Encoding, b: Encoding, k: nat)
    requires |a| == |b| && k < |a|
    ensures (Plus(a, b)[k] as int - (a[k] as int + b[k] as int)) % 2130706433 == 0
    ensures (Minus(a, b)[k] as int - (a[k] as int - b[k] as int)) % 2130706433 == 0
  {
    var x: int, y: int := a[k], b[k];
    Congruent(x + y);
    Congruent(x - y);
  }

  lemma Congruent(x: int)
    ensures (x % 2130706433 - x) % 2130706433 == 0
  {
    assert x % 2130706433 - x == 2130706433 * (-(x / 2130706433));
  }

  method AddAssign(state: array<Limb>, other: Encoding)
    requires state.Length == |other|
    modifies state
    ensures state[..] == Plus(old(state[..]), other)
  {
    for k := 0 to state.Length
      invariant forall j | 0 <= j < k :: state[j] == AddLimb(old(state[j]), other[j])
      invariant forall j | k <= j < state.Length :: state[j] == old(state[j])
    {
      state[k] := AddLimb(state[k], other[k]);
    }
  }

  method SubAssign(state: array<Limb>, other: Encoding)
    requires state.Length == |other|
    modifies state
    ensures state[..] == Minus(old(state[..]), other)
  {
    for k := 0 to state.Length
      invariant forall j | 0 <= j < k :: state[j] == SubLimb(old(state[j]), other[j])
      invariant forall j | k <= j < state.Length :: state[j] == old(state[j])
    {
      state[k] := SubLimb(state[k], other[k]);
    }
  }

  lemma {:induction false} PlusLaws(a: Encoding, b: Encoding)
    requires |a| == |b|
    ensures Minus(Plus(a, b), a) == b && Plus(a, Minus(b, a)) == b && Plus(a, b) == Plus(b, a)
  {
    forall k | 0 <= k < |a|
      ensures SubLimb(AddLimb(a[k], b[k]), a[k]) == b[k] && AddLimb(a[k], SubLimb(b[k], a[k])) == b[k]
    {
      LimbLaws(a[k], b[k]);
    }
    assert forall k | 0 <= k < |a| :: AddLimb(a[k], b[k]) == AddLimb(b[k], a[k]);
    hide AddLimb, SubLimb;
  }

  function LimbsOf(key: Bytes): (l: Encoding)
    requires Canonical(key)
    ensures |l| == LIMBS
  {
    Decode(key).value
  }

  function Encrypt(key: Bytes, message: Bytes): (c: Bytes)
    requires Canonical(key) && Canonical(message)
    ensures |c| == SIZE
  {
    Encode(Plus(LimbsOf(key), LimbsOf(message)))
  }

  function Decrypt(ciphertext: Bytes, key: Bytes): (m: Bytes)
    requires Canonical(ciphertext) && Canonical(key)
    ensures |m| == SIZE
  {
    Encode(Minus(LimbsOf(ciphertext), LimbsOf(key)))
  }

  lemma {:induction false} LimbsOfEncode(limbs: Encoding)
    requires |limbs| == LIMBS
    ensures Canonical(Encode(limbs)) && LimbsOf(Encode(limbs)) == limbs
  {
    DecodeEncode(limbs);
  }

  lemma {:induction false} EncodeLimbsOf(key: Bytes)
    requires Canonical(key)
    ensures Encode(LimbsOf(key)) == key
  {
    EncodeDecode(key);
  }

  /** Decryption undoes encryption, and the other way round. */
  lemma {:induction false} PadRoundTrip(key: Bytes, message: Bytes)
    requires Canonical(key) && Canonical(message)
    ensures Canonical(Encrypt(key, message)) && Decrypt(Encrypt(key, message), key) == message
    ensures Canonical(Decrypt(message, key)) && Encrypt(key, Decrypt(message, key)) == message
  {
    hide LimbsOf, Encode, Plus, Minus, Canonical;
    var k, m := LimbsOf(key), LimbsOf(message);
    LimbsOfEncode(Plus(k, m));
    LimbsOfEncode(Minus(m, k));
    PlusLaws(k, m);
    EncodeLimbsOf(message);
  }

  /** For one message, different keys give different ciphertexts. */
  lemma {:induction false} PadInjective(key: Bytes, other: Bytes, message: Bytes)
    requires Canonical(key) && Canonical(other) && Canonical(message) &&
      Encrypt(key, message) == Encrypt(other, message)
    ensures key == other
  {
    hide LimbsOf, Encode, Plus, Minus, Canonical;
    var k, o, m := LimbsOf(key), LimbsOf(other), LimbsOf(message);
    LimbsOfEncode(Plus(k, m));
    LimbsOfEncode(Plus(o, m));
    PlusLaws(k, m);
    PlusLaws(o, m);
    PlusLaws(m, k);
    PlusLaws(m, o);
    EncodeLimbsOf(key);
    EncodeLimbsOf(other);
  }
}

/** One key for many recipients: a key-encapsulation mechanism for one recipient,
    run once per recipient, with the common key padded by each shared key; and
    the X-Wing form of it, which uses one ephemeral key for all recipients. */
module Mkem {
  import opened Prelude
  import opened Limbs

  // ---------------------------------------------------------------------
  // Any single-recipient mechanism
  // ---------------------------------------------------------------------

  // Randomness is an argument, of `coins` bytes.
  datatype Mechanism = Mechanism(
    coins: nat,
    publicKey: Bytes -> Bytes,
    encaps: (Bytes, Bytes) -> (Bytes, Bytes),
    decaps: (Bytes, Bytes) -> Option<Bytes>)

  /** Shared keys are key material. */
  ghost predicate SharesKeys(m: Mechanism) {
    && (forall pk: Bytes, r: Bytes :: Canonical(m.encaps(pk, r).1))
    && (forall sk: Bytes, ct: Bytes :: m.decaps(sk, ct).Some? ==> Canonical(m.decaps(sk, ct).value))
  }

  /** Decapsulation finds what encapsulation to its public key shared. */
  ghost predicate Correct(m: Mechanism) {
    forall sk: Bytes, r: Bytes | |r| == m.coins ::
      var (ct, shared) := m.encaps(m.publicKey(sk), r); m.decaps(sk, ct) == Some(shared)
  }

  datatype MkemCiphertext = MkemCiphertext(kem: Bytes, pad: Bytes)

  function Wrap(m: Mechanism, key: Bytes, pk: Bytes, r: Bytes): MkemCiphertext
    requires SharesKeys(m) && Canonical(key)
  {
    var (ct, shared) := m.encaps(pk, r);
    MkemCiphertext(ct, Encrypt(shared, key))
  }

  function Batch(m: Mechanism, key: Bytes, pks: seq<Bytes>, rs: seq<Bytes>): seq<MkemCiphertext>
    requires SharesKeys(m) && Canonical(key) && |rs| == |pks|
  {
    seq(|pks|, i requires 0 <= i < |pks| => Wrap(m, key, pks[i], rs[i]))
  }

  method Encaps(m: Mechanism, key: Bytes, pks: seq<Bytes>, rs: seq<Bytes>) returns (cts: seq<MkemCiphertext>)
    requires SharesKeys(m) && Canonical(key) && |rs| == |pks|
    ensures cts == Batch(m, key, pks, rs)
  {
    cts := [];
    for i := 0 to |pks|
      invariant cts == Batch(m, key, pks, rs)[..i]
    {
      var (ct, shared) := m.encaps(pks[i], rs[i]);
      cts := cts + [MkemCiphertext(ct, Encrypt(shared, key))];
    }
  }

  function Get<T>(cts: seq<T>, index: nat): Option<T> {
    if index < |cts| then Some(cts[index]) else None
  }

  function Decaps(m: Mechanism, sk: Bytes, ct: MkemCiphertext): Option<Bytes>
    requires SharesKeys(m) && Canonical(ct.pad)
  {
    var shared := m.decaps(sk, ct.kem);
    if shared.None? then None else Some(Decrypt(ct.pad, shared.value))
  }

  function PublicKeys(m: Mechanism, sks: seq<Bytes>): seq<Bytes> {
    seq(|sks|, i requires 0 <= i < |sks| => m.publicKey(sks[i]))
  }

  /** With a correct mechanism, every recipient opens the ciphertext at its own
      index to the one key, and no other index exists. */
  lemma {:induction false} EveryRecipientGetsTheKey(m: Mechanism, key: Bytes, sks: seq<Bytes>, rs: seq<Bytes>,
                                                    index: nat)
    requires SharesKeys(m) && Correct(m) && Canonical(key)
    requires |rs| == |sks| && forall i | 0 <= i < |rs| :: |rs[i]| == m.coins
    ensures var ct := Get(Batch(m, key, PublicKeys(m, sks), rs), index);
      && (ct.Some? <==> index < |sks|)
      && (ct.Some? ==> Canonical(ct.value.pad) && Decaps(m, sks[index], ct.value) == Some(key))
  {
    hide Canonical, Encrypt, Decrypt;
    if index < |sks| {
      PadRoundTrip(m.encaps(m.publicKey(sks[index]), rs[index]).1, key);
    }
  }

  /** A pad opens to its key for exactly those who find the shared key in the
      ciphertext that comes with it. */
  lemma {:induction false} OpensIff(m: Mechanism, sk: Bytes, kem: Bytes, shared: Bytes, key: Bytes)
    requires SharesKeys(m) && Canonical(shared) && Canonical(key)
    ensures Canonical(Encrypt(shared, key))
    ensures Decaps(m, sk, MkemCiphertext(kem, Encrypt(shared, key))) == Some(key) <==> m.decaps(sk, kem) == Some(shared)
  {
    hide Canonical, Encrypt, Decrypt;
    PadRoundTrip(shared, key);
    var found := m.decaps(sk, kem);
    if found.Some? && Decrypt(Encrypt(shared, key), found.value) == key {
      PadRoundTrip(found.value, Encrypt(shared, key));
      PadInjective(found.value, shared, key);
    }
  }

  // ---------------------------------------------------------------------
  // X-Wing
  // ---------------------------------------------------------------------

  const ML_PUBLIC := 1184
  const ML_CIPHERTEXT := 1088
  const DH_PUBLIC := 32
  const LABEL: Bytes := [0x5c, 0x2e, 0x2f, 0x2f, 0x5e, 0x5c]

  // `expand` gives the two secret keys of a seed; `dh` takes the public key first.
  datatype Primitives = Primitives(
    expand: Bytes -> (Bytes, Bytes),
    mlPublic: Bytes -> Bytes,
    mlEncaps: (Bytes, Bytes) -> (Bytes, Bytes),
    mlDecaps: (Bytes, Bytes) -> Bytes,
    dhPublic: Bytes -> Bytes,
    dh: (Bytes, Bytes) -> Option<Bytes>,
    sha3: Bytes -> Bytes,
    digest: Bytes -> Bytes)

  /** Sizes, ML-KEM's correctness and the symmetry of Diffie-Hellman. */
  ghost predicate Lawful(p: Primitives) {
    && (forall sk: Bytes :: |p.mlPublic(sk)| == ML_PUBLIC && |p.dhPublic(sk)| == DH_PUBLIC)
    && (forall pk: Bytes, r: Bytes :: |p.mlEncaps(pk, r).0| == ML_CIPHERTEXT)
    && (forall x: Bytes :: |p.digest(x)| == SIZE)
    && (forall sk: Bytes, r: Bytes ::
          var (ct, shared) := p.mlEncaps(p.mlPublic(sk), r); p.mlDecaps(sk, ct) == shared)
    && (forall a: Bytes, b: Bytes :: p.dh(p.dhPublic(a), b).Some?)
    && (forall a: Bytes, b: Bytes :: p.dh(p.dhPublic(a), b) == p.dh(p.dhPublic(b), a))
  }

  function SharedKey(p: Primitives, ssM: Bytes, ssX: Bytes, ctX: Bytes, pkX: Bytes): (key: Bytes)
    requires forall x: Bytes :: |p.digest(x)| == SIZE
    ensures Canonical(key)
  {
    var bytes := p.digest(p.sha3(ssM + ssX + ctX + pkX + LABEL));
    ClampLaws(bytes);
    Clamp(bytes)
  }

  function XWingPublic(p: Primitives, seed: Bytes): Bytes {
    var (skM, skX) := p.expand(seed);
    p.mlPublic(skM) + p.dhPublic(skX)
  }

  // A public key of another size, or one that Diffie-Hellman refuses, does not
  // get this far.
  function XWingEncaps(p: Primitives, pk: Bytes, eseed: Bytes): (r: (Bytes, Bytes))
    requires forall x: Bytes :: |p.digest(x)| == SIZE
    ensures Canonical(r.1)
  {
    if |pk| != ML_PUBLIC + DH_PUBLIC || |eseed| != 64 || p.dh(pk[ML_PUBLIC..], eseed[32..]).None? then
      ([], SharedKey(p, [], [], [], []))
    else
      var pkM, pkX, ek := pk[..ML_PUBLIC], pk[ML_PUBLIC..], eseed[32..];
      var ctX := p.dhPublic(ek);
      var (ctM, ssM) := p.mlEncaps(pkM, eseed[..32]);
      (ctM + ctX, SharedKey(p, ssM, p.dh(pkX, ek).value, ctX, pkX))
  }

  function XWingDecaps(p: Primitives, seed: Bytes, ct: Bytes): (shared: Option<Bytes>)
    requires forall x: Bytes :: |p.digest(x)| == SIZE
    ensures shared.Some? ==> Canonical(shared.value)
  {
    if |ct| != ML_CIPHERTEXT + DH_PUBLIC then None
    else
      var (skM, skX) := p.expand(seed);
      var ctX := ct[ML_CIPHERTEXT..];
      var ssX := p.dh(ctX, skX);
      if ssX.None? then None
      else Some(SharedKey(p, p.mlDecaps(skM, ct[..ML_CIPHERTEXT]), ssX.value, ctX, p.dhPublic(skX)))
  }

  /** What is hashed on either side: the two shared secrets, the ephemeral key, the
      recipient's key and the label, in this order. */
  lemma {:induction false} XWingHashes(p: Primitives, seed: Bytes, pk: Bytes, eseed: Bytes, ct: Bytes)
    requires Lawful(p)
    ensures |pk| == 1216 && |eseed| == 64 && p.dh(pk[1184..], eseed[32..]).Some? ==>
      var ctX, kem := p.dhPublic(eseed[32..]), p.mlEncaps(pk[..1184], eseed[..32]);
      var hash := p.digest(p.sha3(kem.1 + p.dh(pk[1184..], eseed[32..]).value + ctX + pk[1184..] + LABEL));
      |hash| == 32 && XWingEncaps(p, pk, eseed) == (kem.0 + ctX, Clamp(hash))
    ensures |ct| == 1120 && p.dh(ct[1088..], p.expand(seed).1).Some? ==>
      var (skM, skX) := p.expand(seed);
      var hash := p.digest(p.sha3(p.mlDecaps(skM, ct[..1088]) + p.dh(ct[1088..], skX).value + ct[1088..] +
                                  p.dhPublic(skX) + LABEL));
      |hash| == 32 && XWingDecaps(p, seed, ct) == Some(Clamp(hash))
    ensures LABEL == [0x5c, 0x2e, 0x2f, 0x2f, 0x5e, 0x5c]
  {
    hide Clamp, Canonical;
  }

  ghost function XWing(p: Primitives): Mechanism
    requires Lawful(p)
  {
    Mechanism(64, seed => XWingPublic(p, seed),
              (pk, eseed) requires Lawful(p) => XWingEncaps(p, pk, eseed),
              (seed, ct) requires Lawful(p) => XWingDecaps(p, seed, ct))
  }

  lemma {:induction false} XWingOpens(p: Primitives, seed: Bytes, eseed: Bytes)
    requires Lawful(p) && |eseed| == 64
    ensures var (ct, shared) := XWingEncaps(p, XWingPublic(p, seed), eseed); XWingDecaps(p, seed, ct) == Some(shared)
  {
    hide SharedKey;
    var (skM, skX) := p.expand(seed);
    var pk, ek := XWingPublic(p, seed), eseed[32..];
    assert pk[..ML_PUBLIC] == p.mlPublic(skM) && pk[ML_PUBLIC..] == p.dhPublic(skX);
    assert p.dh(p.dhPublic(skX), ek) == p.dh(p.dhPublic(ek), skX);
    var (ctM, ssM) := p.mlEncaps(p.mlPublic(skM), eseed[..32]);
    var ct := ctM + p.dhPublic(ek);
    assert ct[..ML_CIPHERTEXT] == ctM && ct[ML_CIPHERTEXT..] == p.dhPublic(ek);
  }

  /** X-Wing is a correct mechanism. */
  lemma {:induction false} XWingCorrect(p: Primitives)
    requires Lawful(p)
    ensures SharesKeys(XWing(p)) && Correct(XWing(p))
  {
    forall sk: Bytes, r: Bytes | |r| == 64
      ensures var (ct, shared) := XWing(p).encaps(XWing(p).publicKey(sk), r); XWing(p).decaps(sk, ct) == Some(shared)
    {
      XWingOpens(p, sk, r);
    }
    hide XWingEncaps, XWingDecaps, XWingPublic;
  }

  // ---------------------------------------------------------------------
  // One ephemeral key for all
  // ---------------------------------------------------------------------

  datatype Individual = Individual(ctX: Bytes, ctM: Bytes, ctKey: Bytes)

  // For one recipient: the Diffie-Hellman key `ek` is the common one.
  function WrapShared(p: Primitives, key: Bytes, ek: Bytes, pk: Bytes, r: Bytes): Individual
    requires Lawful(p) && Canonical(key) && |pk| == ML_PUBLIC + DH_PUBLIC && p.dh(pk[ML_PUBLIC..], ek).Some?
  {
    var pkM, pkX := pk[..ML_PUBLIC], pk[ML_PUBLIC..];
    var ctX := p.dhPublic(ek);
    var (ctM, ssM) := p.mlEncaps(pkM, r);
    Individual(ctX, ctM, Encrypt(SharedKey(p, ssM, p.dh(pkX, ek).value, ctX, pkX), key))
  }

  ghost predicate Usable(p: Primitives, ek: Bytes, pks: seq<Bytes>) {
    forall i | 0 <= i < |pks| :: |pks[i]| == ML_PUBLIC + DH_PUBLIC && p.dh(pks[i][ML_PUBLIC..], ek).Some?
  }

  function BatchShared(p: Primitives, key: Bytes, ek: Bytes, pks: seq<Bytes>, rs: seq<Bytes>): seq<Individual>
    requires Lawful(p) && Canonical(key) && |rs| == |pks| && Usable(p, ek, pks)
  {
    seq(|pks|, i requires 0 <= i < |pks| && Lawful(p) && Canonical(key) && |rs| == |pks| && Usable(p, ek, pks) =>
      WrapShared(p, key, ek, pks[i], rs[i]))
  }

  method EncapsShared(p: Primitives, key: Bytes, ek: Bytes, pks: seq<Bytes>, rs: seq<Bytes>)
    returns (cts: seq<Individual>)
    requires Lawful(p) && Canonical(key) && |rs| == |pks| && Usable(p, ek, pks)
    ensures cts == BatchShared(p, key, ek, pks, rs)
  {
    var ctX := p.dhPublic(ek);
    cts := [];
    for i := 0 to |pks|
      invariant |cts| == i && forall j | 0 <= j < i :: cts[j] == WrapShared(p, key, ek, pks[j], rs[j])
    {
      var pkM, pkX := pks[i][..ML_PUBLIC], pks[i][ML_PUBLIC..];
      var ssX := p.dh(pkX, ek).value;
      var (ctM, ssM) := p.mlEncaps(pkM, rs[i]);
      var shared := SharedKey(p, ssM, ssX, ctX, pkX);
      cts := cts + [Individual(ctX, ctM, Encrypt(shared, key))];
    }
    assert cts == BatchShared(p, key, ek, pks, rs);
  }

  function DecapsShared(p: Primitives, seed: Bytes, ct: Individual): Option<Bytes>
    requires Lawful(p) && Canonical(ct.ctKey)
  {
    if |ct.ctM| != ML_CIPHERTEXT then None
    else
      var (skM, skX) := p.expand(seed);
      var ssX := p.dh(ct.ctX, skX);
      if ssX.None? then None
      else Some(Decrypt(ct.ctKey, SharedKey(p, p.mlDecaps(skM, ct.ctM), ssX.value, ct.ctX, p.dhPublic(skX))))
  }

  /** The shared form is the plain one, with the common key as the second half of
      everyone's randomness. */
  lemma {:induction false} SharedIsPlain(p: Primitives, key: Bytes, ek: Bytes, pk: Bytes, r: Bytes)
    requires Lawful(p) && Canonical(key) && |pk| == ML_PUBLIC + DH_PUBLIC && p.dh(pk[ML_PUBLIC..], ek).Some?
    requires |r| == 32 && |ek| == 32
    ensures SharesKeys(XWing(p))
    ensures var ct := WrapShared(p, key, ek, pk, r);
      Wrap(XWing(p), key, pk, r + ek) == MkemCiphertext(ct.ctM + ct.ctX, ct.ctKey)
  {
    XWingCorrect(p);
    hide Canonical, Encrypt, SharedKey;
    assert (r + ek)[..32] == r && (r + ek)[32..] == ek;
  }

  lemma {:induction false} SharedDecapsIsPlain(p: Primitives, seed: Bytes, ct: Individual)
    requires Lawful(p) && Canonical(ct.ctKey) && |ct.ctM| == ML_CIPHERTEXT && |ct.ctX| == DH_PUBLIC
    ensures SharesKeys(XWing(p))
    ensures DecapsShared(p, seed, ct) == Decaps(XWing(p), seed, MkemCiphertext(ct.ctM + ct.ctX, ct.ctKey))
  {
    XWingCorrect(p);
    hide Canonical, Decrypt, SharedKey;
    var whole := ct.ctM + ct.ctX;
    assert whole[..ML_CIPHERTEXT] == ct.ctM && whole[ML_CIPHERTEXT..] == ct.ctX;
  }

  lemma {:induction false} PublicUsable(p: Primitives, ek: Bytes, seed: Bytes)
    requires Lawful(p)
    ensures var pk := XWingPublic(p, seed); |pk| == ML_PUBLIC + DH_PUBLIC && p.dh(pk[ML_PUBLIC..], ek).Some?
  {
    var (skM, skX) := p.expand(seed);
    assert p.dh(p.dhPublic(skX), ek).Some?;
    assert XWingPublic(p, seed)[ML_PUBLIC..] == p.dhPublic(skX);
  }

  lemma {:induction false} SharedOpens(p: Primitives, key: Bytes, ek: Bytes, seed: Bytes, r: Bytes)
    requires Lawful(p) && Canonical(key) && |ek| == 32 && |r| == 32
    requires var pk := XWingPublic(p, seed); |pk| == ML_PUBLIC + DH_PUBLIC && p.dh(pk[ML_PUBLIC..], ek).Some?
    ensures var ct := WrapShared(p, key, ek, XWingPublic(p, seed), r);
      Canonical(ct.ctKey) && DecapsShared(p, seed, ct) == Some(key)
  {
    hide Canonical, Encrypt, Decrypt, SharedKey, DecapsShared, XWingEncaps, XWingDecaps;
    XWingCorrect(p);
    var m, pk := XWing(p), XWingPublic(p, seed);
    SharedIsPlain(p, key, ek, pk, r);
    var ct := WrapShared(p, key, ek, pk, r);
    var rs := [r + ek];
    assert |rs[0]| == m.coins;
    EveryRecipientGetsTheKey(m, key, [seed], rs, 0);
    assert m.publicKey(seed) == pk && PublicKeys(m, [seed])[0] == pk;
    assert Get(Batch(m, key, PublicKeys(m, [seed]), rs), 0) == Some(Wrap(m, key, pk, r + ek));
    assert Canonical(ct.ctKey);
    assert |ct.ctM| == ML_CIPHERTEXT && |ct.ctX| == DH_PUBLIC;
    SharedDecapsIsPlain(p, seed, ct);
    assert DecapsShared(p, seed, ct) == Decaps(m, seed, MkemCiphertext(ct.ctM + ct.ctX, ct.ctKey));
    assert Decaps(m, seed, Wrap(m, key, pk, r + ek)) == Some(key);
  }

  /** Every recipient of the shared form opens its own ciphertext to the one key,
      and all carry the same ephemeral key. */
  lemma {:induction false} EverySharedRecipientGetsTheKey(p: Primitives, key: Bytes, ek: Bytes, seeds: seq<Bytes>,
                                                          rs: seq<Bytes>, index: nat)
    requires Lawful(p) && Canonical(key) && |ek| == 32
    requires |rs| == |seeds| && forall i | 0 <= i < |rs| :: |rs[i]| == 32
    ensures Usable(p, ek, PublicKeys(XWing(p), seeds))
    ensures var ct := Get(BatchShared(p, key, ek, PublicKeys(XWing(p), seeds), rs), index);
      && (ct.Some? <==> index < |seeds|)
      && (ct.Some? ==>
            && ct.value.ctX == p.dhPublic(ek) && Canonical(ct.value.ctKey)
            && DecapsShared(p, seeds[index], ct.value) == Some(key))
  {
    hide Canonical, Encrypt, Decrypt, SharedKey, DecapsShared, XWingPublic, Lawful;
    forall i | 0 <= i < |seeds|
      ensures var pk := XWingPublic(p, seeds[i]); |pk| == ML_PUBLIC + DH_PUBLIC && p.dh(pk[ML_PUBLIC..], ek).Some?
    {
      PublicUsable(p, ek, seeds[i]);
    }
    if index < |seeds| { SharedOpens(p, key, ek, seeds[index], rs[index]); }
  }
}

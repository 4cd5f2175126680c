/** The chain of group keys: each historic key is stored encrypted under the next
    one, so the current root opens all earlier ones, walking back. */
module KeyChain {
  import opened Prelude
  import opened Limbs
  import opened FieldCrypto
  import opened KeyStore

  type Key = Bytes

  // What is taken as given: the derivation of the chain and data keys from a
  // key, the cipher, and the commitment to a key.
  datatype Crypto = Crypto(chainKey: Key -> Bytes, cipher: Cipher, commit: Key -> Bytes, dataKey: (Key, nat) -> Bytes)

  // ---------------------------------------------------------------------
  // Names in storage
  // ---------------------------------------------------------------------

  function Digit(d: nat): char
    requires d < 10
  {
    "0123456789"[d]
  }

  function Decimal(n: nat): (s: string)
    ensures |s| > 0 && (n < 10 <==> |s| == 1)
  {
    if n < 10 then [Digit(n)] else Decimal(n / 10) + [Digit(n % 10)]
  }

  // Reading a decimal number back.
  function Read(s: string): nat {
    if s == [] then 0
    else 10 * Read(s[..|s| - 1]) + (if '0' <= s[|s| - 1] <= '9' then (s[|s| - 1] - '0') as nat else 0)
  }

  lemma DigitBack(d: nat)
    requires d < 10
    ensures '0' <= Digit(d) <= '9' && (Digit(d) - '0') as nat == d
  {
  }

  lemma {:induction false} ReadDecimal(n: nat)
    ensures Read(Decimal(n)) == n
  {
    hide Digit;
    var s := Decimal(n);
    DigitBack(n % 10);
    if n >= 10 {
      assert s[..|s| - 1] == Decimal(n / 10);
      ReadDecimal(n / 10);
    } else {
      assert s[..|s| - 1] == [];
    }
  }

  const CURRENT := "noretention/current_id"

  function CommitmentName(id: nat): string { "noretention/commitment/" + Decimal(id) }
  function EkeyName(id: nat): string { "noretention/ekey/" + Decimal(id) }

  /** No two entries share a name. */
  lemma {:induction false} NamesDistinct(i: nat, j: nat)
    ensures CommitmentName(i) == CommitmentName(j) ==> i == j
    ensures EkeyName(i) == EkeyName(j) ==> i == j
    ensures CommitmentName(i) != EkeyName(j) && CommitmentName(i) != CURRENT && EkeyName(i) != CURRENT
  {
    assert CommitmentName(i)[12] == 'c' && CommitmentName(i)[13] == 'o' && EkeyName(j)[12] == 'e' &&
      EkeyName(i)[12] == 'e';
    assert CURRENT[12] == 'c' && CURRENT[13] == 'u';
    var c, e := "noretention/commitment/", "noretention/ekey/";
    assert CommitmentName(i)[|c|..] == Decimal(i) && CommitmentName(j)[|c|..] == Decimal(j);
    assert EkeyName(i)[|e|..] == Decimal(i) && EkeyName(j)[|e|..] == Decimal(j);
    ReadDecimal(i);
    ReadDecimal(j);
  }

  // ---------------------------------------------------------------------
  // The counter and the links
  // ---------------------------------------------------------------------

  function Counter(id: nat): (b: Bytes)
    ensures |b| == 8
  {
    DigitsBelow(256, id, 8);
    Digits(256, id, 8)
  }

  /** The current key id; an entry of the wrong length is an error. */
  function CurrentId(store: Store): Option<nat> {
    match Lookup(store, CURRENT)
    case None => Some(0)
    case Some(data) => if |data| == 8 then Some(Number(256, data)) else None
  }

  lemma {:induction false} CounterBack(id: nat)
    requires id < Pow(256, 8)
    ensures Number(256, Counter(id)) == id
  {
    NumberOfDigits(256, id, 8);
  }

  function ChainKey(crypto: Crypto, parent: Key): EncryptionKey { EncryptionKey(crypto.chainKey(parent), [0]) }

  function SealKey(crypto: Crypto, child: Key, parent: Key, nonce: Bytes): Bytes
    requires |nonce| == NONCE_LEN
  {
    EncryptField(crypto.cipher, child, ChainKey(crypto, parent), nonce)
  }

  function OpenKey(crypto: Crypto, data: Bytes, parent: Key): Option<Key> {
    match DecryptField(crypto.cipher, data, ChainKey(crypto, parent))
    case Ok(plain) => if Canonical(plain) then Some(plain) else None
    case Err(_) => None
  }

  /** A sealed key is encrypted under the chain key of its parent, and another key
      opens it exactly when the two chain keys have the same key stream on its bytes. */
  lemma {:induction false} OpensUnderParentIff(crypto: Crypto, child: Key, parent: Key, nonce: Bytes, other: Key)
    requires |nonce| == NONCE_LEN && Canonical(child)
    ensures DecryptField(crypto.cipher, SealKey(crypto, child, parent, nonce),
                         EncryptionKey(crypto.chainKey(parent), [0])) == Ok(child)
    ensures OpenKey(crypto, SealKey(crypto, child, parent, nonce), other) == Some(child) <==>
      forall i | 0 <= i < 32 ::
        crypto.cipher(crypto.chainKey(other), nonce, i) == crypto.cipher(crypto.chainKey(parent), nonce, i)
  {
    hide EncryptField, DecryptField;
    assert |child| == 32;
    FieldRoundTrip(crypto.cipher, child, ChainKey(crypto, parent), nonce);
    DecryptsToIff(crypto.cipher, child, ChainKey(crypto, parent), nonce, ChainKey(crypto, other));
  }

  lemma {:induction false} OpenSealedKey(crypto: Crypto, child: Key, parent: Key, nonce: Bytes)
    requires |nonce| == NONCE_LEN && Canonical(child)
    ensures OpenKey(crypto, SealKey(crypto, child, parent, nonce), parent) == Some(child)
  {
    hide EncryptField, DecryptField;
    FieldRoundTrip(crypto.cipher, child, ChainKey(crypto, parent), nonce);
  }

  // ---------------------------------------------------------------------
  // Operations on storage
  // ---------------------------------------------------------------------

  function Started(crypto: Crypto, root: Key, store: Store): Store {
    store[CommitmentName(0) := crypto.commit(root)][CURRENT := Counter(0)]
  }

  function Rotated(crypto: Crypto, cur: nat, root: Key, next: Key, nonce: Bytes, store: Store): Store
    requires |nonce| == NONCE_LEN
  {
    var sealed := SealKey(crypto, root, next, nonce);
    store[CommitmentName(cur + 1) := crypto.commit(next)][EkeyName(cur) := sealed][CURRENT := Counter(cur + 1)]
  }

  /** Walking back from `key` at `id` to `target`. */
  function WalkBack(crypto: Crypto, key: Key, id: nat, target: nat, store: Store): Option<Key>
    decreases id
  {
    if target > id then None
    else if target == id then Some(key)
    else
      match Lookup(store, EkeyName(id - 1))
      case None => None
      case Some(data) =>
        match OpenKey(crypto, data, key)
        case None => None
        case Some(child) => WalkBack(crypto, child, id - 1, target, store)
  }

  // ---------------------------------------------------------------------
  // The chain
  // ---------------------------------------------------------------------

  /** `store` holds the chain of the keys `ks`: the counter, every commitment, and
      every key but the last under the next one. */
  ghost predicate Chain(crypto: Crypto, store: Store, ks: seq<Key>) {
    && 0 < |ks| <= Pow(256, 8)
    && (forall i | 0 <= i < |ks| :: Canonical(ks[i]))
    && CurrentId(store) == Some(|ks| - 1)
    && (forall i | 0 <= i < |ks| :: Lookup(store, CommitmentName(i)) == Some(crypto.commit(ks[i])))
    && (forall i | 0 <= i < |ks| - 1 :: Linked(crypto, store, i, ks[i], ks[i + 1]))
  }

  ghost predicate Linked(crypto: Crypto, store: Store, i: nat, child: Key, parent: Key) {
    EkeyName(i) in store && OpenKey(crypto, store[EkeyName(i)], parent) == Some(child)
  }

  lemma {:induction false} StartedChain(crypto: Crypto, root: Key, store: Store)
    requires Canonical(root)
    ensures Chain(crypto, Started(crypto, root, store), [root])
  {
    hide Canonical, Pow, Number, Counter;
    Positive(256, 8);
    NamesDistinct(0, 0);
    CounterBack(0);
  }

  /** Generating a new key extends the chain by it. */
  lemma {:induction false} RotatedChain(crypto: Crypto, store: Store, ks: seq<Key>, next: Key, nonce: Bytes)
    requires Chain(crypto, store, ks) && Canonical(next) && |nonce| == NONCE_LEN && |ks| < Pow(256, 8)
    ensures Chain(crypto, Rotated(crypto, |ks| - 1, ks[|ks| - 1], next, nonce, store), ks + [next])
  {
    hide Canonical, Pow, Number, OpenKey, SealKey, Counter, CommitmentName, EkeyName;
    var cur, root, ks' := |ks| - 1, ks[|ks| - 1], ks + [next];
    var store' := Rotated(crypto, cur, root, next, nonce, store);
    CounterBack(|ks|);
    NamesDistinct(cur + 1, cur);
    OpenSealedKey(crypto, root, next, nonce);
    forall i | 0 <= i < |ks'| ensures Lookup(store', CommitmentName(i)) == Some(crypto.commit(ks'[i])) {
      NamesDistinct(i, cur + 1);
      NamesDistinct(i, cur);
    }
    forall i | 0 <= i < |ks'| - 1 ensures Linked(crypto, store', i, ks'[i], ks'[i + 1]) {
      NamesDistinct(i, cur);
      NamesDistinct(cur + 1, i);
      if i < cur { assert Linked(crypto, store, i, ks[i], ks[i + 1]); }
    }
  }

  /** On a chain every key but the last is stored under the chain key of the next. */
  lemma {:induction false} StoredUnderNext(crypto: Crypto, store: Store, ks: seq<Key>, i: nat)
    requires Chain(crypto, store, ks) && i < |ks| - 1
    ensures EkeyName(i) in store
    ensures DecryptField(crypto.cipher, store[EkeyName(i)], EncryptionKey(crypto.chainKey(ks[i + 1]), [0])) == Ok(ks[i])
  {
    hide DecryptField, EkeyName, Canonical;
    assert Linked(crypto, store, i, ks[i], ks[i + 1]);
  }

  /** What generating a key stores: the old root, which the new key opens, and another
      key exactly when its chain key has the same key stream there. */
  lemma {:induction false} RotationSeals(crypto: Crypto, cur: nat, root: Key, next: Key, nonce: Bytes, store: Store,
                                         other: Key)
    requires |nonce| == NONCE_LEN && Canonical(root)
    ensures var store' := Rotated(crypto, cur, root, next, nonce, store);
      && Lookup(store', CommitmentName(cur + 1)) == Some(crypto.commit(next))
      && (cur + 1 < Pow(256, 8) ==> CurrentId(store') == Some(cur + 1))
      && EkeyName(cur) in store'
      && DecryptField(crypto.cipher, store'[EkeyName(cur)], EncryptionKey(crypto.chainKey(next), [0])) == Ok(root)
      && (OpenKey(crypto, store'[EkeyName(cur)], other) == Some(root) <==>
          forall i | 0 <= i < 32 ::
            crypto.cipher(crypto.chainKey(other), nonce, i) == crypto.cipher(crypto.chainKey(next), nonce, i))
  {
    hide Canonical, DecryptField, OpenKey, SealKey, Counter, CommitmentName, EkeyName, Number, Pow;
    NamesDistinct(cur + 1, cur);
    NamesDistinct(cur, cur);
    OpensUnderParentIff(crypto, root, next, nonce, other);
    if cur + 1 < Pow(256, 8) { CounterBack(cur + 1); }
  }

  /** From the newest key, the walk finds the original key at every earlier id. */
  lemma {:induction false} WalkFindsKey(crypto: Crypto, store: Store, ks: seq<Key>, id: nat, target: nat)
    requires Chain(crypto, store, ks) && target <= id < |ks|
    ensures WalkBack(crypto, ks[id], id, target, store) == Some(ks[target])
  {
    hide OpenKey, EkeyName, Canonical;
    if target < id {
      assert Linked(crypto, store, id - 1, ks[id - 1], ks[id]);
      WalkFindsKey(crypto, store, ks, id - 1, target);
    }
  }

  // ---------------------------------------------------------------------
  // A holder of the current root
  // ---------------------------------------------------------------------

  /** The holder has the newest key, and caches only keys of the chain. */
  ghost predicate Holds(crypto: Crypto, store: Store, ks: seq<Key>, root: Key, keys: map<nat, Key>) {
    && Chain(crypto, store, ks)
    && root == ks[|ks| - 1]
    && forall id | id in keys :: id < |ks| && keys[id] == ks[id]
  }

  function KeyFor(crypto: Crypto, id: nat, root: Key, keys: map<nat, Key>, store: Store): Option<Key> {
    if CurrentId(store).None? then None
    else if id in keys then Some(keys[id])
    else WalkBack(crypto, root, CurrentId(store).value, id, store)
  }

  /** What a holder gets for a key id does not depend on what is cached: the
      original key for every id up to the current one, an error beyond. */
  lemma {:induction false} KeyForIsOriginal(crypto: Crypto, id: nat, root: Key, keys: map<nat, Key>, store: Store,
                                            ks: seq<Key>)
    requires Holds(crypto, store, ks, root, keys)
    ensures KeyFor(crypto, id, root, keys, store) == if id < |ks| then Some(ks[id]) else None
  {
    hide OpenKey, EkeyName, Canonical, CurrentId;
    if id < |ks| && id !in keys { WalkFindsKey(crypto, store, ks, |ks| - 1, id); }
  }

  class SpaceKey {
    var root: Key
    var keys: map<nat, Key>

    constructor Create(crypto: Crypto, root: Key, store: CollectingBuilder)
      requires Canonical(root)
      modifies store
      ensures store.View() == Started(crypto, root, old(store.View()))
      ensures this.root == root && keys == map[0 := root]
      ensures Holds(crypto, store.View(), [root], this.root, keys)
    {
      this.root, keys := root, map[0 := root];
      new;
      ghost var before := store.View();
      store.Put(CommitmentName(0), crypto.commit(root));
      store.Put(CURRENT, Counter(0));
      StartedChain(crypto, root, before);
    }

    constructor FromGroupKey(root: Key)
      ensures this.root == root && keys == map[]
    {
      this.root, keys := root, map[];
    }

    method LoadCurrentId(store: CollectingBuilder) returns (id: Option<nat>)
      ensures id == CurrentId(store.View())
    {
      var data := store.Get(CURRENT);
      id := match data case None => Some(0) case Some(d) => if |d| == 8 then Some(Number(256, d)) else None;
    }

    /** The backward walk, one decryption per step. */
    method Resolve(crypto: Crypto, rootId: nat, target: nat, store: CollectingBuilder) returns (key: Option<Key>)
      ensures key == WalkBack(crypto, root, rootId, target, store.View())
    {
      if target > rootId { return None; }
      var current, id := root, rootId;
      while id > target
        invariant target <= id <= rootId
        invariant WalkBack(crypto, current, id, target, store.View()) ==
          WalkBack(crypto, root, rootId, target, store.View())
      {
        var data := store.Get(EkeyName(id - 1));
        if data.None? { return None; }
        var child := OpenKey(crypto, data.value, current);
        if child.None? { return None; }
        current, id := child.value, id - 1;
      }
      return Some(current);
    }

    method DataKey(crypto: Crypto, id: nat, store: CollectingBuilder) returns (key: Option<Bytes>)
      ensures var k := KeyFor(crypto, id, root, keys, store.View());
        key == if k.None? then None else Some(crypto.dataKey(k.value, id))
    {
      var rootId := LoadCurrentId(store);
      if rootId.None? { return None; }
      var k: Option<Key>;
      if id in keys { k := Some(keys[id]); } else { k := Resolve(crypto, rootId.value, id, store); }
      return if k.None? then None else Some(crypto.dataKey(k.value, id));
    }

    method GenerateGroupKey(crypto: Crypto, next: Key, nonce: Bytes, store: CollectingBuilder)
      returns (commitment: Option<Bytes>)
      requires |nonce| == NONCE_LEN
      modifies store
      ensures var cur := CurrentId(old(store.View()));
        && commitment == (if cur.None? then None else Some(crypto.commit(next)))
        && store.View() == if cur.None? then old(store.View())
             else Rotated(crypto, cur.value, root, next, nonce, old(store.View()))
    {
      var cur := LoadCurrentId(store);
      if cur.None? { return None; }
      store.Put(CommitmentName(cur.value + 1), crypto.commit(next));
      store.Put(EkeyName(cur.value), SealKey(crypto, root, next, nonce));
      store.Put(CURRENT, Counter(cur.value + 1));
      return Some(crypto.commit(next));
    }

    method ApplyNewGroupKey(next: Key, commitment: Bytes, store: CollectingBuilder) returns (ok: bool)
      modifies this
      ensures var id := CurrentId(store.View());
        && ok == (id.Some? && Lookup(store.View(), CommitmentName(id.value)) == Some(commitment))
        && (ok ==> root == next && keys == old(keys)[id.value := next])
        && (!ok ==> root == old(root) && keys == old(keys))
    {
      var id := LoadCurrentId(store);
      if id.None? { return false; }
      var stored := store.Get(CommitmentName(id.value));
      if stored != Some(commitment) { return false; }
      keys := keys[id.value := next];
      root := next;
      return true;
    }

    /** Any number of generate-then-apply rounds by a holder: every step succeeds
        and the holder holds the chain of all keys so far. */
    method Rotate(crypto: Crypto, nexts: seq<Key>, nonces: seq<Bytes>, store: CollectingBuilder,
                  ghost ks: seq<Key>) returns (ok: bool)
      requires Holds(crypto, store.View(), ks, root, keys)
      requires |nexts| == |nonces| && |ks| + |nexts| <= Pow(256, 8)
      requires forall i | 0 <= i < |nexts| :: Canonical(nexts[i]) && |nonces[i]| == NONCE_LEN
      modifies this, store
      ensures ok && Holds(crypto, store.View(), ks + nexts, root, keys)
    {
      hide Canonical, Pow, Chain, Rotated, CurrentId, CommitmentName, Lookup;
      assert ks + nexts[..0] == ks;
      ok := true;
      for n := 0 to |nexts|
        invariant ok && Holds(crypto, store.View(), ks + nexts[..n], root, keys)
      {
        ghost var chain, before := ks + nexts[..n], store.View();
        ChainHead(crypto, before, chain);
        RotatedChain(crypto, before, chain, nexts[n], nonces[n]);
        var commitment := GenerateGroupKey(crypto, nexts[n], nonces[n], store);
        ChainHead(crypto, store.View(), chain + [nexts[n]]);
        ok := ApplyNewGroupKey(nexts[n], commitment.value, store);
        if !ok { return; }
        assert ks + nexts[..n + 1] == chain + [nexts[n]];
      }
      assert nexts[..|nexts|] == nexts;
    }

    method Reduce(before: nat)
      modifies this
      ensures root == old(root) && keys == map id | id in old(keys) && id >= before :: old(keys)[id]
    {
      keys := map id | id in keys && id >= before :: keys[id];
    }

    /** Recovery takes any candidate as the root, drops what was cached and caches
        every key that the candidate opens, walking back; it succeeds exactly when
        the walk reaches id 0.  Only an unreadable counter leaves things as they
        were. */
    method Recover(crypto: Crypto, candidate: Key, store: CollectingBuilder) returns (ok: bool)
      modifies this
      ensures var id := CurrentId(store.View());
        && ok == (id.Some? && WalkBack(crypto, candidate, id.value, 0, store.View()).Some?)
        && (id.None? ==> root == old(root) && keys == old(keys))
        && (id.Some? ==> root == candidate && keys == Reached(crypto, candidate, id.value, 0, store.View()))
    {
      hide CurrentId, WalkBack, Reached;
      var loaded := LoadCurrentId(store);
      if loaded.None? { return false; }
      var rootId := loaded.value;
      root := candidate;
      keys := map[rootId := candidate];
      ReachedSelf(crypto, candidate, rootId, store.View());
      var target := rootId;
      while target > 0
        invariant target <= rootId && root == candidate
        invariant keys == Reached(crypto, candidate, rootId, target, store.View())
        invariant WalkBack(crypto, candidate, rootId, target, store.View()).Some?
      {
        ReachedNext(crypto, candidate, rootId, target - 1, store.View());
        target := target - 1;
        var key := Resolve(crypto, rootId, target, store);
        if key.None? {
          ReachedEnd(crypto, candidate, rootId, target, store.View());
          return false;
        }
        keys := keys[target := key.value];
      }
      return true;
    }

    /** Whether the root is the one committed to; `true` asks for a delivery. */
    method SyncGroupKey(crypto: Crypto, store: CollectingBuilder) returns (needsDelivery: Option<bool>)
      ensures needsDelivery == NeedsDelivery(crypto, root, store.View())
    {
      var id := LoadCurrentId(store);
      if id.None? { return None; }
      var stored := store.Get(CommitmentName(id.value));
      return Some(stored.Some? && stored.value != crypto.commit(root));
    }
  }

  function NeedsDelivery(crypto: Crypto, root: Key, store: Store): Option<bool> {
    match CurrentId(store)
    case None => None
    case Some(id) =>
      var stored := Lookup(store, CommitmentName(id));
      Some(stored.Some? && stored.value != crypto.commit(root))
  }

  /** The keys from id `from` on that `key`, at `id`, opens walking back. */
  ghost function Reached(crypto: Crypto, key: Key, id: nat, from: nat, store: Store): map<nat, Key> {
    map t: nat | from <= t <= id && WalkBack(crypto, key, id, t, store).Some? ::
      WalkBack(crypto, key, id, t, store).value
  }

  lemma {:induction false} ReachedSelf(crypto: Crypto, key: Key, id: nat, store: Store)
    ensures Reached(crypto, key, id, id, store) == map[id := key]
    ensures WalkBack(crypto, key, id, id, store) == Some(key)
  {
  }

  lemma {:induction false} ReachedNext(crypto: Crypto, key: Key, id: nat, t: nat, store: Store)
    requires t < id
    ensures var r, w := Reached(crypto, key, id, t + 1, store), WalkBack(crypto, key, id, t, store);
      Reached(crypto, key, id, t, store) == if w.Some? then r[t := w.value] else r
  {
    hide WalkBack;
  }

  // What does not open at `t` does not open below it.
  lemma {:induction false} WalkStops(crypto: Crypto, key: Key, id: nat, t: nat, below: nat, store: Store)
    requires below <= t <= id && WalkBack(crypto, key, id, t, store).None?
    ensures WalkBack(crypto, key, id, below, store).None?
    decreases id
  {
    hide OpenKey, EkeyName;
    if t < id && EkeyName(id - 1) in store {
      var child := OpenKey(crypto, store[EkeyName(id - 1)], key);
      if child.Some? { WalkStops(crypto, child.value, id - 1, t, below, store); }
    }
  }

  lemma {:induction false} ReachedEnd(crypto: Crypto, key: Key, id: nat, t: nat, store: Store)
    requires t < id && WalkBack(crypto, key, id, t, store).None?
    ensures Reached(crypto, key, id, 0, store) == Reached(crypto, key, id, t + 1, store)
    ensures WalkBack(crypto, key, id, 0, store).None?
  {
    forall below: nat | below <= t ensures WalkBack(crypto, key, id, below, store).None? {
      WalkStops(crypto, key, id, t, below, store);
    }
    hide WalkBack;
  }

  ghost predicate AnswersAll(crypto: Crypto, root: Key, keys: map<nat, Key>, store: Store, ks: seq<Key>) {
    forall id: nat :: KeyFor(crypto, id, root, keys, store) == if id < |ks| then Some(ks[id]) else None
  }

  /** On a chain, recovery gives every id its original key exactly when the candidate
      is the newest key; it then leaves a holder with all keys.  On a chain of one
      key it succeeds with any candidate.  The commitment tells a wrong one unless it
      commits alike. */
  lemma {:induction false} RecoveredHoldsIff(crypto: Crypto, store: Store, ks: seq<Key>, candidate: Key)
    requires Chain(crypto, store, ks)
    ensures var keys := Reached(crypto, candidate, |ks| - 1, 0, store);
      && (AnswersAll(crypto, candidate, keys, store, ks) <==> candidate == ks[|ks| - 1])
      && (candidate == ks[|ks| - 1] ==>
           && Holds(crypto, store, ks, candidate, keys)
           && keys == KeysFrom(ks, 0) && WalkBack(crypto, candidate, |ks| - 1, 0, store).Some?)
      && (|ks| == 1 ==> WalkBack(crypto, candidate, |ks| - 1, 0, store).Some?)
      && NeedsDelivery(crypto, candidate, store) == Some(crypto.commit(candidate) != crypto.commit(ks[|ks| - 1]))
  {
    hide Chain, CurrentId, CommitmentName, WalkBack, Reached, Holds;
    ChainHead(crypto, store, ks);
    var last, keys := |ks| - 1, Reached(crypto, candidate, |ks| - 1, 0, store);
    ReachedSelf(crypto, candidate, last, store);
    ReachedLast(crypto, candidate, last, store);
    assert KeyFor(crypto, last, candidate, keys, store) == Some(candidate);
    if candidate == ks[last] {
      RightCandidate(crypto, store, ks);
      forall id: nat ensures KeyFor(crypto, id, candidate, keys, store) == if id < |ks| then Some(ks[id]) else None {
        KeyForIsOriginal(crypto, id, candidate, keys, store, ks);
      }
    }
  }

  lemma ReachedLast(crypto: Crypto, key: Key, id: nat, store: Store)
    ensures id in Reached(crypto, key, id, 0, store) && Reached(crypto, key, id, 0, store)[id] == key
  {
  }

  lemma {:induction false} RightCandidate(crypto: Crypto, store: Store, ks: seq<Key>)
    requires Chain(crypto, store, ks)
    ensures var keys := Reached(crypto, ks[|ks| - 1], |ks| - 1, 0, store);
      && Holds(crypto, store, ks, ks[|ks| - 1], keys) && keys == KeysFrom(ks, 0)
      && WalkBack(crypto, ks[|ks| - 1], |ks| - 1, 0, store).Some?
  {
    hide Chain, WalkBack;
    ChainHead(crypto, store, ks);
    var last := |ks| - 1;
    forall t: nat | t <= last ensures WalkBack(crypto, ks[last], last, t, store) == Some(ks[t]) {
      WalkFindsKey(crypto, store, ks, last, t);
    }
  }

  /** The keys from id `target` on, by id. */
  ghost function KeysFrom(ks: seq<Key>, target: nat): map<nat, Key> { map id: nat | target <= id < |ks| :: ks[id] }

  lemma ChainHead(crypto: Crypto, store: Store, ks: seq<Key>)
    requires Chain(crypto, store, ks)
    ensures 0 < |ks| && CurrentId(store) == Some(|ks| - 1)
    ensures Lookup(store, CommitmentName(|ks| - 1)) == Some(crypto.commit(ks[|ks| - 1]))
  {
  }

  /** Dropping cached keys changes no answer. */
  lemma {:induction false} ReducedStillHolds(crypto: Crypto, store: Store, ks: seq<Key>, root: Key,
                                             keys: map<nat, Key>, before: nat, id: nat)
    requires Holds(crypto, store, ks, root, keys)
    ensures var fewer := map i | i in keys && i >= before :: keys[i];
      && Holds(crypto, store, ks, root, fewer)
      && KeyFor(crypto, id, root, fewer, store) == KeyFor(crypto, id, root, keys, store)
  {
    hide Chain, CurrentId;
    var fewer := map i | i in keys && i >= before :: keys[i];
    KeyForIsOriginal(crypto, id, root, keys, store, ks);
    KeyForIsOriginal(crypto, id, root, fewer, store, ks);
  }
}

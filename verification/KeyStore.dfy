/** Key-management storage as operations see it: a log of pending writes over a
    base, or a plain map.  Both are the same map to a reader. */
module KeyStore {
  import opened Prelude
  import opened Limbs

  type Store = map<string, Bytes>
  type Writes = seq<(string, Bytes)>

  function Lookup(store: Store, key: string): Option<Bytes> {
    if key in store then Some(store[key]) else None
  }

  /** The base with the writes on top, in order. */
  function Overlaid(base: Store, writes: Writes): Store {
    if writes == [] then base
    else Overlaid(base, writes[..|writes| - 1])[writes[|writes| - 1].0 := writes[|writes| - 1].1]
  }

  /** A read is answered by the newest write of the key, or else by the base. */
  lemma {:induction false} NewestWins(base: Store, writes: Writes, key: string)
    ensures Lookup(Overlaid(base, writes), key)
         == if key in Overlaid(map[], writes) then Some(Overlaid(map[], writes)[key]) else Lookup(base, key)
    ensures key in Overlaid(map[], writes) <==> exists k | 0 <= k < |writes| :: writes[k].0 == key
  {
    if writes != [] {
      NewestWins(base, writes[..|writes| - 1], key);
    }
  }

  // The scan from the newest write back; also the view over pending writes
  // alone, which has nothing to fall back to.
  method Scan(writes: Writes, key: string) returns (found: Option<Bytes>)
    ensures found == Lookup(Overlaid(map[], writes), key)
  {
    var n := |writes|;
    assert writes[..n] == writes;
    while n > 0
      invariant 0 <= n <= |writes|
      invariant Lookup(Overlaid(map[], writes), key) == Lookup(Overlaid(map[], writes[..n]), key)
    {
      n := n - 1;
      assert writes[..n + 1][..n] == writes[..n];
      if writes[n].0 == key { return Some(writes[n].1); }
    }
    return None;
  }

  class CollectingBuilder {
    const base: Store
    var writes: Writes

    function View(): Store
      reads this
    {
      Overlaid(base, writes)
    }

    constructor (base: Store, writes: Writes)
      ensures View() == Overlaid(base, writes)
    {
      this.base, this.writes := base, writes;
    }

    method Get(key: string) returns (found: Option<Bytes>)
      ensures found == Lookup(View(), key)
    {
      NewestWins(base, writes, key);
      found := Scan(writes, key);
      if found.None? { found := Lookup(base, key); }
    }

    method Put(key: string, value: Bytes)
      modifies this
      ensures View() == old(View())[key := value]
    {
      assert (writes + [(key, value)])[..|writes|] == writes;
      writes := writes + [(key, value)];
    }
  }

  class MemoryBuilder {
    var data: Store

    function View(): Store
      reads this
    {
      data
    }

    constructor ()
      ensures View() == map[]
    {
      data := map[];
    }

    method Get(key: string) returns (found: Option<Bytes>)
      ensures found == Lookup(View(), key)
    {
      found := if key in data then Some(data[key]) else None;
    }

    method Put(key: string, value: Bytes)
      modifies this
      ensures View() == old(View())[key := value]
    {
      data := data[key := value];
    }
  }

  /** After the same puts, both builders answer every read alike. */
  method SamePutsSameReads(puts: Writes, key: string) returns (a: Option<Bytes>, b: Option<Bytes>)
    ensures a == b == Lookup(Overlaid(map[], puts), key)
  {
    var log := new CollectingBuilder(map[], []);
    var memory := new MemoryBuilder();
    for k := 0 to |puts|
      invariant fresh(log) && fresh(memory)
      invariant log.View() == memory.View() == Overlaid(map[], puts[..k])
    {
      assert puts[..k + 1][..k] == puts[..k];
      log.Put(puts[k].0, puts[k].1);
      memory.Put(puts[k].0, puts[k].1);
    }
    assert puts[..|puts|] == puts;
    a := log.Get(key);
    b := memory.Get(key);
  }
}

/** The block store: an optional memory cache over an optional disk cache over HTTP.

    Between any two accesses of a caller other goroutines may use the caches.  That every wait
    for them ends is a property of CacheProtocol. */
module BlockStores {
  import opened Blocks
  import opened BufferCaches
  import opened Decimal
  import opened DriveServer
  import opened LruSpec
  import opened Outcomes

  const BLOCK_INFIX: string := ".block."

  /** The name of a block in the disk cache. */
  function BlockCacheKey(k: CacheKey): string {
    k.linkId + BLOCK_INFIX + Itoa(k.index)
  }

  lemma ItoaHasNoDot(n: int)
    ensures '.' !in Itoa(n)
  {
    DigitsRoundTrip(if n < 0 then -n else n);
  }

  lemma NoDotBehind(a: string, b: string)
    requires '.' !in b
    ensures forall i | |a| < i <= |a| + |b| :: (a + ['.'] + b)[i] != '.'
  {
    forall i | |a| < i <= |a| + |b| ensures (a + ['.'] + b)[i] != '.' {
      assert (a + ['.'] + b)[i] == b[i - |a| - 1];
    }
  }

  lemma LastDot(a: string, b: string, a': string, b': string)
    requires a + ['.'] + b == a' + ['.'] + b' && '.' !in b && '.' !in b'
    ensures a == a' && b == b'
  {
    var s := a + ['.'] + b;
    assert s[|a|] == '.' && s[|a'|] == '.';
    NoDotBehind(a, b);
    NoDotBehind(a', b');
    assert s[..|a|] == a && s[..|a'|] == a' && s[|a| + 1..] == b && s[|a'| + 1..] == b';
  }

  lemma ItoaInjective(m: int, n: int)
    requires Itoa(m) == Itoa(n)
    ensures m == n
  {
    var p, q := if m < 0 then -m else m, if n < 0 then -n else n;
    DigitsRoundTrip(p);
    DigitsRoundTrip(q);
    assert IsDigit(Digits(p)[0]) && IsDigit(Digits(q)[0]);
    assert Itoa(m)[0] == '-' <==> m < 0;
    assert Itoa(n)[0] == '-' <==> n < 0;
    if m < 0 {
      assert Itoa(m)[1..] == Digits(p) && Itoa(n)[1..] == Digits(q);
    }
  }

  /** Different blocks have different names in the disk cache, whatever the link identifiers. */
  lemma BlockCacheKeyInjective(k: CacheKey, k': CacheKey)
    requires BlockCacheKey(k) == BlockCacheKey(k')
    ensures k == k'
  {
    ItoaHasNoDot(k.index);
    ItoaHasNoDot(k'.index);
    assert BlockCacheKey(k) == (k.linkId + ".block") + ['.'] + Itoa(k.index);
    assert BlockCacheKey(k') == (k'.linkId + ".block") + ['.'] + Itoa(k'.index);
    LastDot(k.linkId + ".block", Itoa(k.index), k'.linkId + ".block", Itoa(k'.index));
    assert (k.linkId + ".block")[..|k.linkId|] == k.linkId;
    assert (k'.linkId + ".block")[..|k'.linkId|] == k'.linkId;
    ItoaInjective(k.index, k'.index);
  }

  lemma KeyTexts()
    ensures BlockCacheKey(CacheKey("abc", 7)) == "abc.block.7"
    ensures BlockCacheKey(CacheKey("x.block", 120)) == "x.block.block.120"
  {
    assert Digits(12) == "12" && Digits(120) == "120";
  }

  /** What the caches are to hold: on disk the ciphertext that the server has, in memory that or
      the plaintext, depending on the mode. */
  datatype Contents = Contents(disk: CacheKey -> Bytes, memory: CacheKey -> Bytes)

  /** Every block held anywhere is the right one. */
  ghost predicate Coherent(disk: map<string, Bytes>, slots: map<CacheKey, SlotView>, w: Contents) {
    DiskCoherent(disk, w.disk) && SlotsCoherent(slots, w.memory)
  }

  ghost predicate DiskCoherent(disk: map<string, Bytes>, remote: CacheKey -> Bytes) {
    forall k: CacheKey | BlockCacheKey(k) in disk :: disk[BlockCacheKey(k)] == remote(k)
  }

  ghost predicate SlotsCoherent(slots: map<CacheKey, SlotView>, memory: CacheKey -> Bytes) {
    forall k | k in slots && slots[k].Clean? :: slots[k].data == memory(k)
  }

  /** The keys with a fetch under way. */
  ghost function Fetches(slots: map<CacheKey, SlotView>): set<CacheKey> {
    set k | k in slots && slots[k].Fetching?
  }

  /** A cache at its capacity in which every slot is being fetched. */
  ghost predicate Busy(l: Lru) {
    |l.slots| >= l.cap && forall k | k in l.slots :: l.slots[k].Fetching?
  }

  /** The two modes cannot share a memory cache: a cache in order for one is in order for the
      other exactly when the blocks it holds are the same in both. */
  lemma ModesDoNotMix(disk: map<string, Bytes>, slots: map<CacheKey, SlotView>, w: Contents, w': Contents)
    requires Coherent(disk, slots, w) && w.disk == w'.disk
    ensures Coherent(disk, slots, w') <==> forall k | k in slots && slots[k].Clean? :: w.memory(k) == w'.memory(k)
  {
  }

  function Erased(disk: map<string, Bytes>, link: string, blockCount: int): map<string, Bytes> {
    if blockCount <= 0 then disk
    else Erased(disk, link, blockCount - 1) - {BlockCacheKey(CacheKey(link, blockCount))}
  }

  lemma {:induction false} ErasedAt(disk: map<string, Bytes>, link: string, blockCount: int, k: CacheKey)
    ensures var gone := k.linkId == link && 1 <= k.index <= blockCount;
            BlockCacheKey(k) in Erased(disk, link, blockCount) <==> BlockCacheKey(k) in disk && !gone
    ensures BlockCacheKey(k) in Erased(disk, link, blockCount) ==>
              Erased(disk, link, blockCount)[BlockCacheKey(k)] == disk[BlockCacheKey(k)]
  {
    if blockCount > 0 {
      ErasedAt(disk, link, blockCount - 1, k);
      if BlockCacheKey(k) == BlockCacheKey(CacheKey(link, blockCount)) {
        BlockCacheKeyInjective(k, CacheKey(link, blockCount));
      }
    }
  }

  /** After the contents of one link changed on the server, invalidating it restores coherence
      exactly when no stale block lies on disk outside the erased range 1..blockCount. */
  lemma InvalidateRestoresCoherence(disk: map<string, Bytes>, l: Lru, w: Contents, w': Contents,
                                    link: string, blockCount: int)
    requires Coherent(disk, l.slots, w)
    requires forall k: CacheKey | k.linkId != link :: w.disk(k) == w'.disk(k) && w.memory(k) == w'.memory(k)
    ensures Coherent(Erased(disk, link, blockCount), LruSpec.Invalidate(l, link).slots, w') <==>
            forall k: CacheKey | k.linkId == link && BlockCacheKey(k) in disk && w.disk(k) != w'.disk(k) ::
              1 <= k.index <= blockCount
  {
    forall k: CacheKey
      ensures BlockCacheKey(k) in Erased(disk, link, blockCount) <==>
              BlockCacheKey(k) in disk && !(k.linkId == link && 1 <= k.index <= blockCount)
      ensures BlockCacheKey(k) in Erased(disk, link, blockCount) ==>
              Erased(disk, link, blockCount)[BlockCacheKey(k)] == disk[BlockCacheKey(k)]
    {
      ErasedAt(disk, link, blockCount, k);
    }
  }

  lemma DiskWriteCoherent(disk: map<string, Bytes>, k: CacheKey, remote: CacheKey -> Bytes)
    requires DiskCoherent(disk, remote)
    ensures DiskCoherent(disk[BlockCacheKey(k) := remote(k)], remote)
  {
    forall x: CacheKey | BlockCacheKey(x) == BlockCacheKey(k) ensures x == k {
      BlockCacheKeyInjective(x, k);
    }
  }

  // ----- what the operations of the memory cache do to the slots -----

  /** A slot is refused for a key without one exactly when the cache is full of fetches. */
  lemma RefusedWhenBusy(l: Lru, k: CacheKey)
    requires Consistent(l) && k !in l.slots
    ensures !LruSpec.Reserve(l, k).1 <==> Busy(l)
  {
    if l.order != [] { assert IsClean(l.slots, l.order[0]); }
    forall x | x in l.slots && l.slots[x].Clean? ensures x in l.order { assert IsClean(l.slots, x); }
  }

  /** A new slot is being fetched; what is evicted for it is not. */
  lemma ReservedIsFetched(l: Lru, k: CacheKey, memory: CacheKey -> Bytes)
    requires Consistent(l) && SlotsCoherent(l.slots, memory)
    ensures var (l', ok) := LruSpec.Reserve(l, k);
            && SlotsCoherent(l'.slots, memory)
            && Fetches(l'.slots) == (if ok then Fetches(l.slots) + {k} else Fetches(l.slots))
            && (ok ==> k !in l.slots) && (!ok ==> l' == l)
  {
    EvictKeeps(l);
    if l.order != [] { assert IsClean(l.slots, l.order[|l.order| - 1]); }
  }

  /** Putting a block makes its slot clean. */
  lemma PutIsClean(l: Lru, k: CacheKey, memory: CacheKey -> Bytes)
    requires Consistent(l) && SlotsCoherent(l.slots, memory)
    ensures var slots := LruSpec.Put(l, k, memory(k)).slots;
            SlotsCoherent(slots, memory) && k in slots && Fetches(slots) == Fetches(l.slots) - {k}
  {
    EvictKeeps(l);
    if l.order != [] { assert IsClean(l.slots, l.order[|l.order| - 1]); }
  }

  lemma DroppedIsGone(l: Lru, k: CacheKey, memory: CacheKey -> Bytes)
    requires SlotsCoherent(l.slots, memory)
    ensures var slots := LruSpec.PutError(l, k).slots;
            SlotsCoherent(slots, memory) && Fetches(slots) == Fetches(l.slots) - {k}
  {
  }

  class BlockStore {
    const bufCache: BufferCache?  // null when the memory cache is disabled
    const hasDisk: bool
    var disk: map<string, Bytes>

    ghost predicate Valid()
      reads this, bufCache
    {
      (bufCache != null ==> bufCache.Valid()) && (!hasDisk ==> disk == map[])
    }

    /** The memory cache as a value. */
    ghost function Memory(): Lru
      reads bufCache
    {
      if bufCache == null then Lru(map[], [], 0) else bufCache.Abs()
    }

    ghost function Slots(): map<CacheKey, SlotView>
      reads bufCache
    {
      Memory().slots
    }

    /** In order, with the right blocks. */
    ghost predicate Ready(w: Contents)
      reads this, bufCache
    {
      Valid() && Coherent(disk, Slots(), w)
    }

    constructor (cache: BufferCache?, withDisk: bool)
      requires cache != null ==> cache.Valid()
      ensures Valid() && bufCache == cache && hasDisk == withDisk && disk == map[]
    {
      bufCache, hasDisk, disk := cache, withDisk, map[];
    }

    // ----- other goroutines -----

    /** One operation of another goroutine on the memory cache.  Only the owner of a fetch ends
        it, so the slot of mine stays. */
    method OtherOnSlots(w: Contents, mine: Option<CacheKey>)
      requires Ready(w) && bufCache != null && (mine.Some? ==> mine.value in Fetches(Slots()))
      modifies bufCache
      ensures Ready(w) && (mine.Some? ==> mine.value in Fetches(Slots()))
    {
      var link: string, index: int, op: int := *, *, *;
      var k := CacheKey(link, index);
      bufCache.ValidIsConsistent();
      ghost var l := bufCache.Abs();
      if op == 0 {
        var out, ready := bufCache.GetStart(k);
      } else if op == 1 {
        ReservedIsFetched(l, k, w.memory);
        var ok := bufCache.Reserve(k);
      } else if mine != Some(k) {
        if op == 2 {
          PutIsClean(l, k, w.memory);
          bufCache.Put(k, w.memory(k));
        } else if k in bufCache.slots && bufCache.slots[k].state == SlotFetching {
          DroppedIsGone(l, k, w.memory);
          bufCache.PutError(k, FetchFailed);
        }
      }
    }

    /** Another goroutine, or the disk cache itself, adds or removes a block on disk. */
    method OtherOnDisk(w: Contents)
      requires Ready(w)
      modifies `disk
      ensures Ready(w)
    {
      var link: string, index: int, add: bool := *, *, *;
      var k := CacheKey(link, index);
      if !hasDisk { return; }
      if add {
        DiskWriteCoherent(disk, k, w.disk);
        disk := disk[BlockCacheKey(k) := w.disk(k)];
      } else {
        disk := disk - {BlockCacheKey(k)};
      }
    }

    /** Any number of operations of other goroutines, whose requests to the server may fail. */
    method Others(server: Server, w: Contents, mine: Option<CacheKey>)
      requires Ready(w) && (mine.Some? ==> mine.value in Fetches(Slots()))
      modifies `disk, bufCache, server`faults
      ensures Ready(w) && (mine.Some? ==> mine.value in Fetches(Slots()))
      ensures server.faults >= old(server.faults)
    {
      var steps: int := *;
      for i := 0 to if steps < 0 then 0 else steps
        invariant Ready(w) && (mine.Some? ==> mine.value in Fetches(Slots()))
        invariant server.faults >= old(server.faults)
      {
        OtherOnDisk(w);
        if bufCache != null { OtherOnSlots(w, mine); }
        server.OtherFaults();
      }
    }

    // ----- reading -----

    /** The block from disk, or from the server, which the disk cache then may take. */
    method FetchBlock(k: CacheKey, server: Server, token: nat) returns (r: Result<Bytes, FetchError>)
      requires Valid() && token in server.blobs
      modifies `disk, server`faults
      ensures Valid()
      ensures var key := BlockCacheKey(k);
              if key in old(disk) then
                r == Ok(old(disk)[key]) && disk == old(disk) && server.faults == old(server.faults)
              else if r.Ok? then
                && r.value == server.blobs[token] && server.faults == old(server.faults)
                && (disk == old(disk) || (hasDisk && disk == old(disk)[key := r.value]))
              else
                disk == old(disk) && server.faults > old(server.faults)
    {
      var key := BlockCacheKey(k);
      if hasDisk && key in disk { return Ok(disk[key]); }
      var data := server.GetBlock(token);
      if data.None? { return Err(FetchFailed); }
      var written: bool := *;
      if hasDisk && written { disk := disk[key := data.value]; }
      return Ok(data.value);
    }

    /** What becomes of a fetched block before it goes into the memory cache: it stays as it is,
        or it is deciphered. */
    ghost predicate Decodes(decode: Bytes -> Option<Bytes>, k: CacheKey, w: Contents) {
      decode(w.disk(k)).Some? ==> decode(w.disk(k)).value == w.memory(k)
    }

    /** Fetches and decodes a block, while others go on. */
    method FetchDecode(k: CacheKey, server: Server, token: nat, decode: Bytes -> Option<Bytes>, others: bool, w: Contents,
                       mine: Option<CacheKey>)
      returns (r: Result<Bytes, FetchError>)
      requires Ready(w) && (mine.Some? ==> mine.value in Fetches(Slots()))
      requires token in server.blobs && server.blobs[token] == w.disk(k) && Decodes(decode, k, w)
      modifies `disk, bufCache, server`faults
      ensures Ready(w) && (mine.Some? ==> mine.value in Fetches(Slots())) && server.faults >= old(server.faults)
      ensures r.Ok? ==> r.value == w.memory(k)
      ensures r.Err? ==> server.faults > old(server.faults) || decode(w.disk(k)).None?
      ensures !others ==> (bufCache != null ==> unchanged(bufCache))
      ensures !others ==> (BlockCacheKey(k) in old(disk) ==> server.faults == old(server.faults))
    {
      if others { Others(server, w, mine); }
      DiskWriteCoherent(disk, k, w.disk);
      var data := FetchBlock(k, server, token);
      if others { Others(server, w, mine); }
      if data.Err? { return data; }
      var decoded := decode(data.value);
      return if decoded.Some? then Ok(decoded.value) else Err(FetchFailed);
    }

    /** A lookup in the memory cache, which waits while another goroutine fetches the block. */
    method Lookup(k: CacheKey, server: Server, others: bool, w: Contents) returns (data: Option<Bytes>)
      requires Ready(w) && bufCache != null && (!others ==> k !in Fetches(Slots()))
      modifies `disk, bufCache, server`faults
      ensures Ready(w) && server.faults >= old(server.faults)
      ensures data.Some? ==> data.value == w.memory(k)
      ensures !others ==> Slots() == old(Slots()) && disk == old(disk) && server.faults == old(server.faults)
      ensures !others ==> (data.Some? <==> k in Slots())
    {
      var out, ready := bufCache.GetStart(k);
      data := None;
      if out.Hit? { data := Some(out.data); }
      if out.Wait? { data := WaitFor(k, server, w); }
    }

    /** Others go on until the caller is woken, and perhaps some more. */
    method WaitFor(k: CacheKey, server: Server, w: Contents) returns (data: Option<Bytes>)
      requires Ready(w) && bufCache != null
      modifies `disk, bufCache, server`faults
      ensures Ready(w) && server.faults >= old(server.faults)
      ensures data.Some? ==> data.value == w.memory(k)
    {
      Others(server, w, None);
      var out := bufCache.GetResume(k);
      return if out.Hit? then Some(out.data) else None;
    }

    /** What a caller without others around can tell: a block with a copy at hand comes without
        the server, and a block that was obtained is then in the memory cache exactly when it was
        there or the cache had a slot to give. */
    ghost predicate Alone(k: CacheKey, r: Result<Bytes, FetchError>, l: Lru, disk0: map<string, Bytes>, asked: bool)
      reads this, bufCache
    {
      && Fetches(Slots()) == Fetches(l.slots)
      && (k in l.slots || BlockCacheKey(k) in disk0 ==> !asked)
      && (bufCache != null && r.Ok? ==> (k in Slots() <==> k in l.slots || !Busy(l)))
    }

    /** A block through the memory cache: found, waited for, or fetched into a slot of the caller's
        own; without a slot it is fetched past the cache.  Other goroutines may fetch any blocks
        meanwhile, the same one included. */
    method GetDecoded(k: CacheKey, server: Server, token: nat, decode: Bytes -> Option<Bytes>, others: bool, w: Contents)
      returns (r: Result<Bytes, FetchError>)
      requires Ready(w) && (!others ==> k !in Fetches(Slots()))
      requires token in server.blobs && server.blobs[token] == w.disk(k) && Decodes(decode, k, w)
      modifies `disk, bufCache, server`faults
      ensures Ready(w) && server.faults >= old(server.faults)
      ensures r.Ok? ==> r.value == w.memory(k)
      ensures r.Err? ==> server.faults > old(server.faults) || decode(w.disk(k)).None?
      ensures !others ==> Alone(k, r, old(Memory()), old(disk), server.faults > old(server.faults))
    {
      if bufCache != null {
        var data := Lookup(k, server, others, w);
        if data.Some? { return Ok(data.value); }
        if others { Others(server, w, None); }
        r := GetMissing(k, server, token, decode, others, w);
      } else {
        r := FetchDecode(k, server, token, decode, others, w, None);
      }
    }

    /** After a miss. */
    method GetMissing(k: CacheKey, server: Server, token: nat, decode: Bytes -> Option<Bytes>, others: bool, w: Contents)
      returns (r: Result<Bytes, FetchError>)
      requires Ready(w) && bufCache != null && (!others ==> k !in Slots())
      requires token in server.blobs && server.blobs[token] == w.disk(k) && Decodes(decode, k, w)
      modifies `disk, bufCache, server`faults
      ensures Ready(w) && server.faults >= old(server.faults)
      ensures r.Ok? ==> r.value == w.memory(k)
      ensures r.Err? ==> server.faults > old(server.faults) || decode(w.disk(k)).None?
      ensures !others ==> Alone(k, r, old(Memory()), old(disk), server.faults > old(server.faults))
    {
      bufCache.ValidIsConsistent();
      ReservedIsFetched(bufCache.Abs(), k, w.memory);
      if k !in Slots() { RefusedWhenBusy(bufCache.Abs(), k); }
      var reserved := bufCache.Reserve(k);
      if reserved {
        r := FetchReserved(k, server, token, decode, others, w);
        return;
      }
      var data := Lookup(k, server, others, w);
      if data.Some? { return Ok(data.value); }
      r := FetchDecode(k, server, token, decode, others, w, None);
    }

    /** Fills the slot the caller owns, or gives it up. */
    method FetchReserved(k: CacheKey, server: Server, token: nat, decode: Bytes -> Option<Bytes>, others: bool, w: Contents)
      returns (r: Result<Bytes, FetchError>)
      requires Ready(w) && bufCache != null && k in Fetches(Slots())
      requires token in server.blobs && server.blobs[token] == w.disk(k) && Decodes(decode, k, w)
      modifies `disk, bufCache, server`faults
      ensures Ready(w) && server.faults >= old(server.faults)
      ensures r.Ok? ==> r.value == w.memory(k) && k in Slots()
      ensures r.Err? ==> server.faults > old(server.faults) || decode(w.disk(k)).None?
      ensures !others ==> Fetches(Slots()) == old(Fetches(Slots())) - {k}
      ensures !others ==> (BlockCacheKey(k) in old(disk) ==> server.faults == old(server.faults))
      ensures !others ==> (r.Err? ==> k !in Slots())
    {
      r := FetchDecode(k, server, token, decode, others, w, Some(k));
      bufCache.ValidIsConsistent();
      if r.Err? {
        DroppedIsGone(bufCache.Abs(), k, w.memory);
        bufCache.PutError(k, r.error);
      } else {
        PutIsClean(bufCache.Abs(), k, w.memory);
        bufCache.Put(k, r.value);
      }
    }

    /** The ciphertext of a block, in the mode that keeps ciphertext in memory. */
    method GetBlock(k: CacheKey, server: Server, token: nat, others: bool, w: Contents)
      returns (r: Result<Bytes, FetchError>)
      requires Ready(w) && (!others ==> k !in Fetches(Slots()))
      requires token in server.blobs && server.blobs[token] == w.disk(k) == w.memory(k)
      modifies `disk, bufCache, server`faults
      ensures Ready(w) && server.faults >= old(server.faults)
      ensures r.Ok? ==> r.value == server.blobs[token]
      ensures r.Err? ==> server.faults > old(server.faults)
      ensures !others ==> Alone(k, r, old(Memory()), old(disk), server.faults > old(server.faults))
    {
      r := GetDecoded(k, server, token, data => Some(data), others, w);
    }

    /** Forgets the blocks of a link: all in memory, and those numbered 1..blockCount on disk. */
    method Invalidate(link: string, blockCount: int)
      requires Valid()
      modifies this`disk, bufCache
      ensures Valid()
      ensures bufCache != null ==> bufCache.Abs() == LruSpec.Invalidate(old(bufCache.Abs()), link)
      ensures disk == if hasDisk then Erased(old(disk), link, blockCount) else old(disk)
    {
      if bufCache != null { bufCache.Invalidate(link); }
      if hasDisk && blockCount > 0 {
        for i := 1 to blockCount + 1
          invariant Valid() && disk == Erased(old(disk), link, i - 1)
          invariant bufCache != null ==> bufCache.Abs() == LruSpec.Invalidate(old(bufCache.Abs()), link)
        {
          disk := disk - {BlockCacheKey(CacheKey(link, i))};
        }
      }
    }
  }
}

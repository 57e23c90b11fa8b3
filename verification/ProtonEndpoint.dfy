/** Drive files as block sources and destinations of a copy. */
module ProtonEndpoints {
  import opened Blocks
  import opened BlockStores
  import opened DriveServer
  import opened FileDescriptors
  import opened FiniteSets
  import opened LruSpec
  import opened Outcomes

  /** The plaintext written so far: for every index, the latest block that was uploaded. */
  ghost predicate UploadsHold(c: Crypto, blobs: map<nat, Bytes>, uploaded: map<nat, UploadedBlock>, sent: map<nat, Bytes>) {
    && sent.Keys == uploaded.Keys
    && forall i | i in uploaded :: UploadOf(c, blobs, uploaded[i], sent[i])
  }

  /** Some blocks of d were written, and nothing else. */
  ghost predicate BlocksSent(sent: map<nat, Bytes>, d: Bytes) {
    forall i | i in sent :: i < BlockCount(|d|) && sent[i] == Block(d, i)
  }

  /** No block is missing before the last one that was written. */
  ghost predicate NoGap(sent: map<nat, Bytes>) {
    forall i: nat, k | k in sent && i < k :: i in sent
  }

  /** Without a gap the indexes are 0 .. n - 1 for n blocks, which is what the commit checks. */
  lemma GaplessKeys(sent: map<nat, Bytes>, uploaded: map<nat, UploadedBlock>)
    requires sent.Keys == uploaded.Keys
    ensures |sent| == |uploaded|
    ensures NoGap(sent) <==> Contiguous(uploaded)
    ensures NoGap(sent) ==> forall i: nat :: i in sent <==> i < |sent|
  {
    assert |sent| == |sent.Keys| && |uploaded| == |uploaded.Keys|;
    RangeSize(|sent|);
    ContiguousKeys(uploaded);
    if NoGap(sent) {
      GaplessSize(sent.Keys, |sent|);
    }
  }

  lemma {:induction false} GaplessSize(keys: set<nat>, n: nat)
    requires |keys| == n && forall i: nat, k | k in keys && i < k :: i in keys
    ensures keys == Range(n)
  {
    RangeSize(n);
    if i: nat :| i < n && i !in keys {
      RangeSize(i);
      assert keys <= Range(i);
      SubsetSize(keys, Range(i));
      assert false;
    } else {
      assert Range(n) <= keys;
      SubsetSize(Range(n), keys);
    }
  }

  /** The file made of the first m blocks. */
  function FirstPart(d: Bytes, m: nat): Bytes {
    d[..Min(m * BLOCK_SIZE, |d|)]
  }

  lemma FirstPartBlocks(d: Bytes, m: nat, i: nat)
    requires i < m <= BlockCount(|d|)
    ensures Block(FirstPart(d, m), i) == Block(d, i)
  {
    var e := FirstPart(d, m);
    assert (i + 1) * BLOCK_SIZE <= m * BLOCK_SIZE;
    assert Min((i + 1) * BLOCK_SIZE, |e|) == Min((i + 1) * BLOCK_SIZE, |d|);
  }

  lemma FirstPartCount(d: Bytes, m: nat)
    requires m <= BlockCount(|d|)
    ensures BlockCount(|FirstPart(d, m)|) == m
    ensures m == BlockCount(|d|) ==> FirstPart(d, m) == d
  {
  }

  lemma SentCount(sent: map<nat, Bytes>, d: Bytes, m: nat)
    requires BlocksSent(sent, d) && forall i: nat :: i in sent <==> i < m
    ensures m <= BlockCount(|d|)
  {
    if m > 0 { assert m - 1 in sent; }
  }

  lemma FirstSentTokens(c: Crypto, blobs: map<nat, Bytes>, uploaded: map<nat, UploadedBlock>, sent: map<nat, Bytes>,
                        d: Bytes, m: nat)
    requires UploadsHold(c, blobs, uploaded, sent) && BlocksSent(sent, d) && forall i: nat :: i in sent <==> i < m
    ensures m <= BlockCount(|d|) && TokensHold(c, blobs, uploaded, FirstPart(d, m))
  {
    SentCount(sent, d, m);
    FirstPartCount(d, m);
    forall i | i in uploaded ensures UploadOf(c, blobs, uploaded[i], Block(FirstPart(d, m), i)) {
      FirstPartBlocks(d, m, i);
    }
  }

  lemma UploadsStay(c: Crypto, blobs: map<nat, Bytes>, blobs': map<nat, Bytes>, uploaded: map<nat, UploadedBlock>,
                    sent: map<nat, Bytes>)
    requires UploadsHold(c, blobs, uploaded, sent)
    requires forall t | t in blobs :: t in blobs' && blobs'[t] == blobs[t]
    ensures UploadsHold(c, blobs', uploaded, sent)
  {
    forall i | i in uploaded ensures UploadOf(c, blobs', uploaded[i], sent[i]) {
      assert UploadOf(c, blobs, uploaded[i], sent[i]);
    }
  }

  class ProtonWriter {
    const server: Server
    const crypto: Crypto
    var uploaded: map<nat, UploadedBlock>
    var totalSize: nat
    var closed: bool
    ghost var sent: map<nat, Bytes>

    ghost predicate Valid()
      reads this, server
    {
      server.Valid() && Sound(crypto) && UploadsHold(crypto, server.blobs, uploaded, sent)
    }

    constructor (s: Server, c: Crypto)
      requires s.Valid() && Sound(c)
      ensures Valid() && server == s && crypto == c && !closed && sent == map[]
    {
      server, crypto, uploaded, totalSize, closed, sent := s, c, map[], 0, false, map[];
    }

    /** Encrypts and uploads a block; blocks may come in any order. */
    method WriteBlock(index: nat, data: Bytes) returns (err: Option<IoError>)
      requires Valid()
      modifies `uploaded, `totalSize, `sent, server
      ensures Valid() && server.active == old(server.active) && server.faults >= old(server.faults)
      ensures err.None? ==> sent == old(sent)[index := data] && totalSize == old(totalSize) + |data|
      ensures err.Some? ==> sent == old(sent) && totalSize == old(totalSize) && server.faults > old(server.faults)
    {
      var nonce: nat := *;
      var encData := crypto.encrypt(data, nonce);
      Deciphered(crypto, data, nonce);
      var token := server.UploadBlock(encData);
      UploadsStay(crypto, old(server.blobs), server.blobs, uploaded, sent);
      if token.None? { return Some(Failed); }
      uploaded := uploaded[index := UploadedBlock(token.value, crypto.hash(encData), |data|)];
      totalSize := totalSize + |data|;
      sent := sent[index := data];
      return None;
    }

    /** Commits what was uploaded, once.  Any of a file's blocks may have arrived.  With a gap
        between them the commit is refused; otherwise a successful close has committed exactly
        the file made of them: all of it when nothing is missing, and a truncated one when the
        last blocks failed.  Closing again does nothing and reports success, also after a failed
        commit. */
    method Close(ghost d: Bytes) returns (err: Option<IoError>)
      requires Valid() && BlocksSent(sent, d)
      modifies `closed, server
      ensures Valid() && closed
      ensures old(closed) || sent == map[] ==> err == None && server.active == old(server.active)
      ensures !old(closed) && !NoGap(sent) ==>
                && err.Some? && err.value.MissingBlock? && err.value.index !in sent
                && server.active == old(server.active)
      ensures !old(closed) && NoGap(sent) && sent != map[] && err.None? ==>
                server.active.Some? && RevisionHolds(crypto, server.blobs, server.active.value, FirstPart(d, |sent|))
      ensures NoGap(sent) && err.Some? ==> server.active == old(server.active) && server.faults > old(server.faults)
    {
      if closed { return None; }
      closed := true;
      GaplessKeys(sent, uploaded);
      if NoGap(sent) {
        FirstSentTokens(crypto, server.blobs, uploaded, sent, d, |sent|);
        CommitHolds(crypto, server.blobs, uploaded, FirstPart(d, |sent|));
      }
      err := CommitRevisionFromTokens(server, uploaded, false);
    }
  }

  /** What the first blocks make up: the whole file exactly when none is missing. */
  lemma WholeFirstPart(sent: map<nat, Bytes>, d: Bytes)
    requires BlocksSent(sent, d) && NoGap(sent)
    ensures |sent| <= BlockCount(|d|)
    ensures FirstPart(d, |sent|) == d <==> forall i: nat | i < BlockCount(|d|) :: i in sent
  {
    assert |sent| == |sent.Keys|;
    GaplessSize(sent.Keys, |sent|);
    RangeSize(|sent|);
    SentCount(sent, d, |sent|);
    FirstPartCount(d, |sent|);
    if |sent| < BlockCount(|d|) { assert |sent| !in sent; }
  }

  class ProtonReader {
    const server: Server
    const crypto: Crypto
    const store: BlockStore
    const linkId: string
    const blocks: seq<BlockToken>
    const fileSize: int
    const blockSizes: seq<nat>
    const nBlocks: nat

    /** The number of blocks comes from the block list, else from the recorded sizes, else from
        the file size. */
    constructor (s: Server, c: Crypto, st: BlockStore, link: string, bs: seq<BlockToken>, size: int, sizes: seq<nat>)
      ensures server == s && crypto == c && store == st && linkId == link
      ensures blocks == bs && fileSize == size && blockSizes == sizes
      ensures nBlocks == if bs != [] then |bs| else if sizes != [] then |sizes| else BlockCount(size)
    {
      server, crypto, store, linkId, blocks, fileSize, blockSizes := s, c, st, link, bs, size, sizes;
      var n := |bs|;
      if n == 0 { n := |sizes|; }
      if n == 0 { n := BlockCount(size); }
      nBlocks := n;
    }

    function BlockSize(index: nat): nat {
      if index < |blockSizes| then blockSizes[index] else BlockLength(fileSize, index)
    }

    /** The store is in order, and keeps this file's ciphertext in both its caches. */
    ghost predicate Ready(w: Contents)
      reads store, store.bufCache, server`blobs
    {
      store.Ready(w) && HoldsCiphertext(w, server.blobs, linkId, blocks)
    }

    /** At most n bytes of block index, while other goroutines use the store. */
    method ReadBlock(index: nat, n: nat, w: Contents) returns (r: Result<Bytes, IoError>)
      requires Ready(w)
      modifies server`faults, store`disk, store.bufCache
      ensures Ready(w) && server.faults >= old(server.faults)
      ensures index >= |blocks| ==> r == Err(OutOfRange(index)) && server.faults == old(server.faults)
      ensures r.Ok? ==> index < |blocks|
                        && var plain := crypto.decrypt(server.blobs[blocks[index].token]);
                           plain.Some? && r.value == plain.value[..Min(n, |plain.value|)]
      ensures index < |blocks| && r.Err? ==>
                server.faults > old(server.faults) || crypto.decrypt(server.blobs[blocks[index].token]).None?
    {
      if index >= |blocks| { return Err(OutOfRange(index)); }
      var encrypted := store.GetBlock(CacheKey(linkId, index + 1), server, blocks[index].token, true, w);
      if encrypted.Err? { return Err(Failed); }
      var plain := crypto.decrypt(encrypted.value);
      if plain.None? { return Err(Failed); }
      return Ok(plain.value[..Min(n, |plain.value|)]);
    }
  }

  ghost predicate HoldsCiphertext(w: Contents, blobs: map<nat, Bytes>, linkId: string, blocks: seq<BlockToken>) {
    forall i: nat | i < |blocks| ::
      var k := CacheKey(linkId, i + 1);
      blocks[i].token in blobs && w.disk(k) == blobs[blocks[i].token] == w.memory(k)
  }

  lemma {:induction false} LengthsAt(size: nat, n: nat, i: nat)
    requires i < n
    ensures FirstLengths(size, n)[i] == BlockLength(size, i)
  {
    if i < n - 1 { LengthsAt(size, n - 1, i); }
  }

  /** Copying block i of a committed file into memory, as a worker of the pipeline does. */
  method ReadCommitted(server: Server, crypto: Crypto, store: BlockStore, link: string, rev: Revision, ghost d: Bytes,
                       i: nat, w: Contents)
    returns (r: Result<Bytes, IoError>)
    requires server.Valid() && RevisionHolds(crypto, server.blobs, rev, d) && i < BlockCount(|d|)
    requires store.Ready(w) && HoldsCiphertext(w, server.blobs, link, rev.blocks)
    modifies server`faults, store`disk, store.bufCache
    ensures store.Ready(w)
    ensures r.Ok? ==> r.value == Block(d, i)
    ensures r.Err? ==> server.faults > old(server.faults)
  {
    var reader := new ProtonReader(server, crypto, store, link, rev.blocks, rev.totalSize, rev.sizes);
    LengthsAt(|d|, BlockCount(|d|), i);
    assert Deciphers(crypto, server.blobs, rev.blocks[i].token, Block(d, i));
    var n := reader.BlockSize(i);
    r := reader.ReadBlock(i, n, w);
  }
}

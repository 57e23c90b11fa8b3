/** File descriptors of a Drive file: buffered writes with background uploads, the ordered
    commit of a revision, and reads over the committed blocks. */
module FileDescriptors {
  import opened Blocks
  import opened BlockStores
  import opened BlockWriter
  import opened DriveServer
  import opened FiniteSets
  import opened LruSpec
  import opened Outcomes

  /** What an upload leaves behind for the commit. */
  datatype UploadedBlock = UploadedBlock(token: nat, encHash: Bytes, rawSize: nat)

  datatype Mode = ReadMode | WriteMode

  /** What a reader keeps in the memory cache: the ciphertext of a block or its plaintext. */
  datatype Strategy = Encrypted | Decrypted

  // ----- committing -----

  /** What the commit checks: the indexes 0 .. n - 1 are all there. */
  predicate Contiguous(tokens: map<nat, UploadedBlock>) {
    forall i: nat | i < |tokens| :: i in tokens
  }

  /** Passing the check means that the keys are exactly 0 .. n - 1. */
  lemma ContiguousKeys(tokens: map<nat, UploadedBlock>)
    ensures Contiguous(tokens) <==> tokens.Keys == Range(|tokens|)
  {
    RangeSize(|tokens|);
    if Contiguous(tokens) {
      SubsetSize(Range(|tokens|), tokens.Keys);
    }
  }

  /** The first n blocks of the manifest. */
  function Manifest(tokens: map<nat, UploadedBlock>, n: nat): Bytes
    requires forall i: nat | i < n :: i in tokens
  {
    if n == 0 then [] else Manifest(tokens, n - 1) + tokens[n - 1].encHash
  }

  /** The manifest is the hashes of the blocks one behind the other, in index order. */
  lemma {:induction false} ManifestIsHashes(tokens: map<nat, UploadedBlock>, n: nat) returns (hashes: seq<Bytes>)
    requires forall i: nat | i < n :: i in tokens
    ensures |hashes| == n && Manifest(tokens, n) == Concat(hashes)
    ensures forall i: nat | i < n :: hashes[i] == tokens[i].encHash
  {
    hashes := [];
    if n > 0 {
      var first := ManifestIsHashes(tokens, n - 1);
      ConcatSnoc(first, tokens[n - 1].encHash);
      hashes := first + [tokens[n - 1].encHash];
    }
  }

  function Sizes(tokens: map<nat, UploadedBlock>, n: nat): (ss: seq<nat>)
    requires forall i: nat | i < n :: i in tokens
    ensures |ss| == n
  {
    if n == 0 then [] else Sizes(tokens, n - 1) + [tokens[n - 1].rawSize]
  }

  function Tokens(tokens: map<nat, UploadedBlock>, n: nat): (ts: seq<BlockToken>)
    requires forall i: nat | i < n :: i in tokens
    ensures |ts| == n
  {
    if n == 0 then [] else Tokens(tokens, n - 1) + [BlockToken(n, tokens[n - 1].token)]
  }

  lemma {:induction false} TokensAt(tokens: map<nat, UploadedBlock>, n: nat, i: nat)
    requires (forall k: nat | k < n :: k in tokens) && i < n
    ensures Tokens(tokens, n)[i] == BlockToken(i + 1, tokens[i].token)
  {
    if i < n - 1 { TokensAt(tokens, n - 1, i); }
  }

  function RevisionOf(tokens: map<nat, UploadedBlock>): Revision
    requires Contiguous(tokens)
  {
    FirstTokens(tokens, |tokens|)
  }

  /** Builds the ordered block list, sizes and manifest, and makes the revision active. */
  method CommitRevisionFromTokens(server: Server, tokens: map<nat, UploadedBlock>, allowEmpty: bool)
    returns (err: Option<IoError>)
    requires server.Valid()
    modifies server
    ensures server.Valid() && server.blobs == old(server.blobs) && server.faults >= old(server.faults)
    ensures |tokens| == 0 && !allowEmpty ==>
              err == None && server.active == old(server.active) && server.faults == old(server.faults)
    ensures |tokens| > 0 || allowEmpty ==>
              if !Contiguous(tokens) then
                && err.Some? && err.value.MissingBlock? && err.value.index !in tokens
                && server.active == old(server.active)
              else if server.faults > old(server.faults) then
                err == Some(Failed) && server.active == old(server.active)
              else
                err == None && server.active == Some(RevisionOf(tokens))
  {
    var nBlocks := |tokens|;
    if nBlocks == 0 && !allowEmpty { return None; }
    var blockTokens: seq<BlockToken> := [];
    var blockSizes: seq<nat> := [];
    var manifestData: Bytes := [];
    var totalSize := 0;
    for i := 0 to nBlocks
      invariant forall k: nat | k < i :: k in tokens
      invariant blockTokens == Tokens(tokens, i) && blockSizes == Sizes(tokens, i)
      invariant manifestData == Manifest(tokens, i) && totalSize == Sum(blockSizes)
    {
      if i !in tokens { return Some(MissingBlock(i)); }
      var ub := tokens[i];
      blockTokens := blockTokens + [BlockToken(i + 1, ub.token)];
      assert (blockSizes + [ub.rawSize])[..i] == blockSizes;
      blockSizes := blockSizes + [ub.rawSize];
      manifestData := manifestData + ub.encHash;
      totalSize := totalSize + ub.rawSize;
    }
    var sealed := server.Seal();
    if !sealed { return Some(Failed); }
    var ok := server.UpdateRevision(Revision(blockTokens, blockSizes, totalSize, manifestData));
    return if ok then None else Some(Failed);
  }

  // ----- what a revision stands for -----

  /** A stored block deciphers to the given plaintext. */
  ghost predicate Deciphers(c: Crypto, blobs: map<nat, Bytes>, token: nat, data: Bytes) {
    token in blobs && c.decrypt(blobs[token]) == Some(data)
  }

  function FirstHashes(c: Crypto, blobs: map<nat, Bytes>, blocks: seq<BlockToken>): Bytes
    requires forall k | 0 <= k < |blocks| :: blocks[k].token in blobs
  {
    if blocks == [] then []
    else FirstHashes(c, blobs, blocks[..|blocks| - 1]) + c.hash(blobs[blocks[|blocks| - 1].token])
  }

  /** The revision holds exactly the file d: its blocks in index order are the blocks of d, its
      sizes are theirs and add up to |d|, and its manifest lists their hashes in that order. */
  ghost predicate RevisionHolds(c: Crypto, blobs: map<nat, Bytes>, rev: Revision, d: Bytes) {
    && |rev.blocks| == BlockCount(|d|)
    && (forall i: nat | i < |rev.blocks| ::
          rev.blocks[i].index == i + 1 && Deciphers(c, blobs, rev.blocks[i].token, Block(d, i)))
    && rev.sizes == FirstLengths(|d|, BlockCount(|d|))
    && rev.totalSize == |d|
    && rev.manifest == FirstHashes(c, blobs, rev.blocks)
  }

  /** The tokens collected for a file: for every block one upload of that block's bytes. */
  ghost predicate TokensHold(c: Crypto, blobs: map<nat, Bytes>, tokens: map<nat, UploadedBlock>, d: Bytes) {
    && (forall i | i in tokens :: i < BlockCount(|d|))
    && (forall i: nat | i < BlockCount(|d|) :: i in tokens)
    && (forall i | i in tokens :: UploadOf(c, blobs, tokens[i], Block(d, i)))
  }

  ghost predicate UploadOf(c: Crypto, blobs: map<nat, Bytes>, ub: UploadedBlock, data: Bytes) {
    Deciphers(c, blobs, ub.token, data) && ub.rawSize == |data| && Hashed(c, blobs, ub)
  }

  predicate Hashed(c: Crypto, blobs: map<nat, Bytes>, ub: UploadedBlock) {
    ub.token in blobs && ub.encHash == c.hash(blobs[ub.token])
  }

  lemma CommitHolds(c: Crypto, blobs: map<nat, Bytes>, tokens: map<nat, UploadedBlock>, d: Bytes)
    requires TokensHold(c, blobs, tokens, d)
    ensures Contiguous(tokens) && |tokens| == BlockCount(|d|)
    ensures RevisionHolds(c, blobs, RevisionOf(tokens), d)
  {
    var n := BlockCount(|d|);
    TokensAreContiguous(tokens, n);
    assert RevisionOf(tokens) == FirstTokens(tokens, n);
    FirstTokensHold(c, blobs, tokens, d, n);
  }

  function FirstTokens(tokens: map<nat, UploadedBlock>, n: nat): Revision
    requires forall i: nat | i < n :: i in tokens
  {
    Revision(Tokens(tokens, n), Sizes(tokens, n), Sum(Sizes(tokens, n)), Manifest(tokens, n))
  }

  lemma FirstTokensHold(c: Crypto, blobs: map<nat, Bytes>, tokens: map<nat, UploadedBlock>, d: Bytes, n: nat)
    requires TokensHold(c, blobs, tokens, d) && n == BlockCount(|d|)
    ensures RevisionHolds(c, blobs, FirstTokens(tokens, n), d)
  {
    CommittedParts(c, blobs, tokens, d, n);
    CommittedBlocks(c, blobs, tokens, d, n);
    PartsHold(c, blobs, FirstTokens(tokens, n), d);
  }

  lemma PartsHold(c: Crypto, blobs: map<nat, Bytes>, rev: Revision, d: Bytes)
    requires |rev.blocks| == BlockCount(|d|)
    requires rev.sizes == FirstLengths(|d|, |rev.blocks|) && rev.totalSize == Sum(rev.sizes)
    requires forall i: nat | i < |rev.blocks| ::
               rev.blocks[i].index == i + 1 && Deciphers(c, blobs, rev.blocks[i].token, Block(d, i))
    requires forall k | 0 <= k < |rev.blocks| :: rev.blocks[k].token in blobs
    requires rev.manifest == FirstHashes(c, blobs, rev.blocks)
    ensures RevisionHolds(c, blobs, rev, d)
  {
    LengthsAddUp(|d|, |rev.blocks|);
  }

  lemma CommittedParts(c: Crypto, blobs: map<nat, Bytes>, tokens: map<nat, UploadedBlock>, d: Bytes, n: nat)
    requires TokensHold(c, blobs, tokens, d) && n == BlockCount(|d|)
    ensures Sizes(tokens, n) == FirstLengths(|d|, n)
    ensures forall k | 0 <= k < n :: Tokens(tokens, n)[k].token in blobs
    ensures Manifest(tokens, n) == FirstHashes(c, blobs, Tokens(tokens, n))
  {
    forall i: nat | i < n ensures i in tokens && Hashed(c, blobs, tokens[i]) && tokens[i].rawSize == BlockLength(|d|, i) {
      assert UploadOf(c, blobs, tokens[i], Block(d, i));
    }
    CommittedSizes(tokens, |d|, n);
    CommittedManifest(c, blobs, tokens, n);
  }

  lemma CommittedBlocks(c: Crypto, blobs: map<nat, Bytes>, tokens: map<nat, UploadedBlock>, d: Bytes, n: nat)
    requires TokensHold(c, blobs, tokens, d) && n == BlockCount(|d|)
    ensures forall i: nat | i < n ::
              Tokens(tokens, n)[i].index == i + 1 && Deciphers(c, blobs, Tokens(tokens, n)[i].token, Block(d, i))
  {
    forall i: nat | i < n
      ensures Tokens(tokens, n)[i].index == i + 1 && Deciphers(c, blobs, Tokens(tokens, n)[i].token, Block(d, i))
    {
      TokensAt(tokens, n, i);
      assert UploadOf(c, blobs, tokens[i], Block(d, i));
    }
  }

  lemma TokensAreContiguous(tokens: map<nat, UploadedBlock>, n: nat)
    requires (forall i | i in tokens :: i < n) && (forall i: nat | i < n :: i in tokens)
    ensures |tokens| == n && Contiguous(tokens)
  {
    RangeSize(n);
    assert tokens.Keys == Range(n);
    assert |tokens| == |tokens.Keys|;
  }

  lemma {:induction false} CommittedSizes(tokens: map<nat, UploadedBlock>, size: nat, n: nat)
    requires forall i: nat | i < n :: i in tokens && tokens[i].rawSize == BlockLength(size, i)
    ensures Sizes(tokens, n) == FirstLengths(size, n)
  {
    if n > 0 { CommittedSizes(tokens, size, n - 1); }
  }

  lemma {:induction false} CommittedManifest(c: Crypto, blobs: map<nat, Bytes>, tokens: map<nat, UploadedBlock>, n: nat)
    requires forall i: nat | i < n :: i in tokens && Hashed(c, blobs, tokens[i])
    ensures forall k | 0 <= k < n :: Tokens(tokens, n)[k].token in blobs
    ensures Manifest(tokens, n) == FirstHashes(c, blobs, Tokens(tokens, n))
  {
    if n > 0 {
      CommittedManifest(c, blobs, tokens, n - 1);
      var ts := Tokens(tokens, n);
      assert Hashed(c, blobs, tokens[n - 1]);
      assert ts[..n - 1] == Tokens(tokens, n - 1);
      assert ts[n - 1].token == tokens[n - 1].token;
    }
  }

  // ----- reading -----

  /** What a read of n bytes at off returns when the recorded size is fileSize: nothing at or
      beyond the recorded size, and otherwise the bytes up to the end of the block the recorded
      size lies in. */
  function ReadResult(d: Bytes, fileSize: nat, off: nat, n: nat): Bytes {
    var limit := Min(|d|, BlockCount(fileSize) * BLOCK_SIZE);
    if off >= fileSize || off >= limit then [] else d[off..Min(off + n, limit)]
  }

  /** Reads are flat-file reads exactly when the recorded size covers the file. */
  lemma ReadsAreFlat(d: Bytes, fileSize: nat)
    ensures (forall off: nat, n: nat :: ReadResult(d, fileSize, off, n) == PRead(d, off, n)) <==> fileSize >= |d|
  {
    if fileSize < |d| {
      assert ReadResult(d, fileSize, fileSize, 1) == [];
      assert |PRead(d, fileSize, 1)| == 1;
    }
  }

  /** Whatever was recorded, a read is a flat read of the blocks the recorded size spans, and
      nothing is read at or beyond that size. */
  lemma ReadsSpannedBlocks(d: Bytes, fileSize: nat, off: nat, n: nat)
    ensures ReadResult(d, fileSize, off, n) ==
            if off >= fileSize then [] else PRead(Concat(FirstBlocks(d, BlockCount(fileSize))), off, n)
  {
    ConcatFirstBlocks(d, BlockCount(fileSize));
    ReadOfPart(d, Min(BlockCount(fileSize) * BLOCK_SIZE, |d|), off, n);
  }

  lemma ReadOfPart(d: Bytes, m: nat, off: nat, n: nat)
    requires m <= |d|
    ensures PRead(d[..m], off, n) == if off >= m then [] else d[off..Min(off + n, m)]
  {
  }

  // ----- the descriptor -----

  /** Every token belongs to a block that was handed over, and every block handed over is in
      flight or has a token, unless an upload failed.  The map sent holds the plaintext behind
      each token. */
  ghost predicate Tracked(c: Crypto, blobs: map<nat, Bytes>, inflight: multiset<Upload>,
                          tokens: map<nat, UploadedBlock>, sent: map<nat, Bytes>,
                          flushed: seq<Upload>, failed: bool)
  {
    && (forall u | u in inflight :: u in flushed)
    && sent.Keys == tokens.Keys
    && (forall i | i in tokens :: Upload(i, sent[i]) in flushed && UploadOf(c, blobs, tokens[i], sent[i]))
    && (!failed ==> forall u | u in flushed :: u in inflight || u.index in tokens)
  }

  lemma HandingOverKeepsTracked(c: Crypto, blobs: map<nat, Bytes>, inflight: multiset<Upload>,
                                tokens: map<nat, UploadedBlock>, sent: map<nat, Bytes>, flushed: seq<Upload>,
                                failed: bool, u: Upload)
    requires Tracked(c, blobs, inflight, tokens, sent, flushed, failed)
    ensures Tracked(c, blobs, inflight + multiset{u}, tokens, sent, flushed + [u], failed)
  {
  }

  lemma DoneKeepsTracked(c: Crypto, blobs: map<nat, Bytes>, inflight: multiset<Upload>,
                         tokens: map<nat, UploadedBlock>, sent: map<nat, Bytes>, flushed: seq<Upload>,
                         failed: bool, blobs': map<nat, Bytes>, u: Upload, ub: UploadedBlock)
    requires Tracked(c, blobs, inflight, tokens, sent, flushed, failed) && u in inflight
    requires forall t | t in blobs :: t in blobs' && blobs'[t] == blobs[t]
    requires UploadOf(c, blobs', ub, u.data)
    ensures Tracked(c, blobs', inflight - multiset{u}, tokens[u.index := ub], sent[u.index := u.data], flushed, failed)
  {
    forall i | i in tokens && i != u.index ensures UploadOf(c, blobs', tokens[i], sent[i]) {
      assert UploadOf(c, blobs, tokens[i], sent[i]);
    }
  }

  lemma FailureKeepsTracked(c: Crypto, blobs: map<nat, Bytes>, inflight: multiset<Upload>,
                            tokens: map<nat, UploadedBlock>, sent: map<nat, Bytes>, flushed: seq<Upload>,
                            failed: bool, u: Upload)
    requires Tracked(c, blobs, inflight, tokens, sent, flushed, failed) && u in inflight
    ensures Tracked(c, blobs, inflight - multiset{u}, tokens, sent, flushed, true)
  {
  }

  class FileDescriptor {
    const server: Server
    const crypto: Crypto
    const store: BlockStore
    const linkId: string
    const strategy: Strategy
    const mode: Mode
    const isNew: bool
    var closed: bool
    var offset: nat
    var fileSize: nat
    // write side
    var curBlock: Bytes
    var curIdx: nat
    var inflight: multiset<Upload>
    var tokens: map<nat, UploadedBlock>
    var firstErr: Option<IoError>
    var committed: bool
    // read side
    var blocks: seq<BlockToken>
    // every block handed over since the last commit, and the plaintext behind each token
    ghost var flushed: seq<Upload>
    ghost var sent: map<nat, Bytes>

    ghost function Buffer(): Writer
      reads this
    {
      Writer(curBlock, curIdx, fileSize, flushed)
    }

    ghost predicate Valid()
      reads this, server`blobs, server`nextToken
    {
      && server.Valid() && Sound(crypto)
      && |curBlock| < BLOCK_SIZE
      && Tracked(crypto, server.blobs, inflight, tokens, sent, flushed, firstErr.Some?)
    }

    /** A write descriptor on an empty revision. */
    constructor Create(s: Server, c: Crypto, bs: BlockStore, link: string, brandNew: bool)
      requires s.Valid() && Sound(c)
      ensures Valid() && server == s && crypto == c && mode == WriteMode && isNew == brandNew
      ensures !closed && !committed && firstErr == None && Buffer() == EMPTY
    {
      server, crypto, store, linkId, strategy, mode, isNew := s, c, bs, link, Encrypted, WriteMode, brandNew;
      closed, offset, fileSize, committed := false, 0, 0, false;
      curBlock, curIdx, inflight, tokens, firstErr := [], 0, multiset{}, map[], None;
      blocks, flushed, sent := [], [], map[];
    }

    /** A read descriptor on a revision, with the recorded file size. */
    constructor Open(s: Server, c: Crypto, bs: BlockStore, link: string, how: Strategy, rev: Revision, size: nat)
      requires s.Valid() && Sound(c)
      ensures Valid() && server == s && crypto == c && mode == ReadMode
      ensures store == bs && linkId == link && strategy == how
      ensures !closed && offset == 0 && fileSize == size && blocks == rev.blocks
    {
      server, crypto, store, linkId, strategy, mode, isNew := s, c, bs, link, how, ReadMode, false;
      closed, offset, fileSize, committed := false, 0, size, false;
      curBlock, curIdx, inflight, tokens, firstErr := [], 0, multiset{}, map[], None;
      blocks, flushed, sent := rev.blocks, [], map[];
    }

    ghost predicate Writable()
      reads this
    {
      !closed && mode == WriteMode
    }

    /** Hands a block to a background upload. */
    method FlushBlock(index: nat, data: Bytes)
      requires Valid()
      modifies `inflight, `flushed
      ensures Valid()
      ensures flushed == old(flushed) + [Upload(index, data)]
      ensures inflight == old(inflight) + multiset{Upload(index, data)}
    {
      var u := Upload(index, data);
      HandingOverKeepsTracked(crypto, server.blobs, inflight, tokens, sent, flushed, firstErr.Some?, u);
      inflight := inflight + multiset{u};
      flushed := flushed + [u];
    }

    /** Hands over a full block and opens the next. */
    method HandOver(block: Bytes)
      requires Valid()
      modifies `curBlock, `curIdx, `inflight, `flushed
      ensures Valid() && Buffer() == Writer([], old(curIdx) + 1, fileSize, old(flushed) + [Upload(old(curIdx), block)])
    {
      FlushBlock(curIdx, block);
      curBlock := [];
      curIdx := curIdx + 1;
    }

    /** Gives the open block new contents, and hands it over if that fills it. */
    method SetBlock(block: Bytes, size: nat)
      requires Valid() && |block| <= BLOCK_SIZE
      modifies `curBlock, `curIdx, `fileSize, `inflight, `flushed
      ensures Valid() && Buffer() == Roll(Writer(block, old(curIdx), size, old(flushed)))
    {
      fileSize := size;
      if |block| == BLOCK_SIZE {
        HandOver(block);
      } else {
        curBlock := block;
      }
    }

    method Write(p: Bytes) returns (n: nat, err: Option<IoError>)
      requires Valid()
      modifies `curBlock, `curIdx, `fileSize, `inflight, `flushed
      ensures Valid()
      ensures p == [] ==> n == 0 && err == None && Buffer() == old(Buffer())
      ensures p != [] && !old(Writable()) ==>
                n == 0 && err == Some(if closed then Closed else BadDescriptor) && Buffer() == old(Buffer())
      ensures p != [] && old(Writable()) ==>
                n == |p| && err == None && Buffer() == WriteAll(old(Buffer()), p)
    {
      if |p| == 0 { return 0, None; }
      if closed { return 0, Some(Closed); }
      if mode != WriteMode { return 0, Some(BadDescriptor); }
      WriteRest(p);
      return |p|, None;
    }

    /** The loop of Write. */
    method WriteRest(p: Bytes)
      requires Valid()
      modifies `curBlock, `curIdx, `fileSize, `inflight, `flushed
      ensures Valid() && Buffer() == WriteAll(old(Buffer()), p)
    {
      var rest := p;
      ghost var goal := WriteAll(Buffer(), p);
      while |rest| > 0
        invariant Valid()
        invariant WriteAll(Buffer(), rest) == goal
        decreases |rest|
      {
        rest := WriteRound(rest);
      }
    }

    /** The body of the loop: as much as fits into the open block. */
    method WriteRound(p: Bytes) returns (rest: Bytes)
      requires Valid() && p != []
      modifies `curBlock, `curIdx, `fileSize, `inflight, `flushed
      ensures Valid() && |rest| < |p| && WriteAll(Buffer(), rest) == WriteAll(old(Buffer()), p)
    {
      var space := BLOCK_SIZE - |curBlock|;
      var chunk := Min(|p|, space);
      WriteAllRound(Buffer(), p, chunk);
      SetBlock(curBlock + p[..chunk], fileSize + chunk);
      rest := p[chunk..];
    }

    /** The offset must not be negative. */
    method WriteAt(p: Bytes, off: nat) returns (n: nat, err: Option<IoError>)
      requires Valid()
      modifies `curBlock, `curIdx, `fileSize, `inflight, `flushed
      ensures Valid()
      ensures p == [] ==> n == 0 && err == None && Buffer() == old(Buffer())
      ensures p != [] && !old(Writable()) ==>
                n == 0 && err == Some(if closed then Closed else BadDescriptor) && Buffer() == old(Buffer())
      ensures p != [] && old(Writable()) ==>
                n == |p| && err == None && Buffer() == WriteAtAll(old(Buffer()), p, off)
    {
      if |p| == 0 { return 0, None; }
      if closed { return 0, Some(Closed); }
      if mode != WriteMode { return 0, Some(BadDescriptor); }
      WriteRestAt(p, off);
      return |p|, None;
    }

    /** The loop of WriteAt. */
    method WriteRestAt(p: Bytes, off: nat)
      requires Valid()
      modifies `curBlock, `curIdx, `fileSize, `inflight, `flushed
      ensures Valid() && Buffer() == WriteAtAll(old(Buffer()), p, off)
    {
      var rest, at: nat := p, off;
      ghost var goal := WriteAtAll(Buffer(), p, off);
      while |rest| > 0
        invariant Valid()
        invariant WriteAtAll(Buffer(), rest, at) == goal
        decreases |rest|
      {
        rest, at := WriteRoundAt(rest, at);
      }
    }

    method WriteRoundAt(p: Bytes, off: nat) returns (rest: Bytes, at: nat)
      requires Valid() && p != []
      modifies `curBlock, `curIdx, `fileSize, `inflight, `flushed
      ensures Valid() && |rest| < |p| && WriteAtAll(Buffer(), rest, at) == WriteAtAll(old(Buffer()), p, off)
    {
      var chunk := ChunkAt(p, off);
      WriteAtRound(Buffer(), p, off);
      WriteInBlock(p[..chunk], off);
      rest, at := p[chunk..], off + chunk;
    }

    /** The body of the loop: chunk lies inside one block. */
    method WriteInBlock(chunk: Bytes, at: nat)
      requires Valid() && at % BLOCK_SIZE + |chunk| <= BLOCK_SIZE
      modifies `curBlock, `curIdx, `fileSize, `inflight, `flushed
      ensures Valid() && Buffer() == WriteChunkAt(old(Buffer()), chunk, at)
    {
      SwitchBlock(at / BLOCK_SIZE);
      var block := Splice(curBlock, at % BLOCK_SIZE, chunk);
      SetBlock(block, Max(fileSize, at + |chunk|));
    }

    /** Hands over the open block and opens another, when the target is another block. */
    method SwitchBlock(target: nat)
      requires Valid()
      modifies `curBlock, `curIdx, `inflight, `flushed
      ensures Valid() && Buffer() == SwitchTo(old(Buffer()), target)
    {
      if target != curIdx {
        if |curBlock| > 0 { FlushBlock(curIdx, curBlock); }
        curBlock := [];
        curIdx := target;
      }
    }

    /** Overwrites or extends the accumulator at blockOff, filling a gap with zeros. */
    static method Splice(block: Bytes, blockOff: nat, chunk: Bytes) returns (curBlock: Bytes)
      requires |block| <= BLOCK_SIZE && blockOff + |chunk| <= BLOCK_SIZE
      ensures curBlock == Overwrite(block, blockOff, chunk)
    {
      curBlock := block;
      if blockOff > |curBlock| {
        curBlock := curBlock + Zeros(blockOff - |curBlock|);
      }
      var end := blockOff + |chunk|;
      if end <= |curBlock| {
        curBlock := curBlock[..blockOff] + chunk + curBlock[end..];
      } else {
        var have := |curBlock| - blockOff;
        if blockOff < |curBlock| {
          curBlock := curBlock[..blockOff] + chunk[..have];
        }
        curBlock := curBlock + chunk[have..];
      }
    }

    /** One background upload runs to its end: encrypt, upload, record the token. */
    method CompleteUpload(u: Upload)
      requires Valid() && u in inflight
      modifies `inflight, `tokens, `sent, `firstErr, server
      ensures Valid() && inflight == old(inflight) - multiset{u}
      ensures server.active == old(server.active) && server.faults >= old(server.faults)
      ensures firstErr.Some? ==> old(firstErr).Some? || server.faults > old(server.faults)
    {
      var nonce: nat := *;
      var encData := crypto.encrypt(u.data, nonce);
      Deciphered(crypto, u.data, nonce);
      var token := server.UploadBlock(encData);
      if token.None? {
        FailureKeepsTracked(crypto, server.blobs, inflight, tokens, sent, flushed, firstErr.Some?, u);
        inflight := inflight - multiset{u};
        if firstErr.None? { firstErr := Some(Failed); }
        return;
      }
      var ub := UploadedBlock(token.value, crypto.hash(encData), |u.data|);
      DoneKeepsTracked(crypto, old(server.blobs), inflight, tokens, sent, flushed, firstErr.Some?, server.blobs, u, ub);
      inflight := inflight - multiset{u};
      tokens := tokens[u.index := ub];
      sent := sent[u.index := u.data];
    }

    /** Any number of background uploads finish, in any order; all of them when asked to wait. */
    method RunUploads(all: bool)
      requires Valid()
      modifies `inflight, `tokens, `sent, `firstErr, server
      ensures Valid() && (all ==> inflight == multiset{})
      ensures server.active == old(server.active) && server.faults >= old(server.faults)
      ensures firstErr.Some? ==> old(firstErr).Some? || server.faults > old(server.faults)
    {
      var more: bool := *;
      while (all || more) && inflight != multiset{}
        invariant Valid()
        invariant server.active == old(server.active) && server.faults >= old(server.faults)
        invariant firstErr.Some? ==> old(firstErr).Some? || server.faults > old(server.faults)
        decreases |inflight|
      {
        var u :| u in inflight;
        CompleteUpload(u);
        more := *;
      }
    }

    /** The file d was written and is not committed: part of it may still be in the open block,
        or all of it is handed over, as after a flush that failed. */
    ghost predicate Pending(d: Bytes)
      reads this
    {
      !committed && mode == WriteMode && (Represents(Buffer(), d) || (curBlock == [] && HandedOver(flushed, d)))
    }

    /** Committed, with nothing written since. */
    ghost predicate Settled()
      reads this
    {
      committed && curBlock == [] && inflight == multiset{} && tokens == map[] && flushed == [] && firstErr.None?
    }

    /** The active revision holds d. */
    ghost predicate Holds(d: Bytes)
      reads server
    {
      server.active.Some? && RevisionHolds(crypto, server.blobs, server.active.value, d)
    }

    ghost predicate SameContents(active0: Option<Revision>, blobs0: map<nat, Bytes>)
      reads server
    {
      server.active == active0 && server.blobs == blobs0
    }

    /** Flushes the partial block, waits, and commits what was written.  The ghost argument is
        the pending file, if there is one: it is committed whole, or left pending by a failure.
        Flushing a settled descriptor does nothing. */
    method Flush(ghost written: Option<Bytes>) returns (err: Option<IoError>)
      requires Valid() && (written.Some? ==> Pending(written.value))
      modifies `curBlock, `inflight, `flushed, `tokens, `sent, `firstErr, `committed, server
      ensures Valid() && curBlock == [] && server.faults >= old(server.faults)
      ensures mode == ReadMode ==> err == None && server.active == old(server.active)
      ensures FlushEnded(err, written, old(Settled()), old(server.active), old(server.blobs))
      ensures (written.Some? && err.Some?) || firstErr.Some? ==> old(firstErr).Some? || server.faults > old(server.faults)
    {
      var hasCurBlock := HandOverRest(written);
      if mode != WriteMode { return None; }
      err := FinishFlush(hasCurBlock, written, old(Settled()));
    }

    /** The rest of a flush, once everything is handed over. */
    method FinishFlush(hasCurBlock: bool, ghost written: Option<Bytes>, ghost settled: bool) returns (err: Option<IoError>)
      requires Valid() && curBlock == [] && (settled ==> Settled() && !hasCurBlock)
      requires written.Some? ==> AllHandedOver(written.value, hasCurBlock)
      modifies `inflight, `flushed, `tokens, `sent, `firstErr, `committed, server
      ensures Valid() && server.faults >= old(server.faults)
      ensures FlushEnded(err, written, settled, old(server.active), old(server.blobs))
      ensures (written.Some? && err.Some?) || firstErr.Some? ==> old(firstErr).Some? || server.faults > old(server.faults)
    {
      DrainUploads(settled);
      err := firstErr;
      if err.None? { err := CommitWritten(hasCurBlock, written, settled); }
    }

    ghost predicate AllHandedOver(d: Bytes, hasCurBlock: bool)
      reads this
    {
      !committed && HandedOver(flushed, d) && (hasCurBlock ==> d != [])
    }

    /** How a flush ends: a failure leaves the active revision, a settled descriptor stays as it
        is, and a pending file is committed whole or stays pending. */
    ghost predicate FlushEnded(err: Option<IoError>, written: Option<Bytes>, settled: bool,
                               active0: Option<Revision>, blobs0: map<nat, Bytes>)
      reads this, server
    {
      && (err.Some? ==> server.active == active0)
      && (settled ==> err == None && Settled() && SameContents(active0, blobs0))
      && (written.Some? ==> Flushed(written.value, err, active0))
    }

    /** What a flush leaves of a pending file d. */
    ghost predicate Flushed(d: Bytes, err: Option<IoError>, active0: Option<Revision>)
      reads this, server
    {
      if err.None? && (d != [] || isNew) then Settled() && Holds(d)
      else !committed && curBlock == [] && HandedOver(flushed, d) && server.active == active0
    }

    /** Hands over the partial block, if there is one. */
    method HandOverRest(ghost written: Option<Bytes>) returns (hasCurBlock: bool)
      requires Valid() && (written.Some? ==> Pending(written.value))
      modifies `curBlock, `inflight, `flushed
      ensures Valid() && curBlock == [] && hasCurBlock == (old(curBlock) != [])
      ensures !hasCurBlock ==> inflight == old(inflight) && flushed == old(flushed)
      ensures written.Some? ==> AllHandedOver(written.value, hasCurBlock)
    {
      hasCurBlock := |curBlock| > 0;
      if hasCurBlock {
        FlushBlock(curIdx, curBlock);
        curBlock := [];
      }
      if written.Some? && Represents(old(Buffer()), written.value) { PartialBlock(old(Buffer()), written.value, flushed); }
    }

    /** Waits for all uploads. */
    method DrainUploads(ghost settled: bool)
      requires Valid() && (settled ==> Settled())
      modifies `inflight, `tokens, `sent, `firstErr, server
      ensures Valid() && inflight == multiset{}
      ensures settled ==> Settled() && server.blobs == old(server.blobs)
      ensures server.active == old(server.active) && server.faults >= old(server.faults)
      ensures firstErr.Some? ==> old(firstErr).Some? || server.faults > old(server.faults)
    {
      if inflight == multiset{} { return; }
      RunUploads(true);
    }

    /** The commit of what was handed over: the whole pending file, if there is one. */
    method CommitWritten(hasCurBlock: bool, ghost written: Option<Bytes>, ghost settled: bool) returns (err: Option<IoError>)
      requires Valid() && curBlock == [] && inflight == multiset{} && firstErr.None?
      requires settled ==> Settled() && !hasCurBlock
      requires written.Some? ==> AllHandedOver(written.value, hasCurBlock)
      modifies `flushed, `tokens, `sent, `committed, server
      ensures Valid() && server.faults >= old(server.faults)
      ensures FlushEnded(err, written, settled, old(server.active), old(server.blobs))
      ensures written.Some? && err.Some? ==> server.faults > old(server.faults)
    {
      if written.Some? { CollectedHold(written.value); }
      err := CommitCollected(hasCurBlock);
    }

    /** The commit at the end of a flush, once all uploads have succeeded: nothing for a
        descriptor without tokens, unless it is a new file's first. */
    method CommitCollected(hasCurBlock: bool) returns (err: Option<IoError>)
      requires Valid() && curBlock == [] && inflight == multiset{} && firstErr.None?
      modifies `flushed, `tokens, `sent, `committed, server
      ensures Valid() && server.faults >= old(server.faults) && server.blobs == old(server.blobs)
      ensures var nothing := |old(tokens)| == 0 && !hasCurBlock && !(isNew && !old(committed));
              if nothing then
                && err == None && Unchanged(old(flushed), old(tokens), old(committed))
                && server.active == old(server.active)
              else if err.None? then
                && Settled() && Contiguous(old(tokens)) && server.active == Some(RevisionOf(old(tokens)))
              else
                && Unchanged(old(flushed), old(tokens), old(committed)) && server.active == old(server.active)
                && (Contiguous(tokens) ==> server.faults > old(server.faults))
    {
      var firstCommitOfNewFile := isNew && !committed;
      if |tokens| == 0 && !hasCurBlock && !firstCommitOfNewFile { return None; }
      err := CommitRevisionFromTokens(server, tokens, true);
      if err.None? { MarkCommitted(); }
    }

    ghost predicate Unchanged(flushed0: seq<Upload>, tokens0: map<nat, UploadedBlock>, committed0: bool)
      reads this
    {
      flushed == flushed0 && tokens == tokens0 && committed == committed0
    }

    /** When everything of d was handed over and no upload failed, the tokens make a revision of
        d. */
    lemma CollectedHold(d: Bytes)
      requires Valid() && inflight == multiset{} && firstErr.None? && HandedOver(flushed, d)
      ensures Contiguous(tokens) && (|tokens| == 0 <==> d == [])
      ensures RevisionHolds(crypto, server.blobs, RevisionOf(tokens), d)
    {
      TokensHoldFile(crypto, server.blobs, tokens, sent, flushed, d);
      CommitHolds(crypto, server.blobs, tokens, d);
    }

    method MarkCommitted()
      requires Valid() && inflight == multiset{} && curBlock == [] && firstErr.None?
      modifies `flushed, `tokens, `sent, `committed
      ensures Valid() && Settled()
    {
      committed := true;
      tokens := map[];
      flushed, sent := [], map[];
    }

    /** Closing flushes once; closing again, closing a reader, and closing a settled descriptor
        change nothing. */
    method Close(ghost written: Option<Bytes>) returns (err: Option<IoError>)
      requires Valid() && (!closed && written.Some? ==> Pending(written.value))
      modifies `closed, `curBlock, `inflight, `flushed, `tokens, `sent, `firstErr, `committed, server
      ensures Valid() && closed && server.faults >= old(server.faults)
      ensures old(closed) || mode == ReadMode || old(Settled()) ==>
                err == None && SameContents(old(server.active), old(server.blobs))
      ensures old(closed) ==> Buffer() == old(Buffer())
      ensures err.Some? ==> server.active == old(server.active)
      ensures !old(closed) && written.Some? ==> Flushed(written.value, err, old(server.active))
      ensures written.Some? && err.Some? ==> old(firstErr).Some? || server.faults > old(server.faults)
    {
      if closed { return None; }
      closed := true;
      if mode != WriteMode { return None; }
      err := Flush(written);
    }

    // ----- reading -----

    /** The descriptor's blocks are those of the file d, the store knows them under the keys of the
        link, which count from 1, and its caches are in order for the descriptor's strategy. */
    ghost predicate Reads(d: Bytes, w: Contents)
      reads `blocks, server`blobs, store, store.bufCache
    {
      && store.Ready(w) && |blocks| == BlockCount(|d|)
      && forall i: nat | i < |blocks| :: Serves(i, Block(d, i), w)
    }

    ghost predicate Serves(i: nat, plain: Bytes, w: Contents)
      requires i < |blocks|
      reads `blocks, server`blobs
    {
      && Deciphers(crypto, server.blobs, blocks[i].token, plain)
      && w.disk(CacheKey(linkId, i + 1)) == server.blobs[blocks[i].token]
      && w.memory(CacheKey(linkId, i + 1)) == if strategy == Encrypted then server.blobs[blocks[i].token] else plain
    }

    /** One block by the descriptor's strategy.  Other goroutines, among them the prefetching ones
        started for the following blocks, may use the store meanwhile; without any, nobody else is
        fetching the block, and a block with a copy at hand comes without the server. */
    method ReadBlock(blockIdx: nat, others: bool, ghost d: Bytes, w: Contents) returns (r: Result<Bytes, IoError>)
      requires Reads(d, w)
      requires !others ==> CacheKey(linkId, blockIdx + 1) !in Fetches(store.Slots())
      modifies server`faults, store`disk, store.bufCache
      ensures Reads(d, w) && server.faults >= old(server.faults)
      ensures blockIdx >= |blocks| ==> r == Err(OutOfRange(blockIdx)) && server.faults == old(server.faults)
      ensures blockIdx < |blocks| && r.Ok? ==> r.value == Block(d, blockIdx)
      ensures blockIdx < |blocks| && r.Err? ==> r == Err(Failed) && server.faults > old(server.faults)
      ensures blockIdx < |blocks| && !others && old(AtHand(blockIdx)) ==> server.faults == old(server.faults)
    {
      if blockIdx >= |blocks| { return Err(OutOfRange(blockIdx)); }
      assert Serves(blockIdx, Block(d, blockIdx), w);
      var k, token := CacheKey(linkId, blockIdx + 1), blocks[blockIdx].token;
      match strategy
      case Encrypted =>
        var encrypted := store.GetBlock(k, server, token, others, w);
        if encrypted.Err? { return Err(Failed); }
        var plain := crypto.decrypt(encrypted.value);
        return if plain.Some? then Ok(plain.value) else Err(Failed);
      case Decrypted =>
        var plain := store.GetDecoded(k, server, token, crypto.decrypt, others, w);
        return if plain.Ok? then Ok(plain.value) else Err(Failed);
    }

    /** Some copy of the block is at hand. */
    ghost predicate AtHand(blockIdx: nat)
      reads store, store.bufCache
    {
      var k := CacheKey(linkId, blockIdx + 1);
      k in store.Slots() || BlockCacheKey(k) in store.disk
    }

    /** What the block at off has to offer a reader that wants some more bytes. */
    method NextBytes(off: nat, want: nat, ghost d: Bytes, w: Contents) returns (r: Result<Bytes, IoError>)
      requires Reads(d, w)
      modifies server`faults, store`disk, store.bufCache
      ensures Reads(d, w) && server.faults >= old(server.faults)
      ensures r.Ok? ==> off / BLOCK_SIZE < |blocks| && r.value == Piece(d, off, want)
      ensures r.Err? ==>
                if off / BLOCK_SIZE >= |blocks|
                then r == Err(OutOfRange(off / BLOCK_SIZE)) && server.faults == old(server.faults)
                else r == Err(Failed) && server.faults > old(server.faults)
    {
      var plain := ReadBlock(off / BLOCK_SIZE, true, d, w);
      if plain.Err? { return plain; }
      var piece := CutPiece(plain.value, off, want, d);
      return Ok(piece);
    }

    /** One round of the read loops: the next piece after data, which ends the result when it is
        empty or reaches the recorded size. */
    method ReadRound(n: nat, at: nat, data: Bytes, ghost d: Bytes, w: Contents) returns (piece: Result<Bytes, IoError>)
      requires Reads(d, w) && |data| < n && at + |data| < fileSize && data <= ReadResult(d, fileSize, at, n)
      modifies server`faults, store`disk, store.bufCache
      ensures Reads(d, w) && server.faults >= old(server.faults)
      ensures piece.Ok? ==> (at + |data|) / BLOCK_SIZE < |blocks| && Advances(d, fileSize, at, n, data, piece.value)
      ensures piece.Err? ==>
                if (at + |data|) / BLOCK_SIZE >= |blocks| then
                  && piece == Err(OutOfRange((at + |data|) / BLOCK_SIZE)) && server.faults == old(server.faults)
                  && data == ReadResult(d, fileSize, at, n)
                else
                  piece == Err(Failed) && server.faults > old(server.faults)
    {
      var off := at + |data|;
      if off / BLOCK_SIZE >= |blocks| { NothingBeyond(d, fileSize, at, n, data); }
      piece := NextBytes(off, n - |data|, d, w);
      if piece.Ok? { NextPiece(d, fileSize, at, n, data, piece.value); }
    }

    /** Reads up to n bytes at an offset; the offset must not be negative.  Whatever the caches
        hold and whoever else uses them, a read that does not fail is the specified one. */
    method ReadAt(n: nat, at: nat, ghost d: Bytes, w: Contents) returns (data: Bytes, err: Option<IoError>)
      requires Reads(d, w)
      modifies server`faults, store`disk, store.bufCache
      ensures Reads(d, w) && server.faults >= old(server.faults)
      ensures n == 0 ==> data == [] && err == None
      ensures n > 0 && closed ==> data == [] && err == Some(Closed)
      ensures n > 0 && !closed ==>
                if err == Some(Failed) then
                  server.faults > old(server.faults) && data <= ReadResult(d, fileSize, at, n)
                else
                  data == ReadResult(d, fileSize, at, n) && err == if |data| < n then Some(EndOfFile) else None
    {
      if n == 0 { return [], None; }
      if closed { return [], Some(Closed); }
      if at >= fileSize { return [], Some(EndOfFile); }
      data, err := ReadAtLoop(n, at, d, w);
      if err.None? && |data| < n { return data, Some(EndOfFile); }
    }

    /** The loop of ReadAt. */
    method ReadAtLoop(n: nat, at: nat, ghost d: Bytes, w: Contents) returns (data: Bytes, err: Option<IoError>)
      requires Reads(d, w) && at < fileSize
      modifies server`faults, store`disk, store.bufCache
      ensures Reads(d, w) && server.faults >= old(server.faults)
      ensures data <= ReadResult(d, fileSize, at, n)
      ensures err.None? ==> data == ReadResult(d, fileSize, at, n)
      ensures err.Some? ==> err == Some(Failed) && server.faults > old(server.faults)
    {
      data := [];
      while |data| < n && at + |data| < fileSize
        invariant |data| <= n && Continues(d, fileSize, at, n, data)
        invariant Reads(d, w) && server.faults >= old(server.faults)
        decreases n - |data|
      {
        if (at + |data|) / BLOCK_SIZE >= |blocks| {
          NothingBeyond(d, fileSize, at, n, data);
          break;
        }
        var piece := ReadRound(n, at, data, d, w);
        if piece.Err? { return data, Some(Failed); }
        if piece.value == [] { break; }
        data := data + piece.value;
      }
      err := None;
    }

    /** Reads from the current offset and advances it. */
    method Read(n: nat, ghost d: Bytes, w: Contents) returns (data: Bytes, err: Option<IoError>)
      requires Reads(d, w)
      modifies `offset, server`faults, store`disk, store.bufCache
      ensures Reads(d, w) && server.faults >= old(server.faults)
      ensures offset == old(offset) + |data|
      ensures n == 0 ==> data == [] && err == None
      ensures n > 0 && closed ==> data == [] && err == Some(Closed)
      ensures n > 0 && !closed ==> data <= ReadResult(d, fileSize, old(offset), n)
      ensures n > 0 && !closed && server.faults == old(server.faults) ==>
                && data == ReadResult(d, fileSize, old(offset), n)
                && err == (if data != [] then None
                           else if old(offset) < fileSize && old(offset) / BLOCK_SIZE >= |blocks|
                           then Some(OutOfRange(old(offset) / BLOCK_SIZE))
                           else Some(EndOfFile))
      ensures data != [] ==> err == None
    {
      if n == 0 { return [], None; }
      if closed { return [], Some(Closed); }
      if offset >= fileSize { return [], Some(EndOfFile); }
      data, err := ReadLoop(n, offset, d, w);
      if err.Some? { return; }
      if |data| == 0 { return [], Some(EndOfFile); }
      offset := offset + |data|;
    }

    /** The loop of Read.  An error is reported only when nothing was read before it. */
    method ReadLoop(n: nat, at: nat, ghost d: Bytes, w: Contents) returns (data: Bytes, err: Option<IoError>)
      requires Reads(d, w) && at < fileSize && n > 0
      modifies server`faults, store`disk, store.bufCache
      ensures Reads(d, w) && server.faults >= old(server.faults)
      ensures data <= ReadResult(d, fileSize, at, n)
      ensures server.faults == old(server.faults) ==> data == ReadResult(d, fileSize, at, n)
      ensures err.Some? ==> data == []
      ensures server.faults == old(server.faults) ==>
                err == if at / BLOCK_SIZE >= |blocks| then Some(OutOfRange(at / BLOCK_SIZE)) else None
    {
      data := [];
      while |data| < n && at + |data| < fileSize
        invariant |data| <= n && Continues(d, fileSize, at, n, data)
        invariant data != [] ==> at / BLOCK_SIZE < |blocks|
        invariant Reads(d, w) && server.faults >= old(server.faults)
        decreases n - |data|
      {
        var piece := ReadRound(n, at, data, d, w);
        if piece.Err? { return data, if |data| == 0 then Some(piece.error) else None; }
        if piece.value == [] { break; }
        data := data + piece.value;
      }
      err := None;
    }
  }

  /** Every block of d was handed over, and nothing else. */
  ghost predicate HandedOver(flushed: seq<Upload>, d: Bytes) {
    && (forall u | u in flushed :: u.index < BlockCount(|d|) && u.data == Block(d, u.index))
    && (forall i: nat | i < BlockCount(|d|) :: Upload(i, Block(d, i)) in flushed)
  }

  /** Once every upload is done the tokens hold the whole file. */
  lemma TokensHoldFile(c: Crypto, blobs: map<nat, Bytes>, tokens: map<nat, UploadedBlock>,
                       sent: map<nat, Bytes>, flushed: seq<Upload>, d: Bytes)
    requires Tracked(c, blobs, multiset{}, tokens, sent, flushed, false)
    requires HandedOver(flushed, d)
    ensures TokensHold(c, blobs, tokens, d)
  {
    forall i | i in tokens ensures i < BlockCount(|d|) && UploadOf(c, blobs, tokens[i], Block(d, i)) {
      assert Upload(i, sent[i]) in flushed;
    }
    forall i: nat | i < BlockCount(|d|) ensures i in tokens {
      assert Upload(i, Block(d, i)) in flushed;
    }
  }

  /** All uploads of a writer once its partial block is handed over. */
  function HandedAll(w: Writer): seq<Upload> {
    if |w.curBlock| > 0 then w.flushed + [Upload(w.curIdx, w.curBlock)] else w.flushed
  }

  /** Handing over the partial block completes the file. */
  lemma PartialBlock(w: Writer, d: Bytes, handed: seq<Upload>)
    requires Represents(w, d)
    requires handed == HandedAll(w)
    ensures HandedOver(handed, d)
  {
    if |w.curBlock| > 0 {
      assert Block(d, w.curIdx) == w.curBlock;
      assert BlockCount(|d|) == w.curIdx + 1;
    } else {
      assert BlockCount(|d|) == w.curIdx;
    }
    forall i: nat | i < BlockCount(|d|) ensures Upload(i, Block(d, i)) in handed {
      if i < w.curIdx { assert Upload(i, Block(d, i)) in w.flushed; }
    }
  }

  // ----- writing on after a flush -----

  /** Sequential writes hand over blocks from the open one on, and something stays pending. */
  lemma {:induction false} WritesFromHere(w: Writer, p: Bytes)
    requires |w.curBlock| < BLOCK_SIZE
    ensures var w' := WriteAll(w, p);
            && w.curIdx <= w'.curIdx && |w'.curBlock| < BLOCK_SIZE
            && (forall u | u in w'.flushed :: u in w.flushed || u.index >= w.curIdx)
            && (p != [] ==> w'.curBlock != [] || w'.flushed != [])
    decreases |p|
  {
    if p != [] {
      var chunk := Min(|p|, BLOCK_SIZE - |w.curBlock|);
      WriteAllRound(w, p, chunk);
      WritesFromHere(Roll(Writer(w.curBlock + p[..chunk], w.curIdx, w.fileSize + chunk, w.flushed)), p[chunk..]);
    }
  }

  /** The recorded size has no influence on the blocks. */
  lemma {:induction false} SizeApart(w: Writer, v: Writer, p: Bytes)
    requires |w.curBlock| < BLOCK_SIZE && w == v.(fileSize := w.fileSize)
    ensures WriteAll(w, p) == WriteAll(v, p).(fileSize := WriteAll(w, p).fileSize)
    decreases |p|
  {
    if p != [] {
      var chunk := Min(|p|, BLOCK_SIZE - |w.curBlock|);
      WriteAllRound(w, p, chunk);
      WriteAllRound(v, p, chunk);
      SizeApart(Roll(Writer(w.curBlock + p[..chunk], w.curIdx, w.fileSize + chunk, w.flushed)),
                Roll(Writer(v.curBlock + p[..chunk], v.curIdx, v.fileSize + chunk, v.flushed)), p[chunk..]);
    }
  }

  /** A flush does not start the block numbers anew.  What is written to a descriptor after it
      committed can be committed only if the file had no full block, and then it replaces the
      file: the new revision holds the later bytes alone. */
  lemma WriteAfterFlush(c: Crypto, blobs: map<nat, Bytes>, tokens: map<nat, UploadedBlock>, sent: map<nat, Bytes>,
                        curIdx: nat, size: nat, p: Bytes)
    requires p != []
    requires var handed := HandedAll(WriteAll(Writer([], curIdx, size, []), p));
             Tracked(c, blobs, multiset{}, tokens, sent, handed, false)
    ensures Contiguous(tokens) <==> curIdx == 0
    ensures curIdx == 0 ==> RevisionHolds(c, blobs, RevisionOf(tokens), p)
  {
    var start := Writer([], curIdx, size, []);
    var w := WriteAll(start, p);
    WritesFromHere(start, p);
    if curIdx == 0 {
      SizeApart(start, EMPTY, p);
      CompleteFromStart(c, blobs, tokens, sent, WriteAll(EMPTY, p), p);
    } else {
      NoFirstBlock(c, blobs, tokens, sent, HandedAll(w));
    }
  }

  lemma CompleteFromStart(c: Crypto, blobs: map<nat, Bytes>, tokens: map<nat, UploadedBlock>, sent: map<nat, Bytes>,
                          v: Writer, p: Bytes)
    requires p != [] && v == WriteAll(EMPTY, p) && Tracked(c, blobs, multiset{}, tokens, sent, HandedAll(v), false)
    ensures Contiguous(tokens) && RevisionHolds(c, blobs, RevisionOf(tokens), p)
  {
    EmptyRepresents();
    WriteRefines(EMPTY, [], p);
    assert [] + p == p;
    PartialBlock(v, p, HandedAll(v));
    TokensHoldFile(c, blobs, tokens, sent, HandedAll(v), p);
    CommitHolds(c, blobs, tokens, p);
  }

  lemma NoFirstBlock(c: Crypto, blobs: map<nat, Bytes>, tokens: map<nat, UploadedBlock>, sent: map<nat, Bytes>,
                     handed: seq<Upload>)
    requires Tracked(c, blobs, multiset{}, tokens, sent, handed, false)
    requires handed != [] && forall u | u in handed :: u.index > 0
    ensures !Contiguous(tokens)
  {
    assert handed[0] in handed && handed[0].index in tokens;
    assert |tokens| > 0 by { assert |tokens| == |tokens.Keys|; }
    forall i | i in tokens ensures i > 0 { assert Upload(i, sent[i]) in handed; }
    assert 0 !in tokens;
  }

  // ----- the pieces of a read -----

  /** The bytes from off on that lie in the same block, at most want of them. */
  function Piece(d: Bytes, off: nat, want: nat): Bytes {
    if off >= |d| then []
    else d[off..Min(off + want, Min((off / BLOCK_SIZE + 1) * BLOCK_SIZE, |d|))]
  }

  lemma PieceOfBlock(d: Bytes, off: nat, want: nat, block: Bytes)
    requires off / BLOCK_SIZE < BlockCount(|d|) && block == Block(d, off / BLOCK_SIZE)
    ensures var o := off % BLOCK_SIZE;
            if o >= |block| then Piece(d, off, want) == []
            else Piece(d, off, want) == block[o..o + Min(want, |block| - o)]
  {
    var i, o := off / BLOCK_SIZE, off % BLOCK_SIZE;
    var first, stop := i * BLOCK_SIZE, Min((i + 1) * BLOCK_SIZE, |d|);
    assert off == first + o && first < |d|;
    assert block == d[first..stop];
    if o < |block| {
      var e := Min(want, |block| - o);
      assert off + e == Min(off + want, stop);
      SliceOfSlice(d, first, stop, o, o + e);
    }
  }

  lemma SliceOfSlice(d: Bytes, first: nat, stop: nat, x: nat, y: nat)
    requires first <= stop <= |d| && x <= y <= stop - first
    ensures d[first..stop][x..y] == d[first + x..first + y]
  {
    assert forall k | 0 <= k < y - x :: d[first..stop][x..y][k] == d[first + x..first + y][k];
  }

  /** The bytes of a deciphered block that lie at and behind off, at most want. */
  method CutPiece(block: Bytes, off: nat, want: nat, ghost d: Bytes) returns (piece: Bytes)
    requires off / BLOCK_SIZE < BlockCount(|d|) && block == Block(d, off / BLOCK_SIZE)
    ensures piece == Piece(d, off, want)
  {
    PieceOfBlock(d, off, want, block);
    var blockOffset := off % BLOCK_SIZE;
    if |block| <= blockOffset { return []; }
    return block[blockOffset..blockOffset + Min(want, |block| - blockOffset)];
  }

  lemma BeyondBlocks(d: Bytes, off: nat)
    requires off / BLOCK_SIZE >= BlockCount(|d|)
    ensures off >= |d|
  {
  }

  /** The bytes read so far are a beginning of the result, and all of it at the recorded size. */
  ghost predicate Continues(d: Bytes, fileSize: nat, at: nat, n: nat, data: Bytes) {
    && data <= ReadResult(d, fileSize, at, n)
    && (at + |data| >= fileSize || |data| >= n ==> data == ReadResult(d, fileSize, at, n))
  }

  /** The piece continues what was read; an empty one ends it. */
  ghost predicate Advances(d: Bytes, fileSize: nat, at: nat, n: nat, data: Bytes, piece: Bytes) {
    && |data + piece| <= n && Continues(d, fileSize, at, n, data + piece)
    && (piece == [] ==> data == ReadResult(d, fileSize, at, n))
  }

  lemma NothingBeyond(d: Bytes, fileSize: nat, at: nat, n: nat, data: Bytes)
    requires data <= ReadResult(d, fileSize, at, n) && (at + |data|) / BLOCK_SIZE >= BlockCount(|d|)
    ensures data == ReadResult(d, fileSize, at, n)
  {
    BeyondBlocks(d, at + |data|);
  }

  /** The next piece continues the result, and an empty one ends it. */
  lemma NextPiece(d: Bytes, fileSize: nat, at: nat, n: nat, data: Bytes, piece: Bytes)
    requires |data| < n && at + |data| < fileSize && data <= ReadResult(d, fileSize, at, n)
    requires piece == Piece(d, at + |data|, n - |data|)
    ensures Advances(d, fileSize, at, n, data, piece)
  {
    var off, got := at + |data|, |data|;
    var goal := ReadResult(d, fileSize, at, n);
    if off >= |d| {
      assert got == |goal|;
      assert data + piece == data;
    } else {
      PieceBounds(|d|, fileSize, off, n - got);
      var limit := Min(|d|, BlockCount(fileSize) * BLOCK_SIZE);
      assert at < fileSize && at < limit;
      Extends(d, at, Min(at + n, limit), data, piece);
    }
  }

  lemma Extends(d: Bytes, at: nat, stop: nat, data: Bytes, piece: Bytes)
    requires at <= stop <= |d| && data <= d[at..stop] && at + |data| + |piece| <= stop
    requires piece == d[at + |data|..at + |data| + |piece|]
    ensures data + piece <= d[at..stop]
    ensures at + |data| + |piece| == stop ==> data + piece == d[at..stop]
  {
    var got, goal := |data|, d[at..stop];
    SliceOfSlice(d, at, stop, got, got + |piece|);
    assert goal[..got] + goal[got..got + |piece|] == goal[..got + |piece|];
  }

  lemma PieceBounds(size: nat, fileSize: nat, off: nat, n: nat)
    requires off < fileSize && off < size
    ensures var limit := Min(size, BlockCount(fileSize) * BLOCK_SIZE);
            var stop := Min(off + n, Min((off / BLOCK_SIZE + 1) * BLOCK_SIZE, size));
            && (n > 0 ==> off < stop <= limit)
            && (stop >= fileSize ==> stop == Min(off + n, limit))
  {
    assert off / BLOCK_SIZE < BlockCount(fileSize);
  }

  // ----- the life of a file -----

  /** Creates a file, writes it in arbitrary chunks while uploads finish in any order, flushes it
      any number of times, whatever comes of it, and closes it.  When the close reports success,
      the committed revision holds exactly the chunks. */
  method WriteFile(server: Server, crypto: Crypto, store: BlockStore, link: string, brandNew: bool,
                   chunks: seq<Bytes>, flushes: nat)
    returns (err: Option<IoError>)
    requires server.Valid() && Sound(crypto)
    modifies server
    ensures server.Valid()
    ensures server.faults == old(server.faults) ==> err.None?
    ensures err.Some? ==> server.active == old(server.active)
    ensures err.None? && (Concat(chunks) != [] || brandNew) ==>
              server.active.Some? && RevisionHolds(crypto, server.blobs, server.active.value, Concat(chunks))
    ensures err.None? && Concat(chunks) == [] && !brandNew ==> server.active == old(server.active)
  {
    var fd := new FileDescriptor.Create(server, crypto, store, link, brandNew);
    EmptyRepresents();
    for i := 0 to |chunks|
      invariant fd.server == server && fd.crypto == crypto && fd.isNew == brandNew && fresh(fd)
      invariant fd.Valid() && fd.Writable() && !fd.committed
      invariant Represents(fd.Buffer(), Concat(chunks[..i]))
      invariant server.active == old(server.active) && server.faults >= old(server.faults)
      invariant fd.firstErr.Some? ==> server.faults > old(server.faults)
    {
      assert chunks[..i + 1][..i] == chunks[..i];
      WriteChunk(fd, chunks[i], Concat(chunks[..i]));
    }
    assert chunks[..|chunks|] == chunks;
    err := FlushAndClose(fd, flushes, Concat(chunks));
  }

  /** Flushes any number of times, also after failures, and closes. */
  method FlushAndClose(fd: FileDescriptor, flushes: nat, ghost d: Bytes) returns (err: Option<IoError>)
    requires fd.Valid() && fd.Writable() && fd.Pending(d)
    modifies fd`closed, fd`curBlock, fd`inflight, fd`flushed, fd`tokens, fd`sent, fd`firstErr, fd`committed, fd.server
    ensures fd.Valid() && fd.server.faults >= old(fd.server.faults)
    ensures err.Some? ==> fd.server.active == old(fd.server.active)
    ensures err.Some? ==> old(fd.firstErr).Some? || fd.server.faults > old(fd.server.faults)
    ensures err.None? && (d != [] || fd.isNew) ==> fd.Holds(d)
    ensures err.None? && d == [] && !fd.isNew ==> fd.server.active == old(fd.server.active)
  {
    ghost var pending := true;
    for i := 0 to flushes
      invariant fd.Valid() && fd.Writable() && PendingOrHeld(fd, pending, old(fd.server.active), d)
      invariant fd.server.faults >= old(fd.server.faults)
      invariant fd.firstErr.Some? ==> old(fd.firstErr).Some? || fd.server.faults > old(fd.server.faults)
    {
      pending := FlushOnce(fd, pending, old(fd.server.active), d);
    }
    err := fd.Close(if pending then Some(d) else None);
  }

  /** What becomes of a written file: pending, or committed for good. */
  ghost predicate PendingOrHeld(fd: FileDescriptor, pending: bool, active0: Option<Revision>, d: Bytes)
    reads fd, fd.server
  {
    if pending then fd.Pending(d) && fd.server.active == active0
    else fd.Settled() && fd.Holds(d) && (d != [] || fd.isNew)
  }

  method FlushOnce(fd: FileDescriptor, ghost pending: bool, ghost active0: Option<Revision>, ghost d: Bytes)
    returns (ghost still: bool)
    requires fd.Valid() && fd.Writable() && PendingOrHeld(fd, pending, active0, d)
    modifies fd`curBlock, fd`inflight, fd`flushed, fd`tokens, fd`sent, fd`firstErr, fd`committed, fd.server
    ensures fd.Valid() && fd.Writable() && PendingOrHeld(fd, still, active0, d)
    ensures fd.server.faults >= old(fd.server.faults)
    ensures fd.firstErr.Some? ==> old(fd.firstErr).Some? || fd.server.faults > old(fd.server.faults)
  {
    var err := fd.Flush(if pending then Some(d) else None);
    still := pending && (err.Some? || (d == [] && !fd.isNew));
  }

  /** One write, after which any uploads may finish. */
  method WriteChunk(fd: FileDescriptor, p: Bytes, ghost d: Bytes)
    requires fd.Valid() && fd.Writable() && Represents(fd.Buffer(), d)
    modifies fd`curBlock, fd`curIdx, fd`fileSize, fd`inflight, fd`flushed, fd`tokens, fd`sent, fd`firstErr, fd.server
    ensures fd.Valid() && Represents(fd.Buffer(), d + p)
    ensures fd.server.active == old(fd.server.active) && fd.server.faults >= old(fd.server.faults)
    ensures fd.firstErr.Some? ==> old(fd.firstErr).Some? || fd.server.faults > old(fd.server.faults)
  {
    WriteRefines(fd.Buffer(), d, p);
    NothingWritten(fd.Buffer(), p);
    var n, err := fd.Write(p);
    fd.RunUploads(false);
  }

  lemma EmptyRepresents()
    ensures Represents(EMPTY, [])
  {
  }

  lemma NothingWritten(w: Writer, p: Bytes)
    requires |w.curBlock| < BLOCK_SIZE
    ensures p == [] ==> WriteAll(w, p) == w
  {
  }

  /** Opens a committed revision and reads from an offset, with caches that are in order for the
      strategy: a read that does not fail is exactly the flat slice, with end-of-file exactly when
      it is short. */
  method ReadFile(server: Server, crypto: Crypto, store: BlockStore, link: string, strategy: Strategy, rev: Revision,
                  fileSize: nat, off: nat, n: nat, ghost d: Bytes, w: Contents)
    returns (data: Bytes, err: Option<IoError>)
    requires server.Valid() && Sound(crypto) && RevisionHolds(crypto, server.blobs, rev, d) && fileSize >= |d|
    requires store.Ready(w) && forall i: nat | i < |rev.blocks| ::
               && w.disk(CacheKey(link, i + 1)) == server.blobs[rev.blocks[i].token]
               && w.memory(CacheKey(link, i + 1)) ==
                  if strategy == Encrypted then server.blobs[rev.blocks[i].token] else Block(d, i)
    modifies server`faults, store`disk, store.bufCache
    ensures store.Ready(w)
    ensures if err == Some(Failed) then
              server.faults > old(server.faults) && data <= PRead(d, off, n)
            else
              data == PRead(d, off, n) && err == if |data| < n then Some(EndOfFile) else None
  {
    var fd := new FileDescriptor.Open(server, crypto, store, link, strategy, rev, fileSize);
    assert fd.Reads(d, w) by {
      forall i: nat | i < |fd.blocks| ensures fd.Serves(i, Block(d, i), w) {
        assert Deciphers(crypto, server.blobs, rev.blocks[i].token, Block(d, i));
      }
    }
    data, err := fd.ReadAt(n, off, d, w);
    ReadsAreFlat(d, fileSize);
    assert ReadResult(d, fileSize, off, n) == PRead(d, off, n);
  }
}

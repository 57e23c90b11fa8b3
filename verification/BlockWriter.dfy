/** The write side of a file descriptor as a transformation of its buffer: a flat byte stream
    is cut into blocks that are handed to uploads in the background.

    Represents ties a writer to the flat file written so far.  Sequential writes always keep
    it; positioned writes keep it exactly when they fall into the open block or only repeat
    bytes that were handed over before. */
module BlockWriter {
  import opened Blocks

  /** A block handed to a background upload. */
  datatype Upload = Upload(index: nat, data: Bytes)

  /** The accumulator, its block index, the recorded size, and every block handed to an
      upload so far, in order. */
  datatype Writer = Writer(curBlock: Bytes, curIdx: nat, fileSize: nat, flushed: seq<Upload>)

  const EMPTY: Writer := Writer([], 0, 0, [])

  ghost predicate Represents(w: Writer, d: Bytes) {
    && w.fileSize == |d| && w.curIdx == |d| / BLOCK_SIZE
    && w.curBlock == d[w.curIdx * BLOCK_SIZE..]
    && (forall u | u in w.flushed :: u.index < w.curIdx && u.data == Block(d, u.index))
    && (forall i: nat | i < w.curIdx :: Upload(i, Block(d, i)) in w.flushed)
  }

  /** Hands a full accumulator over and opens the next block. */
  function Roll(w: Writer): Writer {
    if |w.curBlock| == BLOCK_SIZE then
      Writer([], w.curIdx + 1, w.fileSize, w.flushed + [Upload(w.curIdx, w.curBlock)])
    else w
  }

  // ----- sequential writes -----

  function WriteAll(w: Writer, p: Bytes): Writer
    requires |w.curBlock| < BLOCK_SIZE
    decreases |p|
  {
    if p == [] then w
    else
      var chunk := Min(|p|, BLOCK_SIZE - |w.curBlock|);
      WriteAll(Roll(Writer(w.curBlock + p[..chunk], w.curIdx, w.fileSize + chunk, w.flushed)), p[chunk..])
  }

  /** One round of the loop. */
  lemma WriteAllRound(w: Writer, p: Bytes, chunk: nat)
    requires |w.curBlock| < BLOCK_SIZE && p != [] && chunk == Min(|p|, BLOCK_SIZE - |w.curBlock|)
    ensures var w' := Roll(Writer(w.curBlock + p[..chunk], w.curIdx, w.fileSize + chunk, w.flushed));
            |w'.curBlock| < BLOCK_SIZE && WriteAll(w, p) == WriteAll(w', p[chunk..])
  {
  }

  /** A block already complete in d is the same block of any extension of d. */
  lemma BlockOfExtension(d: Bytes, p: Bytes, i: nat)
    requires (i + 1) * BLOCK_SIZE <= |d|
    ensures Block(d + p, i) == Block(d, i)
  {
    FullBlock(d, i);
    FullBlock(d + p, i);
  }

  /** Appending within the open block, then rolling over if it is full. */
  lemma RollRefines(w: Writer, d: Bytes, p: Bytes)
    requires Represents(w, d) && |w.curBlock| + |p| <= BLOCK_SIZE
    ensures Represents(Roll(Writer(w.curBlock + p, w.curIdx, w.fileSize + |p|, w.flushed)), d + p)
  {
    var d' := d + p;
    forall i: nat | i < w.curIdx ensures Block(d', i) == Block(d, i) { BlockOfExtension(d, p, i); }
    assert d'[w.curIdx * BLOCK_SIZE..] == w.curBlock + p;
    ReplaceLast(w, d, d', w.curBlock + p);
  }

  /** Giving the open block new contents, when all earlier blocks stay what they were. */
  lemma ReplaceLast(w: Writer, d: Bytes, d': Bytes, block: Bytes)
    requires Represents(w, d) && |block| <= BLOCK_SIZE
    requires w.curIdx * BLOCK_SIZE <= |d'| && d'[w.curIdx * BLOCK_SIZE..] == block
    requires forall i: nat | i < w.curIdx :: Block(d', i) == Block(d, i)
    ensures Represents(Roll(Writer(block, w.curIdx, |d'|, w.flushed)), d')
  {
    var w' := Roll(Writer(block, w.curIdx, |d'|, w.flushed));
    assert |d'| == w.curIdx * BLOCK_SIZE + |block|;
    if |block| == BLOCK_SIZE {
      assert Block(d', w.curIdx) == block;
      assert d'[(w.curIdx + 1) * BLOCK_SIZE..] == [];
      forall i: nat | i < w'.curIdx ensures Upload(i, Block(d', i)) in w'.flushed {
        if i < w.curIdx { assert Upload(i, Block(d, i)) in w.flushed; }
      }
    } else {
      forall i: nat | i < w'.curIdx ensures Upload(i, Block(d', i)) in w'.flushed {
        assert Upload(i, Block(d, i)) in w.flushed;
      }
    }
  }

  /** Writing appends to the flat file. */
  lemma {:induction false} WriteRefines(w: Writer, d: Bytes, p: Bytes)
    requires Represents(w, d)
    ensures |w.curBlock| < BLOCK_SIZE && Represents(WriteAll(w, p), d + p)
    decreases |p|
  {
    if p == [] {
      assert d + p == d;
    } else {
      var chunk := Min(|p|, BLOCK_SIZE - |w.curBlock|);
      var w' := Roll(Writer(w.curBlock + p[..chunk], w.curIdx, w.fileSize + chunk, w.flushed));
      RollRefines(w, d, p[..chunk]);
      WriteAllRound(w, p, chunk);
      WriteRefines(w', d + p[..chunk], p[chunk..]);
      Rejoin(d, p, chunk);
    }
  }

  lemma Rejoin(d: Bytes, p: Bytes, chunk: nat)
    requires chunk <= |p|
    ensures d + p[..chunk] + p[chunk..] == d + p
  {
    assert p[..chunk] + p[chunk..] == p;
  }

  // ----- positioned writes -----

  /** The switch to another block: a started block is handed over, and the accumulator starts
      empty at the target. */
  function SwitchTo(w: Writer, target: nat): Writer {
    if target == w.curIdx then w
    else
      Writer([], target, w.fileSize,
             if |w.curBlock| > 0 then w.flushed + [Upload(w.curIdx, w.curBlock)] else w.flushed)
  }

  /** One round of the loop: chunk goes to off, inside a single block. */
  function WriteChunkAt(w: Writer, chunk: Bytes, off: nat): Writer
    requires off % BLOCK_SIZE + |chunk| <= BLOCK_SIZE
  {
    var s := SwitchTo(w, off / BLOCK_SIZE);
    Roll(Writer(Overwrite(s.curBlock, off % BLOCK_SIZE, chunk), s.curIdx, Max(s.fileSize, off + |chunk|), s.flushed))
  }

  function ChunkAt(p: Bytes, off: nat): nat {
    Min(|p|, BLOCK_SIZE - off % BLOCK_SIZE)
  }

  function WriteAtAll(w: Writer, p: Bytes, off: nat): Writer
    decreases |p|
  {
    if p == [] then w
    else
      var chunk := ChunkAt(p, off);
      WriteAtAll(WriteChunkAt(w, p[..chunk], off), p[chunk..], off + chunk)
  }

  /** One round of the loop. */
  lemma WriteAtRound(w: Writer, p: Bytes, off: nat)
    requires p != []
    ensures var chunk := ChunkAt(p, off);
            WriteAtAll(w, p, off) == WriteAtAll(WriteChunkAt(w, p[..chunk], off), p[chunk..], off + chunk)
  {
  }

  /** Where an earlier block ends, a later one has not begun. */
  lemma EarlierBlockEnds(i: nat, k: nat)
    requires i < k
    ensures (i + 1) * BLOCK_SIZE <= k * BLOCK_SIZE
  {
  }

  lemma BlockBelow(x: nat, k: nat)
    ensures x < k * BLOCK_SIZE <==> x / BLOCK_SIZE < k
  {
  }

  lemma OverwriteBlock(d: Bytes, k: nat, off: nat, p: Bytes)
    requires k * BLOCK_SIZE <= |d| && k * BLOCK_SIZE <= off
    ensures Overwrite(d, off, p)[k * BLOCK_SIZE..] == Overwrite(d[k * BLOCK_SIZE..], off - k * BLOCK_SIZE, p)
    ensures forall i: nat | i < k :: Block(Overwrite(d, off, p), i) == Block(d, i)
  {
    var d' := Overwrite(d, off, p);
    assert d'[..k * BLOCK_SIZE] == d[..k * BLOCK_SIZE];
    forall i: nat | i < k ensures Block(d', i) == Block(d, i) { CommonBlock(d, d', k, i); }
  }

  lemma FullBlock(d: Bytes, i: nat)
    requires (i + 1) * BLOCK_SIZE <= |d|
    ensures Block(d, i) == d[i * BLOCK_SIZE..(i + 1) * BLOCK_SIZE]
  {
  }

  lemma SliceOfTake(d: Bytes, a: nat, b: nat, n: nat)
    requires a <= b <= n <= |d|
    ensures d[..n][a..b] == d[a..b]
  {
  }

  /** Files that begin alike have their first blocks in common. */
  lemma CommonBlock(d: Bytes, d': Bytes, k: nat, i: nat)
    requires k * BLOCK_SIZE <= |d| && k * BLOCK_SIZE <= |d'| && d[..k * BLOCK_SIZE] == d'[..k * BLOCK_SIZE] && i < k
    ensures Block(d', i) == Block(d, i)
  {
    EarlierBlockEnds(i, k);
    FullBlock(d, i);
    FullBlock(d', i);
    SliceOfTake(d, i * BLOCK_SIZE, (i + 1) * BLOCK_SIZE, k * BLOCK_SIZE);
    SliceOfTake(d', i * BLOCK_SIZE, (i + 1) * BLOCK_SIZE, k * BLOCK_SIZE);
  }

  /** One round inside the open block. */
  lemma ChunkRefines(w: Writer, d: Bytes, chunk: Bytes, off: nat)
    requires Represents(w, d) && off / BLOCK_SIZE == w.curIdx
    requires off % BLOCK_SIZE + |chunk| <= BLOCK_SIZE
    ensures Represents(WriteChunkAt(w, chunk, off), Overwrite(d, off, chunk))
  {
    OverwriteBlock(d, w.curIdx, off, chunk);
    var block := Overwrite(w.curBlock, off % BLOCK_SIZE, chunk);
    ReplaceLast(w, d, Overwrite(d, off, chunk), block);
    ChunkInPlace(w, chunk, off);
  }

  lemma ChunkInPlace(w: Writer, chunk: Bytes, off: nat)
    requires off / BLOCK_SIZE == w.curIdx && off % BLOCK_SIZE + |chunk| <= BLOCK_SIZE
    ensures WriteChunkAt(w, chunk, off) ==
            Roll(Writer(Overwrite(w.curBlock, off % BLOCK_SIZE, chunk), w.curIdx, Max(w.fileSize, off + |chunk|), w.flushed))
  {
  }

  lemma OverwriteCompose(d: Bytes, off: nat, p: Bytes, q: Bytes)
    ensures Overwrite(Overwrite(d, off, p), off + |p|, q) == Overwrite(d, off, p + q)
  {
    var d1 := Overwrite(d, off, p);
    var head := if off <= |d| then d[..off] else d + Zeros(off - |d|);
    assert d1[..off + |p|] == head + p;
    assert Overwrite(d1, off + |p|, q) == head + p + q + (if off + |p| + |q| < |d1| then d1[off + |p| + |q|..] else []);
    if off + |p| + |q| < |d| {
      assert d1[off + |p| + |q|..] == d[off + |p| + |q|..];
    }
  }

  /** A positioned write into the open block is a flat-file write, whatever its length. */
  lemma {:induction false} WriteAtRefines(w: Writer, d: Bytes, p: Bytes, off: nat)
    requires Represents(w, d) && off / BLOCK_SIZE == w.curIdx && p != []
    ensures Represents(WriteAtAll(w, p, off), Overwrite(d, off, p))
    decreases |p|
  {
    var chunk := ChunkAt(p, off);
    var w' := WriteChunkAt(w, p[..chunk], off);
    var d' := Overwrite(d, off, p[..chunk]);
    ChunkRefines(w, d, p[..chunk], off);
    if chunk == |p| {
      assert p[..chunk] == p && p[chunk..] == [];
    } else {
      WriteAtRefines(w', d', p[chunk..], off + chunk);
      OverwriteCompose(d, off, p[..chunk], p[chunk..]);
      assert p[..chunk] + p[chunk..] == p;
    }
  }

  /** At the end of the file a positioned write leaves the state a sequential write leaves. */
  lemma {:induction false} WriteAtEnd(w: Writer, d: Bytes, p: Bytes)
    requires Represents(w, d)
    ensures WriteAtAll(w, p, |d|) == WriteAll(w, p)
    decreases |p|
  {
    if p != [] {
      var w', d', rest := RoundAtEnd(w, d, p);
      WriteAtEnd(w', d', rest);
    }
  }

  /** One round of either loop at the end of the file. */
  lemma RoundAtEnd(w: Writer, d: Bytes, p: Bytes) returns (w': Writer, d': Bytes, rest: Bytes)
    requires Represents(w, d) && p != []
    ensures Represents(w', d') && |rest| < |p| && |w.curBlock| < BLOCK_SIZE && |w'.curBlock| < BLOCK_SIZE
    ensures WriteAll(w, p) == WriteAll(w', rest)
    ensures WriteAtAll(w, p, |d|) == WriteAtAll(w', rest, |d'|)
  {
    var chunk := ChunkAt(p, |d|);
    w' := Roll(Writer(w.curBlock + p[..chunk], w.curIdx, w.fileSize + chunk, w.flushed));
    d', rest := d + p[..chunk], p[chunk..];
    RollRefines(w, d, p[..chunk]);
    ChunkAtEnd(w, d, p[..chunk]);
    AtEndIsAtRound(w, w', p, |d|, |d'|, chunk);
    AtEndIsAllRound(w, w', p, |d|, chunk);
  }

  lemma AtEndIsAtRound(w: Writer, w': Writer, p: Bytes, off: nat, next: nat, chunk: nat)
    requires p != [] && chunk == ChunkAt(p, off) && next == off + chunk && WriteChunkAt(w, p[..chunk], off) == w'
    ensures WriteAtAll(w, p, off) == WriteAtAll(w', p[chunk..], next)
  {
    WriteAtRound(w, p, off);
  }

  lemma AtEndIsAllRound(w: Writer, w': Writer, p: Bytes, off: nat, chunk: nat)
    requires p != [] && chunk == ChunkAt(p, off) && |w.curBlock| == off % BLOCK_SIZE
    requires w' == Roll(Writer(w.curBlock + p[..chunk], w.curIdx, w.fileSize + chunk, w.flushed))
    ensures |w'.curBlock| < BLOCK_SIZE && WriteAll(w, p) == WriteAll(w', p[chunk..])
  {
    WriteAllRound(w, p, chunk);
  }

  /** A piece at the end of the file goes to the end of the open block. */
  lemma ChunkAtEnd(w: Writer, d: Bytes, chunk: Bytes)
    requires Represents(w, d) && |d| % BLOCK_SIZE + |chunk| <= BLOCK_SIZE
    ensures |w.curBlock| == |d| % BLOCK_SIZE
    ensures WriteChunkAt(w, chunk, |d|) == Roll(Writer(w.curBlock + chunk, w.curIdx, w.fileSize + |chunk|, w.flushed))
  {
    assert |w.curBlock| == |d| % BLOCK_SIZE;
    assert Overwrite(w.curBlock, |d| % BLOCK_SIZE, chunk) == w.curBlock + chunk;
    ChunkInPlace(w, chunk, |d|);
  }

  // ----- outside the open block -----

  /** Later holds all that earlier handed over; what it adds lies in the open block or from
      block first on. */
  ghost predicate Grows(earlier: Writer, later: Writer, first: nat) {
    && earlier.flushed <= later.flushed
    && forall k | |earlier.flushed| <= k < |later.flushed| ::
         later.flushed[k].index == earlier.curIdx || later.flushed[k].index >= first
  }

  lemma ChunkGrows(w: Writer, chunk: Bytes, off: nat)
    requires off % BLOCK_SIZE + |chunk| <= BLOCK_SIZE
    ensures Grows(w, WriteChunkAt(w, chunk, off), off / BLOCK_SIZE)
    ensures off / BLOCK_SIZE <= WriteChunkAt(w, chunk, off).curIdx
  {
  }

  /** Handed-over blocks are never taken back, and new ones lie in the blocks written to. */
  lemma {:induction false} WriteAtGrows(w: Writer, p: Bytes, off: nat)
    ensures Grows(w, WriteAtAll(w, p, off), off / BLOCK_SIZE)
    ensures p != [] ==> WriteAtAll(w, p, off).curIdx >= off / BLOCK_SIZE
    decreases |p|
  {
    if p != [] {
      var chunk := ChunkAt(p, off);
      ChunkGrows(w, p[..chunk], off);
      WriteAtGrows(WriteChunkAt(w, p[..chunk], off), p[chunk..], off + chunk);
      GrowsFurther(w, WriteChunkAt(w, p[..chunk], off), WriteAtAll(w, p, off), off / BLOCK_SIZE, (off + chunk) / BLOCK_SIZE);
    }
  }

  lemma GrowsFurther(w: Writer, w1: Writer, w2: Writer, first: nat, next: nat)
    requires Grows(w, w1, first) && Grows(w1, w2, next) && first <= next && first <= w1.curIdx
    ensures Grows(w, w2, first)
  {
    forall k | |w.flushed| <= k < |w2.flushed|
      ensures w2.flushed[k].index == w.curIdx || w2.flushed[k].index >= first
    {
      if k < |w1.flushed| { assert w2.flushed[k] == w1.flushed[k]; }
    }
  }

  /** A jump away from a started block leaves that block short for good. */
  lemma JumpStrands(w: Writer, d: Bytes, p: Bytes, off: nat, d': Bytes)
    requires Represents(w, d) && p != [] && off / BLOCK_SIZE != w.curIdx && w.curBlock != []
    ensures !Represents(WriteAtAll(w, p, off), d')
  {
    var chunk := ChunkAt(p, off);
    var w1 := WriteChunkAt(w, p[..chunk], off);
    var w' := WriteAtAll(w, p, off);
    WriteAtGrows(w1, p[chunk..], off + chunk);
    assert w1.flushed[|w.flushed|] == Upload(w.curIdx, w.curBlock);
    ShortBlock(w', d', |w.flushed|);
  }

  lemma ShortBlock(w: Writer, d: Bytes, k: nat)
    requires k < |w.flushed| && |w.flushed[k].data| < BLOCK_SIZE
    ensures !Represents(w, d)
  {
    var u := w.flushed[k];
    assert u in w.flushed;
  }

  lemma MissingBlock(w: Writer, d: Bytes, i: nat)
    requires i < w.curIdx && forall k | 0 <= k < |w.flushed| :: w.flushed[k].index != i
    ensures !Represents(w, d)
  {
    var b := Block(d, i);
    assert Upload(i, b) !in w.flushed;
  }

  /** Every block later hands over beyond those of earlier lies behind block i. */
  ghost predicate AllBehind(earlier: Writer, later: Writer, i: nat) {
    earlier.flushed <= later.flushed
    && forall k | |earlier.flushed| <= k < |later.flushed| :: later.flushed[k].index > i
  }

  lemma JumpChunk(w: Writer, chunk: Bytes, off: nat)
    requires off % BLOCK_SIZE + |chunk| <= BLOCK_SIZE && w.curBlock == [] && off / BLOCK_SIZE > w.curIdx
    ensures AllBehind(w, WriteChunkAt(w, chunk, off), w.curIdx) && WriteChunkAt(w, chunk, off).curIdx > w.curIdx
  {
  }

  lemma StillBehind(w: Writer, w1: Writer, w2: Writer, first: nat)
    requires AllBehind(w, w1, w.curIdx) && Grows(w1, w2, first) && w1.curIdx > w.curIdx && first > w.curIdx
    ensures AllBehind(w, w2, w.curIdx)
  {
    forall k | |w.flushed| <= k < |w2.flushed| ensures w2.flushed[k].index > w.curIdx {
      if k < |w1.flushed| { assert w2.flushed[k] == w1.flushed[k]; }
    }
  }

  lemma BehindMisses(w: Writer, d: Bytes, w': Writer, d': Bytes)
    requires Represents(w, d) && AllBehind(w, w', w.curIdx) && w'.curIdx > w.curIdx
    ensures !Represents(w', d')
  {
    forall k | 0 <= k < |w'.flushed| ensures w'.flushed[k].index != w.curIdx {
      if k < |w.flushed| { assert w'.flushed[k] == w.flushed[k] && w.flushed[k] in w.flushed; }
    }
    MissingBlock(w', d', w.curIdx);
  }

  /** A jump forward over a block leaves it missing for good. */
  lemma JumpForwardSkips(w: Writer, d: Bytes, p: Bytes, off: nat, d': Bytes)
    requires Represents(w, d) && p != [] && off / BLOCK_SIZE > w.curIdx && w.curBlock == []
    ensures !Represents(WriteAtAll(w, p, off), d')
  {
    JumpForwardGrows(w, p, off);
    BehindMisses(w, d, WriteAtAll(w, p, off), d');
  }

  lemma JumpForwardGrows(w: Writer, p: Bytes, off: nat)
    requires p != [] && off / BLOCK_SIZE > w.curIdx && w.curBlock == []
    ensures AllBehind(w, WriteAtAll(w, p, off), w.curIdx) && WriteAtAll(w, p, off).curIdx > w.curIdx
  {
    var chunk := ChunkAt(p, off);
    var w1 := WriteChunkAt(w, p[..chunk], off);
    JumpChunk(w, p[..chunk], off);
    WriteAtGrows(w, p, off);
    WriteAtGrows(w1, p[chunk..], off + chunk);
    StillBehind(w, w1, WriteAtAll(w, p, off), (off + chunk) / BLOCK_SIZE);
  }

  /** A jump backward that leaves a file at all leaves one that begins with the old file. */
  lemma JumpBackwardKeeps(w: Writer, d: Bytes, p: Bytes, off: nat, d': Bytes)
    requires Represents(w, d) && p != [] && off / BLOCK_SIZE < w.curIdx && w.curBlock == []
    requires Represents(WriteAtAll(w, p, off), d')
    ensures d <= d'
  {
    WriteAtGrows(w, p, off);
    OldBlocksRemain(w, d, WriteAtAll(w, p, off), d');
    SameBlocks(d, d', w.curIdx);
    NothingOpen(w, d);
  }

  lemma NothingOpen(w: Writer, d: Bytes)
    requires Represents(w, d) && w.curBlock == []
    ensures w.curIdx * BLOCK_SIZE == |d| && d[..w.curIdx * BLOCK_SIZE] == d
  {
    assert |d[w.curIdx * BLOCK_SIZE..]| == |d| - w.curIdx * BLOCK_SIZE;
  }

  /** Two writers that agree on handed-over blocks stand for files that agree on them. */
  lemma OldBlocksRemain(w: Writer, d: Bytes, w': Writer, d': Bytes)
    requires Represents(w, d) && Represents(w', d') && w.flushed <= w'.flushed && w.curIdx > 0
    ensures w.curIdx * BLOCK_SIZE <= |d'|
    ensures forall i: nat | i < w.curIdx :: Block(d', i) == Block(d, i)
  {
    forall i: nat | i < w.curIdx ensures i < w'.curIdx && Block(d', i) == Block(d, i) {
      var u := Upload(i, Block(d, i));
      assert u in w.flushed;
      assert u in w'.flushed;
    }
    var last := Block(d, w.curIdx - 1);
    assert w.curIdx - 1 < w'.curIdx;
  }

  lemma {:induction false} SameBlocks(d: Bytes, d': Bytes, n: nat)
    requires n * BLOCK_SIZE <= |d| && n * BLOCK_SIZE <= |d'|
    requires forall i: nat | i < n :: Block(d', i) == Block(d, i)
    ensures d[..n * BLOCK_SIZE] == d'[..n * BLOCK_SIZE]
  {
    if n > 0 {
      SameBlocks(d, d', n - 1);
      assert Block(d', n - 1) == Block(d, n - 1);
      assert d[..n * BLOCK_SIZE] == d[..(n - 1) * BLOCK_SIZE] + Block(d, n - 1);
      assert d'[..n * BLOCK_SIZE] == d'[..(n - 1) * BLOCK_SIZE] + Block(d', n - 1);
    }
  }

  // ----- writes before the open block that repeat the file -----

  /** A write that starts in an earlier block and is flat all the same: no block is open, the
      write reaches the end of the file and repeats the bytes it passes, and the file is zero
      from the start of the block to the write. */
  ghost predicate Repeats(w: Writer, d: Bytes, p: Bytes, off: nat) {
    && w.curBlock == [] && off / BLOCK_SIZE < w.curIdx
    && off <= |d| <= off + |p| && p[..|d| - off] == d[off..]
    && forall k | off / BLOCK_SIZE * BLOCK_SIZE <= k < off :: d[k] == 0
  }

  /** A write to another block ends in the block its last byte ends in. */
  lemma {:induction false} WriteAtEndsAt(w: Writer, p: Bytes, off: nat)
    requires p != [] && |w.curBlock| < BLOCK_SIZE
    ensures WriteAtAll(w, p, off).curIdx == (off + |p|) / BLOCK_SIZE
    decreases |p|
  {
    var chunk := ChunkAt(p, off);
    ChunkEndsAt(w, p[..chunk], off);
    WriteAtRound(w, p, off);
    if chunk < |p| {
      WriteAtEndsAt(WriteChunkAt(w, p[..chunk], off), p[chunk..], off + chunk);
    } else {
      assert p[chunk..] == [];
    }
  }

  lemma ChunkEndsAt(w: Writer, chunk: Bytes, off: nat)
    requires |w.curBlock| < BLOCK_SIZE && chunk != [] && off % BLOCK_SIZE + |chunk| <= BLOCK_SIZE
    ensures var w' := WriteChunkAt(w, chunk, off);
            |w'.curBlock| < BLOCK_SIZE && w'.curIdx == (off + |chunk|) / BLOCK_SIZE
  {
    var s := SwitchTo(w, off / BLOCK_SIZE);
    var block := Overwrite(s.curBlock, off % BLOCK_SIZE, chunk);
    if off % BLOCK_SIZE + |chunk| == BLOCK_SIZE {
      assert |block| == BLOCK_SIZE;
      assert off + |chunk| == (off / BLOCK_SIZE + 1) * BLOCK_SIZE;
    } else {
      assert |block| < BLOCK_SIZE;
    }
  }

  /** The first n blocks as uploads. */
  function FirstUploads(d: Bytes, n: nat): (us: seq<Upload>)
    ensures |us| == n
  {
    if n == 0 then [] else FirstUploads(d, n - 1) + [Upload(n - 1, Block(d, n - 1))]
  }

  lemma {:induction false} FirstUploadsMembers(d: Bytes, n: nat)
    ensures forall u :: u in FirstUploads(d, n) <==> u.index < n && u.data == Block(d, u.index)
  {
    if n > 0 { FirstUploadsMembers(d, n - 1); }
  }

  /** The writer that has written the first n blocks of d and nothing else. */
  function Rewound(d: Bytes, n: nat): Writer {
    Writer([], n, n * BLOCK_SIZE, FirstUploads(d, n))
  }

  lemma RewoundRepresents(d: Bytes, n: nat)
    requires n * BLOCK_SIZE <= |d|
    ensures Represents(Rewound(d, n), d[..n * BLOCK_SIZE])
  {
    var us, e := FirstUploads(d, n), d[..n * BLOCK_SIZE];
    FirstUploadsMembers(d, n);
    forall i: nat | i < n ensures Block(e, i) == Block(d, i) { BlockOfPrefix(d, n, i); }
    FullBlocksRepresent(us, e, n);
  }

  lemma FullBlocksRepresent(us: seq<Upload>, e: Bytes, n: nat)
    requires |e| == n * BLOCK_SIZE
    requires forall u :: u in us <==> u.index < n && u.data == Block(e, u.index)
    ensures Represents(Writer([], n, |e|, us), e)
  {
  }

  lemma BlockOfPrefix(d: Bytes, n: nat, i: nat)
    requires i < n && n * BLOCK_SIZE <= |d|
    ensures Block(d[..n * BLOCK_SIZE], i) == Block(d, i)
  {
    CommonBlock(d, d[..n * BLOCK_SIZE], n, i);
  }

  /** Two writers without an open block do the same with a write outside it. */
  ghost predicate Alike(w: Writer, w': Writer, v: Writer, v': Writer) {
    && w'.curBlock == v'.curBlock && w'.curIdx == v'.curIdx
    && w.flushed <= w'.flushed && v.flushed <= v'.flushed
    && w'.flushed[|w.flushed|..] == v'.flushed[|v.flushed|..]
  }

  lemma ChunksAlike(w: Writer, v: Writer, chunk: Bytes, off: nat)
    requires off % BLOCK_SIZE + |chunk| <= BLOCK_SIZE
    requires SwitchTo(w, off / BLOCK_SIZE).curBlock == SwitchTo(v, off / BLOCK_SIZE).curBlock
    requires SwitchTo(w, off / BLOCK_SIZE).flushed == w.flushed && SwitchTo(v, off / BLOCK_SIZE).flushed == v.flushed
    ensures Alike(w, WriteChunkAt(w, chunk, off), v, WriteChunkAt(v, chunk, off))
  {
  }

  /** Once they agree on the open block they keep agreeing. */
  lemma {:induction false} WritesAlike(w: Writer, v: Writer, p: Bytes, off: nat) returns (w': Writer, v': Writer)
    requires w.curBlock == v.curBlock && w.curIdx == v.curIdx == off / BLOCK_SIZE && |w.curBlock| < BLOCK_SIZE
    ensures w' == WriteAtAll(w, p, off) && v' == WriteAtAll(v, p, off)
    ensures Alike(w, w', v, v')
    decreases |p|
  {
    w', v' := w, v;
    if p != [] {
      var chunk := ChunkAt(p, off);
      var w1, v1 := NextChunkAlike(w, v, p[..chunk], off);
      w', v' := WritesAlike(w1, v1, p[chunk..], off + chunk);
      WriteAtRound(w, p, off);
      WriteAtRound(v, p, off);
      AlikeFurther(w, w1, w', v, v1, v');
    }
  }

  lemma AlikeFurther(w: Writer, w1: Writer, w2: Writer, v: Writer, v1: Writer, v2: Writer)
    requires Alike(w, w1, v, v1) && Alike(w1, w2, v1, v2)
    ensures Alike(w, w2, v, v2)
  {
    assert w2.flushed[|w.flushed|..] == w1.flushed[|w.flushed|..] + w2.flushed[|w1.flushed|..];
    assert v2.flushed[|v.flushed|..] == v1.flushed[|v.flushed|..] + v2.flushed[|v1.flushed|..];
  }

  /** Going back to an earlier block acts as on a writer that never went on from there. */
  lemma BackwardAlike(w: Writer, v: Writer, p: Bytes, off: nat) returns (w': Writer, v': Writer)
    requires p != [] && w.curBlock == [] && v.curBlock == [] && v.curIdx == off / BLOCK_SIZE
    ensures w' == WriteAtAll(w, p, off) && v' == WriteAtAll(v, p, off)
    ensures Alike(w, w', v, v')
  {
    var chunk := ChunkAt(p, off);
    var w1, v1 := FirstChunkAlike(w, v, p[..chunk], off);
    w', v' := WritesAlike(w1, v1, p[chunk..], off + chunk);
    WriteAtRound(w, p, off);
    WriteAtRound(v, p, off);
    AlikeFurther(w, w1, w', v, v1, v');
  }

  lemma NextChunkAlike(w: Writer, v: Writer, chunk: Bytes, off: nat) returns (w1: Writer, v1: Writer)
    requires chunk != [] && off % BLOCK_SIZE + |chunk| <= BLOCK_SIZE
    requires w.curBlock == v.curBlock && w.curIdx == v.curIdx == off / BLOCK_SIZE && |w.curBlock| < BLOCK_SIZE
    ensures w1 == WriteChunkAt(w, chunk, off) && v1 == WriteChunkAt(v, chunk, off)
    ensures Alike(w, w1, v, v1) && |w1.curBlock| < BLOCK_SIZE && w1.curIdx == (off + |chunk|) / BLOCK_SIZE
  {
    w1, v1 := WriteChunkAt(w, chunk, off), WriteChunkAt(v, chunk, off);
    ChunksAlike(w, v, chunk, off);
    ChunkEndsAt(w, chunk, off);
  }

  lemma FirstChunkAlike(w: Writer, v: Writer, chunk: Bytes, off: nat) returns (w1: Writer, v1: Writer)
    requires chunk != [] && off % BLOCK_SIZE + |chunk| <= BLOCK_SIZE
    requires w.curBlock == [] && v.curBlock == [] && v.curIdx == off / BLOCK_SIZE
    ensures w1 == WriteChunkAt(w, chunk, off) && v1 == WriteChunkAt(v, chunk, off)
    ensures Alike(w, w1, v, v1) && |w1.curBlock| < BLOCK_SIZE && w1.curIdx == (off + |chunk|) / BLOCK_SIZE
  {
    w1, v1 := WriteChunkAt(w, chunk, off), WriteChunkAt(v, chunk, off);
    ChunksAlike(w, v, chunk, off);
    ChunkEndsAt(w, chunk, off);
  }

  /** The size after a write is the larger of the old size and the end of the write. */
  lemma {:induction false} WriteAtSize(w: Writer, p: Bytes, off: nat)
    requires p != []
    ensures WriteAtAll(w, p, off).fileSize == Max(w.fileSize, off + |p|)
    decreases |p|
  {
    var chunk := ChunkAt(p, off);
    WriteAtRound(w, p, off);
    if chunk < |p| {
      WriteAtSize(WriteChunkAt(w, p[..chunk], off), p[chunk..], off + chunk);
    } else {
      assert p[chunk..] == [];
    }
  }

  lemma ZeroFilled(d: Bytes, start: nat, off: nat)
    requires start <= off <= |d| && forall k | start <= k < off :: d[k] == 0
    ensures d[..start] + Zeros(off - start) == d[..off]
  {
    var z := Zeros(off - start);
    forall k | 0 <= k < off ensures (d[..start] + z)[k] == d[k] {
      if k >= start { assert (d[..start] + z)[k] == z[k - start]; }
    }
  }

  /** The flat result of such a write, from the file and from the part before the block. */
  lemma RepeatedFile(w: Writer, d: Bytes, p: Bytes, off: nat)
    requires Represents(w, d) && Repeats(w, d, p, off)
    ensures var t := off / BLOCK_SIZE;
            && t * BLOCK_SIZE <= |d| && Overwrite(d[..t * BLOCK_SIZE], off, p) == Overwrite(d, off, p)
    ensures d <= Overwrite(d, off, p) && |Overwrite(d, off, p)| == off + |p|
  {
    var start := off / BLOCK_SIZE * BLOCK_SIZE;
    var e := d[..start];
    assert start <= off;
    ZeroFilled(d, start, off);
    assert d[..off] + p[..|d| - off] == d;
    assert p == p[..|d| - off] + p[|d| - off..];
    assert Overwrite(d, off, p) == d[..off] + p;
    assert Overwrite(d, off, p) == d + p[|d| - off..];
  }

  /** Such a write leaves the flat file. */
  lemma RepeatsIsFlat(w: Writer, d: Bytes, p: Bytes, off: nat)
    requires Represents(w, d) && Repeats(w, d, p, off)
    ensures Represents(WriteAtAll(w, p, off), Overwrite(d, off, p))
  {
    var t := off / BLOCK_SIZE;
    var v := Rewound(d, t);
    NothingOpen(w, d);
    EarlierBlockEnds(t, w.curIdx);
    assert p != [];
    RewoundRepresents(d, t);
    WriteAtRefines(v, d[..t * BLOCK_SIZE], p, off);
    RepeatedFile(w, d, p, off);
    var w', v' := BackwardAlike(w, v, p, off);
    WriteAtSize(w, p, off);
    WriteAtEndsAt(w, p, off);
    UploadsOfBoth(w, d, v, w', v', Overwrite(d, off, p));
  }

  lemma UploadsOfBoth(w: Writer, d: Bytes, v: Writer, w': Writer, v': Writer, d': Bytes)
    requires Represents(w, d) && w.curBlock == [] && v == Rewound(d, v.curIdx) && v.curIdx < w.curIdx
    requires Represents(v', d') && Alike(w, w', v, v') && d <= d' && w'.fileSize == |d'|
    ensures Represents(w', d')
  {
    NothingOpen(w, d);
    FirstUploadsMembers(d, v.curIdx);
    var added := w'.flushed[|w.flushed|..];
    assert w'.flushed == w.flushed + added && v'.flushed == v.flushed + added;
    BlockBelow(|d|, w.curIdx);
    assert w.curIdx <= w'.curIdx;
    UploadsFit(d, d', w.flushed, v'.flushed, added, w.curIdx, w'.curIdx);
    UploadsSuffice(d, d', w.flushed, v.flushed, added, w.curIdx, w'.curIdx);
  }

  lemma UploadsFit(d: Bytes, d': Bytes, us: seq<Upload>, all: seq<Upload>, added: seq<Upload>, n: nat, n': nat)
    requires d <= d' && n * BLOCK_SIZE <= |d| && n <= n'
    requires forall u | u in us :: u.index < n && u.data == Block(d, u.index)
    requires forall u | u in all :: u.index < n' && u.data == Block(d', u.index)
    requires forall u | u in added :: u in all
    ensures forall u | u in us + added :: u.index < n' && u.data == Block(d', u.index)
  {
    forall u | u in us ensures u.data == Block(d', u.index) { BlockOfLonger(d, d', n, u.index); }
  }

  lemma UploadsSuffice(d: Bytes, d': Bytes, us: seq<Upload>, first: seq<Upload>, added: seq<Upload>, n: nat, n': nat)
    requires d <= d' && n * BLOCK_SIZE <= |d|
    requires forall i: nat | i < n :: Upload(i, Block(d, i)) in us
    requires forall u | u in first :: u.index < n && u.data == Block(d, u.index)
    requires forall i: nat | i < n' :: Upload(i, Block(d', i)) in first + added
    ensures forall i: nat | i < n' :: Upload(i, Block(d', i)) in us + added
  {
    forall i: nat | i < n' ensures Upload(i, Block(d', i)) in us + added {
      var u := Upload(i, Block(d', i));
      assert u in first + added;
      if u in first {
        BlockOfLonger(d, d', n, i);
        assert Upload(i, Block(d, i)) in us;
      }
    }
  }

  lemma BlockOfLonger(d: Bytes, d': Bytes, n: nat, i: nat)
    requires d <= d' && n * BLOCK_SIZE <= |d| && i < n
    ensures Block(d', i) == Block(d, i)
  {
    SliceOfTake(d', 0, n * BLOCK_SIZE, |d|);
    assert d'[..|d|] == d;
    CommonBlock(d, d', n, i);
  }

  /** And only such a write does, among those that start in an earlier block. */
  lemma BackwardIsRepeat(w: Writer, d: Bytes, p: Bytes, off: nat)
    requires Represents(w, d) && p != [] && w.curBlock == [] && off / BLOCK_SIZE < w.curIdx
    requires Represents(WriteAtAll(w, p, off), Overwrite(d, off, p))
    ensures Repeats(w, d, p, off)
  {
    var d' := Overwrite(d, off, p);
    NothingOpen(w, d);
    EarlierBlockEnds(off / BLOCK_SIZE, w.curIdx);
    BlockBelow(off, w.curIdx);
    WriteAtEndsAt(w, p, off);
    JumpBackwardKeeps(w, d, p, off, d');
    ReachesEnd(w, d, p, off);
    SameBytes(d, p, off);
    ZerosBefore(w, d, p, off);
  }

  lemma ReachesEnd(w: Writer, d: Bytes, p: Bytes, off: nat)
    requires w.curIdx * BLOCK_SIZE == |d| && |Overwrite(d, off, p)| / BLOCK_SIZE == (off + |p|) / BLOCK_SIZE
    ensures |d| <= off + |p|
  {
    BlockBelow(off + |p|, w.curIdx);
    BlockBelow(|d|, w.curIdx + 1);
  }

  lemma SameBytes(d: Bytes, p: Bytes, off: nat)
    requires off <= |d| <= off + |p| && d <= Overwrite(d, off, p)
    ensures p[..|d| - off] == d[off..]
  {
    var d' := Overwrite(d, off, p);
    assert d' == d[..off] + p;
    assert d'[off..|d|] == p[..|d| - off];
  }

  /** The block the write starts in is handed over with zeros before the write. */
  lemma ZerosBefore(w: Writer, d: Bytes, p: Bytes, off: nat)
    requires Represents(w, d) && p != [] && w.curBlock == [] && off / BLOCK_SIZE < w.curIdx
    requires w.curIdx * BLOCK_SIZE == |d| <= off + |p| && d <= Overwrite(d, off, p)
    requires Represents(WriteAtAll(w, p, off), Overwrite(d, off, p))
    ensures forall k | off / BLOCK_SIZE * BLOCK_SIZE <= k < off :: d[k] == 0
  {
    EarlierBlockEnds(off / BLOCK_SIZE, w.curIdx);
    FirstUpload(w, p, off);
    ZerosOfUpload(WriteAtAll(w, p, off), d, Overwrite(d, off, p), off, |w.flushed|);
  }

  lemma ZerosOfUpload(w': Writer, d: Bytes, d': Bytes, off: nat, n: nat)
    requires Represents(w', d') && d <= d' && (off / BLOCK_SIZE + 1) * BLOCK_SIZE <= |d|
    requires n < |w'.flushed| && w'.flushed[n].index == off / BLOCK_SIZE && Zeros(off % BLOCK_SIZE) <= w'.flushed[n].data
    ensures forall k | off / BLOCK_SIZE * BLOCK_SIZE <= k < off :: d[k] == 0
  {
    var first := w'.flushed[n];
    assert first in w'.flushed;
    assert off - off / BLOCK_SIZE * BLOCK_SIZE == off % BLOCK_SIZE;
    ZerosInBlock(d, d', off / BLOCK_SIZE, off, first.data);
  }

  lemma ZerosInBlock(d: Bytes, d': Bytes, t: nat, off: nat, data: Bytes)
    requires t * BLOCK_SIZE <= off < (t + 1) * BLOCK_SIZE <= |d| && d <= d' && data == Block(d', t)
    requires Zeros(off - t * BLOCK_SIZE) <= data
    ensures forall k | t * BLOCK_SIZE <= k < off :: d[k] == 0
  {
    forall k | t * BLOCK_SIZE <= k < off ensures d[k] == 0 {
      assert data[k - t * BLOCK_SIZE] == d'[k] == d[k];
      assert Zeros(off - t * BLOCK_SIZE)[k - t * BLOCK_SIZE] == 0;
    }
  }

  lemma FirstUpload(w: Writer, p: Bytes, off: nat)
    requires p != [] && w.curBlock == [] && off / BLOCK_SIZE < w.curIdx && w.curIdx * BLOCK_SIZE <= off + |p|
    ensures var us := WriteAtAll(w, p, off).flushed;
            && |us| > |w.flushed| && us[|w.flushed|].index == off / BLOCK_SIZE
            && Zeros(off % BLOCK_SIZE) <= us[|w.flushed|].data
  {
    var chunk := ChunkAt(p, off);
    var w1 := WriteChunkAt(w, p[..chunk], off);
    FirstBlockFilled(w, p, off);
    WriteAtRound(w, p, off);
    WriteAtGrows(w1, p[chunk..], off + chunk);
    assert WriteAtAll(w, p, off).flushed[|w.flushed|] == w1.flushed[|w.flushed|];
  }

  lemma FirstBlockFilled(w: Writer, p: Bytes, off: nat)
    requires p != [] && w.curBlock == [] && off / BLOCK_SIZE < w.curIdx && w.curIdx * BLOCK_SIZE <= off + |p|
    ensures var chunk := ChunkAt(p, off);
            WriteChunkAt(w, p[..chunk], off).flushed ==
            w.flushed + [Upload(off / BLOCK_SIZE, Zeros(off % BLOCK_SIZE) + p[..chunk])]
  {
    var chunk := ChunkAt(p, off);
    EarlierBlockEnds(off / BLOCK_SIZE, w.curIdx);
    assert off % BLOCK_SIZE + chunk == BLOCK_SIZE;
    assert Overwrite([], off % BLOCK_SIZE, p[..chunk]) == Zeros(off % BLOCK_SIZE) + p[..chunk];
  }

  /** A positioned write is a flat-file write exactly when it is empty, falls into the open block,
      or repeats the file from an earlier block on. */
  lemma WriteAtExactly(w: Writer, d: Bytes, p: Bytes, off: nat)
    requires Represents(w, d)
    ensures Represents(WriteAtAll(w, p, off), PWrite(d, off, p)) <==>
            p == [] || off / BLOCK_SIZE == w.curIdx || Repeats(w, d, p, off)
  {
    if p == [] {
    } else if off / BLOCK_SIZE == w.curIdx {
      WriteAtRefines(w, d, p, off);
    } else if w.curBlock != [] {
      JumpStrands(w, d, p, off, Overwrite(d, off, p));
    } else if off / BLOCK_SIZE > w.curIdx {
      JumpForwardSkips(w, d, p, off, Overwrite(d, off, p));
    } else if Repeats(w, d, p, off) {
      RepeatsIsFlat(w, d, p, off);
    } else if Represents(WriteAtAll(w, p, off), Overwrite(d, off, p)) {
      BackwardIsRepeat(w, d, p, off);
    }
  }
  // ----- exactly what is handed over -----

  /** Blocks first .. stop - 1 of e as uploads. */
  function UploadsOf(e: Bytes, first: nat, stop: nat): (us: seq<Upload>)
    ensures |us| == if first <= stop then stop - first else 0
    ensures forall k | 0 <= k < |us| :: us[k] == Upload(first + k, Block(e, first + k))
  {
    if stop <= first then [] else UploadsOf(e, first, stop - 1) + [Upload(stop - 1, Block(e, stop - 1))]
  }

  /** From later than earlier, consecutive blocks were handed over, from the open one on. */
  ghost predicate InOrder(earlier: Writer, later: Writer) {
    && earlier.flushed <= later.flushed && later.curIdx == earlier.curIdx + |later.flushed| - |earlier.flushed|
    && forall k | |earlier.flushed| <= k < |later.flushed| ::
         later.flushed[k].index == earlier.curIdx + k - |earlier.flushed|
  }

  lemma InOrderFurther(w: Writer, w1: Writer, w2: Writer)
    requires InOrder(w, w1) && InOrder(w1, w2)
    ensures InOrder(w, w2)
  {
    forall k | |w.flushed| <= k < |w2.flushed| ensures w2.flushed[k].index == w.curIdx + k - |w.flushed| {
      if k < |w1.flushed| { assert w2.flushed[k] == w1.flushed[k]; }
    }
  }

  /** One round inside the open block. */
  lemma ChunkInOrder(w: Writer, chunk: Bytes, off: nat) returns (w1: Writer)
    requires chunk != [] && off % BLOCK_SIZE + |chunk| <= BLOCK_SIZE
    requires |w.curBlock| < BLOCK_SIZE && w.curIdx == off / BLOCK_SIZE
    ensures w1 == WriteChunkAt(w, chunk, off) && InOrder(w, w1)
    ensures |w1.curBlock| < BLOCK_SIZE && w1.curIdx == (off + |chunk|) / BLOCK_SIZE
  {
    w1 := WriteChunkAt(w, chunk, off);
    ChunkEndsAt(w, chunk, off);
  }

  lemma {:induction false} WritesInOrder(w: Writer, p: Bytes, off: nat) returns (w': Writer)
    requires |w.curBlock| < BLOCK_SIZE && w.curIdx == off / BLOCK_SIZE
    ensures w' == WriteAtAll(w, p, off) && InOrder(w, w')
    decreases |p|
  {
    w' := w;
    if p != [] {
      var chunk := ChunkAt(p, off);
      var w1 := ChunkInOrder(w, p[..chunk], off);
      w' := WritesInOrder(w1, p[chunk..], off + chunk);
      WriteAtRound(w, p, off);
      InOrderFurther(w, w1, w');
    }
  }

  /** The writer of a file of zeros before the open block. */
  lemma ZeroWriter(w: Writer) returns (v: Writer, z: Bytes)
    requires |w.curBlock| < BLOCK_SIZE
    ensures z == Zeros(w.curIdx * BLOCK_SIZE) + w.curBlock && Represents(v, z)
    ensures v.curBlock == w.curBlock && v.curIdx == w.curIdx
  {
    var n := w.curIdx;
    z := Zeros(n * BLOCK_SIZE) + w.curBlock;
    v := Writer(w.curBlock, n, |z|, FirstUploads(z, n));
    FirstUploadsMembers(z, n);
    BlockBelow(|z|, n + 1);
    BlockBelow(|z|, n);
  }

  /** A write inside the open block, from any state. */
  lemma OpenBlockUploads(w: Writer, p: Bytes, off: nat)
    requires |w.curBlock| < BLOCK_SIZE && off / BLOCK_SIZE == w.curIdx && p != []
    ensures var e := Overwrite(Zeros(w.curIdx * BLOCK_SIZE) + w.curBlock, off, p); var n := |e| / BLOCK_SIZE;
            WriteAtAll(w, p, off) ==
            Writer(e[n * BLOCK_SIZE..], n, Max(w.fileSize, off + |p|), w.flushed + UploadsOf(e, w.curIdx, n))
  {
    var v, z := ZeroWriter(w);
    var e := Overwrite(z, off, p);
    WriteAtRefines(v, z, p, off);
    var w', v' := WritesAlike(w, v, p, off);
    var w'' := WritesInOrder(w, p, off);
    WriteAtSize(w, p, off);
    AddedBlocks(w, w', v, v', e);
  }

  lemma AddedBlocks(w: Writer, w': Writer, v: Writer, v': Writer, e: Bytes)
    requires Represents(v', e) && Alike(w, w', v, v') && InOrder(w, w')
    ensures w'.flushed == w.flushed + UploadsOf(e, w.curIdx, w'.curIdx)
  {
    var added := w'.flushed[|w.flushed|..];
    assert w'.flushed == w.flushed + added && v'.flushed == v.flushed + added;
    AddedData(v.flushed, added, v', e);
    AddedOrder(w, w', added);
    BlocksInOrder(added, e, w.curIdx);
  }

  lemma AddedData(before: seq<Upload>, added: seq<Upload>, v': Writer, e: Bytes)
    requires Represents(v', e) && v'.flushed == before + added
    ensures forall k | 0 <= k < |added| :: added[k].data == Block(e, added[k].index)
  {
    forall k | 0 <= k < |added| ensures added[k].data == Block(e, added[k].index) {
      assert added[k] in v'.flushed;
    }
  }

  lemma AddedOrder(w: Writer, w': Writer, added: seq<Upload>)
    requires InOrder(w, w') && w'.flushed == w.flushed + added
    ensures w'.curIdx == w.curIdx + |added| && forall k | 0 <= k < |added| :: added[k].index == w.curIdx + k
  {
    forall k | 0 <= k < |added| ensures added[k].index == w.curIdx + k {
      assert added[k] == w'.flushed[|w.flushed| + k];
    }
  }

  lemma BlocksInOrder(added: seq<Upload>, e: Bytes, first: nat)
    requires forall k | 0 <= k < |added| :: added[k].index == first + k
    requires forall k | 0 <= k < |added| :: added[k].data == Block(e, added[k].index)
    ensures added == UploadsOf(e, first, first + |added|)
  {
    var us := UploadsOf(e, first, first + |added|);
    forall k | 0 <= k < |added| ensures added[k] == us[k] { }
  }

  /** A write elsewhere first hands over what is open, and then acts as on an empty block there. */
  lemma ElsewhereUploads(w: Writer, p: Bytes, off: nat)
    requires |w.curBlock| < BLOCK_SIZE && off / BLOCK_SIZE != w.curIdx && p != []
    ensures var open := if w.curBlock == [] then [] else [Upload(w.curIdx, w.curBlock)];
            var e := Overwrite([], off, p); var n := |e| / BLOCK_SIZE;
            WriteAtAll(w, p, off) ==
            Writer(e[n * BLOCK_SIZE..], n, Max(w.fileSize, off + |p|), w.flushed + open + UploadsOf(e, off / BLOCK_SIZE, n))
  {
    var t := off / BLOCK_SIZE;
    var open := if w.curBlock == [] then [] else [Upload(w.curIdx, w.curBlock)];
    var s := Writer([], t, w.fileSize, w.flushed + open);
    SameFromThere(w, s, p, off);
    OpenBlockUploads(s, p, off);
    OverwriteZeros(t * BLOCK_SIZE, off, p);
    assert Zeros(t * BLOCK_SIZE) + [] == Zeros(t * BLOCK_SIZE);
    MoreUploads(w.flushed, open, UploadsOf(Overwrite([], off, p), t, |Overwrite([], off, p)| / BLOCK_SIZE));
  }

  lemma MoreUploads(a: seq<Upload>, b: seq<Upload>, c: seq<Upload>)
    ensures a + b + c == a + (b + c)
  {
  }

  lemma SameFromThere(w: Writer, s: Writer, p: Bytes, off: nat)
    requires p != [] && off / BLOCK_SIZE != w.curIdx
    requires s == Writer([], off / BLOCK_SIZE, w.fileSize,
                         w.flushed + if w.curBlock == [] then [] else [Upload(w.curIdx, w.curBlock)])
    ensures WriteAtAll(w, p, off) == WriteAtAll(s, p, off)
  {
    var t, chunk := off / BLOCK_SIZE, ChunkAt(p, off);
    assert SwitchTo(w, t) == s == SwitchTo(s, t);
    WriteAtRound(w, p, off);
    WriteAtRound(s, p, off);
    assert WriteChunkAt(w, p[..chunk], off) == WriteChunkAt(s, p[..chunk], off);
  }

  /** Zeros before the write may be there or not. */
  lemma OverwriteZeros(n: nat, off: nat, p: Bytes)
    requires n <= off
    ensures Overwrite(Zeros(n), off, p) == Overwrite([], off, p)
  {
    OverwriteBehind(Zeros(n), off, p);
    OverwriteBehind([], off, p);
    ZerosTogether(n, off - n);
    ZerosTogether(0, off);
  }

  lemma ZerosTogether(m: nat, n: nat)
    ensures Zeros(m) + Zeros(n) == Zeros(m + n)
  {
    var a, b := Zeros(m) + Zeros(n), Zeros(m + n);
    assert forall k | 0 <= k < m + n :: a[k] == b[k];
  }

  lemma OverwriteBehind(d: Bytes, off: nat, p: Bytes)
    requires |d| <= off
    ensures Overwrite(d, off, p) == d + Zeros(off - |d|) + p
  {
    assert d[..|d|] == d && Zeros(0) == [];
  }

  /** A jump hands over the file's unfinished last block with its bytes, if there is one, and then
      the full blocks of what is written, with zeros before the write; the rest stays open. */
  lemma JumpUploads(w: Writer, d: Bytes, p: Bytes, off: nat)
    requires Represents(w, d) && p != [] && off / BLOCK_SIZE != w.curIdx
    ensures var tail := d[w.curIdx * BLOCK_SIZE..];
            var open := if tail == [] then [] else [Upload(w.curIdx, tail)];
            var e := Overwrite([], off, p); var n := (off + |p|) / BLOCK_SIZE;
            WriteAtAll(w, p, off) ==
            Writer(e[n * BLOCK_SIZE..], n, Max(|d|, off + |p|), w.flushed + open + UploadsOf(e, off / BLOCK_SIZE, n))
  {
    assert |w.curBlock| == |d| - w.curIdx * BLOCK_SIZE;
    ElsewhereUploads(w, p, off);
  }
}

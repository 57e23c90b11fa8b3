/** Files as byte sequences and their partition into blocks. */
module Blocks {

  newtype Byte = b: int | 0 <= b < 256

  type Bytes = seq<Byte>

  /** 4 MiB. */
  const BLOCK_SIZE: nat := 4194304

  function Min(a: int, b: int): int {
    if a <= b then a else b
  }

  function Max(a: int, b: int): int {
    if a >= b then a else b
  }

  /** The number of blocks of a file of the given size. */
  function BlockCount(size: int): (n: nat)
    ensures size > 0 ==> (n - 1) * BLOCK_SIZE < size <= n * BLOCK_SIZE
    ensures size <= 0 ==> n == 0
  {
    if size <= 0 then 0 else (size + BLOCK_SIZE - 1) / BLOCK_SIZE
  }

  /** The size of block index of a file of the given size. */
  function BlockLength(size: int, index: nat): nat {
    var remaining := size - index * BLOCK_SIZE;
    if remaining <= 0 then 0
    else if remaining > BLOCK_SIZE then BLOCK_SIZE
    else remaining
  }

  /** Block index of d; the last block of a file may be short. */
  function Block(d: Bytes, index: nat): (b: Bytes)
    ensures |b| == BlockLength(|d|, index)
  {
    if index * BLOCK_SIZE >= |d| then []
    else d[index * BLOCK_SIZE..Min((index + 1) * BLOCK_SIZE, |d|)]
  }

  /** The first n blocks of d. */
  function FirstBlocks(d: Bytes, n: nat): (bs: seq<Bytes>)
    ensures |bs| == n
  {
    if n == 0 then [] else FirstBlocks(d, n - 1) + [Block(d, n - 1)]
  }

  function Blocks(d: Bytes): (bs: seq<Bytes>)
    ensures |bs| == BlockCount(|d|)
  {
    FirstBlocks(d, BlockCount(|d|))
  }

  function Concat(bs: seq<Bytes>): Bytes {
    if bs == [] then [] else Concat(bs[..|bs| - 1]) + bs[|bs| - 1]
  }

  lemma ConcatSnoc(bs: seq<Bytes>, b: Bytes)
    ensures Concat(bs + [b]) == Concat(bs) + b
  {
    assert (bs + [b])[..|bs|] == bs;
  }

  lemma NextBlock(d: Bytes, n: nat)
    ensures d[..Min(n * BLOCK_SIZE, |d|)] + Block(d, n) == d[..Min((n + 1) * BLOCK_SIZE, |d|)]
  {
    if n * BLOCK_SIZE < |d| {
      assert Block(d, n) == d[n * BLOCK_SIZE..Min((n + 1) * BLOCK_SIZE, |d|)];
    }
  }

  lemma {:induction false} ConcatFirstBlocks(d: Bytes, n: nat)
    ensures Concat(FirstBlocks(d, n)) == d[..Min(n * BLOCK_SIZE, |d|)]
  {
    if n > 0 {
      ConcatFirstBlocks(d, n - 1);
      ConcatSnoc(FirstBlocks(d, n - 1), Block(d, n - 1));
      NextBlock(d, n - 1);
    }
  }

  /** The blocks of a file concatenate to the file. */
  lemma ConcatBlocks(d: Bytes)
    ensures Concat(Blocks(d)) == d
  {
    ConcatFirstBlocks(d, BlockCount(|d|));
  }

  function Sum(ns: seq<nat>): nat {
    if ns == [] then 0 else Sum(ns[..|ns| - 1]) + ns[|ns| - 1]
  }

  function FirstLengths(size: nat, n: nat): (ls: seq<nat>)
    ensures |ls| == n
  {
    if n == 0 then [] else FirstLengths(size, n - 1) + [BlockLength(size, n - 1)]
  }

  /** The block sizes of a file add up to its size. */
  lemma {:induction false} LengthsAddUp(size: nat, n: nat)
    ensures Sum(FirstLengths(size, n)) == Min(n * BLOCK_SIZE, size)
  {
    if n > 0 {
      LengthsAddUp(size, n - 1);
      var ls := FirstLengths(size, n);
      assert ls[..n - 1] == FirstLengths(size, n - 1);
    }
  }

  /** Every block but the last is full, and the last is not empty. */
  lemma BlockShapes(size: int, i: nat)
    requires i < BlockCount(size)
    ensures i < BlockCount(size) - 1 ==> BlockLength(size, i) == BLOCK_SIZE
    ensures BlockLength(size, i) > 0
  {
  }

  function Zeros(n: nat): (z: Bytes)
    ensures |z| == n
    ensures forall k | 0 <= k < n :: z[k] == 0
  {
    if n == 0 then [] else Zeros(n - 1) + [0]
  }

  /** Flat-file semantics of a positioned write: a gap reads as zeros. */
  function Overwrite(d: Bytes, off: nat, p: Bytes): (d': Bytes)
    ensures |d'| == Max(|d|, off + |p|)
  {
    (if off <= |d| then d[..off] else d + Zeros(off - |d|)) + p + (if off + |p| < |d| then d[off + |p|..] else [])
  }

  /** A positioned write to a file: writing nothing changes nothing, a gap reads as zeros. */
  function PWrite(d: Bytes, off: nat, p: Bytes): Bytes {
    if p == [] then d else Overwrite(d, off, p)
  }

  /** A positioned read of at most n bytes; short at the end of the file. */
  function PRead(d: Bytes, off: nat, n: nat): Bytes {
    if off >= |d| then [] else d[off..Min(off + n, |d|)]
  }

  /** The bytes of a block: byte k of block i is byte 4 MiB * i + k of the file. */
  lemma BlockBytes(d: Bytes, i: nat, k: nat)
    requires k < |Block(d, i)|
    ensures i * 4194304 + k < |d| && k < 4194304 && Block(d, i)[k] == d[i * 4194304 + k]
  {
  }

  /** The bytes after a positioned write: the written ones in their place, the old ones around
      them, zeros in a gap. */
  lemma OverwriteBytes(d: Bytes, off: nat, p: Bytes, k: nat)
    requires k < |Overwrite(d, off, p)|
    ensures Overwrite(d, off, p)[k] == if off <= k < off + |p| then p[k - off] else if k < |d| then d[k] else 0
  {
  }

  /** The bytes of a positioned read: as many as asked for, as far as the file goes. */
  lemma ReadBytes(d: Bytes, off: nat, n: nat)
    ensures |PRead(d, off, n)| == Max(0, Min(n, |d| - off))
    ensures forall k | 0 <= k < |PRead(d, off, n)| :: PRead(d, off, n)[k] == d[off + k]
  {
  }
}

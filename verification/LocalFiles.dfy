/** Local files as block sources and destinations. */
module LocalFiles {
  import opened Blocks
  import opened Outcomes

  datatype FileError = CannotOpen | ReadFailed | WriteFailed

  class OsFile {
    var content: Bytes

    constructor (initial: Bytes)
      ensures content == initial
    {
      content := initial;
    }

    /** A positioned read, which may fail. */
    method ReadAt(off: nat, n: nat) returns (data: Option<Bytes>)
      ensures data.Some? ==> data.value == PRead(content, off, n)
    {
      var fails: bool := *;
      return if fails then None else Some(PRead(content, off, n));
    }

    /** A positioned write of the first n bytes of data: all of them, unless it fails. */
    method WriteAt(off: nat, data: Bytes) returns (n: nat)
      modifies this
      ensures n <= |data| && content == PWrite(old(content), off, data[..n])
    {
      var partial: int := *;
      n := if 0 <= partial < |data| then partial else |data|;
      content := PWrite(content, off, data[..n]);
    }
  }

  /** A source; file is what the path leads to, if anything, and f the open descriptor. */
  class LocalReader {
    const file: OsFile?
    const size: int
    const nBlocks: nat
    var f: OsFile?

    constructor (path: OsFile?, fileSize: int)
      ensures file == path && size == fileSize && nBlocks == Blocks.BlockCount(fileSize) && f == null
    {
      file, size, nBlocks, f := path, fileSize, Blocks.BlockCount(fileSize), null;
    }

    method BlockSize(index: nat) returns (n: nat)
      ensures n == BlockLength(size, index)
    {
      var offset := index * BLOCK_SIZE;
      var remaining := size - offset;
      if remaining <= 0 { return 0; }
      if remaining > BLOCK_SIZE { return BLOCK_SIZE; }
      return remaining;
    }

    /** A reader of the same file with a descriptor of its own. */
    method CloneReader() returns (r: Result<LocalReader, FileError>)
      ensures r.Err? <==> file == null
      ensures r.Ok? ==> fresh(r.value) && r.value.file == file && r.value.size == size && r.value.f == file
    {
      if file == null { return Err(CannotOpen); }
      var clone := new LocalReader(file, size);
      clone.f := file;
      return Ok(clone);
    }

    /** Opens the file on first use. */
    method ReadBlock(index: nat) returns (r: Result<Bytes, FileError>)
      requires f == null || f == file
      modifies `f
      ensures f == file
      ensures r == Err(CannotOpen) <==> file == null
      ensures r.Ok? ==> r.value == PRead(file.content, index * BLOCK_SIZE, BlockLength(size, index))
    {
      if f == null {
        if file == null { return Err(CannotOpen); }
        f := file;
      }
      var sz := BlockSize(index);
      var data := f.ReadAt(index * BLOCK_SIZE, sz);
      return if data.Some? then Ok(data.value) else Err(ReadFailed);
    }
  }

  /** While a file keeps the size it was listed with, a read returns exactly its block. */
  lemma ReadsBlock(content: Bytes, index: nat)
    ensures PRead(content, index * BLOCK_SIZE, BlockLength(|content|, index)) == Block(content, index)
  {
  }

  class LocalWriter {
    const file: OsFile?
    var f: OsFile?

    constructor (path: OsFile?)
      ensures file == path && f == null
    {
      file, f := path, null;
    }

    /** Opens the file on first use.  A failed write may leave the first n bytes behind. */
    method WriteBlock(index: nat, data: Bytes) returns (err: Option<FileError>, ghost n: nat)
      requires f == null || f == file
      modifies `f, file
      ensures f == file && n <= |data|
      ensures err == Some(CannotOpen) <==> file == null
      ensures err.None? ==> n == |data|
      ensures file != null ==> file.content == PWrite(old(file.content), index * BLOCK_SIZE, data[..n])
    {
      if f == null {
        if file == null { return Some(CannotOpen), 0; }
        f := file;
      }
      var written := f.WriteAt(index * BLOCK_SIZE, data);
      return if written < |data| then Some(WriteFailed) else None, written;
    }
  }

  // ----- writing the blocks of a file at their places -----

  /** Block i of src lies at its place in content. */
  ghost predicate InPlace(content: Bytes, src: Bytes, i: nat) {
    i * BLOCK_SIZE + BlockLength(|src|, i) <= |content|
    && content[i * BLOCK_SIZE..i * BLOCK_SIZE + BlockLength(|src|, i)] == Block(src, i)
  }

  /** The overwritten part holds the new bytes. */
  lemma OverwriteAt(content: Bytes, off: nat, p: Bytes)
    ensures off + |p| <= |Overwrite(content, off, p)| && Overwrite(content, off, p)[off..off + |p|] == p
  {
  }

  /** A part before or behind the overwritten one stays. */
  lemma OverwriteElsewhere(content: Bytes, off: nat, p: Bytes, a: nat, b: nat)
    requires a <= b <= |content| && (b <= off || off + |p| <= a)
    ensures b <= |Overwrite(content, off, p)| && Overwrite(content, off, p)[a..b] == content[a..b]
  {
    var all := Overwrite(content, off, p);
    assert forall k | a <= k < b :: all[k] == content[k];
  }

  /** Writing part of one block leaves every other block in place. */
  lemma OtherBlockStays(content: Bytes, src: Bytes, i: nat, p: Bytes, k: nat)
    requires |p| <= BlockLength(|src|, i) && k != i && InPlace(content, src, k)
    ensures InPlace(PWrite(content, i * BLOCK_SIZE, p), src, k)
  {
    if p != [] {
      var a, b := k * BLOCK_SIZE, k * BLOCK_SIZE + BlockLength(|src|, k);
      assert b <= i * BLOCK_SIZE || i * BLOCK_SIZE + |p| <= a;
      OverwriteElsewhere(content, i * BLOCK_SIZE, p, a, b);
    }
  }

  lemma WrittenIsInPlace(content: Bytes, src: Bytes, i: nat)
    requires i < BlockCount(|src|)
    ensures InPlace(PWrite(content, i * BLOCK_SIZE, Block(src, i)), src, i)
  {
    BlockShapes(|src|, i);
    OverwriteAt(content, i * BLOCK_SIZE, Block(src, i));
  }

  /** The length and the bytes behind the source's end, under writes of its blocks. */
  lemma TailStays(content: Bytes, src: Bytes, i: nat, p: Bytes)
    requires |p| <= BlockLength(|src|, i)
    ensures var c' := PWrite(content, i * BLOCK_SIZE, p);
            && |content| <= |c'| <= Max(|content|, |src|)
            && (|content| > |src| ==> c'[|src|..] == content[|src|..])
  {
    if p != [] && |content| > |src| { OverwriteElsewhere(content, i * BLOCK_SIZE, p, |src|, |content|); }
  }

  lemma LongerPrefix(a: Bytes, b: Bytes, start: nat, end: nat)
    requires start <= end <= |a| && end <= |b| && a[..start] == b[..start] && a[start..end] == b[start..end]
    ensures a[..end] == b[..end]
  {
    assert a[..end] == a[..start] + a[start..end] && b[..end] == b[..start] + b[start..end];
  }

  lemma {:induction false} PrefixInPlace(content: Bytes, src: Bytes, n: nat)
    requires n <= BlockCount(|src|) && forall i: nat | i < n :: InPlace(content, src, i)
    ensures var end := Min(n * BLOCK_SIZE, |src|); end <= |content| && content[..end] == src[..end]
  {
    if n > 0 {
      PrefixInPlace(content, src, n - 1);
      BlockShapes(|src|, n - 1);
      assert InPlace(content, src, n - 1);
      var start, end := (n - 1) * BLOCK_SIZE, Min(n * BLOCK_SIZE, |src|);
      assert end == start + BlockLength(|src|, n - 1) && Block(src, n - 1) == src[start..end];
      LongerPrefix(content, src, start, end);
    }
  }

  /** With all blocks in place the file begins with the source, and is the source when it is not
      longer. */
  lemma AllInPlace(content: Bytes, src: Bytes)
    requires forall i: nat | i < BlockCount(|src|) :: InPlace(content, src, i)
    ensures src <= content && (|content| <= |src| ==> content == src)
  {
    PrefixInPlace(content, src, BlockCount(|src|));
    assert src[..|src|] == src;
  }
}

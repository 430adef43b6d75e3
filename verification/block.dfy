/** The block abstraction of libfs: 512-byte blocks, 32-bit block indices and
    counts with their byte conversions, and a block device whose partition
    relative `Read`/`Write` forward to the raw accessors. */
module LibfsBlock {
  import opened MachineInts

  datatype BlockError = ReadError | WriteError | Unknown

  datatype BlockResult<T> = Ok(value: T) | Err(error: BlockError)

  /** `Block::LEN` and `Block::LEN_U32`. */
  const LEN: nat := 512
  const LEN_U32: u32 := 512

  datatype BlockBytes = BlockBytes(contents: seq<byte>)

  /** A block: exactly `LEN` bytes of contents. */
  type Block = b: BlockBytes | |b.contents| == LEN witness BlockBytes(seq(512, _ => 0))

  /** `Block::default()`: the block of 512 zero bytes. */
  function Default(): (b: Block)
    ensures forall i :: 0 <= i < LEN ==> b.contents[i] == 0
  {
    BlockBytes(Zeros(LEN))
  }

  /** `Block::new()`, defined as the default block. */
  function New(): (b: Block)
    ensures forall i :: 0 <= i < LEN ==> b.contents[i] == 0
  {
    Default()
  }

  /** `Block::as_contents`: a copy of the block's bytes. */
  function AsContents(b: Block): (c: seq<byte>)
    ensures |c| == LEN
  {
    b.contents
  }

  /** Copying the contents out and wrapping them again gives back the same block. */
  lemma AsContentsRoundTrip(b: Block)
    ensures BlockBytes(AsContents(b)) == b
  {
  }

  /** Two blocks are equal exactly when their contents copies are. */
  lemma AsContentsInjective(a: Block, b: Block)
    ensures AsContents(a) == AsContents(b) <==> a == b
  {
  }

  /** `BlockIndex::into_offset`: computed in `u64`, so the result type
      records that it cannot overflow for any 32-bit index. */
  function IntoOffset(index: u32): (offset: u64)
    ensures offset % LEN == 0 && offset / LEN == index
  {
    index * LEN
  }

  /** `BlockCount::into_size`. */
  function IntoSize(count: u32): (size: u64)
    ensures size % LEN == 0 && size / LEN == count
  {
    count * LEN
  }

  /** Offsets are strictly increasing, and the byte ranges of two different
      blocks never overlap. */
  lemma IntoOffsetSeparates(i: u32, j: u32)
    requires i < j
    ensures IntoOffset(i) < IntoOffset(j)
    ensures IntoOffset(i) + LEN <= IntoOffset(j)
  {
  }

  /** A device of `count` blocks ends exactly at the offset of block `count`:
      every block of it lies inside its byte size. */
  lemma IntoSizeBoundsOffsets(count: u32, i: u32)
    requires i < count
    ensures IntoOffset(i) + LEN <= IntoSize(count)
  {
  }

  /** `partition_start.0 + index.0`: a `u32` addition, which wraps around
      (the release-build behaviour; a debug build panics instead). */
  function AbsoluteIndex(partitionStart: u32, index: u32): (abs: u32)
    ensures partitionStart + index < 0x1_0000_0000 ==> abs == partitionStart + index
    ensures partitionStart + index >= 0x1_0000_0000 ==> abs == partitionStart + index - 0x1_0000_0000 && abs < partitionStart
  {
    (partitionStart + index) % 0x1_0000_0000
  }

  /** Whether `n` blocks starting at `index` lie inside a device of `size` blocks. */
  predicate InRange(index: nat, n: nat, size: nat) {
    index + n <= size
  }

  /** A block device. The medium's blocks are held in `medium`; the raw
      accessors have no body in the trait, so here they act on that sequence
      and reject requests that leave the device. On success they do what the
      trait's doc comments say, and a request that leaves the device fails.
      They also make every failure `ReadError`/`WriteError` and a failed call
      change nothing, which a real medium need not do. */
  class BlockDevice {
    var medium: seq<Block>

    /** The block count has to be representable as a `BlockCount`. */
    ghost predicate Valid()
      reads this
    {
      |medium| < 0x1_0000_0000
    }

    constructor (blocks: seq<Block>)
      requires |blocks| < 0x1_0000_0000
      ensures Valid() && medium == blocks
    {
      medium := blocks;
    }

    /** `raw_read`: fills `blocks` with the device blocks
        `[index, index + blocks.Length)`; the device is left unchanged. */
    method RawRead(blocks: array<Block>, index: u32) returns (r: BlockResult<()>)
      requires Valid()
      modifies blocks
      ensures !InRange(index, blocks.Length, |medium|) ==> r.Err?
      ensures r.Ok? ==> InRange(index, blocks.Length, |medium|) && blocks[..] == medium[index..index + blocks.Length]
      ensures r.Err? ==> r.error == ReadError && blocks[..] == old(blocks[..])
    {
      if !InRange(index, blocks.Length, |medium|) {
        return Err(ReadError);
      }
      forall k | 0 <= k < blocks.Length {
        blocks[k] := medium[index + k];
      }
      r := Ok(());
    }

    /** `raw_write`: sets exactly the device blocks
        `[index, index + blocks.Length)` to `blocks`; every other block keeps
        its value. A rejected request changes nothing. */
    method RawWrite(blocks: array<Block>, index: u32) returns (r: BlockResult<()>)
      requires Valid()
      modifies this
      ensures Valid() && |medium| == |old(medium)|
      ensures !InRange(index, blocks.Length, |medium|) ==> r.Err?
      ensures r.Ok? ==> InRange(index, blocks.Length, |medium|) && medium[index..index + blocks.Length] == blocks[..]
      ensures r.Ok? ==> forall k :: 0 <= k < |medium| && !(index <= k < index + blocks.Length) ==> medium[k] == old(medium[k])
      ensures r.Err? ==> r.error == WriteError && medium == old(medium)
    {
      if !InRange(index, blocks.Length, |medium|) {
        return Err(WriteError);
      }
      medium := medium[..index] + blocks[..] + medium[index + blocks.Length..];
      r := Ok(());
    }

    /** `count`: the number of blocks the device holds. */
    method Count() returns (r: BlockResult<u32>)
      requires Valid()
      ensures r.Ok? ==> r.value == |medium|
    {
      r := Ok(|medium| as u32);
    }

    /** The trait's default `read`: a raw read at the partition-relative
        index made absolute. */
    method Read(blocks: array<Block>, partitionStart: u32, index: u32) returns (r: BlockResult<()>)
      requires Valid()
      modifies blocks
      ensures var abs := AbsoluteIndex(partitionStart, index);
        && (!InRange(abs, blocks.Length, |medium|) ==> r.Err?)
        && (r.Ok? ==> InRange(abs, blocks.Length, |medium|) && blocks[..] == medium[abs..abs + blocks.Length])
        && (r.Err? ==> r.error == ReadError && blocks[..] == old(blocks[..]))
    {
      r := RawRead(blocks, AbsoluteIndex(partitionStart, index));
    }

    /** The trait's default `write`: a raw write at the partition-relative
        index made absolute. */
    method Write(blocks: array<Block>, partitionStart: u32, index: u32) returns (r: BlockResult<()>)
      requires Valid()
      modifies this
      ensures Valid() && |medium| == |old(medium)|
      ensures var abs := AbsoluteIndex(partitionStart, index);
        && (!InRange(abs, blocks.Length, |medium|) ==> r.Err?)
        && (r.Ok? ==> InRange(abs, blocks.Length, |medium|) && medium[abs..abs + blocks.Length] == blocks[..])
        && (r.Ok? ==> forall k :: 0 <= k < |medium| && !(abs <= k < abs + blocks.Length) ==> medium[k] == old(medium[k]))
        && (r.Err? ==> r.error == WriteError && medium == old(medium))
    {
      r := RawWrite(blocks, AbsoluteIndex(partitionStart, index));
    }
  }

  /** Reading back a range just written returns what was written, when
      both calls succeed. */
  method WriteThenRead(dev: BlockDevice, data: array<Block>, out: array<Block>, partitionStart: u32, index: u32)
    returns (w: BlockResult<()>, r: BlockResult<()>)
    requires dev.Valid() && data != out && data.Length == out.Length
    modifies dev, out
    ensures w.Ok? && r.Ok? ==> out[..] == data[..]
  {
    w := dev.Write(data, partitionStart, index);
    r := dev.Read(out, partitionStart, index);
  }
}

/** Block devices: chunked transfers, bounce buffers and partitions over one flat disk. */
module Block {
  import opened Common
  import opened Arith

  datatype Error = InvalidArgument | NoSpace | OutOfMemory | Device

  /** A device is backed by a driver, or by a range of blocks of another device. */
  datatype Backend = Driver | Partition(parent: BlockDevice, first: nat, blocks: nat)

  datatype BlockDevice = BlockDevice(backend: Backend, blockSize: nat, limit: nat, count: nat) {
    /** Registered on a disk of `size` bytes. */
    ghost predicate Valid(size: nat) {
      && 0 < blockSize < U32_LIMIT && limit < U32_LIMIT
      && match backend
         case Driver => Times(count, blockSize) <= size && Times(count, blockSize) <= U64_MAX
         case Partition(parent, first, blocks) =>
           parent.Valid(size) && blockSize == parent.blockSize && count == blocks && first + blocks <= parent.count
    }

    /** The block of the disk that is block 0 of this device. */
    ghost function Base(): nat {
      match backend
      case Driver => 0
      case Partition(parent, first, _) => parent.Base() + first
    }

    /** The byte of the disk at which block `lba` starts. */
    ghost function At(lba: nat): nat {
      Times(Base() + lba, blockSize)
    }

    function SizeBytes(): nat {
      if Times(count, blockSize) <= U64_MAX then Times(count, blockSize) else U64_MAX
    }

    function Limit(): nat {
      if limit == 0 then U32_LIMIT - 1 else limit
    }

    predicate CheckTransfer(lba: nat, blocks: nat, length: nat) {
      if blocks == 0 then length == 0
      else lba + blocks <= U64_MAX && lba + blocks <= count && length == Times(blocks, blockSize)
    }

    lemma {:induction false} InDisk(size: nat)
      requires Valid(size)
      ensures At(count) <= size && Times(count, blockSize) <= U64_MAX
    {
      if backend.Partition? {
        backend.parent.InDisk(size);
        TimesMonotone(Base() + count, backend.parent.Base() + backend.parent.count, blockSize);
        TimesMonotone(count, backend.parent.count, blockSize);
      }
    }

    /** Byte `offset` of the device lies in its block `offset / blockSize`. */
    lemma Locate(offset: nat)
      requires blockSize > 0
      ensures At(0) + offset == At(offset / blockSize) + offset % blockSize
    {
      TimesDivision(offset, blockSize);
      TimesSum(Base(), offset / blockSize, blockSize);
    }

    /** How many of the bytes `offset..offset + length` are a part of their first block. */
    function Head(offset: nat, length: nat): nat
      requires blockSize > 0
    {
      var lead := offset % blockSize;
      if lead == 0 then 0 else Least(length, blockSize - lead)
    }

    /** How many whole blocks follow them. */
    function WholeIn(offset: nat, length: nat): nat
      requires blockSize > 0
    {
      (length - Head(offset, length)) / blockSize
    }

    /** A part of the first block, whole blocks and a part of the last make up `offset..offset + length`. */
    ghost predicate IsCut(c: Cuts, offset: nat, length: nat)
      requires blockSize > 0
    {
      && c.head + c.middle + c.tail == length && c.lead + c.head <= blockSize && c.tail < blockSize
      && At(c.first) + c.lead == At(0) + offset && (c.lead == 0 ==> c.head == 0)
      && (c.middle > 0 || c.tail > 0 ==> At(c.second) == At(0) + offset + c.head)
      && (c.tail > 0 ==> At(c.last) == At(0) + offset + c.head + c.middle)
    }

    method Cut(offset: nat, length: nat) returns (c: Cuts)
      requires blockSize > 0
      ensures IsCut(c, offset, length)
      ensures c.lead == offset % blockSize && c.middle == Times(WholeIn(offset, length), blockSize)
    {
      var first, lead, head, second := FirstBlock(offset, length);
      var blocks, middle, tail := WholeBlocks(second, length - head);
      c := Cuts(first, lead, head, second, middle, second + blocks, tail);
    }

    method FirstBlock(offset: nat, length: nat) returns (first: nat, lead: nat, head: nat, second: nat)
      requires blockSize > 0
      ensures lead == offset % blockSize && head == Head(offset, length) && lead + head <= blockSize
      ensures At(first) + lead == At(0) + offset && (head < length ==> At(second) == At(0) + offset + head)
    {
      first, lead, head := offset / blockSize, offset % blockSize, 0;
      second := first;
      Locate(offset);
      if lead != 0 {
        head, second := Least(length, blockSize - lead), first + 1;
        Step(first, 1);
      }
    }

    method WholeBlocks(lba: nat, length: nat) returns (blocks: nat, middle: nat, tail: nat)
      requires blockSize > 0
      ensures middle + tail == length && tail < blockSize && At(lba + blocks) == At(lba) + middle
      ensures middle == Times(length / blockSize, blockSize)
    {
      blocks, tail := length / blockSize, length % blockSize;
      middle := Times(blocks, blockSize);
      TimesDivision(length, blockSize);
      Step(lba, blocks);
    }

    lemma Step(lba: nat, n: nat)
      ensures At(lba + n) == At(lba) + Times(n, blockSize)
      ensures n == 1 ==> At(lba + 1) == At(lba) + blockSize
    {
      TimesSum(Base() + lba, n, blockSize);
      assert Base() + (lba + n) == Base() + lba + n;
    }

    lemma Counted(size: nat)
      requires Valid(size)
      ensures count <= U64_MAX
    {
      InDisk(size);
      TimesIsProduct(count, blockSize);
      MulMonotone(1, blockSize, count);
    }

    /** Bytes that begin with block `lba` and stay on the device are in blocks of the device. */
    lemma OnDevice(size: nat, lba: nat, blocks: nat)
      requires Valid(size) && At(lba) + Times(blocks, blockSize) <= At(count)
      ensures lba + blocks <= count <= U64_MAX
    {
      Step(lba, blocks);
      Counted(size);
      TimesAtMost(Base() + (lba + blocks), Base() + count, blockSize);
    }

    /** The block that holds a byte of the device is one of its blocks. */
    lemma HoldsByte(lba: nat)
      requires At(lba) < At(count)
      ensures lba < count
    {
      TimesLess(Base() + lba, Base() + count, blockSize);
    }

    lemma Inside(size: nat, offset: nat)
      requires Valid(size) && offset <= SizeBytes()
      ensures At(0) + offset <= size
    {
      InDisk(size);
      Step(0, count);
    }

    /** Blocks of the device lie within its part of the disk. */
    lemma Region(size: nat, lba: nat, blocks: nat)
      requires At(count) <= size && lba + blocks <= count
      ensures At(0) <= At(lba) && At(lba) + Times(blocks, blockSize) <= At(count) <= size
      ensures At(lba) + Times(1, blockSize) == At(lba) + blockSize
    {
      TimesMonotone(Base() + 0, Base() + lba, blockSize);
      TimesSpan(Base(), lba, blocks, count, blockSize);
    }

    lemma Span(size: nat, lba: nat, blocks: nat)
      requires At(count) <= size && lba + blocks <= count
      ensures At(lba + blocks) == At(lba) + Times(blocks, blockSize) <= size
    {
      TimesSpan(Base(), lba, blocks, count, blockSize);
    }
  }

  // ---------------------------------------------------------------- copying

  /** `t` is `s` with `src[from..from + n]` copied over `at..at + n`. */
  ghost predicate Copied(t: seq<Byte>, s: seq<Byte>, at: nat, src: seq<Byte>, from: nat, n: nat) {
    && |t| == |s| && at + n <= |s| && from + n <= |src|
    && forall i :: 0 <= i < |s| ==> t[i] == if at <= i < at + n then src[from + i - at] else s[i]
  }

  /** `s` and `t` agree outside `lo..hi`. */
  ghost predicate SameOutside(s: seq<Byte>, t: seq<Byte>, lo: int, hi: int) {
    |s| == |t| && forall i :: 0 <= i < |s| && !(lo <= i < hi) ==> t[i] == s[i]
  }

  /** Two adjacent transfers amount to one. */
  lemma CopiedTwice(u: seq<Byte>, t: seq<Byte>, s: seq<Byte>, at: nat, src: seq<Byte>, from: nat, m: nat, n: nat)
    requires Copied(t, s, at, src, from, m) && Copied(u, t, at + m, src, from + m, n)
    ensures Copied(u, s, at, src, from, m + n)
  {
  }

  lemma OutsideTwice(u: seq<Byte>, t: seq<Byte>, s: seq<Byte>, lo: int, hi: int, l: int, h: int)
    requires SameOutside(s, t, lo, hi) && SameOutside(t, u, l, h) && lo <= l && h <= hi
    ensures SameOutside(s, u, lo, hi)
  {
  }

  lemma CopiedOutside(t: seq<Byte>, s: seq<Byte>, at: nat, src: seq<Byte>, from: nat, n: nat, lo: int, hi: int)
    requires Copied(t, s, at, src, from, n) && lo <= at && at + n <= hi
    ensures SameOutside(s, t, lo, hi)
  {
  }

  /** Reading a block, patching the copy and writing it back changes just the patched bytes. */
  lemma Patched(t: seq<Byte>, s: seq<Byte>, from: nat, junk: seq<Byte>, block: seq<Byte>, lead: nat,
                src: seq<Byte>, at: nat, take: nat, patched: seq<Byte>, to: nat)
    requires Copied(block, junk, 0, s, from, |block|) && Copied(patched, block, lead, src, at, take)
    requires Copied(t, s, from, patched, 0, |block|) && to == from + lead
    ensures Copied(t, s, to, src, at, take)
  {
  }

  lemma PatchedMore(t: seq<Byte>, s: seq<Byte>, was: seq<Byte>, from: nat, junk: seq<Byte>, block: seq<Byte>, lead: nat,
                    src: seq<Byte>, at: nat, take: nat, patched: seq<Byte>, start: nat)
    requires Copied(block, junk, 0, s, from, |block|) && Copied(patched, block, lead, src, at, take)
    requires Copied(t, s, from, patched, 0, |block|) && start + at == from + lead && Copied(s, was, start, src, 0, at)
    ensures Copied(t, was, start, src, 0, at + take)
  {
    Patched(t, s, from, junk, block, lead, src, at, take, patched, start + at);
    CopiedTwice(t, s, was, start, src, 0, at, take);
  }

  method Fill(buffer: array<Byte>, at: nat, src: seq<Byte>, from: nat, n: nat)
    requires at + n <= buffer.Length && from + n <= |src|
    modifies buffer
    ensures Copied(buffer[..], old(buffer[..]), at, src, from, n)
  {
    forall i | 0 <= i < n {
      buffer[at + i] := src[from + i];
    }
  }

  /** The `length` bytes are whole blocks of the device. */
  ghost predicate Blocks(dev: BlockDevice, lba: nat, length: nat)
    requires dev.blockSize > 0
  {
    var n := length / dev.blockSize;
    length == Times(n, dev.blockSize) && lba + n <= dev.count <= U64_MAX
  }

  /** A transfer of whole blocks is accepted exactly if cutting their count to 32 bits leaves it as it is. */
  lemma CutCount(dev: BlockDevice, lba: nat, length: nat)
    requires dev.blockSize > 0 && length > 0 && Blocks(dev, lba, length)
    ensures dev.CheckTransfer(lba, length / dev.blockSize % U32_LIMIT, length) <==> length / dev.blockSize < U32_LIMIT
  {
    var n := length / dev.blockSize;
    if n >= U32_LIMIT {
      TimesMonotone(n % U32_LIMIT + 1, n, dev.blockSize);
    }
  }

  /** So a transfer of 2^32 blocks or more is refused on every device that has them. */
  lemma LargeTransferIsRefused(dev: BlockDevice, n: nat)
    requires dev.blockSize > 0 && U32_LIMIT <= n <= dev.count <= U64_MAX
    ensures Times(n, dev.blockSize) / dev.blockSize == n
    ensures !dev.CheckTransfer(0, n % U32_LIMIT, Times(n, dev.blockSize))
  {
    TimesIsProduct(n, dev.blockSize);
    DivModUnique(Times(n, dev.blockSize), n, 0, dev.blockSize);
    TimesMonotone(1, n, dev.blockSize);
    CutCount(dev, 0, Times(n, dev.blockSize));
  }

  lemma WholeAtMost(dev: BlockDevice, offset: nat, length: nat)
    requires dev.blockSize > 0
    ensures dev.WholeIn(offset, length) <= length / dev.blockSize <= length
  {
    DivMonotone(length - dev.Head(offset, length), length, dev.blockSize);
    MulMonotone(1, dev.blockSize, length / dev.blockSize);
  }

  lemma OneBlock(dev: BlockDevice, size: nat, lba: nat)
    requires dev.Valid(size)
    ensures lba < dev.count ==> dev.CheckTransfer(lba, 1, dev.blockSize)
  {
    dev.Counted(size);
    assert Times(1, dev.blockSize) == Times(0, dev.blockSize) + dev.blockSize;
  }

  /** The parts of a range are parts of blocks of the device, and whole blocks of it. */
  ghost predicate Placed(dev: BlockDevice, c: Cuts)
    requires dev.blockSize > 0
  {
    && (c.lead != 0 ==> c.first < dev.count) && (c.tail != 0 ==> c.last < dev.count)
    && (c.middle != 0 ==> Blocks(dev, c.second, c.middle))
  }

  lemma CutOnDevice(dev: BlockDevice, size: nat, offset: nat, length: nat, c: Cuts)
    requires dev.Valid(size) && dev.IsCut(c, offset, length) && offset + length <= dev.SizeBytes() && length > 0
        && c.middle == Times(dev.WholeIn(offset, length), dev.blockSize)
    ensures Placed(dev, c) && c.middle / dev.blockSize == dev.WholeIn(offset, length)
  {
    var n := dev.WholeIn(offset, length);
    ViewBounds(dev, size);
    TimesIsProduct(n, dev.blockSize);
    DivModUnique(c.middle, n, 0, dev.blockSize);
    if c.lead != 0 { dev.HoldsByte(c.first); }
    if c.tail != 0 { dev.HoldsByte(c.last); }
    if c.middle != 0 { dev.OnDevice(size, c.second, n); }
  }

  lemma AllWhole(dev: BlockDevice, size: nat, offset: nat, length: nat, c: Cuts)
    requires dev.Valid(size) && dev.IsCut(c, offset, length) && offset + length <= dev.SizeBytes() && length > 0
    requires c.lead == offset % dev.blockSize == 0 && length % dev.blockSize == 0
    ensures Blocks(dev, c.first, length) && length / dev.blockSize == dev.WholeIn(offset, length)
  {
    ViewBounds(dev, size);
    TimesDivision(length, dev.blockSize);
    dev.OnDevice(size, c.first, length / dev.blockSize);
  }

  class Disk {
    var data: seq<Byte>
    /** No transfer and no allocation fails. */
    const reliable: bool

    /** The driver's read; a failed one leaves anything in the buffer. */
    method DriverRead(from: nat, length: nat, buffer: array<Byte>, at: nat) returns (r: Option<Error>)
      requires from + length <= |data| && at + length <= buffer.Length
      modifies buffer
      ensures r == None ==> Copied(buffer[..], old(buffer[..]), at, data, from, length)
      ensures SameOutside(old(buffer[..]), buffer[..], at, at + length)
      ensures reliable ==> r == None
    {
      var fails: bool := *;
      if fails && !reliable {
        var junk: seq<Byte> := *;
        if |junk| >= length {
          Fill(buffer, at, junk, 0, length);
        }
        r := Some(Device);
      } else {
        Fill(buffer, at, data, from, length);
        r := None;
      }
    }

    method BackendRead(dev: BlockDevice, lba: nat, blocks: nat, buffer: array<Byte>, at: nat, length: nat)
      returns (r: Option<Error>)
      requires dev.Valid(|data|) && 0 < blocks < U32_LIMIT && lba + blocks <= dev.count && lba + blocks <= U64_MAX
      requires length == Times(blocks, dev.blockSize) && at + length <= buffer.Length && dev.At(lba) + length <= |data|
      modifies buffer
      ensures r == None ==> Copied(buffer[..], old(buffer[..]), at, data, dev.At(lba), length)
      ensures SameOutside(old(buffer[..]), buffer[..], at, at + length)
      ensures reliable ==> r == None
      decreases dev, 0
    {
      match dev.backend
      case Driver =>
        r := DriverRead(Times(lba, dev.blockSize), length, buffer, at);
      case Partition(parent, first, _) =>
        assert parent.At(first + lba) == dev.At(lba);
        parent.Counted(|data|);
        r := ReadBlocks(parent, first + lba, blocks, buffer, at, length);
    }

    /** One transfer, of at most as many blocks as the backend takes. */
    method ReadChunk(dev: BlockDevice, lba: nat, blocks: nat, buffer: array<Byte>, at: nat, ghost length: nat)
      returns (r: Option<Error>, count: nat, bytes: nat)
      requires dev.Valid(|data|) && 0 < blocks < U32_LIMIT && lba + blocks <= dev.count && lba + blocks <= U64_MAX
      requires length == Times(blocks, dev.blockSize) && at + length <= buffer.Length && dev.At(dev.count) <= |data|
      modifies buffer
      ensures 0 < count <= blocks && bytes <= length && Times(blocks - count, dev.blockSize) == length - bytes
      ensures dev.At(lba + count) == dev.At(lba) + bytes
      ensures r == None ==> Copied(buffer[..], old(buffer[..]), at, data, dev.At(lba), bytes)
      ensures SameOutside(old(buffer[..]), buffer[..], at, at + bytes)
      ensures reliable ==> r == None
      decreases dev, 1
    {
      count := if blocks < dev.Limit() then blocks else dev.Limit();
      bytes := Times(count, dev.blockSize);
      TimesSum(blocks - count, count, dev.blockSize);
      dev.Span(|data|, lba, count);
      r := BackendRead(dev, lba, count, buffer, at, bytes);
    }

    /** Reads whole blocks into `buffer[at..at + length]`, in chunks the backend can transfer. */
    method ReadBlocks(dev: BlockDevice, lba: nat, blocks: nat, buffer: array<Byte>, at: nat, length: nat)
      returns (r: Option<Error>)
      requires dev.Valid(|data|) && blocks < U32_LIMIT && at + length <= buffer.Length
      modifies buffer
      ensures r == None ==> dev.CheckTransfer(lba, blocks, length)
      ensures reliable && dev.CheckTransfer(lba, blocks, length) ==> r == None
      ensures r == None && blocks > 0 ==> Copied(buffer[..], old(buffer[..]), at, data, dev.At(lba), length)
      ensures SameOutside(old(buffer[..]), buffer[..], at, at + length)
      decreases dev, 2
    {
      if !dev.CheckTransfer(lba, blocks, length) { return Some(InvalidArgument); }
      if blocks == 0 { return None; }
      ghost var was, from := buffer[..], dev.At(lba);
      dev.InDisk(|data|);
      dev.Span(|data|, lba, blocks);
      var pos, rest, offset := lba, blocks, 0;
      while rest != 0
        invariant 0 <= offset <= length && 0 <= rest <= blocks && pos + rest == lba + blocks
        invariant Times(rest, dev.blockSize) == length - offset
        invariant dev.At(pos) == from + offset
        invariant Copied(buffer[..], was, at, data, from, offset)
        decreases rest
      {
        ghost var before := buffer[..];
        var count, bytes;
        r, count, bytes := ReadChunk(dev, pos, rest, buffer, at + offset, length - offset);
        if r.Some? {
          CopiedOutside(before, was, at, data, from, offset, at, at + length);
          OutsideTwice(buffer[..], before, was, at, at + length, at + offset, at + offset + bytes);
          return;
        }
        CopiedTwice(buffer[..], before, was, at, data, from, offset, bytes);
        pos, rest, offset := pos + count, rest - count, offset + bytes;
      }
      r := None;
    }

    /** The driver's write; a failed one leaves anything in the blocks it was to write. */
    method DriverWrite(to: nat, src: seq<Byte>, at: nat, length: nat) returns (r: Option<Error>)
      requires to + length <= |data| && at + length <= |src|
      modifies this
      ensures r == None ==> Copied(data, old(data), to, src, at, length)
      ensures SameOutside(old(data), data, to, to + length)
      ensures reliable ==> r == None
    {
      r := None;
      data := data[..to] + src[at..at + length] + data[to + length..];
      var fails: bool := *;
      if fails && !reliable {
        var junk: seq<Byte> := *;
        if |junk| == length {
          data := data[..to] + junk + data[to + length..];
        }
        r := Some(Device);
      }
    }

    method BackendWrite(dev: BlockDevice, lba: nat, blocks: nat, src: seq<Byte>, at: nat, length: nat)
      returns (r: Option<Error>)
      requires dev.Valid(|data|) && 0 < blocks < U32_LIMIT && lba + blocks <= dev.count && lba + blocks <= U64_MAX
      requires length == Times(blocks, dev.blockSize) && at + length <= |src| && dev.At(lba) + length <= |data|
      modifies this
      ensures r == None ==> Copied(data, old(data), dev.At(lba), src, at, length)
      ensures SameOutside(old(data), data, dev.At(lba), dev.At(lba) + length)
      ensures reliable ==> r == None
      decreases dev, 0
    {
      match dev.backend
      case Driver =>
        r := DriverWrite(Times(lba, dev.blockSize), src, at, length);
      case Partition(parent, first, _) =>
        assert parent.At(first + lba) == dev.At(lba);
        parent.Counted(|data|);
        r := WriteBlocks(parent, first + lba, blocks, src, at, length);
    }

    method WriteChunk(dev: BlockDevice, lba: nat, blocks: nat, src: seq<Byte>, at: nat, ghost length: nat)
      returns (r: Option<Error>, count: nat, bytes: nat)
      requires dev.Valid(|data|) && 0 < blocks < U32_LIMIT && lba + blocks <= dev.count && lba + blocks <= U64_MAX
      requires length == Times(blocks, dev.blockSize) && at + length <= |src| && dev.At(dev.count) <= |data|
      modifies this
      ensures 0 < count <= blocks && bytes <= length && Times(blocks - count, dev.blockSize) == length - bytes
      ensures dev.At(lba + count) == dev.At(lba) + bytes
      ensures r == None ==> Copied(data, old(data), dev.At(lba), src, at, bytes)
      ensures SameOutside(old(data), data, dev.At(lba), dev.At(lba) + bytes)
      ensures reliable ==> r == None
      decreases dev, 1
    {
      count := if blocks < dev.Limit() then blocks else dev.Limit();
      bytes := Times(count, dev.blockSize);
      TimesSum(blocks - count, count, dev.blockSize);
      dev.Span(|data|, lba, count);
      r := BackendWrite(dev, lba, count, src, at, bytes);
    }

    /** Writes `src[at..at + length]` to whole blocks, in chunks the backend can transfer. */
    method WriteBlocks(dev: BlockDevice, lba: nat, blocks: nat, src: seq<Byte>, at: nat, length: nat)
      returns (r: Option<Error>)
      requires dev.Valid(|data|) && blocks < U32_LIMIT && at + length <= |src|
      modifies this
      ensures r == None ==> dev.CheckTransfer(lba, blocks, length)
      ensures reliable && dev.CheckTransfer(lba, blocks, length) ==> r == None
      ensures r == None && blocks > 0 ==> Copied(data, old(data), dev.At(lba), src, at, length)
      ensures SameOutside(old(data), data, dev.At(lba), dev.At(lba) + length)
      ensures !dev.CheckTransfer(lba, blocks, length) ==> data == old(data)
      decreases dev, 2
    {
      if !dev.CheckTransfer(lba, blocks, length) { return Some(InvalidArgument); }
      if blocks == 0 { return None; }
      ghost var was, to := data, dev.At(lba);
      dev.InDisk(|data|);
      dev.Span(|data|, lba, blocks);
      var pos, rest, offset := lba, blocks, 0;
      while rest != 0
        invariant 0 <= offset <= length && 0 <= rest <= blocks && pos + rest == lba + blocks
        invariant Times(rest, dev.blockSize) == length - offset
        invariant dev.At(pos) == to + offset
        invariant Copied(data, was, to, src, at, offset)
        decreases rest
      {
        ghost var before := data;
        var count, bytes;
        r, count, bytes := WriteChunk(dev, pos, rest, src, at + offset, length - offset);
        if r.Some? {
          CopiedOutside(before, was, to, src, at, offset, to, to + length);
          OutsideTwice(data, before, was, to, to + length, to + offset, to + offset + bytes);
          return;
        }
        CopiedTwice(data, before, was, to, src, at, offset, bytes);
        pos, rest, offset := pos + count, rest - count, offset + bytes;
      }
      r := None;
    }

    // -------------------------------------------------------------- byte ranges

    /** Reads part of one block through the bounce buffer, after `at` bytes from `start` on. */
    method ReadPart(dev: BlockDevice, lba: nat, lead: nat, bounce: array<Byte>, buffer: array<Byte>, at: nat, take: nat,
                    ghost was: seq<Byte>, ghost start: nat)
      returns (r: Option<Error>)
      requires dev.Valid(|data|) && bounce.Length == dev.blockSize && lead + take <= dev.blockSize
      requires bounce != buffer && at + take <= buffer.Length
      requires Copied(buffer[..], was, 0, data, start, at) && start + at == dev.At(lba) + lead
      modifies bounce, buffer
      ensures r == None ==> Copied(buffer[..], was, 0, data, start, at + take)
      ensures reliable && lba < dev.count ==> r == None
    {
      ghost var before := buffer[..];
      OneBlock(dev, |data|, lba);
      r := ReadBlocks(dev, lba, 1, bounce, 0, dev.blockSize);
      if r == None {
        Fill(buffer, at, bounce[..], lead, take);
        assert Copied(buffer[..], before, at, data, start + at, take);
        CopiedTwice(buffer[..], before, was, 0, data, start, at, take);
      }
    }

    /** Reads whole blocks straight into the buffer; the block count is cut to 32 bits. */
    method ReadRun(dev: BlockDevice, lba: nat, buffer: array<Byte>, at: nat, length: nat, ghost was: seq<Byte>,
                   ghost start: nat)
      returns (r: Option<Error>)
      requires dev.Valid(|data|) && length > 0 && at + length <= buffer.Length
      requires Copied(buffer[..], was, 0, data, start, at) && start + at == dev.At(lba)
      modifies buffer
      ensures r == None ==> Copied(buffer[..], was, 0, data, start, at + length)
      ensures reliable && Blocks(dev, lba, length) ==> (r == None <==> length / dev.blockSize < U32_LIMIT)
    {
      ghost var before := buffer[..];
      if Blocks(dev, lba, length) { CutCount(dev, lba, length); }
      r := ReadBlocks(dev, lba, length / dev.blockSize % U32_LIMIT, buffer, at, length);
      if r == None {
        CopiedTwice(buffer[..], before, was, 0, data, start, at, length);
      }
    }

    /** Reads a part of the first block, whole blocks and a part of the last. */
    method ReadCuts(dev: BlockDevice, c: Cuts, buffer: array<Byte>, ghost offset: nat, ghost length: nat)
      returns (r: Option<Error>)
      requires dev.Valid(|data|) && dev.IsCut(c, offset, length) && Placed(dev, c) && 0 < length <= buffer.Length
          && dev.At(0) + offset <= |data|
      modifies buffer
      ensures r == None ==> Copied(buffer[..], old(buffer[..]), 0, data, dev.At(0) + offset, length)
      ensures reliable ==> (r == None <==> c.middle / dev.blockSize < U32_LIMIT)
    {
      ghost var was, start := buffer[..], dev.At(0) + offset;
      var fails: bool := *;
      if fails && !reliable { return Some(OutOfMemory); }
      var bounce := new Byte[dev.blockSize];
      if c.lead != 0 {
        r := ReadPart(dev, c.first, c.lead, bounce, buffer, 0, c.head, was, start);
        if r.Some? { return; }
      }
      if c.middle != 0 {
        r := ReadRun(dev, c.second, buffer, c.head, c.middle, was, start);
        if r.Some? { return; }
      }
      r := None;
      if c.tail != 0 {
        r := ReadPart(dev, c.last, 0, bounce, buffer, c.head + c.middle, c.tail, was, start);
      }
    }

    /** On a reliable disk a read fails exactly if it has 2^32 whole blocks or more. */
    method ReadBytes(dev: BlockDevice, offset: nat, buffer: array<Byte>) returns (r: Result<nat, Error>)
      requires dev.Valid(|data|)
      modifies buffer
      ensures r.Ok? ==> r.value == Least(buffer.Length, Left(dev.SizeBytes(), offset))
      ensures r.Ok? && r.value > 0 ==> Copied(buffer[..], old(buffer[..]), 0, data, dev.At(0) + offset, r.value)
      ensures r.Ok? && r.value == 0 ==> buffer[..] == old(buffer[..])
      ensures reliable ==>
                var n := Least(buffer.Length, Left(dev.SizeBytes(), offset));
                r.Ok? <==> dev.WholeIn(offset, n) < U32_LIMIT
    {
      var length := Least(buffer.Length, Left(dev.SizeBytes(), offset));
      if length == 0 { return Ok(0); }
      var c := dev.Cut(offset, length);
      dev.Inside(|data|, offset);
      var fault;
      if c.lead == 0 && length % dev.blockSize == 0 {
        AllWhole(dev, |data|, offset, length, c);
        fault := ReadRun(dev, c.first, buffer, 0, length, buffer[..], dev.At(0) + offset);
      } else {
        CutOnDevice(dev, |data|, offset, length, c);
        fault := ReadCuts(dev, c, buffer, offset, length);
      }
      r := if fault.Some? then Err(fault.value) else Ok(length);
    }

    /** Writes part of one block: reads the block, patches it and writes it back. */
    method WritePart(dev: BlockDevice, lba: nat, lead: nat, bounce: array<Byte>, src: seq<Byte>, at: nat, take: nat,
                     ghost was: seq<Byte>, ghost start: nat)
      returns (r: Option<Error>)
      requires dev.Valid(|data|) && bounce.Length == dev.blockSize && lead + take <= dev.blockSize && at + take <= |src|
      requires Copied(data, was, start, src, 0, at) && start + at == dev.At(lba) + lead
      requires SameOutside(was, data, dev.At(0), dev.At(dev.count))
      modifies bounce, this
      ensures r == None ==> Copied(data, was, start, src, 0, at + take)
      ensures SameOutside(was, data, dev.At(0), dev.At(dev.count))
      ensures reliable && lba < dev.count ==> r == None
    {
      ghost var before, junk := data, bounce[..];
      OneBlock(dev, |data|, lba);
      r := ReadBlocks(dev, lba, 1, bounce, 0, dev.blockSize);
      if r.Some? { return; }
      ghost var block := bounce[..];
      Fill(bounce, lead, src, at, take);
      ghost var patched := bounce[..];
      dev.InDisk(|data|);
      dev.Region(|data|, lba, 1);
      r := WriteBlocks(dev, lba, 1, bounce[..], 0, dev.blockSize);
      OutsideTwice(data, before, was, dev.At(0), dev.At(dev.count), dev.At(lba), dev.At(lba) + dev.blockSize);
      if r == None {
        PatchedMore(data, before, was, dev.At(lba), junk, block, lead, src, at, take, patched, start);
      }
    }

    method WriteRun(dev: BlockDevice, lba: nat, src: seq<Byte>, at: nat, length: nat, ghost was: seq<Byte>,
                    ghost start: nat)
      returns (r: Option<Error>)
      requires dev.Valid(|data|) && length > 0 && at + length <= |src|
      requires Copied(data, was, start, src, 0, at) && start + at == dev.At(lba)
      requires SameOutside(was, data, dev.At(0), dev.At(dev.count))
      modifies this
      ensures r == None ==> Copied(data, was, start, src, 0, at + length)
      ensures SameOutside(was, data, dev.At(0), dev.At(dev.count))
      ensures reliable && Blocks(dev, lba, length) ==> (r == None <==> length / dev.blockSize < U32_LIMIT)
    {
      ghost var before := data;
      if Blocks(dev, lba, length) { CutCount(dev, lba, length); }
      var blocks := length / dev.blockSize % U32_LIMIT;
      r := WriteBlocks(dev, lba, blocks, src, at, length);
      if dev.CheckTransfer(lba, blocks, length) && blocks > 0 {
        dev.InDisk(|data|);
        dev.Region(|data|, lba, blocks);
        OutsideTwice(data, before, was, dev.At(0), dev.At(dev.count), dev.At(lba), dev.At(lba) + length);
      }
      if r == None {
        CopiedTwice(data, before, was, start, src, 0, at, length);
      }
    }

    method WriteCuts(dev: BlockDevice, c: Cuts, src: seq<Byte>, ghost offset: nat) returns (r: Option<Error>)
      requires dev.Valid(|data|) && dev.IsCut(c, offset, |src|) && Placed(dev, c) && src != []
          && dev.At(0) + offset <= |data|
      modifies this
      ensures r == None ==> Copied(data, old(data), dev.At(0) + offset, src, 0, |src|)
      ensures SameOutside(old(data), data, dev.At(0), dev.At(dev.count))
      ensures reliable ==> (r == None <==> c.middle / dev.blockSize < U32_LIMIT)
    {
      ghost var was, start := data, dev.At(0) + offset;
      var fails: bool := *;
      if fails && !reliable { return Some(OutOfMemory); }
      var bounce := new Byte[dev.blockSize];
      if c.lead != 0 {
        r := WritePart(dev, c.first, c.lead, bounce, src, 0, c.head, was, start);
        if r.Some? { return; }
      }
      if c.middle != 0 {
        r := WriteRun(dev, c.second, src, c.head, c.middle, was, start);
        if r.Some? { return; }
      }
      r := None;
      if c.tail != 0 {
        r := WritePart(dev, c.last, 0, bounce, src, c.head + c.middle, c.tail, was, start);
      }
    }

    /** On a reliable disk a write fails exactly if it does not fit the device or has 2^32 whole blocks or more. */
    method WriteBytes(dev: BlockDevice, offset: nat, src: seq<Byte>) returns (r: Result<nat, Error>)
      requires dev.Valid(|data|)
      modifies this
      ensures r.Ok? ==>
                r.value == |src| && offset + |src| <= dev.SizeBytes()
                    && Copied(data, old(data), dev.At(0) + offset, src, 0, |src|)
      ensures SameOutside(old(data), data, dev.At(0), dev.At(dev.count))
      ensures reliable ==>
                (r.Ok? <==> offset + |src| <= dev.SizeBytes() && dev.WholeIn(offset, |src|) < U32_LIMIT)
    {
      if offset + |src| > U64_MAX { return Err(InvalidArgument); }
      if offset + |src| > dev.SizeBytes() { return Err(NoSpace); }
      dev.Inside(|data|, offset);
      if src == [] { return Ok(0); }
      var c := dev.Cut(offset, |src|);
      var fault;
      if c.lead == 0 && |src| % dev.blockSize == 0 {
        AllWhole(dev, |data|, offset, |src|, c);
        fault := WriteRun(dev, c.first, src, 0, |src|, data, dev.At(0) + offset);
      } else {
        CutOnDevice(dev, |data|, offset, |src|, c);
        fault := WriteCuts(dev, c, src, offset);
      }
      r := if fault.Some? then Err(fault.value) else Ok(|src|);
    }
  }

  /** How a byte range falls into a part of its first block, whole blocks and a part of its last. */
  datatype Cuts = Cuts(first: nat, lead: nat, head: nat, second: nat, middle: nat, last: nat, tail: nat)

  function Least(a: nat, b: nat): nat {
    if a <= b then a else b
  }

  /** Subtraction that stops at zero. */
  function Left(size: nat, offset: nat): nat {
    if offset <= size then size - offset else 0
  }

  // ---------------------------------------------------------------- devices as byte arrays

  /** The bytes of the disk that belong to the device. */
  ghost function View(dev: BlockDevice, data: seq<Byte>): seq<Byte>
    requires dev.At(0) <= dev.At(dev.count) <= |data|
  {
    data[dev.At(0)..dev.At(dev.count)]
  }

  lemma ViewBounds(dev: BlockDevice, size: nat)
    requires dev.Valid(size)
    ensures dev.At(0) + dev.SizeBytes() == dev.At(dev.count) <= size
  {
    dev.InDisk(size);
    dev.Step(0, dev.count);
  }

  /** What `ReadBytes` copies is a slice of the device. */
  lemma ReadIsSlice(dev: BlockDevice, data: seq<Byte>, offset: nat, t: seq<Byte>, s: seq<Byte>, n: nat)
    requires dev.Valid(|data|) && offset + n <= dev.SizeBytes() && Copied(t, s, 0, data, dev.At(0) + offset, n)
    ensures dev.At(0) + dev.SizeBytes() == dev.At(dev.count) <= |data|
    ensures t == View(dev, data)[offset..offset + n] + s[n..]
  {
    ViewBounds(dev, |data|);
    Sliced(t, s, data, dev.At(0), dev.At(dev.count), offset, n);
  }

  lemma Sliced(t: seq<Byte>, s: seq<Byte>, data: seq<Byte>, lo: nat, hi: nat, offset: nat, n: nat)
    requires Copied(t, s, 0, data, lo + offset, n) && lo + offset + n <= hi <= |data|
    ensures t == data[lo..hi][offset..offset + n] + s[n..]
  {
    var view := data[lo..hi];
    var slice := view[offset..offset + n];
    forall i | 0 <= i < |t| ensures t[i] == (slice + s[n..])[i] {
      if i < n {
        assert slice[i] == view[offset + i] == data[lo + (offset + i)];
      } else {
        assert s[n..][i - n] == s[i];
      }
    }
    assert t == slice + s[n..];
  }

  /** What `WriteBytes` does to the device is a splice. */
  lemma WriteIsSplice(dev: BlockDevice, data: seq<Byte>, was: seq<Byte>, offset: nat, src: seq<Byte>)
    requires dev.Valid(|was|) && offset + |src| <= dev.SizeBytes()
        && Copied(data, was, dev.At(0) + offset, src, 0, |src|)
    ensures dev.At(0) + dev.SizeBytes() == dev.At(dev.count) <= |was| == |data|
    ensures View(dev, data) == View(dev, was)[..offset] + src + View(dev, was)[offset + |src|..]
  {
    ViewBounds(dev, |was|);
    Spliced(data, was, dev.At(0), dev.At(dev.count), offset, src);
  }

  lemma Spliced(t: seq<Byte>, s: seq<Byte>, lo: nat, hi: nat, offset: nat, src: seq<Byte>)
    requires Copied(t, s, lo + offset, src, 0, |src|) && lo + offset + |src| <= hi <= |s|
    ensures t[lo..hi] == s[lo..hi][..offset] + src + s[lo..hi][offset + |src|..]
  {
  }

  /** Writing through one of two disjoint partitions of a device leaves the other as it was, whether the
      write succeeded or not. */
  lemma PartitionsAreIndependent(p: BlockDevice, q: BlockDevice, was: seq<Byte>, data: seq<Byte>)
    requires p.Valid(|was|) && q.Valid(|was|) && p.backend.Partition? && q.backend.Partition?
        && p.backend.parent == q.backend.parent
    requires p.backend.first + p.backend.blocks <= q.backend.first
            || q.backend.first + q.backend.blocks <= p.backend.first
    requires SameOutside(was, data, p.At(0), p.At(p.count))
    ensures q.At(0) <= q.At(q.count) <= |was| == |data| && View(q, data) == View(q, was)
  {
    ViewBounds(q, |was|);
    DisjointRegions(p, q);
  }

  lemma DisjointRegions(p: BlockDevice, q: BlockDevice)
    requires p.backend.Partition? && q.backend.Partition? && p.backend.parent == q.backend.parent
        && p.blockSize == q.blockSize
    requires p.count == p.backend.blocks && q.count == q.backend.blocks
    requires p.backend.first + p.backend.blocks <= q.backend.first
            || q.backend.first + q.backend.blocks <= p.backend.first
    ensures p.At(p.count) <= q.At(0) || q.At(q.count) <= p.At(0)
  {
    if p.backend.first + p.backend.blocks <= q.backend.first {
      TimesMonotone(p.Base() + p.count, q.Base() + 0, q.blockSize);
    } else {
      TimesMonotone(q.Base() + q.count, p.Base() + 0, q.blockSize);
    }
  }
}

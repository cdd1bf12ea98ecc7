/** What file systems see of a block device: an array of bytes. */
module RawDisk {
  import opened Common
  import Block

  /** `bytes` is what device `dev` of the disk holds. */
  ghost predicate Shows(disk: Block.Disk, dev: Block.BlockDevice, bytes: seq<Byte>)
    reads disk
  {
    && dev.Valid(|disk.data|) && dev.At(0) <= dev.At(dev.count) <= |disk.data|
    && bytes == Block.View(dev, disk.data) && |bytes| == dev.SizeBytes()
  }

  /** Every registered device shows an array of bytes. */
  lemma ShowsView(disk: Block.Disk, dev: Block.BlockDevice)
    requires dev.Valid(|disk.data|)
    ensures dev.At(0) <= dev.At(dev.count) <= |disk.data| && Shows(disk, dev, Block.View(dev, disk.data))
  {
    Block.ViewBounds(dev, |disk.data|);
  }

  /** Reads `n` bytes into `out[at..at + n]`; a short read counts as a failure.  `piece` stands for that part of the
      buffer. */
  method ReadDevice(disk: Block.Disk, dev: Block.BlockDevice, ghost bytes: seq<Byte>, from: nat, out: array<Byte>,
                    at: nat, n: nat)
    returns (ok: bool)
    requires Shows(disk, dev, bytes) && at + n <= out.Length
    modifies out
    ensures ok ==>
              (n == 0 || from + n <= |bytes|) && forall i :: at <= i < at + n ==> out[i] == bytes[from + i - at]
    ensures forall i :: 0 <= i < out.Length && !(at <= i < at + n) ==> out[i] == old(out[i])
    ensures disk.reliable ==> (ok <==> n == 0 || (from + n <= |bytes| && dev.WholeIn(from, n) < U32_LIMIT))
  {
    var piece := new Byte[n];
    var r := disk.ReadBytes(dev, from, piece);
    if r.Err? || r.value != n { return false; }
    forall i | at <= i < at + n {
      out[i] := piece[i - at];
    }
    ok := true;
  }

  /** Fewer whole blocks than 32 bits can count are never too many. */
  lemma SmallRead(dev: Block.BlockDevice, from: nat, n: nat)
    requires dev.blockSize > 0 && n < U32_LIMIT
    ensures dev.WholeIn(from, n) < U32_LIMIT
  {
    Block.WholeAtMost(dev, from, n);
  }
}

/** Reading a FAT file through a cached cluster chain and coalesced runs. */
module Fat {
  import opened Common
  import opened Arith
  import opened RawDisk
  import Block

  const FAT_BAD_CLUSTER := 0x0FFF_FFF7
  const FAT_END_MIN := 0x0FFF_FFF8

  datatype Error = Io | OutOfMemory

  /** `fat` gives the entry of each cluster in the active table. */
  datatype Volume = Volume(bytesPerCluster: nat, clusterCount: nat, dataOffset: nat, totalBytes: nat, fat: nat -> nat) {
    predicate ValidCluster(c: nat) {
      2 <= c < clusterCount + 2
    }

    /** The first byte of a cluster on the disk. */
    function ClusterOffset(c: nat): Option<nat> {
      if ValidCluster(c) && dataOffset + Times(c - 2, bytesPerCluster) < totalBytes
      then Some(dataOffset + Times(c - 2, bytesPerCluster)) else None
    }

    /** The successor of a cluster; none at the end of the chain, an error if the entry is no cluster. */
    function Next(c: nat): Result<Option<nat>, Error> {
      if !ValidCluster(c) then Err(Io)
      else if fat(c) >= FAT_END_MIN then Ok(None)
      else if fat(c) < 2 || fat(c) == FAT_BAD_CLUSTER || !ValidCluster(fat(c)) then Err(Io)
      else Ok(Some(fat(c)))
    }

    /** Cluster `k` of the chain that starts at `first`, found by following the table from the start. */
    ghost function Walk(first: nat, k: nat): Option<nat> {
      if k == 0 then (if ValidCluster(first) then Some(first) else None)
      else
        var c := Walk(first, k - 1);
        if c.Some? && Next(c.value).Ok? then Next(c.value).value else None
    }

    /** Where byte `at` of the file is on the disk. */
    ghost function Address(first: nat, at: nat): Option<nat>
      requires bytesPerCluster > 0
    {
      var c := Walk(first, at / bytesPerCluster);
      if c.Some? && ClusterOffset(c.value).Some? then Some(ClusterOffset(c.value).value + at % bytesPerCluster)
          else None
    }
  }

  /** A stretch of the disk. */
  datatype Run = Run(start: nat, count: nat)

  ghost function Total(runs: seq<Run>): nat {
    if runs == [] then 0 else Total(runs[..|runs| - 1]) + runs[|runs| - 1].count
  }

  /** The disk address of byte `p` of the runs laid end to end. */
  ghost function RunAddress(runs: seq<Run>, p: nat): nat
    requires p < Total(runs)
  {
    var n := |runs| - 1;
    if p < Total(runs[..n]) then RunAddress(runs[..n], p) else runs[n].start + (p - Total(runs[..n]))
  }

  /** Where the bytes of a file are on the disk. */
  type Places = nat -> Option<nat>

  ghost function PlacesOf(v: Volume, first: nat): Places
    requires v.bytesPerCluster > 0
  {
    (at: nat) => if v.bytesPerCluster > 0 then v.Address(first, at) else None
  }

  /** The runs name the disk addresses of the file's bytes from `offset` on. */
  ghost predicate Names(places: Places, offset: nat, runs: seq<Run>) {
    forall p :: 0 <= p < Total(runs) ==> places(offset + p) == Some(RunAddress(runs, p))
  }

  /** Bytes `from..from + n` of the file are contiguous on the disk. */
  ghost predicate Contiguous(places: Places, from: nat, start: nat, n: nat) {
    forall x :: from <= x < from + n ==> places(x) == Some(start + (x - from))
  }

  /** The file's bytes `offset..offset + n` are on a disk of `size` bytes. */
  ghost predicate Stored(places: Places, offset: nat, n: nat, size: nat) {
    forall x :: offset <= x < offset + n ==> StoredAt(places(x), size)
  }

  ghost predicate StoredAt(a: Option<nat>, size: nat) {
    a.Some? && a.value < size
  }

  ghost predicate RunsFit(runs: seq<Run>, size: nat) {
    forall k :: 0 <= k < |runs| ==> runs[k].start + runs[k].count <= size
  }

  /** `r` has the bytes of `runs` and after them `take` bytes from `at` on. */
  ghost predicate Extends(r: seq<Run>, runs: seq<Run>, at: nat, take: nat) {
    && Total(r) == Total(runs) + take
    && forall p :: 0 <= p < Total(r) ==>
         RunAddress(r, p) == if p < Total(runs) then RunAddress(runs, p) else at + (p - Total(runs))
  }

  lemma ExtendsLast(runs: seq<Run>, at: nat, take: nat)
    requires runs != [] && runs[|runs| - 1].start + runs[|runs| - 1].count == at
    ensures var last := runs[|runs| - 1];
            Extends(runs[..|runs| - 1] + [Run(last.start, last.count + take)], runs, at, take)
  {
    var n := |runs| - 1;
    var r := runs[..n] + [Run(runs[n].start, runs[n].count + take)];
    assert r[..n] == runs[..n];
  }

  lemma ExtendsNew(runs: seq<Run>, at: nat, take: nat)
    ensures Extends(runs + [Run(at, take)], runs, at, take)
  {
    assert (runs + [Run(at, take)])[..|runs|] == runs;
  }

  lemma ExtendsNames(places: Places, offset: nat, r: seq<Run>, runs: seq<Run>, at: nat, take: nat)
    requires Names(places, offset, runs) && Extends(r, runs, at, take)
        && Contiguous(places, offset + Total(runs), at, take)
    ensures Names(places, offset, r)
  {
    forall p | 0 <= p < Total(r) ensures places(offset + p) == Some(RunAddress(r, p)) {
      if p < Total(runs) {
        assert places(offset + p) == Some(RunAddress(runs, p));
      }
    }
  }

  /** Adds a stretch to the last run if it continues it, and as a new run otherwise. */
  method Append(ghost places: Places, ghost offset: nat, runs: seq<Run>, at: nat, take: nat, ghost size: nat)
    returns (r: seq<Run>)
    requires Names(places, offset, runs) && Contiguous(places, offset + Total(runs), at, take)
    ensures Names(places, offset, r) && Total(r) == Total(runs) + take
    ensures RunsFit(runs, size) && at + take <= size ==> RunsFit(r, size)
  {
    var n := |runs| - 1;
    if runs != [] && runs[n].start + runs[n].count == at {
      ExtendsLast(runs, at, take);
      r := runs[..n] + [Run(runs[n].start, runs[n].count + take)];
    } else {
      ExtendsNew(runs, at, take);
      r := runs + [Run(at, take)];
    }
    ExtendsNames(places, offset, r, runs, at, take);
  }

  /** The bytes of one cluster are contiguous. */
  lemma ClusterContiguous(v: Volume, first: nat, j: nat, within: nat, take: nat, c: nat)
    requires v.bytesPerCluster > 0 && v.Walk(first, j) == Some(c) && v.ClusterOffset(c).Some?
    requires within + take <= v.bytesPerCluster
    ensures Contiguous(PlacesOf(v, first), Times(j, v.bytesPerCluster) + within, v.ClusterOffset(c).value + within,
                       take)
  {
    var b := v.bytesPerCluster;
    var from := Times(j, b) + within;
    TimesIsProduct(j, b);
    forall x | from <= x < from + take
      ensures PlacesOf(v, first)(x) == Some(v.ClusterOffset(c).value + within + (x - from))
    {
      DivModUnique(x, j, x - j * b, b);
    }
  }

  /** A stretch that begins within a cluster and is on the disk. */
  lemma StretchFits(places: Places, from: nat, at: nat, take: nat, size: nat)
    requires take > 0 && Contiguous(places, from, at, take) && Stored(places, from, take, size)
    ensures at + take <= size
  {
    assert StoredAt(places(from + take - 1), size);
  }

  method Locate(offset: nat, b: nat) returns (cluster: nat, within: nat)
    requires b > 0
    ensures within < b && offset == Times(cluster, b) + within
  {
    cluster, within := offset / b, offset % b;
    TimesDivision(offset, b);
  }

  /** The number of clusters up to the last of the bytes `offset..offset + length`. */
  method EndCluster(offset: nat, length: nat, b: nat) returns (end: nat)
    requires b > 0 && length > 0
    ensures end == (offset + length + b - 1) / b && 0 < end
    ensures Times(end - 1, b) < offset + length <= Times(end, b)
  {
    end := (offset + length + b - 1) / b;
    TimesDivision(offset + length + b - 1, b);
    DivMonotone(b, offset + length + b - 1, b);
  }

  /** The chain has `end` clusters or more, and no cluster twice among them. */
  ghost predicate Chained(v: Volume, first: nat, end: nat) {
    && (forall k :: 0 <= k < end ==> v.Walk(first, k).Some?)
    && forall j, k :: 0 <= j < k < end ==> v.Walk(first, j) != v.Walk(first, k)
  }

  class FatPager {
    const disk: Block.Disk
    const dev: Block.BlockDevice
    const volume: Volume
    const first: nat
    const size: nat
    var clusters: seq<nat>
    var seen: set<nat>

    /** The cached chain is a prefix of the true one and has no cluster twice. */
    ghost predicate Valid()
      reads this
    {
      && size <= U32_MAX
      && (forall k :: 0 <= k < |clusters| ==> volume.Walk(first, k) == Some(clusters[k]) && clusters[k] in seen)
      && (forall c :: c in seen ==> c in clusters)
      && forall j, k :: 0 <= j < k < |clusters| ==> clusters[j] != clusters[k]
    }

    /** The size of a file is a field of 32 bits. */
    constructor (disk: Block.Disk, dev: Block.BlockDevice, volume: Volume, first: nat, size: nat)
      requires size <= U32_MAX
      ensures Valid() && clusters == [] && this.disk == disk && this.dev == dev && this.volume == volume
          && this.first == first && this.size == size
    {
      this.disk, this.dev, this.volume, this.first, this.size := disk, dev, volume, first, size;
      clusters, seen := [], {};
    }

    /** A chain that comes back to a cluster has it twice. */
    lemma SeenBefore(next: nat, end: nat)
      requires Valid() && next in seen && |clusters| < end
      ensures Chained(volume, first, end) ==> volume.Walk(first, |clusters|) != Some(next)
    {
      var k :| 0 <= k < |clusters| && clusters[k] == next;
      assert volume.Walk(first, k) == Some(next);
    }

    /** Follows the table until `end` clusters are known; a read of the table may fail. */
    method ExtendChain(end: nat) returns (ok: bool)
      requires Valid()
      modifies this
      ensures Valid() && old(clusters) <= clusters
      ensures ok ==> end <= |clusters| && Chained(volume, first, end)
      ensures disk.reliable && Chained(volume, first, end) ==> ok
    {
      while |clusters| < end
        invariant Valid() && old(clusters) <= clusters
        decreases end - |clusters|
      {
        var next := first;
        if clusters != [] {
          var fails: bool := *;
          var step := volume.Next(clusters[|clusters| - 1]);
          assert Chained(volume, first, end) ==> volume.Walk(first, |clusters|).Some?;
          if (fails && !disk.reliable) || step.Err? || step.value == None { return false; }
          next := step.value.value;
        }
        assert Chained(volume, first, end) ==> volume.Walk(first, |clusters|) == Some(next);
        if !volume.ValidCluster(next) { return false; }
        if next in seen {
          SeenBefore(next, end);
          return false;
        }
        assert volume.Walk(first, |clusters|) == Some(next);
        seen := seen + {next};
        clusters := clusters + [next];
      }
      ok := true;
    }

    lemma InCluster(from: nat, j: nat, within: nat, size: nat)
      requires Valid() && volume.bytesPerCluster > 0 && j < |clusters| && within < volume.bytesPerCluster
          && from == Times(j, volume.bytesPerCluster) + within && StoredAt(PlacesOf(volume, first)(from), size)
      ensures volume.ClusterOffset(clusters[j]).Some?
    {
      TimesIsProduct(j, volume.bytesPerCluster);
      DivModUnique(from, j, within, volume.bytesPerCluster);
    }

    /** Adds `take` bytes of cluster `j` to the runs. */
    method AddCluster(runs: seq<Run>, j: nat, within: nat, take: nat, ghost offset: nat, ghost size: nat,
                      ghost stored: bool)
      returns (r: Option<seq<Run>>)
      requires Valid() && volume.bytesPerCluster > 0 && j < |clusters| && 0 < take
          && within + take <= volume.bytesPerCluster
      requires Names(PlacesOf(volume, first), offset, runs)
          && offset + Total(runs) == Times(j, volume.bytesPerCluster) + within
      requires stored ==> RunsFit(runs, size) && Stored(PlacesOf(volume, first), offset + Total(runs), take, size)
      ensures r.Some? ==> Names(PlacesOf(volume, first), offset, r.value) && Total(r.value) == Total(runs) + take
      ensures stored ==> r.Some? && RunsFit(r.value, size)
    {
      ghost var from := offset + Total(runs);
      if stored { InCluster(from, j, within, size); }
      var start := volume.ClusterOffset(clusters[j]);
      if start == None { return None; }
      ClusterContiguous(volume, first, j, within, take, clusters[j]);
      if stored { StretchFits(PlacesOf(volume, first), from, start.value + within, take, size); }
      var more := Append(PlacesOf(volume, first), offset, runs, start.value + within, take, size);
      r := Some(more);
    }

    /** The stretches of the disk that hold `length` bytes from `offset` on. */
    method FindRuns(offset: nat, length: nat, end: nat, ghost size: nat) returns (r: Option<seq<Run>>)
      requires Valid() && volume.bytesPerCluster > 0 && 0 < length && 0 < end <= |clusters|
          && Times(end - 1, volume.bytesPerCluster) < offset + length <= Times(end, volume.bytesPerCluster)
      ensures r.Some? ==> Total(r.value) == length && Names(PlacesOf(volume, first), offset, r.value)
      ensures Stored(PlacesOf(volume, first), offset, length, size) ==> r.Some? && RunsFit(r.value, size)
    {
      var b := volume.bytesPerCluster;
      var remaining := length;
      var start, within := Locate(offset, b);
      ghost var stored := Stored(PlacesOf(volume, first), offset, length, size);
      TimesLess(start, end, b);
      r := Some([]);
      for j := start to end
        invariant 0 <= remaining <= length && 0 <= within < b && r.Some? && Total(r.value) == length - remaining
            && Names(PlacesOf(volume, first), offset, r.value) && (stored ==> RunsFit(r.value, size))
        invariant remaining > 0 ==> offset + length - remaining == Times(j, b) + within
        invariant j < end ==> remaining > 0
      {
        var take := if remaining < b - within then remaining else b - within;
        r := AddCluster(r.value, j, within, take, offset, size, stored);
        if r == None { return; }
        assert Times(j + 1, b) == Times(j, b) + b;
        if j + 1 < end { TimesMonotone(j + 1, end - 1, b); }
        remaining, within := remaining - take, 0;
      }
    }

    /** Fills the buffer with the file's bytes from `offset` on, as a walk of the chain from its start finds
        them, and with zeros past the end of the file. */
    method ReadFile(ghost bytes: seq<Byte>, offset: nat, out: array<Byte>) returns (r: Option<Error>)
      requires Valid() && volume.bytesPerCluster > 0 && Shows(disk, dev, bytes)
      modifies this, out
      ensures Valid() && old(clusters) <= clusters
      ensures r == None ==> var n := Least(out.Length, size, offset);
                            && Bytes(PlacesOf(volume, first), bytes, offset, n, out[..])
                            && forall i :: n <= i < out.Length ==> out[i] == 0
      ensures disk.reliable ==> var n := Least(out.Length, size, offset);
                           r == None <==> n == 0 || Readable(volume, first, offset, n, |bytes|)
    {
      var length := Least(out.Length, size, offset);
      forall i | length <= i < out.Length { out[i] := 0; }
      if length == 0 { return None; }
      var b := volume.bytesPerCluster;
      var end := EndCluster(offset, length, b);
      if end > volume.clusterCount { return Some(Io); }
      var fails: bool := *;
      if fails && !disk.reliable { return Some(OutOfMemory); }
      var ok := ExtendChain(end);
      if !ok { return Some(Io); }
      var runs := FindRuns(offset, length, end, |bytes|);
      if runs == None { return Some(Io); }
      r := ReadRuns(disk, dev, bytes, runs.value, out);
      if r == None {
        RunsAreBytes(PlacesOf(volume, first), bytes, offset, runs.value, out[..]);
      }
    }
  }

  /** The chain reaches the end of the bytes `offset..offset + n` without a cycle, and they are on the disk. */
  ghost predicate Readable(v: Volume, first: nat, offset: nat, n: nat, size: nat)
    requires v.bytesPerCluster > 0
  {
    var end := (offset + n + v.bytesPerCluster - 1) / v.bytesPerCluster;
    end <= v.clusterCount && Chained(v, first, end) && Stored(PlacesOf(v, first), offset, n, size)
  }

  /** `s` begins with bytes `offset..offset + n` of the file. */
  ghost predicate Bytes(places: Places, disk: seq<Byte>, offset: nat, n: nat, s: seq<Byte>) {
    n <= |s| && forall i :: 0 <= i < n ==> Fetched(places(offset + i), disk, s[i])
  }

  ghost predicate Fetched(a: Option<nat>, disk: seq<Byte>, x: Byte) {
    a.Some? && a.value < |disk| && x == disk[a.value]
  }

  lemma RunsAreBytes(places: Places, disk: seq<Byte>, offset: nat, runs: seq<Run>, s: seq<Byte>)
    requires Names(places, offset, runs) && Total(runs) <= |s|
    requires forall i :: 0 <= i < Total(runs) ==> Fetched(Some(RunAddress(runs, i)), disk, s[i])
    ensures Bytes(places, disk, offset, Total(runs), s) && Stored(places, offset, Total(runs), |disk|)
  {
    forall x | offset <= x < offset + Total(runs) ensures StoredAt(places(x), |disk|) {
      assert Fetched(Some(RunAddress(runs, x - offset)), disk, s[x - offset]);
    }
    forall i | 0 <= i < Total(runs) ensures Fetched(places(offset + i), disk, s[i]) {
      assert places(offset + i) == Some(RunAddress(runs, i));
    }
  }

  function Least(n: nat, size: nat, offset: nat): nat {
    if offset >= size then 0 else if n < size - offset then n else size - offset
  }

  /** Reads the runs one after the other. */
  method ReadRuns(d: Block.Disk, dev: Block.BlockDevice, ghost disk: seq<Byte>, runs: seq<Run>, out: array<Byte>)
    returns (r: Option<Error>)
    requires Shows(d, dev, disk)
    requires Total(runs) <= out.Length
    modifies out
    ensures r == None ==> forall i :: 0 <= i < Total(runs) ==> Fetched(Some(RunAddress(runs, i)), disk, out[i])
    ensures forall i :: Total(runs) <= i < out.Length ==> out[i] == old(out[i])
    ensures d.reliable && RunsFit(runs, |disk|) && Total(runs) <= U32_MAX ==> r == None
  {
    var done := 0;
    for k := 0 to |runs|
      invariant done == Total(runs[..k]) <= out.Length
      invariant forall i :: 0 <= i < done ==> Fetched(Some(RunAddress(runs[..k], i)), disk, out[i])
      invariant forall i :: Total(runs) <= i < out.Length ==> out[i] == old(out[i])
    {
      TotalGrows(runs, k);
      assert runs[..k + 1][..k] == runs[..k];
      if Total(runs) <= U32_MAX { SmallRead(dev, runs[k].start, runs[k].count); }
      var ok := ReadDevice(d, dev, disk, runs[k].start, out, done, runs[k].count);
      if !ok { return Some(Io); }
      done := done + runs[k].count;
    }
    assert runs[..|runs|] == runs;
    r := None;
  }

  lemma {:induction false} TotalGrows(runs: seq<Run>, k: nat)
    requires k < |runs|
    ensures Total(runs[..k]) + runs[k].count <= Total(runs)
    decreases |runs|
  {
    var n := |runs| - 1;
    if k == n {
      assert runs[..k] == runs[..n];
    } else {
      TotalGrows(runs[..n], k);
      assert runs[..n][..k] == runs[..k];
    }
  }
}

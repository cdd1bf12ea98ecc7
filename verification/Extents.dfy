/** Sparse files: extent lists, the reader that walks them block by block, the merged list of a memory
    object and the reader that walks that one. */
module Extents {
  import opened Common
  import opened Arith
  import opened RawDisk
  import Block

  const SINK_BUFFER := 1024

  datatype Error = Io | FileTooLarge

  /** An extent of a file, in blocks. */
  datatype Extent = Extent(logical: nat, physical: nat, length: nat, initialized: bool) {
    function End(): nat {
      logical + length
    }

    ghost predicate Covers(bs: nat, at: nat) {
      Times(logical, bs) <= at < Times(End(), bs)
    }

    ghost function Address(bs: nat, at: nat): Option<nat>
      requires Covers(bs, at)
    {
      if initialized then Some(Times(physical, bs) + at - Times(logical, bs)) else None
    }
  }

  /** An initialized extent, in bytes. */
  datatype FileExtent = FileExtent(logical: nat, physical: nat, length: nat) {
    function End(): nat {
      logical + length
    }

    predicate Covers(at: nat) {
      logical <= at < End()
    }

    /** Not empty, and on a device of so many bytes. */
    predicate Fits(device: nat) {
      length > 0 && End() <= U64_MAX && physical + length <= device
    }
  }

  /** Extents are non-empty, on the disk, in order and do not overlap. */
  ghost predicate Valid(es: seq<Extent>, blocks: nat) {
    && (forall i :: 0 <= i < |es| ==>
          es[i].length > 0 && es[i].End() <= U32_MAX && es[i].physical + es[i].length <= blocks)
    && (forall i, j :: 0 <= i < j < |es| ==> es[i].End() <= es[j].logical)
  }

  method ValidateExtents(es: seq<Extent>, blocks: nat) returns (ok: bool)
    requires blocks <= U64_MAX
    ensures ok <==> Valid(es, blocks)
  {
    var end := 0;
    for i := 0 to |es|
      invariant forall j :: 0 <= j < i ==>
                es[j].length > 0 && es[j].End() <= end <= U32_MAX && es[j].physical + es[j].length <= blocks
      invariant if i == 0 then end == 0 else end == es[i - 1].End()
      invariant forall j, k :: 0 <= j < k < i ==> es[j].End() <= es[k].logical
    {
      if es[i].length == 0 || (i != 0 && es[i].logical < end) || es[i].physical + es[i].length > blocks
          || es[i].End() > U32_MAX {
        return false;
      }
      end := es[i].End();
    }
    ok := true;
  }

  // ---------------------------------------------------------------- the meaning of an extent list

  /** Where byte `at` of the file is on the disk; none for a hole or an uninitialized extent. */
  ghost function Address(es: seq<Extent>, bs: nat, at: nat): Option<nat> {
    if es == [] then None
    else if es[0].Covers(bs, at) then es[0].Address(bs, at)
    else Address(es[1..], bs, at)
  }

  ghost function FileAddress(fs: seq<FileExtent>, at: nat): Option<nat> {
    if fs == [] then None
    else if fs[0].Covers(at) then Some(fs[0].physical + at - fs[0].logical)
    else FileAddress(fs[1..], at)
  }

  /** The byte at a disk address; holes are zero. */
  ghost function Value(disk: seq<Byte>, a: Option<nat>): Byte {
    if a.Some? && a.value < |disk| then disk[a.value] else 0
  }

  lemma CoversOne(e: Extent, f: Extent, bs: nat, at: nat)
    requires e.End() <= f.logical
    ensures !(e.Covers(bs, at) && f.Covers(bs, at))
  {
    TimesMonotone(e.End(), f.logical, bs);
  }

  lemma {:induction false} AddressAt(es: seq<Extent>, bs: nat, at: nat, i: nat)
    requires i < |es| && es[i].Covers(bs, at) && forall j, k :: 0 <= j < k < |es| ==> es[j].End() <= es[k].logical
    ensures Address(es, bs, at) == es[i].Address(bs, at)
  {
    if i > 0 {
      CoversOne(es[0], es[i], bs, at);
      AddressAt(es[1..], bs, at, i - 1);
    }
  }

  lemma {:induction false} AddressNone(es: seq<Extent>, bs: nat, at: nat)
    requires forall i :: 0 <= i < |es| ==> !es[i].Covers(bs, at)
    ensures Address(es, bs, at) == None
  {
    if es != [] {
      AddressNone(es[1..], bs, at);
    }
  }

  lemma {:induction false} FileAddressAt(fs: seq<FileExtent>, at: nat, i: nat)
    requires i < |fs| && fs[i].Covers(at) && forall j :: 0 <= j < i ==> !fs[j].Covers(at)
    ensures FileAddress(fs, at) == Some(fs[i].physical + at - fs[i].logical)
  {
    if i > 0 {
      FileAddressAt(fs[1..], at, i - 1);
    }
  }

  lemma {:induction false} FileAddressNone(fs: seq<FileExtent>, at: nat)
    requires forall i :: 0 <= i < |fs| ==> !fs[i].Covers(at)
    ensures FileAddress(fs, at) == None
  {
    if fs != [] {
      FileAddressNone(fs[1..], at);
    }
  }

  // ---------------------------------------------------------------- finding an extent

  /** The number of leading extents that start at or before a block. */
  method StartedBy(es: seq<Extent>, block: nat) returns (n: nat)
    requires forall i, j :: 0 <= i < j < |es| ==> es[i].logical <= es[j].logical
    ensures n <= |es| && (forall i :: 0 <= i < n ==> es[i].logical <= block) && forall i :: n <= i < |es| ==>
              block < es[i].logical
  {
    var lo, hi := 0, |es|;
    while lo < hi
      invariant 0 <= lo <= hi <= |es|
      invariant forall i :: 0 <= i < lo ==> es[i].logical <= block
      invariant forall i :: hi <= i < |es| ==> block < es[i].logical
    {
      var mid := (lo + hi) / 2;
      if es[mid].logical <= block { lo := mid + 1; } else { hi := mid; }
    }
    n := lo;
  }

  /** The extent that covers a block, or else where the next one starts. */
  method ExtentAt(es: seq<Extent>, block: nat) returns (i: Option<nat>, next: Option<nat>)
    requires forall i, j :: 0 <= i < j < |es| ==> es[i].End() <= es[j].logical
    ensures i.Some? ==> i.value < |es| && es[i.value].logical <= block < es[i.value].End()
    ensures i == None ==> forall j :: 0 <= j < |es| ==>
              es[j].End() <= block || (next.Some? && next.value <= es[j].logical)
    ensures next.Some? ==> block < next.value && exists j :: 0 <= j < |es| && es[j].logical == next.value
  {
    var n := StartedBy(es, block);
    next := if n < |es| then Some(es[n].logical) else None;
    i := if n > 0 && block < es[n - 1].End() then Some(n - 1) else None;
  }

  // ---------------------------------------------------------------- reading by extents

  method FillZero(out: array<Byte>, at: nat, n: nat)
    requires at + n <= out.Length
    modifies out
    ensures forall i :: 0 <= i < out.Length ==> out[i] == if at <= i < at + n then 0 else old(out[i])
  {
    forall i | at <= i < at + n {
      out[i] := 0;
    }
  }

  ghost predicate Ordered(es: seq<Extent>) {
    forall i, j :: 0 <= i < j < |es| ==> es[i].End() <= es[j].logical
  }

  /** `s[lo..hi]` holds the bytes of the file, of which `s[0]` is byte `offset`. */
  ghost predicate Holds(s: seq<Byte>, lo: nat, hi: nat, es: seq<Extent>, bs: nat, disk: seq<Byte>, offset: nat) {
    hi <= |s| && forall i :: lo <= i < hi ==> s[i] == Value(disk, Address(es, bs, offset + i))
  }

  /** How far an extent reaches past byte `at`, and where that byte is on the disk. */
  lemma InExtent(e: Extent, bs: nat, at: nat)
    requires bs > 0 && e.logical <= at / bs < e.End()
    ensures Times(e.logical, bs) <= at < Times(e.End(), bs)
    ensures Times(e.End() - at / bs, bs) - at % bs == Times(e.End(), bs) - at
    ensures Times(e.physical + (at / bs - e.logical), bs) + at % bs == Times(e.physical, bs) + at - Times(e.logical, bs)
  {
    var block := at / bs;
    TimesDivision(at, bs);
    TimesMonotone(e.logical, block, bs);
    TimesMonotone(block + 1, e.End(), bs);
    TimesSum(e.End() - block, block, bs);
    TimesSum(block - e.logical, e.logical, bs);
    TimesSum(e.physical, block - e.logical, bs);
  }

  lemma ExtentEnd(e: Extent, bs: nat)
    ensures Times(e.physical + e.length, bs) == Times(e.physical, bs) + Times(e.End(), bs) - Times(e.logical, bs)
  {
    TimesSum(e.physical, e.length, bs);
    TimesSum(e.logical, e.length, bs);
  }

  /** Nothing covers the bytes between the last extent before block `at / bs` and the next one. */
  lemma InHole(es: seq<Extent>, bs: nat, at: nat, next: Option<nat>, x: nat)
    requires bs > 0 && at <= x && (next.Some? ==> x < Times(next.value, bs))
    requires forall j :: 0 <= j < |es| ==> es[j].End() <= at / bs || (next.Some? && next.value <= es[j].logical)
    ensures Address(es, bs, x) == None
  {
    TimesDivision(at, bs);
    forall j | 0 <= j < |es| ensures !es[j].Covers(bs, x) {
      if es[j].End() <= at / bs {
        TimesMonotone(es[j].End(), at / bs, bs);
      } else {
        TimesMonotone(next.value, es[j].logical, bs);
      }
    }
    AddressNone(es, bs, x);
  }

  /** Reads through a small buffer, in windows of any length that fits it. */
  method ReadIntoSink(d: Block.Disk, dev: Block.BlockDevice, ghost disk: seq<Byte>, from: nat, out: array<Byte>,
                      at: nat, n: nat)
    returns (ok: bool)
    requires Shows(d, dev, disk) && 0 < n && at + n <= out.Length
    modifies out
    ensures ok ==> from + n <= |disk| && forall i :: at <= i < at + n ==> out[i] == disk[from + i - at]
    ensures forall i :: 0 <= i < out.Length && !(at <= i < at + n) ==> out[i] == old(out[i])
    ensures d.reliable ==> (ok <==> from + n <= |disk|)
  {
    var copied := 0;
    while copied < n
      invariant 0 <= copied <= n && (copied > 0 ==> from + copied <= |disk|)
      invariant forall i :: at <= i < at + copied ==> out[i] == disk[from + i - at]
      invariant forall i :: 0 <= i < out.Length && !(at <= i < at + n) ==> out[i] == old(out[i])
    {
      var window: nat :| 0 < window <= n - copied && window <= SINK_BUFFER;
      SmallRead(dev, from + copied, window);
      ok := ReadDevice(d, dev, disk, from + copied, out, at + copied, window);
      if !ok { return; }
      copied := copied + window;
    }
    ok := true;
  }

  lemma InExtentHolds(es: seq<Extent>, k: nat, bs: nat, disk: seq<Byte>, offset: nat, s: seq<Byte>, done: nat, n: nat)
    requires Ordered(es) && k < |es| && done + n <= |s|
    requires Times(es[k].logical, bs) <= offset + done && offset + done + n <= Times(es[k].End(), bs)
    requires var from := Times(es[k].physical, bs) + (offset + done) - Times(es[k].logical, bs);
             forall i :: done <= i < done + n ==>
               if es[k].initialized then from + (i - done) < |disk| && s[i] == disk[from + (i - done)] else s[i] == 0
    ensures Holds(s, done, done + n, es, bs, disk, offset)
  {
    forall i | done <= i < done + n ensures s[i] == Value(disk, Address(es, bs, offset + i)) {
      AddressAt(es, bs, offset + i, k);
    }
  }

  /** Reads within one extent. */
  method ReadExtent(es: seq<Extent>, k: nat, bs: nat, d: Block.Disk, dev: Block.BlockDevice, ghost disk: seq<Byte>,
                    offset: nat, out: array<Byte>, done: nat, left: nat)
    returns (r: Result<nat, Error>)
    requires Shows(d, dev, disk)
    requires bs > 0 && Ordered(es) && 0 < left && done + left <= out.Length
    requires k < |es| && es[k].logical <= (offset + done) / bs < es[k].End()
    modifies out
    ensures r.Ok? ==> 0 < r.value <= left && Holds(out[..], done, done + r.value, es, bs, disk, offset)
    ensures r.Ok? && r.value < left ==> offset + done + r.value == Times(es[k].End(), bs)
    ensures d.reliable && Times(es[k].physical + es[k].length, bs) <= |disk| ==> r.Ok?
    ensures forall i :: 0 <= i < done ==> out[i] == old(out[i])
  {
    var at, e := offset + done, es[k];
    var block, within := at / bs, at % bs;
    InExtent(e, bs, at);
    var available := Times(e.End() - block, bs) - within;
    var take := if left < available then left else available;
    if e.initialized {
      ExtentEnd(e, bs);
      var ok := ReadIntoSink(d, dev, disk, Times(e.physical + (block - e.logical), bs) + within, out, done, take);
      if !ok { return Err(Io); }
    } else {
      FillZero(out, done, take);
    }
    InExtentHolds(es, k, bs, disk, offset, out[..], done, take);
    r := Ok(take);
  }

  /** Zeros up to the next extent or the end of the file; there is always something to fill. */
  method ReadHole(es: seq<Extent>, next: Option<nat>, bs: nat, size: nat, ghost disk: seq<Byte>, offset: nat,
                  out: array<Byte>, done: nat, left: nat)
    returns (take: nat)
    requires bs > 0 && 0 < left && done + left <= out.Length && offset + done + left <= size
    requires next.Some? ==> (offset + done) / bs < next.value
    requires forall j :: 0 <= j < |es| ==>
              es[j].End() <= (offset + done) / bs || (next.Some? && next.value <= es[j].logical)
    modifies out
    ensures 0 < take <= left && Holds(out[..], done, done + take, es, bs, disk, offset)
    ensures take < left ==> next.Some? && offset + done + take == Times(next.value, bs)
    ensures forall i :: 0 <= i < done ==> out[i] == old(out[i])
  {
    var at := offset + done;
    if next.Some? {
      TimesDivision(at, bs);
      TimesMonotone(at / bs + 1, next.value, bs);
    }
    var end := if next.Some? then Times(next.value, bs) else size;
    take := if left < end - at then left else end - at;
    FillZero(out, done, take);
    forall i | done <= i < done + take ensures out[..][i] == Value(disk, Address(es, bs, offset + i)) {
      InHole(es, bs, at, next, offset + i);
    }
  }

  /** Block `at / bs` has a number of 32 bits. */
  predicate Numbered(bs: nat, at: nat)
    requires bs > 0
  {
    at / bs <= U32_MAX
  }

  lemma NumberedAt(bs: nat, block: nat, at: nat)
    requires bs > 0 && block <= U32_MAX && at == Times(block, bs)
    ensures Numbered(bs, at)
  {
    TimesIsProduct(block, bs);
    DivModUnique(at, block, 0, bs);
  }

  /** Reads on from byte `offset + done` to the end of an extent or a hole, or of what is left. */
  method ReadPiece(es: seq<Extent>, bs: nat, size: nat, d: Block.Disk, dev: Block.BlockDevice, ghost disk: seq<Byte>,
                   offset: nat, out: array<Byte>, done: nat, left: nat, ghost blocks: nat)
    returns (r: Result<nat, Error>)
    requires Shows(d, dev, disk)
    requires bs > 0 && Ordered(es) && 0 < left && done + left <= out.Length && offset + done + left <= size
    modifies out
    ensures r.Ok? ==> 0 < r.value <= left && Holds(out[..], done, done + r.value, es, bs, disk, offset)
    ensures r.Ok? && r.value < left && Valid(es, blocks) ==> Numbered(bs, offset + done + r.value)
    ensures r.Err? ==> r.error == if Numbered(bs, offset + done) then Io else FileTooLarge
    ensures d.reliable && Valid(es, blocks) && Times(blocks, bs) <= |disk| ==> (r.Ok? <==> Numbered(bs, offset + done))
    ensures r.Ok? ==> Numbered(bs, offset + done)
    ensures forall i :: 0 <= i < done ==> out[i] == old(out[i])
  {
    var block := (offset + done) / bs;
    if block > U32_MAX { return Err(FileTooLarge); }
    var found, next := ExtentAt(es, block);
    if found.Some? {
      var e := es[found.value];
      if Valid(es, blocks) { TimesMonotone(e.physical + e.length, blocks, bs); }
      r := ReadExtent(es, found.value, bs, d, dev, disk, offset, out, done, left);
      if r.Ok? && r.value < left && e.End() <= U32_MAX { NumberedAt(bs, e.End(), offset + done + r.value); }
      if r.Err? { return Err(Io); }
    } else {
      var take := ReadHole(es, next, bs, size, disk, offset, out, done, left);
      if take < left && next.value <= U32_MAX { NumberedAt(bs, next.value, offset + done + take); }
      r := Ok(take);
    }
  }

  /** Returns the file's bytes from `offset` on, as many as the buffer and the file have.  With valid extents on a
      reliable disk this fails exactly if the first block has no number of 32 bits. */
  method ReadData(es: seq<Extent>, bs: nat, size: nat, d: Block.Disk, dev: Block.BlockDevice, ghost disk: seq<Byte>,
                  offset: nat, out: array<Byte>, ghost blocks: nat)
    returns (r: Result<nat, Error>)
    requires Shows(d, dev, disk)
    requires bs > 0 && Ordered(es)
    modifies out
    ensures r.Ok? ==> r.value == Asked(out.Length, size, offset)
    ensures r.Ok? ==> Holds(out[..], 0, r.value, es, bs, disk, offset)
    ensures r == Err(FileTooLarge) ==> exists at :: offset <= at < size && !Numbered(bs, at)
    ensures d.reliable && Valid(es, blocks) && Times(blocks, bs) <= |disk| ==>
              (r.Err? <==> offset < size && out.Length > 0 && !Numbered(bs, offset))
  {
    if offset >= size || out.Length == 0 { return Ok(0); }
    var length := Asked(out.Length, size, offset);
    var done := 0;
    while done < length
      invariant 0 <= done <= length && Holds(out[..], 0, done, es, bs, disk, offset)
      invariant done > 0 ==> Numbered(bs, offset)
      invariant 0 < done < length && Valid(es, blocks) ==> Numbered(bs, offset + done)
    {
      r := ReadPiece(es, bs, size, d, dev, disk, offset, out, done, length - done, blocks);
      if r.Err? { return; }
      done := done + r.value;
    }
    r := Ok(done);
  }

  // ---------------------------------------------------------------- merging

  ghost predicate FileOrdered(fs: seq<FileExtent>) {
    forall i, j :: 0 <= i < j < |fs| ==> fs[i].End() <= fs[j].logical
  }

  ghost predicate FileValid(fs: seq<FileExtent>, device: nat) {
    && FileOrdered(fs)
    && forall i :: 0 <= i < |fs| ==> fs[i].Fits(device)
  }

  lemma {:induction false} FileAddressAppend(fs: seq<FileExtent>, e: FileExtent, at: nat)
    ensures FileAddress(fs + [e], at) ==
      if FileAddress(fs, at).Some? then FileAddress(fs, at)
          else if e.Covers(at) then Some(e.physical + at - e.logical) else None
  {
    if fs == [] {
      assert fs + [e] == [e];
    } else {
      assert (fs + [e])[1..] == fs[1..] + [e];
      FileAddressAppend(fs[1..], e, at);
    }
  }

  /** An extent that continues the last one, in the file and on the disk, may as well be part of it. */
  lemma MergedAddress(init: seq<FileExtent>, last: FileExtent, e: FileExtent, at: nat)
    requires e.logical == last.End() && e.physical == last.physical + last.length
    ensures FileAddress(init + [last.(length := e.End() - last.logical)], at) == FileAddress(init + [last] + [e], at)
  {
    FileAddressAppend(init, last.(length := e.End() - last.logical), at);
    FileAddressAppend(init, last, at);
    FileAddressAppend(init + [last], e, at);
  }

  ghost predicate SameFile(fs: seq<FileExtent>, gs: seq<FileExtent>) {
    forall at: nat :: FileAddress(fs, at) == FileAddress(gs, at)
  }

  lemma SameAppend(fs: seq<FileExtent>, gs: seq<FileExtent>, e: FileExtent)
    requires SameFile(fs, gs)
    ensures SameFile(fs + [e], gs + [e])
  {
    forall at: nat ensures FileAddress(fs + [e], at) == FileAddress(gs + [e], at) {
      FileAddressAppend(fs, e, at);
      FileAddressAppend(gs, e, at);
    }
  }

  /** Adds one extent to a merged list. */
  method MergeOne(mapped: seq<FileExtent>, e: FileExtent, device: nat, ghost fs: seq<FileExtent>)
    returns (r: seq<FileExtent>)
    requires FileValid(mapped, device) && SameFile(mapped, fs) && e.Fits(device)
    requires mapped != [] ==> mapped[|mapped| - 1].End() <= e.logical
    ensures FileValid(r, device) && SameFile(r, fs + [e]) && r != [] && r[|r| - 1].End() == e.End()
  {
    SameAppend(mapped, fs, e);
    r := mapped + [e];
    if mapped != [] {
      var n := |mapped| - 1;
      var last := mapped[n];
      if e.logical == last.End() && e.physical == last.physical + last.length {
        r := mapped[..n] + [last.(length := e.End() - last.logical)];
        assert mapped == mapped[..n] + [last];
        forall at: nat ensures FileAddress(r, at) == FileAddress(fs + [e], at) {
          MergedAddress(mapped[..n], last, e, at);
        }
      }
    }
  }

  /** The merged list means the same file; building it fails exactly when the extents are not valid. */
  method Merge(fs: seq<FileExtent>, device: nat) returns (r: Result<seq<FileExtent>, Error>)
    requires device <= U64_MAX
    ensures r.Ok? <==> FileValid(fs, device)
    ensures r.Ok? ==> FileValid(r.value, device) && SameFile(r.value, fs)
  {
    var mapped := [];
    for i := 0 to |fs|
      invariant FileValid(mapped, device) && FileValid(fs[..i], device) && SameFile(mapped, fs[..i])
      invariant if i == 0 then mapped == [] else mapped != [] && mapped[|mapped| - 1].End() == fs[i - 1].End()
    {
      var e := fs[i];
      if e.End() > U64_MAX || e.physical + e.length > U64_MAX || e.length == 0
          || e.physical + e.length > device { return Err(Io); }
      if mapped != [] && e.logical < mapped[|mapped| - 1].End() { return Err(Io); }
      assert fs[..i + 1] == fs[..i] + [e];
      mapped := MergeOne(mapped, e, device, fs[..i]);
    }
    assert fs[..|fs|] == fs;
    r := Ok(mapped);
  }

  // ---------------------------------------------------------------- the extents of a memory object

  lemma {:induction false} AddressAppend(es: seq<Extent>, e: Extent, bs: nat, at: nat)
    requires Ordered(es + [e])
    ensures Address(es + [e], bs, at) == if e.Covers(bs, at) then e.Address(bs, at) else Address(es, bs, at)
  {
    if e.Covers(bs, at) {
      AddressAt(es + [e], bs, at, |es|);
    } else if es != [] {
      assert (es + [e])[1..] == es[1..] + [e];
      AddressAppend(es[1..], e, bs, at);
    }
  }

  ghost predicate Means(fs: seq<FileExtent>, es: seq<Extent>, bs: nat) {
    forall at: nat :: FileAddress(fs, at) == Address(es, bs, at)
  }

  function InBytes(e: Extent, bs: nat): FileExtent {
    FileExtent(Times(e.logical, bs), Times(e.physical, bs), Times(e.length, bs))
  }

  lemma MeansAppend(fs: seq<FileExtent>, es: seq<Extent>, e: Extent, bs: nat)
    requires Means(fs, es, bs) && Ordered(es + [e])
    requires forall f :: f in fs ==> f.End() <= Times(e.logical, bs)
    ensures Means(if e.initialized then fs + [InBytes(e, bs)] else fs, es + [e], bs)
  {
    var f, gs := InBytes(e, bs), if e.initialized then fs + [InBytes(e, bs)] else fs;
    TimesSum(e.logical, e.length, bs);
    forall at: nat ensures FileAddress(gs, at) == Address(es + [e], bs, at) {
      AddressAppend(es, e, bs, at);
      FileAddressAppend(fs, f, at);
      if e.Covers(bs, at) {
        FileAddressNone(fs, at);
      }
    }
  }

  lemma InBytesFits(e: Extent, bs: nat, blocks: nat, device: nat)
    requires bs > 0 && e.length > 0 && e.End() <= U32_MAX && e.physical + e.length <= blocks
    requires Times(blocks, bs) <= device && bs <= U32_MAX
    ensures InBytes(e, bs).Fits(device) && InBytes(e, bs).End() == Times(e.End(), bs)
  {
    TimesSum(e.logical, e.length, bs);
    TimesSum(e.physical, e.length, bs);
    TimesIsProduct(e.End(), bs);
    MulMonotone(e.End(), U32_MAX, bs);
    TimesMonotone(e.physical + e.length, blocks, bs);
    TimesMonotone(1, e.length, bs);
  }

  /** The initialized extents of a file, in bytes. */
  method FileExtents(es: seq<Extent>, bs: nat, blocks: nat, device: nat) returns (fs: seq<FileExtent>)
    requires 0 < bs <= U32_MAX && Valid(es, blocks) && Times(blocks, bs) <= device
    ensures Means(fs, es, bs) && FileValid(fs, device)
  {
    fs := [];
    for i := 0 to |es|
      invariant Means(fs, es[..i], bs) && FileValid(fs, device)
      invariant forall f, j :: f in fs && i <= j < |es| ==> f.End() <= Times(es[j].logical, bs)
    {
      var e := es[i];
      assert es[..i + 1] == es[..i] + [e];
      MeansAppend(fs, es[..i], e, bs);
      InBytesFits(e, bs, blocks, device);
      forall j | i < j < |es| ensures Times(e.End(), bs) <= Times(es[j].logical, bs) {
        TimesMonotone(e.End(), es[j].logical, bs);
      }
      if e.initialized {
        fs := fs + [InBytes(e, bs)];
      }
    }
    assert es[..|es|] == es;
  }

  /** The memory object of a file with validated extents: building it succeeds, and it means the same file. */
  method MemoryObject(es: seq<Extent>, bs: nat, blocks: nat, device: nat) returns (r: Result<seq<FileExtent>, Error>)
    requires 0 < bs <= U32_MAX && Valid(es, blocks) && Times(blocks, bs) <= device <= U64_MAX
    ensures r.Ok? && FileValid(r.value, device) && Means(r.value, es, bs)
  {
    var fs := FileExtents(es, bs, blocks, device);
    r := Merge(fs, device);
    forall at: nat ensures FileAddress(r.value, at) == Address(es, bs, at) {
      assert FileAddress(r.value, at) == FileAddress(fs, at);
    }
  }

  // ---------------------------------------------------------------- reading the merged list

  /** `s[..hi]` holds the bytes of the file, of which `s[0]` is byte `offset`. */
  ghost predicate FileHolds(s: seq<Byte>, hi: nat, fs: seq<FileExtent>, disk: seq<Byte>, offset: nat) {
    hi <= |s| && forall i :: 0 <= i < hi ==> s[i] == Value(disk, FileAddress(fs, offset + i))
  }

  /** Extents that begin at or after `end` do not matter before it. */
  lemma {:induction false} LaterExtents(fs: seq<FileExtent>, n: nat, at: nat)
    requires n <= |fs| && forall i :: n <= i < |fs| ==> at < fs[i].logical
    ensures FileAddress(fs, at) == FileAddress(fs[..n], at)
  {
    if n == 0 {
      FileAddressNone(fs, at);
    } else {
      assert fs[..n][1..] == fs[1..][..n - 1];
      LaterExtents(fs[1..], n - 1, at);
    }
  }

  /** The number of leading extents that end at or before `offset`. */
  method EndedBy(fs: seq<FileExtent>, offset: nat) returns (n: nat)
    requires FileOrdered(fs)
    ensures n <= |fs| && (forall i :: 0 <= i < n ==> fs[i].End() <= offset) && forall i :: n <= i < |fs| ==>
              offset < fs[i].End()
  {
    var lo, hi := 0, |fs|;
    while lo < hi
      invariant 0 <= lo <= hi <= |fs|
      invariant forall i :: 0 <= i < lo ==> fs[i].End() <= offset
      invariant forall i :: hi <= i < |fs| ==> offset < fs[i].End()
    {
      var mid := (lo + hi) / 2;
      if fs[mid].End() <= offset { lo := mid + 1; } else { hi := mid; }
    }
    n := lo;
  }

  /** Copies what extent `k` has of the bytes asked for. */
  method CopyExtent(fs: seq<FileExtent>, k: nat, d: Block.Disk, dev: Block.BlockDevice, ghost disk: seq<Byte>,
                    offset: nat, length: nat, out: array<Byte>)
    returns (ok: bool)
    requires Shows(d, dev, disk)
    requires FileOrdered(fs) && k < |fs| && offset < fs[k].End() && fs[k].logical < offset + length
    requires FileHolds(out[..], length, fs[..k], disk, offset)
    modifies out
    ensures ok ==> FileHolds(out[..], length, fs[..k + 1], disk, offset)
    ensures d.reliable && fs[k].Fits(|disk|) ==> (ok <==> PieceFits(dev, fs[k], offset, offset + length))
    ensures forall i :: length <= i < out.Length ==> out[i] == old(out[i])
  {
    ghost var before := out[..];
    var e, end := fs[k], offset + length;
    var start := if offset < e.logical then e.logical else offset;
    var stop := if end < e.End() then end else e.End();
    ok := ReadDevice(d, dev, disk, e.physical + start - e.logical, out, start - offset, stop - start);
    if ok {
      forall i | 0 <= i < length ensures out[..][i] == Value(disk, FileAddress(fs[..k + 1], offset + i)) {
        Appended(fs, k, offset + i);
        assert before[i] == Value(disk, FileAddress(fs[..k], offset + i));
      }
    }
  }

  /** Fills the buffer with the file's bytes from `offset` on, and with zeros past the end of the file.  With valid
      extents on a reliable disk it fails exactly if what it asks of some extent has 2^32 whole blocks or more. */
  method PagerRead(fs: seq<FileExtent>, size: nat, d: Block.Disk, dev: Block.BlockDevice, ghost disk: seq<Byte>,
                   offset: nat, out: array<Byte>)
    returns (ok: bool)
    requires Shows(d, dev, disk)
    requires FileOrdered(fs)
    modifies out
    ensures ok ==> var n := Asked(out.Length, size, offset);
                   FileHolds(out[..], n, fs, disk, offset) && forall i :: n <= i < out.Length ==> out[i] == 0
    ensures d.reliable && FileValid(fs, |disk|) ==>
              var n := Asked(out.Length, size, offset);
              ok <==> PiecesFit(dev, fs, |fs|, offset, offset + n)
  {
    FillZero(out, 0, out.Length);
    var length := Asked(out.Length, size, offset);
    if length == 0 { return true; }
    var k := EndedBy(fs, offset);
    NoneYet(out[..], length, fs[..k], disk, offset);
    ok := CopyExtents(fs, k, d, dev, disk, offset, length, out);
  }

  /** Copies what the extents from `first` on have of the bytes asked for. */
  method CopyExtents(fs: seq<FileExtent>, first: nat, d: Block.Disk, dev: Block.BlockDevice, ghost disk: seq<Byte>,
                     offset: nat, length: nat, out: array<Byte>)
    returns (ok: bool)
    requires Shows(d, dev, disk) && FileOrdered(fs) && first <= |fs|
    requires (forall i :: 0 <= i < first ==> fs[i].End() <= offset)
        && forall i :: first <= i < |fs| ==> offset < fs[i].End()
    requires FileHolds(out[..], length, fs[..first], disk, offset)
    modifies out
    ensures ok ==> FileHolds(out[..], length, fs, disk, offset)
    ensures forall i :: length <= i < out.Length ==> out[i] == old(out[i])
    ensures d.reliable && FileValid(fs, |disk|) ==> (ok <==> PiecesFit(dev, fs, |fs|, offset, offset + length))
  {
    var k := first;
    while k < |fs| && fs[k].logical < offset + length
      invariant first <= k <= |fs| && FileHolds(out[..], length, fs[..k], disk, offset)
      invariant forall i :: length <= i < out.Length ==> out[i] == old(out[i])
      invariant d.reliable && FileValid(fs, |disk|) ==> PiecesFit(dev, fs, k, offset, offset + length)
    {
      ok := CopyExtent(fs, k, d, dev, disk, offset, length, out);
      if !ok { return; }
      k := k + 1;
    }
    NoneAfter(out[..], length, fs, k, disk, offset);
    ok := true;
  }

  lemma NoneYet(s: seq<Byte>, n: nat, fs: seq<FileExtent>, disk: seq<Byte>, offset: nat)
    requires n <= |s| && (forall i :: 0 <= i < |s| ==> s[i] == 0) && forall i :: 0 <= i < |fs| ==> fs[i].End() <= offset
    ensures FileHolds(s, n, fs, disk, offset)
  {
    forall i | 0 <= i < n ensures s[i] == Value(disk, FileAddress(fs, offset + i)) {
      FileAddressNone(fs, offset + i);
    }
  }

  lemma NoneAfter(s: seq<Byte>, n: nat, fs: seq<FileExtent>, k: nat, disk: seq<Byte>, offset: nat)
    requires FileOrdered(fs) && k <= |fs| && FileHolds(s, n, fs[..k], disk, offset)
    requires k < |fs| ==> offset + n <= fs[k].logical
    ensures FileHolds(s, n, fs, disk, offset)
  {
    forall i | 0 <= i < n ensures s[i] == Value(disk, FileAddress(fs, offset + i)) {
      LaterExtents(fs, k, offset + i);
    }
  }

  /** As many bytes as the buffer and the file have. */
  function Asked(n: nat, size: nat, offset: nat): nat {
    if offset >= size then 0 else if n < size - offset then n else size - offset
  }

  /** What bytes `offset..end` of the file ask of one extent can be read at once. */
  ghost predicate PieceFits(dev: Block.BlockDevice, e: FileExtent, offset: nat, end: nat)
    requires dev.blockSize > 0
  {
    var start := if offset < e.logical then e.logical else offset;
    var stop := if end < e.End() then end else e.End();
    start < stop ==> dev.WholeIn(e.physical + start - e.logical, stop - start) < U32_LIMIT
  }

  ghost predicate PiecesFit(dev: Block.BlockDevice, fs: seq<FileExtent>, n: nat, offset: nat, end: nat)
    requires dev.blockSize > 0 && n <= |fs|
  {
    forall k :: 0 <= k < n ==> PieceFits(dev, fs[k], offset, end)
  }

  /** A read of fewer than 2^32 bytes, such as that of a page, asks of no extent too much. */
  lemma SmallPiecesFit(dev: Block.BlockDevice, fs: seq<FileExtent>, offset: nat, end: nat)
    requires dev.blockSize > 0 && end < offset + U32_LIMIT
    ensures PiecesFit(dev, fs, |fs|, offset, end)
  {
    forall k | 0 <= k < |fs| ensures PieceFits(dev, fs[k], offset, end) {
      var e := fs[k];
      var start := if offset < e.logical then e.logical else offset;
      var stop := if end < e.End() then end else e.End();
      if start < stop {
        SmallRead(dev, e.physical + start - e.logical, stop - start);
      }
    }
  }

  /** But a file of 2^32 blocks in one extent cannot be read at once. */
  lemma LargePieceIsRefused(dev: Block.BlockDevice, n: nat)
    requires dev.blockSize > 0 && U32_LIMIT <= n <= dev.count && Times(dev.count, dev.blockSize) <= U64_MAX
    ensures var fs := [FileExtent(0, 0, Times(n, dev.blockSize))];
            FileValid(fs, dev.SizeBytes()) && !PiecesFit(dev, fs, 1, 0, Times(n, dev.blockSize))
  {
    var bytes := Times(n, dev.blockSize);
    TimesMonotone(n, dev.count, dev.blockSize);
    TimesMonotone(1, n, dev.blockSize);
    TimesIsProduct(n, dev.blockSize);
    DivModUnique(bytes, n, 0, dev.blockSize);
    var fs := [FileExtent(0, 0, bytes)];
    assert !PieceFits(dev, fs[0], 0, bytes);
  }

  lemma Appended(fs: seq<FileExtent>, k: nat, at: nat)
    requires FileOrdered(fs) && k < |fs|
    ensures FileAddress(fs[..k + 1], at) == if fs[k].Covers(at) then Some(fs[k].physical + at - fs[k].logical)
            else FileAddress(fs[..k], at)
  {
    assert fs[..k + 1] == fs[..k] + [fs[k]];
    FileAddressAppend(fs[..k], fs[k], at);
    if fs[k].Covers(at) {
      FileAddressNone(fs[..k], at);
    }
  }

  /** Both readers return the same bytes: what a read by extents and a read through the memory object put
      into their buffers is the same wherever both have bytes of the file. */
  lemma ReadersAgree(es: seq<Extent>, bs: nat, mapped: seq<FileExtent>, disk: seq<Byte>, offset: nat,
                     s: seq<Byte>, t: seq<Byte>, n: nat)
    requires Means(mapped, es, bs) && Holds(s, 0, n, es, bs, disk, offset) && FileHolds(t, n, mapped, disk, offset)
    ensures s[..n] == t[..n]
  {
    forall i | 0 <= i < n ensures s[i] == t[i] {
      assert FileAddress(mapped, offset + i) == Address(es, bs, offset + i);
    }
  }
}

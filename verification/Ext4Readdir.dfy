/** Listing an ext4 directory: records are walked block by block, from the block that holds the cookie. */
module Ext4Readdir {
  import opened Arith
  import opened LittleEndian
  import opened Common
  import Batches

  const CURSOR_BASE := 2

  const SLASH: Byte := 0x2f
  const DOT: Byte := 0x2e
  const DIRECTORY := 2
  const KINDS := 8

  datatype Name = Dot | DotDot | Other(bytes: seq<Byte>)

  /** The kind of a file, as far as a record tells; a record without one leaves it to the inode. */
  datatype Kind = Told(code: nat) | InInode | Unknown

  /** A directory record; `number` 0 marks an unused one, and `sound` a record that passes the checks made on every
      record. */
  datatype Record = Record(number: nat, length: nat, name: Name, sound: bool, kind: Kind) {
    predicate Listed() {
      number != 0 && name.Other?
    }
  }

  function KindOf(b: Byte): Kind {
    if b == 0 then InInode else if b < KINDS then Told(b) else Unknown
  }

  /** The record at byte `p` of a directory's contents, on a volume of so many inodes. */
  function Decode(data: seq<Byte>, inodes: nat, p: nat): Record {
    if p + 8 > |data| then Record(0, 0, Dot, false, Unknown)
    else
      var number, length, n := Le32(data, p), Le16(data, p + 4), data[p + 6] as nat;
      if length < 8 || length % 4 != 0 || p + length > |data| || n > length - 8 then Record(0, 0, Dot, false, Unknown)
      else
        var name := data[p + 8..p + 8 + n];
        var sound := number == 0 || (number <= inodes && n > 0 && SLASH !in name && 0 !in name);
        Record(number, length, if name == [DOT] then Dot else if name == [DOT, DOT] then DotDot else Other(name),
               sound, KindOf(data[p + 7]))
  }

  datatype Entry = Entry(name: Name, number: nat, kind: nat, offset: nat)

  /** `record` gives the record at a byte offset of the directory, and `inode` the kind of an inode that can be
      used. */
  datatype Directory = Directory(size: nat, blockSize: nat, record: nat -> Record, inode: nat -> Option<nat>) {
    /** The kind to be listed for the record at `p`. */
    function Kind(p: nat): Option<nat> {
      match record(p).kind
      case Told(code) => Some(code)
      case InInode => inode(record(p).number)
      case Unknown => None
    }

    /** The end of the block that holds byte `p`, or of the directory. */
    function BlockEnd(p: nat): nat
      requires blockSize > 0
    {
      var end := Times(p / blockSize + 1, blockSize);
      if end < size then end else size
    }

    predicate Fits(p: nat)
      requires blockSize > 0
    {
      && record(p).sound && (record(p).Listed() ==> Kind(p).Some?)
      && 0 < record(p).length && p + record(p).length <= BlockEnd(p)
    }

    /** The offset of record `n`. */
    ghost function Pos(n: nat): nat {
      if n == 0 then 0 else Pos(n - 1) + record(Pos(n - 1)).length
    }

    /** There are `n` records; they are sound and fill every block exactly. */
    ghost predicate WellFormed(n: nat)
      requires blockSize > 0
    {
      Pos(n) == size && forall i :: 0 <= i < n ==> Fits(Pos(i))
    }

    function Visible(p: nat): Entry {
      Entry(record(p).name, record(p).number, if Kind(p).Some? then Kind(p).value else 0,
            p + record(p).length + CURSOR_BASE)
    }

    /** The entries among the first `n` records whose offset is at least `start`. */
    ghost function Entries(start: nat, n: nat): seq<Entry> {
      if n == 0 then []
      else
        var p := Pos(n - 1);
        Entries(start, n - 1) + if start <= p && record(p).Listed() then [Visible(p)] else []
    }
  }

  // ---------------------------------------------------------------- resuming

  lemma {:induction false} NoneBefore(dir: Directory, start: nat, n: nat)
    requires n > 0 ==> dir.Pos(n - 1) < start
    ensures dir.Entries(start, n) == []
  {
    if n > 0 {
      NoneBefore(dir, start, n - 1);
    }
  }

  lemma {:induction false} PosGrows(dir: Directory, m: nat, n: nat)
    requires m <= n
    ensures dir.Pos(m) <= dir.Pos(n)
  {
    if m < n {
      PosGrows(dir, m, n - 1);
    }
  }

  /** Resuming at record `n` returns what a listing from `start` has not passed there. */
  lemma {:induction false} Resume(dir: Directory, start: nat, n: nat, total: nat)
    requires start <= dir.Pos(n) && n <= total && forall i :: 0 <= i < total ==> dir.record(dir.Pos(i)).length > 0
    ensures dir.Entries(start, total) == dir.Entries(start, n) + dir.Entries(dir.Pos(n), total)
  {
    if n == total {
      NoneBefore(dir, dir.Pos(n), n);
    } else {
      Resume(dir, start, n, total - 1);
      PosGrows(dir, n, total - 1);
    }
  }

  /** Records do not cross blocks, so one begins at the start of every block. */
  lemma {:induction false} BlockStart(dir: Directory, total: nat, k: nat, n: nat) returns (m: nat)
    requires dir.blockSize > 0 && dir.WellFormed(total) && n <= total
        && dir.Pos(n) <= Times(k, dir.blockSize) <= dir.size
    ensures m <= total && dir.Pos(m) == Times(k, dir.blockSize)
    decreases total - n
  {
    var p := dir.Pos(n);
    m := n;
    if p < Times(k, dir.blockSize) {
      assert n < total && dir.Fits(p);
      TimesDivision(p, dir.blockSize);
      TimesLess(p / dir.blockSize, k, dir.blockSize);
      TimesMonotone(p / dir.blockSize + 1, k, dir.blockSize);
      m := BlockStart(dir, total, k, n + 1);
    }
  }

  /** The bytes of block `k` that belong to the directory. */
  function BlockLength(dir: Directory, k: nat): nat
    requires Times(k, dir.blockSize) <= dir.size
  {
    if dir.blockSize < dir.size - Times(k, dir.blockSize) then dir.blockSize else dir.size - Times(k, dir.blockSize)
  }

  lemma BlockEndAt(dir: Directory, k: nat, position: nat)
    requires dir.blockSize > 0 && Times(k, dir.blockSize) <= dir.size && position < BlockLength(dir, k)
    ensures dir.BlockEnd(Times(k, dir.blockSize) + position) == Times(k, dir.blockSize) + BlockLength(dir, k)
  {
    TimesIsProduct(k, dir.blockSize);
    DivModUnique(Times(k, dir.blockSize) + position, k, position, dir.blockSize);
  }

  /** Record `m` of a well-formed directory passes the checks of the walk. */
  lemma RecordFits(dir: Directory, k: nat, position: nat, m: nat, total: nat)
    requires dir.blockSize > 0 && dir.WellFormed(total) && Times(k, dir.blockSize) <= dir.size
        && position < BlockLength(dir, k)
    requires dir.Pos(m) == Times(k, dir.blockSize) + position
    ensures m < total
    ensures var r := dir.record(dir.Pos(m));
            && r.sound && (r.Listed() ==> dir.Kind(dir.Pos(m)).Some?)
            && 0 < r.length && position + r.length <= BlockLength(dir, k)
  {
    Before(dir, m, total);
    assert dir.Fits(dir.Pos(m));
    BlockEndAt(dir, k, position);
  }

  lemma Before(dir: Directory, m: nat, n: nat)
    requires dir.Pos(m) < dir.Pos(n)
    ensures m < n
  {
    if n <= m {
      PosGrows(dir, n, m);
    }
  }

  // ---------------------------------------------------------------- damaged directories

  /** A walk that lists from `start` on accepts the record at `p`. */
  predicate Accepted(dir: Directory, start: nat, p: nat)
    requires dir.blockSize > 0
  {
    && dir.record(p).sound && 0 < dir.record(p).length && p + dir.record(p).length <= dir.BlockEnd(p)
    && (start <= p && dir.record(p).Listed() ==> dir.Kind(p).Some?)
  }

  /** Accepted records lead from `p` to `q`. */
  ghost predicate Sound(dir: Directory, start: nat, p: nat, q: nat)
    requires dir.blockSize > 0
    decreases q - p
  {
    p == q || (p < q && Accepted(dir, start, p) && Sound(dir, start, p + dir.record(p).length, q))
  }

  lemma {:induction false} SoundNext(dir: Directory, start: nat, p: nat, q: nat)
    requires dir.blockSize > 0 && Sound(dir, start, p, q) && Accepted(dir, start, q)
    ensures Sound(dir, start, p, q + dir.record(q).length)
    decreases q - p
  {
    if p < q {
      SoundNext(dir, start, p + dir.record(p).length, q);
    }
  }

  /** The records leave no choice, so a record that is not accepted ends the matter. */
  lemma {:induction false} Damaged(dir: Directory, start: nat, p: nat, q: nat, end: nat)
    requires dir.blockSize > 0 && Sound(dir, start, p, q) && q < end && !Accepted(dir, start, q)
    ensures !Sound(dir, start, p, end)
    decreases q - p
  {
    if p < q {
      Damaged(dir, start, p + dir.record(p).length, q, end);
    }
  }

  // ---------------------------------------------------------------- the walk

  /** The walk has passed `n` records: `out` has those it lists, and none of them lies at or after `last`. */
  ghost predicate Passed(dir: Directory, start: nat, n: nat, p: nat, out: seq<Entry>, last: nat) {
    var here, listed, none := p == dir.Pos(n), out == dir.Entries(start, n), dir.Entries(last, n) == [];
    here && listed && none
  }

  ghost function End(out: seq<Entry>, start: nat): int {
    if out == [] then start else out[|out| - 1].offset - CURSOR_BASE
  }

  lemma Advance(dir: Directory, start: nat, m: nat, p: nat, out: seq<Entry>, last: nat)
    requires Passed(dir, start, m, p, out, last) && start <= last && dir.record(p).length > 0
    ensures var q := p + dir.record(p).length;
            if start <= p && dir.record(p).Listed() then Passed(dir, start, m + 1, q, out + [dir.Visible(p)], q)
            else Passed(dir, start, m + 1, q, out, last)
  {
    NoneBefore(dir, p + dir.record(p).length, m + 1);
  }

  /** Looks at the record at `position` of block `k`.  If `known`, the directory has `total` records and `m`
      of them lie before this one. */
  method VisitRecord(dir: Directory, reliable: bool, start: nat, k: nat, position: nat, found: seq<Entry>, from: nat,
                     ghost known: bool, ghost m: nat, ghost total: nat)
    returns (ok: bool, step: nat, out: seq<Entry>, last: nat)
    requires dir.blockSize > 0 && Times(k, dir.blockSize) < dir.size && position < BlockLength(dir, k)
    requires start <= from == End(found, start)
    requires known ==> Passed(dir, start, m, Times(k, dir.blockSize) + position, found, from) && dir.WellFormed(total)
    ensures ok ==> Accepted(dir, start, Times(k, dir.blockSize) + position)
    ensures reliable && Accepted(dir, start, Times(k, dir.blockSize) + position) ==> ok
    ensures ok ==> step == dir.record(Times(k, dir.blockSize) + position).length
    ensures ok ==> 0 < step && position + step <= BlockLength(dir, k)
    ensures start <= last == End(out, start)
        && ((out == found && last == from)
            || (|out| == |found| + 1 && last == Times(k, dir.blockSize) + position + step))
    ensures known && reliable ==> ok
    ensures known && ok ==> Passed(dir, start, m + 1, Times(k, dir.blockSize) + position + step, out, last) && m < total
  {
    var p := Times(k, dir.blockSize) + position;
    var record := dir.record(p);
    ok, step, out, last := true, record.length, found, from;
    BlockEndAt(dir, k, position);
    if known {
      RecordFits(dir, k, position, m, total);
      Advance(dir, start, m, p, out, last);
    }
    if !record.sound || record.length == 0 || position + record.length > BlockLength(dir, k) {
      ok := false;
    } else if start <= p && record.Listed() {
      var fails: bool := *;
      if dir.Kind(p) == None || (record.kind.InInode? && fails && !reliable) { return false, step, found, from; }
      out, last := out + [dir.Visible(p)], p + record.length;
    }
  }

  /** A walk that goes on has accepted the records from `base` to `q`; one that fails cannot have accepted all. */
  ghost predicate Judged(dir: Directory, reliable: bool, start: nat, base: nat, ok: bool, q: nat)
    requires dir.blockSize > 0
  {
    var accepted := Sound(dir, start, base, if ok then q else dir.size);
    if ok then accepted else !reliable || !accepted
  }

  /** Looks at a record after those from `base` on were accepted. */
  method VisitAfter(dir: Directory, reliable: bool, start: nat, k: nat, position: nat, found: seq<Entry>, from: nat,
                    ghost known: bool, ghost m: nat, ghost total: nat, ghost base: nat)
    returns (ok: bool, step: nat, out: seq<Entry>, last: nat)
    requires dir.blockSize > 0 && Times(k, dir.blockSize) < dir.size && position < BlockLength(dir, k)
    requires start <= from == End(found, start) && Sound(dir, start, base, Times(k, dir.blockSize) + position)
    requires known ==> Passed(dir, start, m, Times(k, dir.blockSize) + position, found, from) && dir.WellFormed(total)
    ensures ok ==> 0 < step && position + step <= BlockLength(dir, k)
    ensures start <= last == End(out, start)
        && ((out == found && last == from)
            || (|out| == |found| + 1 && last == Times(k, dir.blockSize) + position + step))
    ensures known && reliable ==> ok
    ensures known && ok ==> Passed(dir, start, m + 1, Times(k, dir.blockSize) + position + step, out, last) && m < total
    ensures Judged(dir, reliable, start, base, ok, Times(k, dir.blockSize) + position + step)
  {
    ghost var q := Times(k, dir.blockSize) + position;
    ok, step, out, last := VisitRecord(dir, reliable, start, k, position, found, from, known, m, total);
    if ok {
      SoundNext(dir, start, base, q);
    } else if reliable {
      Damaged(dir, start, base, q, dir.size);
    }
  }

  /** Walks the records of block `k`; `n` records lie before it, of which those from `base` on were accepted. */
  method VisitBlock(dir: Directory, reliable: bool, start: nat, room: nat, k: nat, length: nat, found: seq<Entry>,
                    from: nat, ghost known: bool, ghost n: nat, ghost total: nat, ghost base: nat)
    returns (ok: bool, out: seq<Entry>, last: nat, ghost m: nat, ghost q: nat)
    requires dir.blockSize > 0 && Times(k, dir.blockSize) < dir.size && length == BlockLength(dir, k) && |found| < room
    requires start <= from == End(found, start) && (found != [] ==> from <= Times(k, dir.blockSize))
    requires Sound(dir, start, base, Times(k, dir.blockSize))
    requires known ==>
              Passed(dir, start, n, Times(k, dir.blockSize), found, from) && dir.WellFormed(total) && n <= total
    ensures |out| <= room && start <= last == End(out, start)
        && (out != [] ==> last <= Times(k, dir.blockSize) + length)
    ensures known && reliable ==> ok
    ensures known && ok ==> Passed(dir, start, m, q, out, last) && m <= total
    ensures ok ==> q == if |out| < room then Times(k, dir.blockSize) + length else last
    ensures Judged(dir, reliable, start, base, ok, q)
  {
    var offset, position := Times(k, dir.blockSize), 0;
    ok, out, last, m, q := true, found, from, n, offset;
    while position < length
      invariant 0 <= position <= length && |out| < room && start <= last == End(out, start)
          && (out != [] ==> last <= offset + position)
      invariant ok && q == offset + position && (known ==> Passed(dir, start, m, q, out, last) && m <= total)
      invariant Judged(dir, reliable, start, base, ok, q)
      decreases length - position
    {
      var step;
      ok, step, out, last := VisitAfter(dir, reliable, start, k, position, out, last, known, m, total, base);
      if !ok { return false, found, from, m, q; }
      position, m, q := position + step, m + 1, q + step;
      if |out| == room { return; }
    }
  }

  /** Resuming at `last` returns exactly what the walk that ended there did not. */
  lemma Split(dir: Directory, start: nat, m: nat, out: seq<Entry>, last: nat, total: nat)
    requires dir.blockSize > 0 && dir.WellFormed(total) && m <= total
    requires Passed(dir, start, m, dir.Pos(m), out, last) && start <= last <= dir.Pos(m)
    ensures out + dir.Entries(last, total) == dir.Entries(start, total)
    ensures dir.Pos(m) == dir.size ==> dir.Entries(last, total) == []
  {
    forall i | 0 <= i < total ensures dir.record(dir.Pos(i)).length > 0 {
      assert dir.Fits(dir.Pos(i));
    }
    Resume(dir, start, m, total);
    Resume(dir, last, m, total);
    if dir.Pos(m) == dir.size {
      assert total > 0 ==> dir.Fits(dir.Pos(total - 1));
      NoneBefore(dir, dir.size, total);
    }
  }

  /** What a directory of `total` records still has to list from `start` on. */
  ghost predicate Continues(dir: Directory, start: nat, room: nat, out: seq<Entry>, last: nat, total: nat) {
    && out + dir.Entries(last, total) == dir.Entries(start, total)
    && |out| <= room && (|out| < room ==> dir.Entries(last, total) == [])
  }

  /** Walks the directory from block `first` on; a read may fail. */
  method VisitBlocks(dir: Directory, reliable: bool, start: nat, room: nat, first: nat, ghost known: bool, ghost n: nat,
                     ghost total: nat)
    returns (ok: bool, out: seq<Entry>, last: nat)
    requires dir.blockSize > 0 && room > 0 && Times(first, dir.blockSize) <= start < dir.size
    requires known ==>
              dir.WellFormed(total) && n <= total && Passed(dir, start, n, Times(first, dir.blockSize), [], start)
    ensures ok && known ==> Continues(dir, start, room, out, last, total)
    ensures known && reliable ==> ok
    ensures ok ==> |out| == room || Sound(dir, start, Times(first, dir.blockSize), dir.size)
    ensures !ok ==> !reliable || !Sound(dir, start, Times(first, dir.blockSize), dir.size)
  {
    ok, out, last := true, [], start;
    ghost var m: nat := n;
    var k, offset: nat := first, Times(first, dir.blockSize);
    while offset < dir.size
      invariant offset <= dir.size && |out| < room && start <= last == End(out, start) && (out != [] ==> last <= offset)
      invariant k >= 0 && (offset < dir.size ==> offset == Times(k, dir.blockSize))
      invariant known ==> Passed(dir, start, m, offset, out, last) && m <= total
      invariant Sound(dir, start, Times(first, dir.blockSize), offset)
      decreases dir.size - offset
    {
      var length := BlockLength(dir, k);
      var fails: bool := *;
      if fails && !reliable { return false, out, last; }
      ghost var q;
      ok, out, last, m, q := VisitBlock(dir, reliable, start, room, k, length, out, last, known, m, total,
        Times(first, dir.blockSize));
      if !ok { return; }
      if |out| == room {
        if known { Split(dir, start, m, out, last, total); }
        return;
      }
      offset, k := offset + length, k + 1;
    }
    if known { Split(dir, start, m, out, last, total); }
  }

  /** The records from the block of `start` on are accepted to the end of the directory. */
  ghost predicate Usable(dir: Directory, start: nat)
    requires dir.blockSize > 0
  {
    start >= dir.size || Sound(dir, start, Times(start / dir.blockSize, dir.blockSize), dir.size)
  }

  /** Walks the directory from the block that holds `start`. */
  method Visit(dir: Directory, reliable: bool, start: nat, room: nat, ghost total: nat)
    returns (ok: bool, out: seq<Entry>, last: nat)
    requires dir.blockSize > 0 && room > 0
    ensures ok && dir.WellFormed(total) ==> Continues(dir, start, room, out, last, total)
    ensures dir.WellFormed(total) && reliable ==> ok
    ensures ok ==> |out| == room || Usable(dir, start)
    ensures !ok ==> !reliable || !Usable(dir, start)
  {
    ghost var known, m: nat := dir.WellFormed(total), 0;
    if start >= dir.size {
      if known {
        FirstBlock(dir, start, total, total);
      }
      return true, [], start;
    }
    var k: nat := start / dir.blockSize;
    TimesDivision(start, dir.blockSize);
    if known {
      m := BlockStart(dir, total, k, 0);
      FirstBlock(dir, start, m, total);
    }
    ok, out, last := VisitBlocks(dir, reliable, start, room, k, known, m, total);
  }

  lemma FirstBlock(dir: Directory, start: nat, m: nat, total: nat)
    requires dir.blockSize > 0 && dir.WellFormed(total) && m <= total && dir.Pos(m) <= start
    ensures dir.Entries(start, m) == []
  {
    if m > 0 {
      assert dir.Fits(dir.Pos(m - 1));
    }
    NoneBefore(dir, start, m);
  }

  // ---------------------------------------------------------------- readdir

  function Dots(self: nat, parent: nat): (Entry, Entry) {
    (Entry(Dot, self, DIRECTORY, 1), Entry(DotDot, parent, DIRECTORY, CURSOR_BASE))
  }

  /** What a listing that resumes at `cursor` still has to return. */
  ghost function Rest(dir: Directory, dots: (Entry, Entry), total: nat, cursor: nat): seq<Entry> {
    if cursor == 0 then [dots.0, dots.1] + dir.Entries(0, total)
    else if cursor == 1 then [dots.1] + dir.Entries(0, total)
    else dir.Entries(cursor - CURSOR_BASE, total)
  }

  /** The call returned the next entries of the listing, and a cookie that leaves exactly the others. */
  ghost predicate Answers(dir: Directory, dots: (Entry, Entry), total: nat, call: Batches.Call<Entry>) {
    Batches.Served(c => Rest(dir, dots, total, c), call)
  }

  /** On a well-formed directory each call returns the next entries of the listing.  A call that comes to the end has
      found no damaged record from the cursor's block on, and on a reliable disk one that fails has. */
  method List(dir: Directory, reliable: bool, self: nat, parent: nat, cursor: nat, maximum: nat, ghost total: nat)
    returns (ok: bool, out: seq<Entry>, next: nat)
    requires dir.blockSize > 0
    ensures ok && dir.WellFormed(total) ==>
              Answers(dir, Dots(self, parent), total, Batches.Call(cursor, maximum, out, next))
    ensures dir.WellFormed(total) && reliable ==> ok
    ensures ok ==> |out| == maximum || Usable(dir, if cursor < CURSOR_BASE then 0 else cursor - CURSOR_BASE)
    ensures !ok ==> !reliable || !Usable(dir, if cursor < CURSOR_BASE then 0 else cursor - CURSOR_BASE)
  {
    ok, out, next := true, [], cursor;
    if maximum == 0 { return; }
    var dots := Dots(self, parent);
    if next == 0 {
      out, next := [dots.0], 1;
    }
    if next == 1 && |out| < maximum {
      out, next := out + [dots.1], CURSOR_BASE;
    }
    assert out + Rest(dir, dots, total, next) == Rest(dir, dots, total, cursor);
    if |out| == maximum { return; }
    ghost var head := out;
    var more, last;
    ok, more, last := Visit(dir, reliable, next - CURSOR_BASE, maximum - |out|, total);
    out, next := out + more, last + CURSOR_BASE;
    assert head + more + dir.Entries(last, total) == head + (more + dir.Entries(last, total));
  }

  /** The directory that a file's bytes hold. */
  function OnDisk(data: seq<Byte>, blockSize: nat, inodes: nat, inode: nat -> Option<nat>): Directory {
    Directory(|data|, blockSize, (p: nat) => Decode(data, inodes, p), inode)
  }

  /** The same for the bytes of a directory file. */
  method Readdir(data: seq<Byte>, reliable: bool, blockSize: nat, inodes: nat, inode: nat -> Option<nat>, self: nat,
                 parent: nat, cursor: nat, maximum: nat, ghost total: nat)
    returns (ok: bool, out: seq<Entry>, next: nat)
    requires blockSize > 0
    ensures var dir := OnDisk(data, blockSize, inodes, inode);
            ok && dir.WellFormed(total) ==>
                Answers(dir, Dots(self, parent), total, Batches.Call(cursor, maximum, out, next))
    ensures var dir := OnDisk(data, blockSize, inodes, inode);
            var start := if cursor < CURSOR_BASE then 0 else cursor - CURSOR_BASE;
            && (dir.WellFormed(total) && reliable ==> ok)
            && (if ok then |out| == maximum || Usable(dir, start) else !reliable || !Usable(dir, start))
  {
    ok, out, next := List(OnDisk(data, blockSize, inodes, inode), reliable, self, parent, cursor, maximum, total);
  }

  /** Batches obtained by resuming from returned cookies, to the end of the directory, make up its listing. */
  lemma BatchesMakeListing(dir: Directory, dots: (Entry, Entry), total: nat, calls: seq<Batches.Call<Entry>>)
    requires |calls| > 0 && calls[0].cursor == 0
    requires forall i :: 0 <= i < |calls| ==> calls[i].maximum > 0 && Answers(dir, dots, total, calls[i])
    requires forall i :: 0 < i < |calls| ==> calls[i].cursor == calls[i - 1].next
    requires |calls[|calls| - 1].out| < calls[|calls| - 1].maximum
    ensures Batches.All(calls) == [dots.0, dots.1] + dir.Entries(0, total)
  {
    var rest := (c: nat) => Rest(dir, dots, total, c);
    forall i | 0 <= i < |calls| ensures Batches.Served(rest, calls[i]) && calls[i].maximum > 0 {
      assert Answers(dir, dots, total, calls[i]);
    }
    Batches.BatchesMakeListing(rest, calls);
  }
}

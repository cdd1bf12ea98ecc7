/** Listing a FAT directory: 32-byte slots in a chain of clusters, with long names spread over the slots
    before the entry they belong to. */
module FatReaddir {
  import opened Common
  import opened Arith
  import opened LittleEndian
  import Batches
  import Fat

  const CURSOR_BASE := 2
  const SLOT := 32
  const MAX_LONG := 20

  datatype Name = Dot | DotDot | Empty | Other(bytes: seq<Byte>)

  /** `End` ends the directory; a `Long` slot is a piece of the name of the short entry that follows. */
  datatype Slot = End | Deleted | Long(part: seq<Byte>) | Label | Short(bytes: seq<Byte>, directory: bool, first: nat)

  function Decode(b: seq<Byte>): Slot
    requires |b| == SLOT
  {
    if b[0] == 0x00 then End
    else if b[0] == 0xe5 then Deleted
    else if b[11] == 0x0f then Long(b)
    else if b[11] / 0x08 % 2 == 1 then Label
    else Short(b, b[11] / 0x10 % 2 == 1, Le16(b, 26) + 0x1_0000 * Le16(b, 20))
  }

  datatype Entry = Entry(name: Name, slot: nat, offset: nat)

  /** Makes a name of the pieces collected before a short entry, or else of the entry itself. */
  type Namer = (seq<seq<Byte>>, seq<Byte>) -> Name

  function Collect(pieces: seq<seq<Byte>>, slot: Slot): seq<seq<Byte>> {
    match slot
    case Long(part) => (if |pieces| == MAX_LONG then [] else pieces) + [part]
    case _ => []
  }

  function Listed(namer: Namer, pieces: seq<seq<Byte>>, slot: Slot, n: nat): Option<Entry> {
    match slot
    case Short(bytes, directory, first) =>
      var name := namer(pieces, bytes);
      if name.Other? && !(directory && first == 0) then Some(Entry(name, n, (n + 1) * SLOT + CURSOR_BASE)) else None
    case _ => None
  }

  /** The slots of a directory in order; the listing ends before slot `total`. */
  datatype Directory = Directory(slot: nat -> Slot, namer: Namer, total: nat) {
    /** The pieces collected before slot `n` by a walk that began at slot `a`. */
    ghost function Pieces(a: nat, n: nat): seq<seq<Byte>> {
      if n <= a then [] else Collect(Pieces(a, n - 1), slot(n - 1))
    }

    /** What a walk from slot `a` lists before slot `n`. */
    ghost function Entries(a: nat, n: nat): seq<Entry> {
      if n <= a then []
      else
        var e := Listed(namer, Pieces(a, n - 1), slot(n - 1), n - 1);
        Entries(a, n - 1) + if e.Some? then [e.value] else []
    }
  }

  // ---------------------------------------------------------------- resuming

  lemma {:induction false} ResumePieces(dir: Directory, a: nat, m: nat, n: nat)
    requires a <= m <= n && dir.Pieces(a, m) == []
    ensures dir.Pieces(m, n) == dir.Pieces(a, n)
  {
    if m < n {
      ResumePieces(dir, a, m, n - 1);
    }
  }

  /** A walk that has collected nothing may as well begin anew. */
  lemma {:induction false} Resume(dir: Directory, a: nat, m: nat, n: nat)
    requires a <= m <= n && dir.Pieces(a, m) == []
    ensures dir.Pieces(m, n) == dir.Pieces(a, n) && dir.Entries(a, n) == dir.Entries(a, m) + dir.Entries(m, n)
  {
    ResumePieces(dir, a, m, n);
    if m == n {
      assert dir.Entries(m, n) == [];
    } else {
      Resume(dir, a, m, n - 1);
      var e := Listed(dir.namer, dir.Pieces(a, n - 1), dir.slot(n - 1), n - 1);
      var more := if e.Some? then [e.value] else [];
      assert dir.Entries(a, n) == dir.Entries(a, n - 1) + more;
      assert dir.Entries(m, n) == dir.Entries(m, n - 1) + more;
    }
  }

  /** The walk from `a` has come to slot `n`: nothing is listed since `last`, where nothing was collected. */
  ghost predicate Passed(dir: Directory, a: nat, n: nat, pieces: seq<seq<Byte>>, out: seq<Entry>, last: nat) {
    var collected, listed := pieces == dir.Pieces(a, n), out == dir.Entries(a, n);
    var clear, none := dir.Pieces(a, last) == [], dir.Entries(last, n) == [];
    a <= last <= n && collected && listed && clear && none
  }

  lemma Advance(dir: Directory, a: nat, n: nat, pieces: seq<seq<Byte>>, out: seq<Entry>, last: nat)
    requires Passed(dir, a, n, pieces, out, last)
    ensures var e, now := Listed(dir.namer, pieces, dir.slot(n), n), Collect(pieces, dir.slot(n));
            if e.Some? then Passed(dir, a, n + 1, now, out + [e.value], n + 1)
            else Passed(dir, a, n + 1, now, out, last)
  {
    Resume(dir, a, last, n);
  }

  /** `out` is the first of what is left from slot `a` on, and resuming at `last` leaves exactly the rest. */
  ghost predicate Continues(dir: Directory, a: nat, room: nat, out: seq<Entry>, last: nat) {
    && a <= last && (a <= dir.total ==> last <= dir.total)
    && out + dir.Entries(last, dir.total) == dir.Entries(a, dir.total)
    && |out| <= room && (|out| < room ==> dir.Entries(last, dir.total) == [])
  }

  lemma Split(dir: Directory, a: nat, n: nat, pieces: seq<seq<Byte>>, out: seq<Entry>, last: nat, room: nat)
    requires Passed(dir, a, n, pieces, out, last) && n <= dir.total && (n == dir.total || |out| == room)
        && |out| <= room
    requires n == last || n == dir.total
    ensures Continues(dir, a, room, out, last)
  {
    Resume(dir, a, last, dir.total);
    Resume(dir, a, last, n);
  }

  // ---------------------------------------------------------------- the chain of clusters

  /** A directory on a volume: its first cluster, which clusters are on the disk, and slot `i` of each of those. */
  datatype Chain = Chain(volume: Fat.Volume, first: nat, perCluster: nat, stored: nat -> bool,
                         read: (nat, nat) -> Slot)
  {
    /** The chain has `clusters` clusters and then ends. */
    ghost predicate Ends(clusters: nat) {
      && clusters > 0 && perCluster > 0
      && (forall k :: 0 <= k < clusters ==> volume.Walk(first, k).Some?)
      && volume.Next(volume.Walk(first, clusters - 1).value) == Ok(None)
    }
  }

  /** The listing ends at the first end slot, or with the last of `limit` slots. */
  ghost predicate Bounded(dir: Directory, limit: nat) {
    && dir.total <= limit && (forall i :: 0 <= i < dir.total ==> !dir.slot(i).End?)
    && (dir.total < limit ==> dir.slot(dir.total).End?)
  }

  /** The slots of cluster `c` are those of the directory from slot `base` on. */
  ghost predicate InCluster(chain: Chain, c: nat, base: nat, dir: Directory) {
    forall i :: 0 <= i < chain.perCluster ==> chain.read(c, i) == dir.slot(base + i)
  }

  /** From cluster `j` on the chain holds the directory's slots, and ends after `clusters` clusters. */
  ghost predicate Linked(chain: Chain, dir: Directory, j: nat, clusters: nat)
    decreases clusters - j
  {
    && j < clusters && chain.volume.Walk(chain.first, j).Some?
    && var c := chain.volume.Walk(chain.first, j).value;
    && chain.stored(c) && InCluster(chain, c, Times(j, chain.perCluster), dir)
    && if j + 1 == clusters then chain.volume.Next(c) == Ok(None) else Linked(chain, dir, j + 1, clusters)
  }

  /** The chain ends after `clusters` clusters, and their slots in order are the directory's. */
  ghost predicate Holds(chain: Chain, dir: Directory, clusters: nat) {
    chain.perCluster > 0 && Linked(chain, dir, 0, clusters) && Bounded(dir, Times(clusters, chain.perCluster))
  }

  lemma {:induction false} LinkedFrom(chain: Chain, dir: Directory, j: nat, clusters: nat, k: nat)
    requires Linked(chain, dir, j, clusters) && j <= k < clusters
    ensures Linked(chain, dir, k, clusters)
    decreases k - j
  {
    if j < k {
      LinkedFrom(chain, dir, j + 1, clusters, k);
    }
  }

  lemma LinkedEnds(chain: Chain, dir: Directory, clusters: nat)
    requires Holds(chain, dir, clusters)
    ensures chain.Ends(clusters)
  {
    forall k | 0 <= k < clusters ensures chain.volume.Walk(chain.first, k).Some? {
      LinkedFrom(chain, dir, 0, clusters, k);
    }
    LinkedFrom(chain, dir, 0, clusters, clusters - 1);
  }

  /** A chain that ends has no cluster twice: two equal clusters would be followed by the same ones. */
  lemma {:induction false} SameAfter(v: Fat.Volume, first: nat, i: nat, j: nat, k: nat)
    requires v.Walk(first, i) == v.Walk(first, j)
    ensures v.Walk(first, i + k) == v.Walk(first, j + k)
  {
    if k > 0 {
      SameAfter(v, first, i, j, k - 1);
    }
  }

  lemma Distinct(chain: Chain, clusters: nat, i: nat, j: nat)
    requires chain.Ends(clusters) && i < j < clusters
    ensures chain.volume.Walk(chain.first, i) != chain.volume.Walk(chain.first, j)
  {
    var v, f, k := chain.volume, chain.first, clusters - 1 - j;
    assert v.Walk(f, i + k + 1).Some?;
    if v.Walk(f, i) == v.Walk(f, j) {
      SameAfter(v, f, i, j, k);
    }
  }

  ghost function Clusters(chain: Chain, n: nat): set<int>
    requires forall k :: 0 <= k < n ==> chain.volume.Walk(chain.first, k).Some?
  {
    if n == 0 then {} else Clusters(chain, n - 1) + {chain.volume.Walk(chain.first, n - 1).value - 2}
  }

  lemma {:induction false} NotAmong(chain: Chain, clusters: nat, m: nat, n: nat)
    requires chain.Ends(clusters) && m <= n < clusters
    ensures chain.volume.Walk(chain.first, n).value - 2 !in Clusters(chain, m)
  {
    if m > 0 {
      NotAmong(chain, clusters, m - 1, n);
      Distinct(chain, clusters, m - 1, n);
    }
  }

  lemma {:induction false} ClustersCount(chain: Chain, clusters: nat, n: nat)
    requires chain.Ends(clusters) && n <= clusters
    ensures |Clusters(chain, n)| == n
    ensures forall c :: c in Clusters(chain, n) ==> 0 <= c < chain.volume.clusterCount
  {
    if n > 0 {
      ClustersCount(chain, clusters, n - 1);
      WalkIsValid(chain.volume, chain.first, n - 1);
      NotAmong(chain, clusters, n - 1, n - 1);
    }
  }

  lemma WalkIsValid(v: Fat.Volume, first: nat, k: nat)
    requires v.Walk(first, k).Some?
    ensures v.ValidCluster(v.Walk(first, k).value)
  {
  }

  /** So it has no more clusters than the volume. */
  lemma ChainFits(chain: Chain, clusters: nat)
    requires chain.Ends(clusters)
    ensures clusters <= chain.volume.clusterCount
  {
    ClustersCount(chain, clusters, clusters);
    SubsetSize(Clusters(chain, clusters), Below(chain.volume.clusterCount));
  }

  // ---------------------------------------------------------------- the walk

  /** Looks at slot `n`; `done` when the listing need not go on.  If `known`, the walk is one of `dir`. */
  method VisitSlot(slot: Slot, namer: Namer, room: nat, n: nat, collected: seq<seq<Byte>>, found: seq<Entry>, from: nat,
                   ghost dir: Directory, ghost a: nat, ghost known: bool)
    returns (done: bool, pieces: seq<seq<Byte>>, out: seq<Entry>, last: nat)
    requires |found| < room
    requires known ==> && Passed(dir, a, n, collected, found, from) && n <= dir.total
                       && slot == dir.slot(n) && namer == dir.namer && (slot.End? <==> n == dir.total)
    ensures known && done ==> Continues(dir, a, room, out, last)
    ensures !done ==> |out| < room && (known ==> n + 1 <= dir.total && Passed(dir, a, n + 1, pieces, out, last))
  {
    pieces, out, last, done := collected, found, from, true;
    if slot.End? {
      if known { Split(dir, a, n, pieces, out, last, room); }
      return;
    }
    if known { Advance(dir, a, n, pieces, out, last); }
    var e := Listed(namer, pieces, slot, n);
    pieces := Collect(pieces, slot);
    if e.Some? {
      out, last := out + [e.value], n + 1;
      if |out| == room {
        if known { Split(dir, a, n + 1, pieces, out, last, room); }
        return;
      }
    }
    done := false;
  }

  /** Walks cluster `c`, whose slots are the directory's from `base` on, from slot `within` of it. */
  method VisitCluster(chain: Chain, namer: Namer, c: nat, base: nat, room: nat, within: nat, collected: seq<seq<Byte>>,
                      found: seq<Entry>, from: nat, ghost dir: Directory, ghost limit: nat, ghost a: nat,
                          ghost known: bool)
    returns (done: bool, pieces: seq<seq<Byte>>, out: seq<Entry>, last: nat)
    requires within <= chain.perCluster && |found| < room
    requires known ==> && InCluster(chain, c, base, dir) && Bounded(dir, limit) && base + chain.perCluster <= limit
                       && namer == dir.namer && base + within <= dir.total
                       && Passed(dir, a, base + within, collected, found, from)
    ensures known && done ==> Continues(dir, a, room, out, last)
    ensures !done ==> |out| < room && (known ==> base + chain.perCluster <= dir.total)
    ensures known && !done ==> Passed(dir, a, base + chain.perCluster, pieces, out, last)
  {
    pieces, out, last, done := collected, found, from, false;
    for index := within to chain.perCluster
      invariant |out| < room && (known ==> base + index <= dir.total && Passed(dir, a, base + index, pieces, out, last))
    {
      var slot := chain.read(c, index);
      done, pieces, out, last := VisitSlot(slot, namer, room, base + index, pieces, out, last, dir, a, known);
      if done { return; }
    }
    done := false;
  }

  /** The step along the chain; a read of the table may fail. */
  method NextCluster(chain: Chain, reliable: bool, c: nat, ghost j: nat) returns (r: Result<Option<nat>, Fat.Error>)
    requires chain.volume.Walk(chain.first, j) == Some(c)
    ensures r.Ok? || reliable ==> r == chain.volume.Next(c)
    ensures r.Ok? && r.value.Some? ==> chain.volume.Walk(chain.first, j + 1) == r.value
  {
    var fails: bool := *;
    if fails && !reliable { return Err(Fat.Io); }
    r := chain.volume.Next(c);
  }

  /** In a chain that ends, only the last cluster has no next one. */
  lemma OnlyLastEnds(chain: Chain, clusters: nat, j: nat)
    requires chain.Ends(clusters) && j < clusters
    ensures var next := chain.volume.Next(chain.volume.Walk(chain.first, j).value);
            next.Ok? && (next.value.Some? <==> j + 1 < clusters)
  {
    assert j + 1 < clusters ==> chain.volume.Walk(chain.first, j + 1).Some?;
  }

  /** Follows the chain to cluster `skip`, or to its end if that comes first. */
  method Seek(chain: Chain, reliable: bool, skip: nat, ghost clusters: nat) returns (ok: bool, c: Option<nat>)
    ensures ok && c.Some? ==> chain.volume.Walk(chain.first, skip) == c && (chain.Ends(clusters) ==> skip < clusters)
    ensures ok && c == None && chain.Ends(clusters) ==> clusters <= skip
    ensures reliable && chain.Ends(clusters) ==> ok
  {
    assert chain.Ends(clusters) ==> chain.volume.Walk(chain.first, 0).Some?;
    if !chain.volume.ValidCluster(chain.first) { return false, None; }
    var cluster := chain.first;
    for j := 0 to skip
      invariant chain.volume.Walk(chain.first, j) == Some(cluster) && (chain.Ends(clusters) ==> j < clusters)
    {
      if chain.Ends(clusters) { OnlyLastEnds(chain, clusters, j); }
      var next := NextCluster(chain, reliable, cluster, j);
      if next.Err? { return false, None; }
      if next.value == None { return true, None; }
      cluster := next.value.value;
    }
    return true, Some(cluster);
  }

  lemma NothingLeft(chain: Chain, dir: Directory, clusters: nat, skip: nat, a: nat, room: nat)
    requires Holds(chain, dir, clusters) && clusters <= skip && Times(skip, chain.perCluster) <= a && room > 0
    ensures Continues(dir, a, room, [], a)
  {
    TimesMonotone(clusters, skip, chain.perCluster);
  }

  /** Walks the directory from slot `a` on, after following the chain to its cluster; a read may fail. */
  method Visit(chain: Chain, reliable: bool, namer: Namer, a: nat, room: nat, ghost dir: Directory, ghost clusters: nat)
    returns (ok: bool, out: seq<Entry>, last: nat)
    requires room > 0 && chain.perCluster > 0
    ensures a <= dir.total && namer == dir.namer && Holds(chain, dir, clusters) ==>
              if ok then Continues(dir, a, room, out, last) else !reliable
  {
    var skip := a / chain.perCluster;
    TimesDivision(a, chain.perCluster);
    ghost var known := a <= dir.total && namer == dir.namer && Holds(chain, dir, clusters);
    if known {
      LinkedEnds(chain, dir, clusters);
      ChainFits(chain, clusters);
    }
    if skip >= chain.volume.clusterCount {
      if known { NothingLeft(chain, dir, clusters, skip, a, room); }
      return true, [], a;
    }
    var c;
    ok, c := Seek(chain, reliable, skip, clusters);
    if !ok || c == None {
      if ok && known { NothingLeft(chain, dir, clusters, skip, a, room); }
      return ok, [], a;
    }
    if known { LinkedFrom(chain, dir, 0, clusters, skip); }
    ok, out, last :=
      VisitFrom(chain, reliable, namer, c.value, skip, a % chain.perCluster, a, room, dir, clusters, known);
  }

  /** Walks the chain from cluster `first`, which is its cluster `skip`. */
  method VisitFrom(chain: Chain, reliable: bool, namer: Namer, first: nat, skip: nat, start: nat, ghost a: nat,
                   room: nat, ghost dir: Directory, ghost clusters: nat, ghost known: bool)
    returns (ok: bool, out: seq<Entry>, last: nat)
    requires room > 0 && start < chain.perCluster && chain.volume.Walk(chain.first, skip) == Some(first)
    requires a == Times(skip, chain.perCluster) + start
    requires known ==> && Linked(chain, dir, skip, clusters) && Bounded(dir, Times(clusters, chain.perCluster))
                       && namer == dir.namer && a <= dir.total && clusters <= chain.volume.clusterCount
    ensures known ==> if ok then Continues(dir, a, room, out, last) else !reliable
  {
    ok, out, last := true, [], Times(skip, chain.perCluster) + start;
    var j, c, within, pieces: seq<seq<Byte>>, done := skip, first, start, [], false;
    while j < chain.volume.clusterCount
      invariant chain.volume.Walk(chain.first, j) == Some(c) && 0 <= within <= chain.perCluster && |out| < room
      invariant known ==> Linked(chain, dir, j, clusters) && Reached(chain, dir, a, j, within, pieces, out, last)
      decreases chain.volume.clusterCount - j
    {
      ok, done, c, pieces, out, last :=
        VisitNext(chain, reliable, namer, c, j, within, room, pieces, out, last, dir, clusters, a, known);
      if !ok || done { return; }
      j, within := j + 1, 0;
    }
    ok := false;
  }

  /** The walk has come to slot `within` of cluster `j`. */
  ghost predicate Reached(chain: Chain, dir: Directory, a: nat, j: nat, within: nat, pieces: seq<seq<Byte>>,
                          out: seq<Entry>, last: nat) {
    var n := Times(j, chain.perCluster) + within;
    n <= dir.total && Passed(dir, a, n, pieces, out, last)
  }

  /** Walks cluster `j`, if it can be read. */
  method VisitThis(chain: Chain, reliable: bool, namer: Namer, c: nat, j: nat, within: nat, room: nat,
                   collected: seq<seq<Byte>>, found: seq<Entry>, from: nat, ghost dir: Directory, ghost clusters: nat,
                   ghost a: nat, ghost known: bool)
    returns (ok: bool, done: bool, pieces: seq<seq<Byte>>, out: seq<Entry>, last: nat)
    requires within <= chain.perCluster && |found| < room && chain.volume.Walk(chain.first, j) == Some(c)
    requires known ==> && Linked(chain, dir, j, clusters) && Bounded(dir, Times(clusters, chain.perCluster))
                       && namer == dir.namer && Reached(chain, dir, a, j, within, collected, found, from)
    ensures ok && done && known ==> Continues(dir, a, room, out, last)
    ensures ok ==> chain.stored(c)
    ensures known && reliable ==> ok
    ensures ok && !done ==> |out| < room && (known ==> Reached(chain, dir, a, j + 1, 0, pieces, out, last))
  {
    var fails: bool := *;
    if !chain.stored(c) || (fails && !reliable) { return false, false, collected, found, from; }
    ghost var limit := Times(clusters, chain.perCluster);
    if known { TimesMonotone(j + 1, clusters, chain.perCluster); }
    done, pieces, out, last :=
      VisitCluster(chain, namer, c, Times(j, chain.perCluster), room, within, collected, found, from, dir, limit, a,
          known);
    ok := true;
  }

  /** After the last cluster of the chain the walk has come to the end of the directory. */
  lemma LastCluster(chain: Chain, dir: Directory, clusters: nat, j: nat)
    requires Linked(chain, dir, j, clusters) && chain.volume.Next(chain.volume.Walk(chain.first, j).value) == Ok(None)
    ensures j + 1 == clusters
  {
  }

  /** Walks one cluster and looks for the next. */
  method VisitNext(chain: Chain, reliable: bool, namer: Namer, c: nat, j: nat, within: nat, room: nat,
                   collected: seq<seq<Byte>>, found: seq<Entry>, from: nat, ghost dir: Directory, ghost clusters: nat,
                   ghost a: nat, ghost known: bool)
    returns (ok: bool, done: bool, next: nat, pieces: seq<seq<Byte>>, out: seq<Entry>, last: nat)
    requires within <= chain.perCluster && |found| < room && chain.volume.Walk(chain.first, j) == Some(c)
    requires known ==> && Linked(chain, dir, j, clusters) && Bounded(dir, Times(clusters, chain.perCluster))
                       && namer == dir.namer && Reached(chain, dir, a, j, within, collected, found, from)
    ensures ok && done && known ==> Continues(dir, a, room, out, last)
    ensures ok ==> chain.stored(c)
    ensures known && reliable ==> ok
    ensures ok && !done ==> chain.volume.Walk(chain.first, j + 1) == Some(next) && |out| < room
    ensures ok && !done && known ==>
              Linked(chain, dir, j + 1, clusters) && Reached(chain, dir, a, j + 1, 0, pieces, out, last)
  {
    next := c;
    ok, done, pieces, out, last :=
      VisitThis(chain, reliable, namer, c, j, within, room, collected, found, from, dir, clusters, a, known);
    if !ok || done { return; }
    var step := NextCluster(chain, reliable, c, j);
    if step.Err? { return false, false, c, pieces, out, last; }
    if step.value == None {
      if known {
        LastCluster(chain, dir, clusters, j);
        Split(dir, a, dir.total, pieces, out, last, room);
      }
      done := true;
    } else {
      next := step.value.value;
    }
  }

  // ---------------------------------------------------------------- readdir

  function Dots(self: nat, parent: nat): (Entry, Entry) {
    (Entry(Dot, self, 1), Entry(DotDot, parent, CURSOR_BASE))
  }

  /** What a listing that resumes at `cursor` still has to return. */
  ghost function Rest(dir: Directory, dots: (Entry, Entry), cursor: nat): seq<Entry> {
    if cursor == 0 then [dots.0, dots.1] + dir.Entries(0, dir.total)
    else if cursor == 1 then [dots.1] + dir.Entries(0, dir.total)
    else dir.Entries((cursor - CURSOR_BASE) / SLOT, dir.total)
  }

  /** A call with a cursor within the directory returns the next entries of the listing, and a cookie within the
      directory that leaves exactly the others. */
  ghost predicate Answers(dir: Directory, dots: (Entry, Entry), call: Batches.Call<Entry>) {
    call.cursor <= dir.total * SLOT + CURSOR_BASE ==>
      Batches.Served(c => Rest(dir, dots, c), call) && call.next <= dir.total * SLOT + CURSOR_BASE
  }

  lemma RestAtSlot(dir: Directory, dots: (Entry, Entry), a: nat)
    ensures Rest(dir, dots, a * SLOT + CURSOR_BASE) == dir.Entries(a, dir.total)
  {
    assert (a * SLOT + CURSOR_BASE - CURSOR_BASE) / SLOT == a;
  }

  /** The entries for the directory itself and its parent come first. */
  method ListDots(dots: (Entry, Entry), cursor: nat, maximum: nat, ghost dir: Directory)
    returns (out: seq<Entry>, next: nat)
    requires maximum > 0
    ensures out + Rest(dir, dots, next) == Rest(dir, dots, cursor) && |out| <= maximum
    ensures |out| < maximum ==> next >= CURSOR_BASE
    ensures if cursor < CURSOR_BASE then next <= CURSOR_BASE else next == cursor && out == []
  {
    out, next := [], cursor;
    if next == 0 {
      out, next := [dots.0], 1;
    }
    if next == 1 && |out| < maximum {
      out, next := out + [dots.1], CURSOR_BASE;
    }
  }

  predicate Boundary(cursor: nat) {
    cursor < CURSOR_BASE || (cursor - CURSOR_BASE) % SLOT == 0
  }

  /** Lists the slots from `next` on, after the entries in `head`.  If `known`, the chain holds `dir`. */
  method ListSlots(chain: Chain, reliable: bool, namer: Namer, head: seq<Entry>, next: nat, maximum: nat,
                   ghost dots: (Entry, Entry), ghost cursor: nat, ghost dir: Directory, ghost clusters: nat,
                   ghost known: bool)
    returns (ok: bool, out: seq<Entry>, last: nat)
    requires chain.perCluster > 0 && |head| < maximum && CURSOR_BASE <= next && Boundary(next)
    requires known ==> && namer == dir.namer && Holds(chain, dir, clusters) && next <= dir.total * SLOT + CURSOR_BASE
                       && head + Rest(dir, dots, next) == Rest(dir, dots, cursor)
    ensures known ==> if ok then Answers(dir, dots, Batches.Call(cursor, maximum, out, last)) else !reliable
  {
    var a := (next - CURSOR_BASE) / SLOT;
    assert next == a * SLOT + CURSOR_BASE;
    var more;
    ok, more, last := Visit(chain, reliable, namer, a, maximum - |head|, dir, clusters);
    if known && ok {
      Joined(dir, dots, cursor, maximum, head, a, more, last);
    }
    out, last := head + more, last * SLOT + CURSOR_BASE;
  }

  /** Each call returns the next entries of the listing; a cursor that is no slot boundary is refused. */
  method List(chain: Chain, reliable: bool, namer: Namer, self: nat, parent: nat, cursor: nat, maximum: nat,
              ghost dir: Directory, ghost clusters: nat)
    returns (ok: bool, out: seq<Entry>, next: nat)
    requires chain.perCluster > 0
    ensures ok && namer == dir.namer && Holds(chain, dir, clusters) ==>
              Answers(dir, Dots(self, parent), Batches.Call(cursor, maximum, out, next))
    ensures reliable && namer == dir.namer && Holds(chain, dir, clusters)
              && cursor <= dir.total * SLOT + CURSOR_BASE ==>
              (ok <==> maximum == 0 || Boundary(cursor))
  {
    if maximum == 0 { return true, [], cursor; }
    out, next := ListDots(Dots(self, parent), cursor, maximum, dir);
    if |out| == maximum { return true, out, next; }
    if !Boundary(next) { return false, out, next; }
    ghost var known := namer == dir.namer && Holds(chain, dir, clusters) && cursor <= dir.total * SLOT + CURSOR_BASE;
    ok, out, next :=
      ListSlots(chain, reliable, namer, out, next, maximum, Dots(self, parent), cursor, dir, clusters, known);
  }

  lemma Joined(dir: Directory, dots: (Entry, Entry), cursor: nat, maximum: nat, head: seq<Entry>, a: nat,
               more: seq<Entry>, last: nat)
    requires head + Rest(dir, dots, a * SLOT + CURSOR_BASE) == Rest(dir, dots, cursor) && |head| < maximum
    requires Continues(dir, a, maximum - |head|, more, last) && a <= dir.total
    ensures Answers(dir, dots, Batches.Call(cursor, maximum, head + more, last * SLOT + CURSOR_BASE))
  {
    RestAtSlot(dir, dots, a);
    RestAtSlot(dir, dots, last);
    assert head + more + dir.Entries(last, dir.total) == head + (more + dir.Entries(last, dir.total));
  }

  /** The slots in the clusters of a volume on a disk. */
  function OnDisk(disk: seq<Byte>, volume: Fat.Volume, first: nat): Chain {
    Chain(volume, first, volume.bytesPerCluster / SLOT,
          (c: nat) =>
            var at := volume.ClusterOffset(c);
            at.Some? && at.value + volume.bytesPerCluster <= |disk|,
          (c: nat, i: nat) =>
            var at := volume.ClusterOffset(c);
            if at.Some? && at.value + i * SLOT + SLOT <= |disk|
            then Decode(disk[at.value + i * SLOT..at.value + i * SLOT + SLOT]) else End)
  }

  method Readdir(disk: seq<Byte>, reliable: bool, volume: Fat.Volume, first: nat, namer: Namer, self: nat, parent: nat,
                 cursor: nat, maximum: nat, ghost dir: Directory, ghost clusters: nat)
    returns (ok: bool, out: seq<Entry>, next: nat)
    requires volume.bytesPerCluster >= SLOT
    ensures ok && namer == dir.namer && Holds(OnDisk(disk, volume, first), dir, clusters) ==>
              Answers(dir, Dots(self, parent), Batches.Call(cursor, maximum, out, next))
    ensures reliable && namer == dir.namer && Holds(OnDisk(disk, volume, first), dir, clusters)
              && cursor <= dir.total * SLOT + CURSOR_BASE ==>
              (ok <==> maximum == 0 || Boundary(cursor))
  {
    ok, out, next := List(OnDisk(disk, volume, first), reliable, namer, self, parent, cursor, maximum, dir, clusters);
  }

  /** Batches obtained by resuming from returned cookies, to the end of the directory, make up its listing. */
  lemma BatchesMakeListing(dir: Directory, dots: (Entry, Entry), calls: seq<Batches.Call<Entry>>)
    requires |calls| > 0 && calls[0].cursor == 0
    requires forall i :: 0 <= i < |calls| ==> calls[i].maximum > 0 && Answers(dir, dots, calls[i])
    requires forall i :: 0 < i < |calls| ==> calls[i].cursor == calls[i - 1].next
    requires |calls[|calls| - 1].out| < calls[|calls| - 1].maximum
    ensures Batches.All(calls) == [dots.0, dots.1] + dir.Entries(0, dir.total)
  {
    var rest := (c: nat) => Rest(dir, dots, c);
    forall i | 0 <= i < |calls| ensures Batches.Served(rest, calls[i]) && calls[i].maximum > 0 {
      CursorsStay(dir, dots, calls, i);
      assert Answers(dir, dots, calls[i]);
    }
    Batches.BatchesMakeListing(rest, calls);
  }

  lemma {:induction false} CursorsStay(dir: Directory, dots: (Entry, Entry), calls: seq<Batches.Call<Entry>>, i: nat)
    requires i < |calls| && calls[0].cursor == 0
    requires forall i :: 0 <= i < |calls| ==> Answers(dir, dots, calls[i])
    requires forall i :: 0 < i < |calls| ==> calls[i].cursor == calls[i - 1].next
    ensures calls[i].cursor <= dir.total * SLOT + CURSOR_BASE
  {
    if i > 0 {
      CursorsStay(dir, dots, calls, i - 1);
      assert Answers(dir, dots, calls[i - 1]) && calls[i].cursor == calls[i - 1].next;
    }
  }
}

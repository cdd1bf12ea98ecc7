/** Partition discovery: MBR with extended partitions, GPT, and the final check of all ranges. */
module Partitions {
  import opened Common
  import opened Arith
  import opened LittleEndian
  import opened Sorting
  import Block

  const MAX_EBR_LINKS := 128
  const MAX_GPT_ENTRIES := 4096
  const MAX_GPT_BYTES := 0x100_0000

  datatype Error = InvalidArgument | NotFound | Io

  datatype Partition = Partition(number: nat, first: nat, blocks: nat) {
    predicate Before(p: Partition) {
      first + blocks <= p.first
    }

    predicate Disjoint(p: Partition) {
      Before(p) || p.Before(this)
    }

    predicate InBounds(disk: nat) {
      0 < first && 0 < blocks && first + blocks <= disk && first + blocks <= U64_MAX
    }
  }

  // ---------------------------------------------------------------- the final check

  /** Every range lies on the disk, and two different ones never overlap. */
  ghost predicate Sound(ps: multiset<Partition>, disk: nat) {
    && (forall p :: p in ps ==> p.InBounds(disk) && ps[p] == 1)
    && (forall p, q :: p in ps && q in ps && p != q ==> p.Disjoint(q))
  }

  lemma {:induction false} CountedOnce(s: seq<Partition>, p: Partition)
    requires forall j, k :: 0 <= j < k < |s| ==> s[j] != s[k]
    ensures multiset(s)[p] <= 1
  {
    if s != [] {
      var last := |s| - 1;
      assert s == s[..last] + [s[last]];
      CountedOnce(s[..last], p);
      assert p == s[last] ==> p !in s[..last];
    }
  }

  lemma CountedTwice(s: seq<Partition>, i: nat)
    requires 0 < i < |s| && s[i] == s[i - 1]
    ensures multiset(s)[s[i]] >= 2
  {
    assert s == s[..i - 1] + [s[i - 1], s[i]] + s[i + 1..];
  }

  lemma OrderedIsSound(s: seq<Partition>, disk: nat)
    requires forall j :: 0 <= j < |s| ==> s[j].InBounds(disk)
    requires forall j, k :: 0 <= j < k < |s| ==> s[j].Before(s[k])
    ensures Sound(multiset(s), disk)
  {
    assert forall j, k :: 0 <= j < k < |s| ==> s[j].Before(s[k]) && s[j] != s[k];
    forall p | p in multiset(s) ensures p.InBounds(disk) && multiset(s)[p] == 1 {
      CountedOnce(s, p);
      assert p in s;
    }
    forall p, q | p in multiset(s) && q in multiset(s) && p != q ensures p.Disjoint(q) {
      assert p in s && q in s;
    }
  }

  lemma Unsound(s: seq<Partition>, disk: nat, i: nat)
    requires i < |s|
        && (s[i].InBounds(disk) ==>
              i > 0 && s[i - 1].first <= s[i].first && !s[i - 1].Before(s[i]) && s[i - 1].blocks > 0)
    ensures !Sound(multiset(s), disk)
  {
    assert s[i] in multiset(s);
    if s[i].InBounds(disk) {
      assert s[i - 1] in multiset(s);
      if s[i] == s[i - 1] {
        CountedTwice(s, i);
      } else {
        assert !s[i - 1].Disjoint(s[i]);
      }
    }
  }

  /** The ranges are sound exactly when they are in bounds and ordered by their starts none begins before
      the end of the one before it. */
  method ValidateRanges(ps: seq<Partition>, disk: nat) returns (r: Result<seq<Partition>, Error>)
    requires disk <= U64_MAX
    ensures r.Ok? <==> Sound(multiset(ps), disk)
    ensures r.Ok? ==> multiset(r.value) == multiset(ps) && SortedBy((p: Partition) => p.number, r.value)
    ensures r.Err? ==> r.error == InvalidArgument
  {
    var sorted := Sort((p: Partition) => p.first, ps);
    var end := 0;
    for i := 0 to |sorted|
      invariant forall j :: 0 <= j < i ==> sorted[j].InBounds(disk) && sorted[j].first + sorted[j].blocks <= end
      invariant if i == 0 then end == 0 else end == sorted[i - 1].first + sorted[i - 1].blocks
      invariant forall j, k :: 0 <= j < k < i ==> sorted[j].Before(sorted[k])
    {
      var p := sorted[i];
      if p.first + p.blocks > U64_MAX || p.blocks == 0 || p.first == 0 || p.first >= disk
          || p.first + p.blocks > disk || p.first < end {
        Unsound(sorted, disk, i);
        return Err(InvalidArgument);
      }
      end := p.first + p.blocks;
    }
    OrderedIsSound(sorted, disk);
    var out := Sort((p: Partition) => p.number, sorted);
    r := Ok(out);
  }

  // ---------------------------------------------------------------- on-disk tables

  /** A disk of `count` blocks of `blockSize` bytes; a read of `n` blocks may fail. */
  datatype Device = Device(blockSize: nat, count: nat, read: (nat, nat) -> Option<seq<Byte>>) {
    ghost predicate Valid() {
      && 512 <= blockSize && count <= U64_MAX
      && forall lba: nat, n: nat :: read(lba, n).Some? ==> |read(lba, n).value| == n * blockSize
    }
  }

  predicate IsExtended(kind: Byte) {
    kind == 0x05 || kind == 0x0f || kind == 0x85
  }

  predicate Signed(sector: seq<Byte>)
    requires |sector| >= 512
  {
    sector[510] == 0x55 && sector[511] == 0xaa
  }

  /** The partitions lie within `lo..hi` and carry consecutive numbers from `number` on. */
  ghost predicate Logical(ps: seq<Partition>, number: nat, lo: nat, hi: nat) {
    forall i :: 0 <= i < |ps| ==>
        ps[i].number == number + i && lo <= ps[i].first && ps[i].first + ps[i].blocks <= hi && ps[i].blocks > 0
  }

  /** The block at `lba`, if it can be read. */
  function Sector(dev: Device, lba: nat): (r: Option<seq<Byte>>)
    ensures r.Some? ==> |r.value| >= 512
  {
    var block := dev.read(lba, 1);
    if block.Some? && |block.value| >= 512 then block else None
  }

  function FaultOf(dev: Device, lba: nat): Option<Error> {
    var s := Sector(dev, lba);
    if s == None then Some(Io) else if !Signed(s.value) then Some(InvalidArgument) else None
  }

  /** Where the boot record at `lba` says the next one is, from the start of the container. */
  function LinkOf(dev: Device, lba: nat): Option<nat> {
    var s := Sector(dev, lba);
    if s.Some? && IsExtended(s.value[466]) && Le32(s.value, 474) != 0 then Some(Le32(s.value, 470)) else None
  }

  datatype Range = Range(first: nat, blocks: nat)

  /** Where the boot record at `lba` says its partition is, if it has one. */
  function RangeOf(dev: Device, lba: nat): (r: Option<Range>)
    ensures r.Some? ==> lba <= r.value.first && r.value.blocks > 0
  {
    var s := Sector(dev, lba);
    if s.Some? && s.value[450] != 0 && Le32(s.value, 458) != 0 && !IsExtended(s.value[450])
    then Some(Range(lba + Le32(s.value, 454), Le32(s.value, 458))) else None
  }

  /** The boot records in the container `base..end`: `fault` says why one cannot be used, `link` leads from each to
      the next, and `range` says where the partition of one is. */
  datatype Ebrs = Ebrs(base: nat, end: nat, fault: nat -> Option<Error>, link: nat -> Option<nat>,
                       range: nat -> Option<Range>)
  {
    ghost predicate Valid() {
      && base <= end <= U64_MAX && (forall lba: nat :: fault(lba) != Some(NotFound))
      && forall lba: nat :: range(lba).Some? ==> lba <= range(lba).value.first && range(lba).value.blocks > 0
    }

    /** The boot record can be used, and its partition lies in the container. */
    predicate Usable(lba: nat) {
      fault(lba) == None && (range(lba).Some? ==> range(lba).value.first + range(lba).value.blocks <= end)
    }

    /** `v` is where the first boot records are: the links lead from each to the next, from the start of the
        container, and none is visited twice. */
    ghost predicate Chain(v: seq<nat>) {
      v == [] ||
      var n := |v| - 1;
      && Chain(v[..n]) && Usable(v[n]) && base <= v[n] < end && v[n] !in v[..n]
      && if n == 0 then v[n] == base else link(v[n - 1]) == Some(v[n] - base)
    }

    /** The chain goes no further. */
    ghost predicate Whole(v: seq<nat>) {
      Chain(v) && 0 < |v| <= MAX_EBR_LINKS && link(v[|v| - 1]) == None
    }

    /** The partitions of the boot records, numbered in order. */
    ghost function Partitions(v: seq<nat>, number: nat): seq<Partition> {
      if v == [] then []
      else
        var ps := Partitions(v[..|v| - 1], number);
        With(ps, range(v[|v| - 1]), number + |ps|)
    }

    lemma Visit(v: seq<nat>, lba: nat)
      requires Chain(v) && Usable(lba) && base <= lba < end && lba !in v
      requires if v == [] then lba == base else link(v[|v| - 1]) == Some(lba - base)
      ensures Chain(v + [lba])
    {
      assert (v + [lba])[..|v|] == v;
    }

    lemma PartitionsVisited(v: seq<nat>, lba: nat, number: nat)
      ensures Partitions(v + [lba], number) ==
              With(Partitions(v, number), range(lba), number + |Partitions(v, number)|)
    {
      assert (v + [lba])[..|v|] == v;
    }

    /** Boot record `i` of a chain is one that the walk accepts after those before it. */
    lemma {:induction false} Accepted(v: seq<nat>, i: nat)
      requires Chain(v) && i < |v|
      ensures Usable(v[i]) && base <= v[i] < end && v[i] !in v[..i]
      ensures if i == 0 then v[i] == base else link(v[i - 1]) == Some(v[i] - base)
    {
      var n := |v| - 1;
      if i < n {
        Accepted(v[..n], i);
        assert v[..n][..i] == v[..i];
      }
    }

    /** The links leave no choice. */
    lemma {:induction false} SameStart(v: seq<nat>, w: seq<nat>, i: nat)
      requires Chain(v) && Chain(w) && i <= |v| && i <= |w|
      ensures v[..i] == w[..i]
    {
      if i > 0 {
        SameStart(v, w, i - 1);
        Accepted(v, i - 1);
        Accepted(w, i - 1);
        assert i > 1 ==> v[..i - 1][i - 2] == w[..i - 1][i - 2];
        assert v[..i] == v[..i - 1] + [v[i - 1]] && w[..i] == w[..i - 1] + [w[i - 1]];
      }
    }

    lemma NoLonger(v: seq<nat>, w: seq<nat>)
      requires Whole(v) && Whole(w)
      ensures |w| <= |v|
    {
      if |v| < |w| {
        SameStart(v, w, |v|);
        assert v[|v| - 1] == w[..|v|][|v| - 1];
        Accepted(w, |v|);
      }
    }

    /** So there is at most one whole chain. */
    lemma OneChain(v: seq<nat>, w: seq<nat>)
      requires Whole(v) && Whole(w)
      ensures v == w
    {
      NoLonger(v, w);
      NoLonger(w, v);
      SameStart(v, w, |v|);
      assert v == v[..|v|] && w == w[..|v|];
    }

    ghost predicate HasChain() {
      exists v :: Whole(v)
    }

    ghost function TheChain(): (v: seq<nat>)
      requires HasChain()
      ensures Whole(v)
    {
      var v :| Whole(v);
      v
    }
  }

  function With(out: seq<Partition>, r: Option<Range>, number: nat): seq<Partition> {
    out + if r.Some? then [Partition(number, r.value.first, r.value.blocks)] else []
  }

  /** The walk has visited `v` and collected `out`, and comes to `lba` next. */
  ghost predicate Walked(ebrs: Ebrs, number: nat, v: seq<nat>, lba: nat, out: seq<Partition>) {
    var chain, collected := ebrs.Chain(v), out == ebrs.Partitions(v, number);
    && chain && collected && Logical(out, number, ebrs.base, ebrs.end)
    && lba >= ebrs.base && if v == [] then lba == ebrs.base else ebrs.link(v[|v| - 1]) == Some(lba - ebrs.base)
  }

  lemma WalkOn(ebrs: Ebrs, number: nat, v: seq<nat>, lba: nat, out: seq<Partition>)
    requires ebrs.Valid() && Walked(ebrs, number, v, lba, out) && lba < ebrs.end && lba !in v && ebrs.Usable(lba)
    ensures var more, now := v + [lba], With(out, ebrs.range(lba), number + |out|);
            && ebrs.Chain(more) && now == ebrs.Partitions(more, number) && Logical(now, number, ebrs.base, ebrs.end)
            && (ebrs.link(lba).Some? ==> Walked(ebrs, number, more, ebrs.base + ebrs.link(lba).value, now))
  {
    ebrs.Visit(v, lba);
    ebrs.PartitionsVisited(v, lba, number);
    LogicalWith(ebrs, number, out, lba);
  }

  lemma LogicalWith(ebrs: Ebrs, number: nat, out: seq<Partition>, lba: nat)
    requires ebrs.Valid() && Logical(out, number, ebrs.base, ebrs.end) && ebrs.base <= lba && ebrs.Usable(lba)
    ensures Logical(With(out, ebrs.range(lba), number + |out|), number, ebrs.base, ebrs.end)
  {
  }

  /** The walk has visited the first boot records of `w` and comes to the one after them. */
  ghost predicate Along(ebrs: Ebrs, w: seq<nat>, visited: seq<nat>, lba: nat) {
    ebrs.Whole(w) ==> |visited| < |w| && visited == w[..|visited|] && lba == w[|visited|]
  }

  lemma AlongOn(ebrs: Ebrs, w: seq<nat>, visited: seq<nat>, lba: nat)
    requires Along(ebrs, w, visited, lba) && ebrs.Whole(w)
    ensures ebrs.Usable(lba) && ebrs.base <= lba < ebrs.end && lba !in visited
    ensures ebrs.link(lba).Some? ==> Along(ebrs, w, visited + [lba], ebrs.base + ebrs.link(lba).value)
  {
    ebrs.Accepted(w, |visited|);
    if |visited| + 1 < |w| {
      ebrs.Accepted(w, |visited| + 1);
      assert visited + [lba] == w[..|visited| + 1];
    }
  }

  /** Visits the boot record at `lba`, unless it is refused. */
  method VisitEbr(ebrs: Ebrs, number: nat, visited: seq<nat>, lba: nat, out: seq<Partition>, ghost w: seq<nat>)
    returns (r: Result<seq<Partition>, Error>)
    requires ebrs.Valid() && Walked(ebrs, number, visited, lba, out) && Along(ebrs, w, visited, lba)
    ensures r.Err? ==> !ebrs.Whole(w) && r.error != NotFound
    ensures r.Ok? ==> && ebrs.Chain(visited + [lba]) && r.value == ebrs.Partitions(visited + [lba], number)
                      && Logical(r.value, number, ebrs.base, ebrs.end)
    ensures r.Ok? && ebrs.link(lba).Some? ==>
              var next := ebrs.base + ebrs.link(lba).value;
              Walked(ebrs, number, visited + [lba], next, r.value) && Along(ebrs, w, visited + [lba], next)
  {
    if ebrs.Whole(w) { AlongOn(ebrs, w, visited, lba); }
    if lba >= ebrs.end || lba in visited { return Err(InvalidArgument); }
    var fault := ebrs.fault(lba);
    if fault.Some? { return Err(fault.value); }
    var range := ebrs.range(lba);
    if range.Some? && range.value.first + range.value.blocks > ebrs.end { return Err(InvalidArgument); }
    WalkOn(ebrs, number, visited, lba, out);
    r := Ok(With(out, range, number + |out|));
  }

  /** Follows the links to their end, visiting no boot record twice, and returns the partitions of the chain; fails
      only if no chain `w` is whole. */
  method WalkEbrs(ebrs: Ebrs, number: nat, ghost w: seq<nat>)
    returns (r: Result<seq<Partition>, Error>, ghost v: seq<nat>)
    requires ebrs.Valid()
    ensures r.Ok? ==> && Logical(r.value, number, ebrs.base, ebrs.end)
                      && ebrs.Whole(v) && r.value == ebrs.Partitions(v, number)
    ensures r.Err? ==> !ebrs.Whole(w) && r.error != NotFound
  {
    var lba: nat, visited: seq<nat>, out := ebrs.base, [], [];
    v := [];
    if ebrs.Whole(w) { ebrs.Accepted(w, 0); }
    for i := 0 to MAX_EBR_LINKS
      invariant |visited| == i && Walked(ebrs, number, visited, lba, out) && Along(ebrs, w, visited, lba)
    {
      r := VisitEbr(ebrs, number, visited, lba, out, w);
      if r.Err? { return; }
      var next := ebrs.link(lba);
      visited, out := visited + [lba], r.value;
      if next == None { return Ok(out), visited; }
      lba := ebrs.base + next.value;
    }
    r := Err(InvalidArgument);
  }

  /** The chain that a disk holds; sums beyond 64 bits are beyond the end of the container too. */
  function EbrsOf(dev: Device, base: nat, end: nat): Ebrs {
    Ebrs(base, end, (lba: nat) => FaultOf(dev, lba), (lba: nat) => LinkOf(dev, lba), (lba: nat) => RangeOf(dev, lba))
  }

  /** The container lies on the disk and has a whole chain of boot records. */
  ghost predicate Container(dev: Device, base: nat, blocks: nat) {
    base + blocks <= dev.count && EbrsOf(dev, base, base + blocks).HasChain()
  }

  /** The partitions in a container, numbered from `number` on. */
  ghost function Contained(dev: Device, base: nat, blocks: nat, number: nat): seq<Partition>
    requires Container(dev, base, blocks)
  {
    var ebrs := EbrsOf(dev, base, base + blocks);
    ebrs.Partitions(ebrs.TheChain(), number)
  }

  method DiscoverEbr(dev: Device, base: nat, blocks: nat, number: nat) returns (r: Result<seq<Partition>, Error>)
    requires dev.Valid()
    ensures r.Ok? <==> Container(dev, base, blocks)
    ensures r.Ok? ==> r.value == Contained(dev, base, blocks, number) && Logical(r.value, number, base, base + blocks)
    ensures r.Err? ==> r.error != NotFound
  {
    if base + blocks > U64_MAX || base + blocks > dev.count { return Err(InvalidArgument); }
    var ebrs := EbrsOf(dev, base, base + blocks);
    ghost var v, w: seq<nat> := [], [];
    if ebrs.HasChain() { w := ebrs.TheChain(); }
    r, v := WalkEbrs(ebrs, number, w);
    if r.Ok? { ebrs.OneChain(v, ebrs.TheChain()); }
  }

  /** An entry of the table in the first block. */
  datatype Slot = Unused | Extended(first: nat, blocks: nat) | Primary(partition: Partition)

  function SlotOf(sector: seq<Byte>, i: nat): Slot
    requires |sector| >= 512 && i < 4
  {
    var at := 446 + i * 16;
    var kind, first, blocks := sector[at + 4], Le32(sector, at + 8), Le32(sector, at + 12);
    if kind == 0 || blocks == 0 then Unused
    else if IsExtended(kind) then Extended(first, blocks)
    else if kind == 0xee then Unused
    else Primary(Partition(i + 1, first, blocks))
  }

  /** Of the first `n` slots, `ps` has exactly the primary partitions; the others are logical. */
  ghost predicate Primaries(ps: seq<Partition>, slots: seq<Slot>, n: nat) {
    && n <= |slots| && (forall i :: 0 <= i < n && slots[i].Primary? ==> slots[i].partition in ps)
    && (forall p :: p in ps && p.number < 5 ==> exists i :: 0 <= i < n && slots[i] == Primary(p))
  }

  lemma SamePartitions(s: seq<Partition>, t: seq<Partition>)
    requires multiset(s) == multiset(t)
    ensures forall p :: p in s <==> p in t
    ensures |s| == |t|
  {
    forall p ensures p in s <==> p in t {
      assert p in s <==> p in multiset(s);
      assert p in t <==> p in multiset(t);
    }
    assert |multiset(s)| == |s| && |multiset(t)| == |t|;
  }

  /** The extended partitions among the first `n` slots can be read. */
  ghost predicate Containers(dev: Device, slots: seq<Slot>, n: nat) {
    && n <= |slots|
    && forall i :: 0 <= i < n && slots[i].Extended? ==> Container(dev, slots[i].first, slots[i].blocks)
  }

  /** The partitions of the first `n` slots, and the number of the next logical one. */
  ghost function Found(dev: Device, slots: seq<Slot>, n: nat): (seq<Partition>, nat)
    requires Containers(dev, slots, n)
  {
    if n == 0 then ([], 5)
    else
      var (ps, logical) := Found(dev, slots, n - 1);
      match slots[n - 1]
      case Unused => (ps, logical)
      case Extended(first, blocks) =>
        var more := Contained(dev, first, blocks, logical);
        (ps + more, logical + |more|)
      case Primary(p) => (ps + [p], logical)
  }

  lemma AlsoLogical(out: seq<Partition>, slots: seq<Slot>, i: nat, more: seq<Partition>, number: nat, lo: nat, hi: nat)
    requires Primaries(out, slots, i) && i < |slots| && slots[i].Extended? && Logical(more, number, lo, hi)
        && number >= 5
    ensures Primaries(out + more, slots, i + 1)
  {
    assert forall p :: p in more ==> p.number >= 5;
  }

  lemma AlsoPrimary(out: seq<Partition>, slots: seq<Slot>, i: nat)
    requires Primaries(out, slots, i) && i < |slots| && slots[i].Primary?
    ensures Primaries(out + [slots[i].partition], slots, i + 1)
  {
  }

  /** The slots before `i` have given `out`, and the next logical partition has number `logical`. */
  ghost predicate Collected(dev: Device, slots: seq<Slot>, i: nat, out: seq<Partition>, logical: nat) {
    && Containers(dev, slots, i) && (out, logical) == Found(dev, slots, i)
    && logical >= 5 && Primaries(out, slots, i)
  }

  method CollectSlot(dev: Device, slots: seq<Slot>, i: nat, out: seq<Partition>, logical: nat)
    returns (r: Result<seq<Partition>, Error>, next: nat)
    requires dev.Valid() && i < |slots| && Collected(dev, slots, i, out, logical)
    ensures if r.Ok? then Collected(dev, slots, i + 1, r.value, next)
            else !Containers(dev, slots, i + 1) && r.error != NotFound
  {
    match slots[i]
    case Unused =>
      r, next := Ok(out), logical;
    case Extended(first, blocks) =>
      var more := DiscoverEbr(dev, first, blocks, logical);
      if more.Err? { return Err(more.error), logical; }
      AlsoLogical(out, slots, i, more.value, logical, first, first + blocks);
      r, next := Ok(out + more.value), logical + |more.value|;
    case Primary(p) =>
      AlsoPrimary(out, slots, i);
      r, next := Ok(out + [p]), logical;
  }

  /** Collects the primary partitions, and the logical ones of every extended partition. */
  method CollectSlots(dev: Device, slots: seq<Slot>) returns (r: Result<seq<Partition>, Error>)
    requires dev.Valid()
    ensures r.Ok? <==> Containers(dev, slots, |slots|)
    ensures r.Ok? ==> r.value == Found(dev, slots, |slots|).0 && Primaries(r.value, slots, |slots|)
    ensures r.Err? ==> r.error != NotFound
  {
    var logical: nat := 5;
    r := Ok([]);
    for i := 0 to |slots|
      invariant r.Ok? && Collected(dev, slots, i, r.value, logical)
    {
      r, logical := CollectSlot(dev, slots, i, r.value, logical);
      if r.Err? { return; }
    }
  }

  function SlotsOf(sector: seq<Byte>): seq<Slot>
    requires |sector| >= 512
  {
    seq(4, i requires 0 <= i < 4 => SlotOf(sector, i))
  }

  /** `r` has the partitions `ps` in the order of their numbers. */
  ghost predicate Ordered(r: seq<Partition>, ps: seq<Partition>) {
    multiset(r) == multiset(ps) && SortedBy((p: Partition) => p.number, r)
  }

  /** What the table in the first block describes can be used. */
  ghost predicate MbrSound(dev: Device, sector: seq<Byte>)
    requires |sector| >= 512
  {
    && Containers(dev, SlotsOf(sector), 4) && Found(dev, SlotsOf(sector), 4).0 != []
    && Sound(multiset(Found(dev, SlotsOf(sector), 4).0), dev.count)
  }

  method DiscoverMbr(dev: Device, sector: seq<Byte>) returns (r: Result<seq<Partition>, Error>)
    requires dev.Valid() && |sector| >= 512
    ensures r.Ok? <==> MbrSound(dev, sector)
    ensures r.Ok? ==> Ordered(r.value, Found(dev, SlotsOf(sector), 4).0) && Primaries(r.value, SlotsOf(sector), 4)
    ensures r == Err(NotFound) <==> Containers(dev, SlotsOf(sector), 4) && Found(dev, SlotsOf(sector), 4).0 == []
  {
    r := CollectSlots(dev, SlotsOf(sector));
    if r.Err? { return; }
    var out := r.value;
    if out == [] { return Err(NotFound); }
    r := ValidateRanges(out, dev.count);
    if r.Ok? {
      SamePartitions(r.value, out);
    }
  }

  // ---------------------------------------------------------------- GPT (section 5.3 of the UEFI Specification)

  /** Entry `i` of a table of entries of `size` bytes, if it is in use. */
  function GptEntry(table: seq<Byte>, size: nat, i: nat): Option<Partition>
    requires (i + 1) * size <= |table| && 128 <= size
  {
    var e := table[i * size..(i + 1) * size];
    if forall k :: 0 <= k < 16 ==> e[k] == 0 then None
    else Some(Partition(i + 1, Le64(e, 32), if Le64(e, 40) + 1 >= Le64(e, 32) then Le64(e, 40) + 1 - Le64(e, 32)
        else 0))
  }

  /** The partitions of the first `n` entries, in order. */
  ghost function Used(table: seq<Byte>, size: nat, n: nat): seq<Partition>
    requires n * size <= |table| && 128 <= size
  {
    if n == 0 then []
    else
      MulMonotone(n - 1, n, size);
      var e := GptEntry(table, size, n - 1);
      Used(table, size, n - 1) + if e.Some? then [e.value] else []
  }

  lemma {:induction false} UsedGrows(table: seq<Byte>, size: nat, m: nat, n: nat)
    requires m <= n && m * size <= |table| && n * size <= |table| && 128 <= size
    ensures Used(table, size, m) <= Used(table, size, n)
  {
    if m < n {
      MulMonotone(n - 1, n, size);
      UsedGrows(table, size, m, n - 1);
    }
  }

  lemma UsedIn(table: seq<Byte>, size: nat, i: nat, count: nat)
    requires i < count && (i + 1) * size <= |table| && count * size <= |table| && 128 <= size
    requires GptEntry(table, size, i).Some?
    ensures GptEntry(table, size, i).value in Used(table, size, count)
  {
    MulMonotone(i, i + 1, size);
    UsedGrows(table, size, i + 1, count);
    assert Used(table, size, i + 1)[|Used(table, size, i)|] == GptEntry(table, size, i).value;
  }

  predicate Within(p: Partition, firstUsable: nat, lastUsable: nat) {
    firstUsable <= p.first && p.blocks > 0 && p.first + p.blocks <= lastUsable + 1
  }

  method ReadEntries(table: seq<Byte>, size: nat, count: nat, firstUsable: nat, lastUsable: nat)
    returns (r: Result<seq<Partition>, Error>)
    requires count * size <= |table| && 128 <= size
    ensures r.Ok? <==> forall p :: p in Used(table, size, count) ==> Within(p, firstUsable, lastUsable)
    ensures r.Ok? ==> r.value == Used(table, size, count)
    ensures r.Err? ==> r.error == InvalidArgument
  {
    var out: seq<Partition> := [];
    for i := 0 to count
      invariant i * size <= |table| && out == Used(table, size, i)
      invariant forall p :: p in out ==> Within(p, firstUsable, lastUsable)
    {
      MulMonotone(i + 1, count, size);
      var e := GptEntry(table, size, i);
      if e.Some? {
        if e.value.first < firstUsable || e.value.blocks == 0 || e.value.first + e.value.blocks > lastUsable + 1 {
          UsedIn(table, size, i, count);
          return Err(InvalidArgument);
        }
        out := out + [e.value];
      }
    }
    r := Ok(out);
  }

  datatype Header = Header(firstUsable: nat, lastUsable: nat, lba: nat, count: nat, size: nat, checksum: nat)

  /** The fields of a header block. */
  function HeaderOf(b: seq<Byte>): Header
    requires |b| >= 92
  {
    Header(Le64(b, 40), Le64(b, 48), Le64(b, 72), Le32(b, 80), Le32(b, 84), Le32(b, 88))
  }

  /** The block is a header for block 1 of the disk, with its own checksum. */
  predicate IsHeader(dev: Device, b: seq<Byte>, crc: seq<Byte> -> nat)
    requires |b| >= 92
  {
    && b[..8] == [0x45, 0x46, 0x49, 0x20, 0x50, 0x41, 0x52, 0x54]
    && 92 <= Le32(b, 12) <= |b| && crc(b[..16] + [0, 0, 0, 0] + b[20..Le32(b, 12)]) == Le32(b, 16)
    && Le64(b, 24) == 1 && Le64(b, 32) < dev.count
  }

  /** The disk has a header, and its fields are in range. */
  ghost predicate HasHeader(dev: Device, crc: seq<Byte> -> nat) {
    && dev.count >= 2 && Sector(dev, 1).Some? && IsHeader(dev, Sector(dev, 1).value, crc)
    && var h := HeaderOf(Sector(dev, 1).value);
    && h.firstUsable <= h.lastUsable < dev.count
    && 0 < h.count <= MAX_GPT_ENTRIES && h.size >= 128 && h.size % 8 == 0
  }

  /** `crc` is the checksum of a byte string. */
  method ReadHeader(dev: Device, crc: seq<Byte> -> nat) returns (r: Result<Header, Error>)
    requires dev.Valid()
    ensures r.Ok? <==> HasHeader(dev, crc)
    ensures r.Ok? ==> r.value == HeaderOf(Sector(dev, 1).value)
    ensures r.Err? ==> r.error != NotFound
  {
    if dev.count < 2 { return Err(InvalidArgument); }
    var block := dev.read(1, 1);
    if block == None { return Err(Io); }
    var header := block.value;
    if header[..8] != [0x45, 0x46, 0x49, 0x20, 0x50, 0x41, 0x52, 0x54] { return Err(InvalidArgument); }
    var headerSize := Le32(header, 12);
    if headerSize < 92 || headerSize > dev.blockSize { return Err(InvalidArgument); }
    if crc(header[..16] + [0, 0, 0, 0] + header[20..headerSize]) != Le32(header, 16) { return Err(Io); }
    if Le64(header, 24) != 1 || Le64(header, 32) >= dev.count { return Err(InvalidArgument); }
    var h := HeaderOf(header);
    if h.firstUsable > h.lastUsable || h.lastUsable >= dev.count { return Err(InvalidArgument); }
    if h.count == 0 || h.count > MAX_GPT_ENTRIES || h.size < 128 || h.size % 8 != 0 { return Err(InvalidArgument); }
    r := Ok(h);
  }

  function TableBlocks(dev: Device, h: Header): nat
    requires dev.blockSize > 0
  {
    (h.count * h.size + dev.blockSize - 1) / dev.blockSize
  }

  /** The bytes of the entries, in the blocks from `h.lba` on. */
  function Table(dev: Device, h: Header): Option<seq<Byte>>
    requires dev.blockSize > 0
  {
    var block := dev.read(h.lba, TableBlocks(dev, h));
    if block.Some? && h.count * h.size <= |block.value| then Some(block.value[..h.count * h.size]) else None
  }

  /** The table lies on the disk and has its checksum. */
  ghost predicate HasTable(dev: Device, h: Header, crc: seq<Byte> -> nat)
    requires dev.blockSize > 0
  {
    && h.count * h.size <= MAX_GPT_BYTES && 0 < h.lba && h.lba + TableBlocks(dev, h) <= dev.count
    && Table(dev, h).Some? && crc(Table(dev, h).value) == h.checksum
  }

  method ReadTable(dev: Device, h: Header, crc: seq<Byte> -> nat) returns (r: Result<seq<Byte>, Error>)
    requires dev.Valid()
    ensures r.Ok? <==> HasTable(dev, h, crc)
    ensures r.Ok? ==> Table(dev, h) == Some(r.value) && |r.value| == h.count * h.size
    ensures r.Err? ==> r.error != NotFound
  {
    var bytes := h.count * h.size;
    if bytes > MAX_GPT_BYTES { return Err(InvalidArgument); }
    var blocks := (bytes + dev.blockSize - 1) / dev.blockSize;
    if h.lba == 0 || h.lba + blocks > U64_MAX || h.lba + blocks > dev.count { return Err(InvalidArgument); }
    var block := dev.read(h.lba, blocks);
    if block == None { return Err(Io); }
    assert bytes <= blocks * dev.blockSize;
    if crc(block.value[..bytes]) != h.checksum { return Err(Io); }
    r := Ok(block.value[..bytes]);
  }

  /** The disk has a header and a table. */
  ghost predicate HasGpt(dev: Device, crc: seq<Byte> -> nat)
    requires dev.blockSize > 0
  {
    HasHeader(dev, crc) && HasTable(dev, HeaderOf(Sector(dev, 1).value), crc)
  }

  /** The partitions that the table has in use. */
  ghost function InUse(dev: Device, crc: seq<Byte> -> nat): seq<Partition>
    requires dev.blockSize > 0 && HasGpt(dev, crc)
  {
    var h := HeaderOf(Sector(dev, 1).value);
    Used(Table(dev, h).value, h.size, h.count)
  }

  /** What the GPT describes can be used. */
  ghost predicate GptSound(dev: Device, crc: seq<Byte> -> nat)
    requires dev.blockSize > 0
  {
    && HasGpt(dev, crc) && Sound(multiset(InUse(dev, crc)), dev.count)
    && var h := HeaderOf(Sector(dev, 1).value);
    forall p :: p in InUse(dev, crc) ==> Within(p, h.firstUsable, h.lastUsable)
  }

  method DiscoverGpt(dev: Device, crc: seq<Byte> -> nat) returns (r: Result<seq<Partition>, Error>)
    requires dev.Valid()
    ensures r.Ok? <==> GptSound(dev, crc)
    ensures r.Ok? ==> Ordered(r.value, InUse(dev, crc))
    ensures r.Err? ==> r.error != NotFound
  {
    var h := ReadHeader(dev, crc);
    if h.Err? { return Err(h.error); }
    var table := ReadTable(dev, h.value, crc);
    if table.Err? { return Err(table.error); }
    r := ReadEntries(table.value, h.value.size, h.value.count, h.value.firstUsable, h.value.lastUsable);
    if r.Ok? {
      r := ValidateRanges(r.value, dev.count);
    }
  }

  /** The table in the first block only protects a GPT. */
  predicate Protective(sector: seq<Byte>)
    requires |sector| >= 512
  {
    exists i :: 0 <= i < 4 && sector[446 + i * 16 + 4] == 0xee
  }

  /** The partitions of a disk are found exactly when its table can be used, and are those of the table; a disk is
      taken to have none exactly when it has no table or an empty one. */
  method Discover(dev: Device, crc: seq<Byte> -> nat) returns (r: Result<seq<Partition>, Error>)
    requires dev.Valid()
    ensures r.Ok? <==> && Sector(dev, 0).Some? && Signed(Sector(dev, 0).value)
                       && var sector := Sector(dev, 0).value;
                       if Protective(sector) then GptSound(dev, crc) else MbrSound(dev, sector)
    ensures r.Ok? ==> var sector := Sector(dev, 0).value;
                      Ordered(r.value, if Protective(sector) then InUse(dev, crc)
                                       else Found(dev, SlotsOf(sector), 4).0)
    ensures r.Ok? ==> Sound(multiset(r.value), dev.count)
    ensures r == Err(NotFound) <==> && Sector(dev, 0).Some?
                                    && var sector := Sector(dev, 0).value;
                                    !Signed(sector) || (&& !Protective(sector) && Containers(dev, SlotsOf(sector), 4)
                                                        && Found(dev, SlotsOf(sector), 4).0 == [])
  {
    var block := dev.read(0, 1);
    if block == None { return Err(Io); }
    var sector := block.value;
    if !Signed(sector) { return Err(NotFound); }
    if Protective(sector) {
      r := DiscoverGpt(dev, crc);
    } else {
      r := DiscoverMbr(dev, sector);
    }
  }

  /** The device registered for a partition of `disk`. */
  function Child(disk: Block.BlockDevice, p: Partition): Block.BlockDevice {
    Block.BlockDevice(Block.Partition(disk, p.first, p.blocks), disk.blockSize, disk.limit, p.blocks)
  }

  /** Devices for two discovered partitions are valid, and a write through one, even a failed one, changes
      no byte that can be read through the other. */
  lemma DiscoveredAreIndependent(disk: Block.BlockDevice, ps: seq<Partition>, p: Partition, q: Partition,
                                 was: seq<Byte>, data: seq<Byte>)
    requires disk.Valid(|was|) && Sound(multiset(ps), disk.count) && p in ps && q in ps && p != q
    requires Block.SameOutside(was, data, Child(disk, p).At(0), Child(disk, p).At(p.blocks))
    ensures Child(disk, p).Valid(|was|) && Child(disk, q).Valid(|was|)
    ensures Child(disk, q).At(0) <= Child(disk, q).At(q.blocks) <= |was| == |data|
    ensures Block.View(Child(disk, q), data) == Block.View(Child(disk, q), was)
  {
    assert p in multiset(ps) && q in multiset(ps);
    Block.PartitionsAreIndependent(Child(disk, p), Child(disk, q), was, data);
  }
}

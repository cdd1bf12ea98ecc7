/** Retirement of heap pages: a frame is quarantined until every CPU has applied the invalidation of
    its page.

    The state machine interleaves the steps taken under the heap lock (reserve, map, release, publish,
    quarantine, reclaim) with the translation loads and shootdown polls of every CPU.  `ring`, `batch`
    and `pending` hold the unmapped pages in the order in which they will be reclaimed. */
module HeapRetire {
  import opened Common
  import opened HeapPages
  import opened RetireQueue

  const INLINE: nat := 64

  type Frame = int

  /** One shootdown record: a single page, or every translation. */
  datatype Record = Page(page: int) | All

  /** An unmapped page waiting for its frame to become reusable.  `sequence` is the shootdown
      sequence that covers it, once published. */
  datatype Item = Item(page: int, frame: Frame, span: nat, sequence: Option<nat>)

  datatype State = State(
    pages: seq<Meta>,
    heads: set<int>,              // first pages of reserved, large and slab runs
    large: Option<(int, int)>,    // pages still to be taken by a large deallocation in progress
    ring: seq<Item>,
    batch: seq<Item>,
    pending: seq<Item>,
    table: map<int, Frame>,       // the heap page table
    tlb: seq<map<int, Frame>>,    // translations each CPU may still use
    acked: seq<nat>,              // highest sequence each CPU has applied
    log: seq<Record>,             // shootdown records; the sequence of a record is its position plus one
    free: set<Frame>)             // frames owned by the physical allocator
  {
    /** The unmapped pages, in reclaim order. */
    ghost function Items(): seq<Item> {
      ring + batch + pending
    }
  }

  predicate IsLarge(k: Kind) {
    k == LargeHead || k == LargeTail
  }

  // ---------------------------------------------------------------- steps under the heap lock

  ghost predicate AllFree(pages: seq<Meta>, start: int, end: int) {
    0 <= start <= end <= |pages| && forall p :: start <= p < end ==> !pages[p].Occupied()
  }

  /** The run at `start` is busy, and mapped or not as `mapped` says. */
  ghost predicate BusyRun(s: State, start: nat, mapped: bool) {
    && start in s.heads && start < |s.pages|
    && forall p :: start <= p < End(s.pages, start) && p < |s.pages| ==>
         s.pages[p].kind == Busy && (p in s.table) == mapped
  }

  ghost predicate Reserve(s: State, t: State, start: nat, n: nat) {
    && n > 0 && AllFree(s.pages, start, start + n)
    && t == s.(pages := Reserved(s.pages, start, n), heads := s.heads + {start})
  }

  /** Slab pages are retired one by one, so none of them spans another. */
  ghost predicate ReserveSlab(s: State, t: State, page: nat) {
    && AllFree(s.pages, page, page + 1)
    && t == s.(pages := s.pages[page := Meta(Busy, 1)], heads := s.heads + {page})
  }

  /** Gives back a reserved run of which nothing is mapped. */
  ghost predicate Clear(s: State, t: State, start: nat) {
    && BusyRun(s, start, false)
    && t == s.(pages := Freed(s.pages, start, End(s.pages, start) - start), heads := s.heads - {start})
  }

  ghost predicate MapPage(s: State, t: State, page: nat, frame: Frame) {
    && page < |s.pages| && s.pages[page].kind == Busy && page !in s.table && frame in s.free
    && t == s.(table := s.table[page := frame], free := s.free - {frame})
  }

  /** Takes a page back out of a run that could not be mapped completely: unmaps it on `cpu`, which drops
      only its own translation, and frees the frame at once. */
  ghost predicate Rollback(s: State, t: State, page: nat, cpu: nat) {
    && page < |s.pages| && s.pages[page].kind == Busy && page in s.table && cpu < |s.tlb|
    && End(s.pages, page) - 1 !in s.table
    && t == s.(table := s.table - {page}, tlb := s.tlb[cpu := s.tlb[cpu] - {page}], free := s.free + {s.table[page]})
  }

  ghost predicate CommitLarge(s: State, t: State, start: nat) {
    && BusyRun(s, start, true)
    && t == s.(pages := Committed(s.pages, start, End(s.pages, start)))
  }

  ghost function Committed(pages: seq<Meta>, start: nat, end: nat): (r: seq<Meta>)
    ensures |r| == |pages|
    ensures forall p :: 0 <= p < |r| ==>
              r[p] == if p == start < end then Meta(LargeHead, end - start)
                      else if start < p < end then Meta(LargeTail, end - p) else pages[p]
  {
    seq(|pages|, p requires 0 <= p < |pages| =>
      if p == start < end then Meta(LargeHead, end - start)
      else if start < p < end then Meta(LargeTail, end - p) else pages[p])
  }

  /** Unmaps a slab page on `cpu`, which drops only its own translation. */
  ghost predicate ReleaseSlab(s: State, t: State, page: nat, cpu: nat) {
    && page in s.heads && page < |s.pages| && s.pages[page] == Meta(Busy, 1) && page in s.table
    && cpu < |s.tlb| && s.large.None? && |s.pending| < INLINE
    && t == s.(pages := s.pages[page := Meta(Retired, 1)], table := s.table - {page},
               tlb := s.tlb[cpu := s.tlb[cpu] - {page}],
               pending := s.pending + [Item(page, s.table[page], 1, None)])
  }

  ghost predicate FlushPending(s: State, t: State) {
    && s.batch == [] && s.large.None?
    && t == s.(batch := s.pending, pending := [])
  }

  ghost predicate LargeBegin(s: State, t: State, start: nat) {
    && s.large.None? && s.batch == [] && s.pending == []
    && start < |s.pages| && s.pages[start].kind == LargeHead
    && t == s.(large := Some((start, End(s.pages, start))))
  }

  ghost predicate LargeTake(s: State, t: State, cpu: nat) {
    && s.large.Some? && cpu < |s.tlb| && |s.batch| < INLINE && Unpublished(s.batch)
    && var (next, end) := s.large.value;
    && next < end && next in s.table
    && t == s.(table := s.table - {next}, tlb := s.tlb[cpu := s.tlb[cpu] - {next}],
               batch := s.batch + [Item(next, s.table[next], end - next, None)], large := Some((next + 1, end)))
  }

  ghost predicate LargeEnd(s: State, t: State) {
    s.large.Some? && s.large.value.0 == s.large.value.1 && s.batch == [] && t == s.(large := None)
  }

  ghost predicate Unpublished(batch: seq<Item>) {
    forall k :: 0 <= k < |batch| ==> batch[k].sequence.None?
  }

  /** One publication for the whole batch, after every leaf of it has been removed. */
  ghost predicate Publish(s: State, t: State) {
    && s.batch != [] && Unpublished(s.batch)
    && (s.large.None? || |s.batch| == INLINE || s.large.value.0 == s.large.value.1)
    && t == s.(log := s.log + Records(s.batch), batch := Sequenced(s.batch, |s.log| + |s.batch|))
  }

  ghost function Sequenced(batch: seq<Item>, sequence: nat): (r: seq<Item>)
    ensures |r| == |batch| && forall k :: 0 <= k < |r| ==> r[k] == batch[k].(sequence := Some(sequence))
  {
    seq(|batch|, k requires 0 <= k < |batch| => batch[k].(sequence := Some(sequence)))
  }

  ghost function Records(batch: seq<Item>): (r: seq<Record>)
    ensures |r| == |batch| && forall k :: 0 <= k < |r| ==> r[k] == Page(batch[k].page)
  {
    seq(|batch|, k requires 0 <= k < |batch| => Page(batch[k].page))
  }

  ghost predicate Quarantine(s: State, t: State) {
    && s.batch != [] && s.batch[0].sequence.Some? && |s.ring| < TLB_RETIRE_CAPACITY
    && 0 <= s.batch[0].page < |s.pages|
    && t == s.(ring := s.ring + [s.batch[0]], batch := s.batch[1..],
               pages := s.pages[s.batch[0].page := Meta(Retired, s.batch[0].span)])
  }

  /** Publishes a flush of every translation, as a saturated queue does. */
  ghost predicate FlushAll(s: State, t: State) {
    t == s.(log := s.log + [All])
  }

  /** After a full flush the page being quarantined takes the sequence of the flush. */
  ghost predicate Resequence(s: State, t: State, sequence: nat) {
    && s.batch != [] && s.batch[0].sequence.Some? && s.batch[0].sequence.value <= sequence <= |s.log|
    && t == s.(batch := s.batch[0 := s.batch[0].(sequence := Some(sequence))])
  }

  /** Frees the oldest quarantined frame once every CPU has applied its sequence. */
  ghost predicate Reclaim(s: State, t: State) {
    && s.ring != [] && s.ring[0].sequence.Some? && 0 <= s.ring[0].page < |s.pages|
    && (forall c :: 0 <= c < |s.acked| ==> s.ring[0].sequence.value <= s.acked[c])
    && t == s.(ring := s.ring[1..], free := s.free + {s.ring[0].frame}, heads := s.heads - {s.ring[0].page},
               pages := s.pages[s.ring[0].page := FREE])
  }

  // ---------------------------------------------------------------- steps of the CPUs

  ghost predicate Fill(s: State, t: State, cpu: nat, page: int) {
    && cpu < |s.tlb| && page in s.table
    && t == s.(tlb := s.tlb[cpu := s.tlb[cpu][page := s.table[page]]])
  }

  /** The records from `from` on name `page`. */
  ghost predicate Invalidated(log: seq<Record>, from: nat, page: int) {
    exists r :: from <= r < |log| && (log[r] == Page(page) || log[r] == All)
  }

  /** Applies every record not applied yet; a CPU that fell behind may drop more, keeping only `kept`. */
  ghost predicate Poll(s: State, t: State, cpu: nat, kept: set<int>) {
    && cpu < |s.tlb| && cpu < |s.acked|
    && t == s.(tlb := s.tlb[cpu := Polled(s.tlb[cpu], s.log, s.acked[cpu], kept)], acked := s.acked[cpu := |s.log|])
  }

  ghost function Polled(tlb: map<int, Frame>, log: seq<Record>, from: nat, kept: set<int>): map<int, Frame> {
    map p | p in tlb && p in kept && !Invalidated(log, from, p) :: tlb[p]
  }

  ghost predicate Next(s: State, t: State) {
    || (exists start, n :: Reserve(s, t, start, n))
    || (exists page :: ReserveSlab(s, t, page))
    || (exists start :: Clear(s, t, start))
    || (exists page, frame :: MapPage(s, t, page, frame))
    || (exists page, cpu :: Rollback(s, t, page, cpu))
    || (exists start :: CommitLarge(s, t, start))
    || (exists page, cpu :: ReleaseSlab(s, t, page, cpu))
    || FlushPending(s, t)
    || (exists start :: LargeBegin(s, t, start))
    || (exists cpu :: LargeTake(s, t, cpu))
    || LargeEnd(s, t)
    || Publish(s, t)
    || Quarantine(s, t)
    || FlushAll(s, t)
    || (exists sequence :: Resequence(s, t, sequence))
    || Reclaim(s, t)
    || (exists cpu, page :: Fill(s, t, cpu, page))
    || (exists cpu, kept :: Poll(s, t, cpu, kept))
  }

  // ---------------------------------------------------------------- invariants of the metadata

  /** Page `q` continues the run of the page before it. */
  ghost predicate Joined(pages: seq<Meta>, q: int) {
    0 < q < |pages| && pages[q - 1].Occupied() && q < End(pages, q - 1)
  }

  /** A page that continues a run is occupied and ends where the run ends. */
  ghost predicate RunOk(pages: seq<Meta>, q: int)
    requires 0 <= q < |pages|
  {
    && (pages[q].Occupied() ==> End(pages, q) <= |pages|)
    && (Joined(pages, q) ==>
          && pages[q].Occupied() && End(pages, q) == End(pages, q - 1)
          && (IsLarge(pages[q - 1].kind) ==> pages[q].kind == LargeTail))
  }

  ghost predicate RunsClosed(pages: seq<Meta>) {
    forall q :: 0 <= q < |pages| ==> RunOk(pages, q)
  }

  /** The first page of a run does not continue another. */
  ghost predicate HeadOk(pages: seq<Meta>, heads: set<int>, h: int) {
    && (h in heads ==> 0 <= h < |pages| && pages[h].Occupied() && !Joined(pages, h))
    && (0 <= h < |pages| && pages[h].kind == LargeHead ==> h in heads)
  }

  ghost predicate HeadsClear(pages: seq<Meta>, heads: set<int>) {
    forall h :: HeadOk(pages, heads, h)
  }

  /** Everything inside an occupied page's span belongs to its run. */
  lemma {:induction false} Chain(pages: seq<Meta>, p: nat, q: nat)
    requires RunsClosed(pages) && p < |pages| && pages[p].Occupied() && p <= q < End(pages, p)
    ensures q < |pages| && pages[q].Occupied() && End(pages, q) == End(pages, p)
    ensures p < q ==> Joined(pages, q)
    ensures p < q && IsLarge(pages[p].kind) ==> pages[q].kind == LargeTail
    decreases q - p
  {
    assert RunOk(pages, p);
    if p < q {
      Chain(pages, p, q - 1);
      assert RunOk(pages, q);
    }
  }

  /** The search for free runs may rely on the stored spans. */
  lemma SpansAreClosed(pages: seq<Meta>)
    requires RunsClosed(pages)
    ensures SpansClosed(pages)
  {
    forall p, q | 0 <= p < q < |pages| && pages[p].Occupied() && q < End(pages, p) ensures pages[q].Occupied() {
      Chain(pages, p, q);
    }
  }

  lemma ReservedRuns(pages: seq<Meta>, heads: set<int>, start: nat, n: nat)
    requires RunsClosed(pages) && HeadsClear(pages, heads) && n > 0 && AllFree(pages, start, start + n)
    ensures RunsClosed(Reserved(pages, start, n)) && HeadsClear(Reserved(pages, start, n), heads + {start})
  {
    var t := Reserved(pages, start, n);
    forall q | 0 <= q < |t| ensures RunOk(t, q) {
      assert RunOk(pages, q);
    }
    forall h ensures HeadOk(t, heads + {start}, h) {
      assert HeadOk(pages, heads, h);
      assert 0 <= h < |pages| ==> RunOk(pages, h);
    }
  }

  lemma SlabRuns(pages: seq<Meta>, heads: set<int>, p: nat)
    requires RunsClosed(pages) && HeadsClear(pages, heads) && AllFree(pages, p, p + 1)
    ensures RunsClosed(pages[p := Meta(Busy, 1)]) && HeadsClear(pages[p := Meta(Busy, 1)], heads + {p})
  {
    var t := pages[p := Meta(Busy, 1)];
    forall q | 0 <= q < |t| ensures RunOk(t, q) {
      assert RunOk(pages, q);
    }
    forall h ensures HeadOk(t, heads + {p}, h) {
      assert HeadOk(pages, heads, h);
      assert 0 <= h < |pages| ==> RunOk(pages, h);
    }
  }

  lemma ClearedRuns(pages: seq<Meta>, heads: set<int>, start: nat)
    requires RunsClosed(pages) && HeadsClear(pages, heads) && start in heads && HeadOk(pages, heads, start)
    ensures var t := Freed(pages, start, End(pages, start) - start);
            RunsClosed(t) && HeadsClear(t, heads - {start})
  {
    var e := End(pages, start);
    var t := Freed(pages, start, e - start);
    Chain(pages, start, e - 1);
    forall q | 0 <= q < |t| ensures RunOk(t, q) {
      assert RunOk(pages, q);
      if start < q < e {
        Chain(pages, start, q);
      }
    }
    forall h ensures HeadOk(t, heads - {start}, h) {
      assert HeadOk(pages, heads, h);
      if start < h < e {
        Chain(pages, start, h);
      }
    }
  }

  lemma CommittedRuns(pages: seq<Meta>, heads: set<int>, start: nat)
    requires RunsClosed(pages) && HeadsClear(pages, heads) && start in heads && HeadOk(pages, heads, start)
    ensures var t := Committed(pages, start, End(pages, start));
            && RunsClosed(t) && HeadsClear(t, heads)
            && forall q :: Joined(t, q) <==> Joined(pages, q)
  {
    var e := End(pages, start);
    var t := Committed(pages, start, e);
    forall q ensures Joined(t, q) <==> Joined(pages, q) {
      if start < q <= e {
        Chain(pages, start, q - 1);
      }
    }
    forall q | 0 <= q < |t| ensures RunOk(t, q) {
      assert RunOk(pages, q);
      if start <= q < e {
        Chain(pages, start, q);
      }
      if start < q <= e {
        Chain(pages, start, q - 1);
      }
    }
    forall h ensures HeadOk(t, heads, h) {
      assert HeadOk(pages, heads, h);
      assert 0 <= h < |pages| ==> RunOk(pages, h);
    }
  }

  /** Changing the kind of a page but not its span keeps every run. */
  lemma RetiredRuns(pages: seq<Meta>, heads: set<int>, p: nat, span: nat)
    requires RunsClosed(pages) && HeadsClear(pages, heads) && p < |pages| && pages[p].Occupied()
    requires span >= 1 && End(pages, p) == p + span
    requires Joined(pages, p) ==> !IsLarge(pages[p - 1].kind)
    ensures var t := pages[p := Meta(Retired, span)];
            && RunsClosed(t) && HeadsClear(t, heads)
            && forall q :: Joined(t, q) <==> Joined(pages, q)
  {
    var t := pages[p := Meta(Retired, span)];
    forall q ensures Joined(t, q) <==> Joined(pages, q) {
    }
    forall q | 0 <= q < |t| ensures RunOk(t, q) {
      assert RunOk(pages, q);
    }
    forall h ensures HeadOk(t, heads, h) {
      assert HeadOk(pages, heads, h);
    }
  }

  lemma FreedRuns(pages: seq<Meta>, heads: set<int>, p: nat)
    requires RunsClosed(pages) && HeadsClear(pages, heads) && p < |pages| && !Joined(pages, p)
    requires pages[p].kind == Retired
    ensures var t := pages[p := FREE];
            && RunsClosed(t) && HeadsClear(t, heads - {p})
            && forall q :: Joined(t, q) ==> Joined(pages, q)
  {
    var t := pages[p := FREE];
    forall q ensures Joined(t, q) ==> Joined(pages, q) {
    }
    forall q | 0 <= q < |t| ensures RunOk(t, q) {
      assert RunOk(pages, q);
    }
    forall h ensures HeadOk(t, heads - {p}, h) {
      assert HeadOk(pages, heads, h);
    }
  }

  // ---------------------------------------------------------------- invariants of the lists

  ghost predicate Listed(items: seq<Item>, p: int) {
    exists k :: 0 <= k < |items| && items[k].page == p
  }

  /** A listed page keeps its span, and is listed after the page whose run it continues. */
  ghost predicate ItemOk(pages: seq<Meta>, items: seq<Item>, k: int)
    requires 0 <= k < |items|
  {
    var p := items[k].page;
    && 0 <= p < |pages| && items[k].span >= 1 && End(pages, p) == p + items[k].span
    && (pages[p].kind == Retired || IsLarge(pages[p].kind))
    && (Joined(pages, p) ==> Listed(items[..k], p - 1))
  }

  ghost predicate ItemsOk(pages: seq<Meta>, items: seq<Item>) {
    forall k :: 0 <= k < |items| ==> ItemOk(pages, items, k)
  }

  ghost predicate AllRetired(pages: seq<Meta>, items: seq<Item>) {
    forall k :: 0 <= k < |items| ==> 0 <= items[k].page < |pages| && pages[items[k].page].kind == Retired
  }

  /** A retired page is listed; a large page is mapped or in the batch being retired. */
  ghost predicate PageOk(s: State, p: int) {
    0 <= p < |s.pages| ==>
      && (s.pages[p].kind == Retired ==> Listed(s.Items(), p))
      && (IsLarge(s.pages[p].kind) ==> p in s.table || Listed(s.batch, p))
  }

  ghost predicate Lists(s: State) {
    && ItemsOk(s.pages, s.Items())
    && AllRetired(s.pages, s.ring) && AllRetired(s.pages, s.pending)
    && (forall k :: 0 <= k < |s.pending| ==> s.pending[k].page in s.heads)
    && (forall p :: PageOk(s, p))
  }

  /** The pages a large deallocation in progress has not taken yet are one mapped tail of a run. */
  ghost predicate LargeRest(s: State) {
    s.large.Some? ==>
      var (n, e) := s.large.value;
      && 0 <= n <= e <= |s.pages| && s.pending == []
      && (forall q :: n <= q < e ==> q in s.table && IsLarge(s.pages[q].kind) && End(s.pages, q) == e)
      && (n < e && Joined(s.pages, n) ==> Listed(s.Items(), n - 1))
  }

  ghost predicate Metadata(s: State) {
    RunsClosed(s.pages) && HeadsClear(s.pages, s.heads) && Lists(s) && LargeRest(s)
  }

  /** `after` changes no retired or large page and lets no such page continue a run it did not continue. */
  ghost predicate Untouched(before: seq<Meta>, after: seq<Meta>) {
    && |after| == |before|
    && forall p :: 0 <= p < |before| && (before[p].kind == Retired || IsLarge(before[p].kind)) ==>
         after[p] == before[p] && (Joined(after, p) ==> Joined(before, p))
  }

  /** Steps that only change pages that are neither retired nor large keep the lists. */
  lemma ListsFrame(s: State, t: State)
    requires Lists(s) && LargeRest(s) && t == s.(pages := t.pages, heads := t.heads) && Untouched(s.pages, t.pages)
    requires forall p :: 0 <= p < |t.pages| && t.pages[p] != s.pages[p] ==>
               t.pages[p].kind != Retired && (IsLarge(t.pages[p].kind) ==> p in t.table)
    requires forall k :: 0 <= k < |s.pending| ==> s.pending[k].page in t.heads
    ensures Lists(t) && LargeRest(t)
  {
    forall k | 0 <= k < |t.Items()| ensures ItemOk(t.pages, t.Items(), k) {
      assert ItemOk(s.pages, s.Items(), k);
    }
    forall p ensures PageOk(t, p) {
      assert PageOk(s, p);
    }
  }

  lemma ReserveKeeps(s: State, t: State, start: nat, n: nat)
    requires Metadata(s) && Reserve(s, t, start, n)
    ensures Metadata(t)
  {
    ReservedRuns(s.pages, s.heads, start, n);
    forall p | 0 <= p < |s.pages| && (s.pages[p].kind == Retired || IsLarge(s.pages[p].kind))
      ensures t.pages[p] == s.pages[p] && (Joined(t.pages, p) ==> Joined(s.pages, p))
    {
    }
    ListsFrame(s, t);
  }

  lemma ReserveSlabKeeps(s: State, t: State, page: nat)
    requires Metadata(s) && ReserveSlab(s, t, page)
    ensures Metadata(t)
  {
    SlabRuns(s.pages, s.heads, page);
    ListsFrame(s, t);
  }

  lemma ClearKeeps(s: State, t: State, start: nat)
    requires Metadata(s) && Clear(s, t, start)
    ensures Metadata(t)
  {
    assert HeadOk(s.pages, s.heads, start);
    ClearedRuns(s.pages, s.heads, start);
    assert RunOk(s.pages, start);
    ListsFrame(s, t);
  }

  lemma CommitLargeKeeps(s: State, t: State, start: nat)
    requires Metadata(s) && CommitLarge(s, t, start)
    ensures Metadata(t)
  {
    assert HeadOk(s.pages, s.heads, start);
    CommittedRuns(s.pages, s.heads, start);
    assert RunOk(s.pages, start);
    ListsFrame(s, t);
  }

  lemma MapPageKeeps(s: State, t: State, page: nat, frame: Frame)
    requires Metadata(s) && MapPage(s, t, page, frame)
    ensures Metadata(t)
  {
    forall p ensures PageOk(t, p) {
      assert PageOk(s, p);
    }
  }

  lemma ReleaseSlabKeeps(s: State, t: State, page: nat, cpu: nat)
    requires Metadata(s) && ReleaseSlab(s, t, page, cpu)
    ensures Metadata(t)
  {
    assert HeadOk(s.pages, s.heads, page);
    RetiredRuns(s.pages, s.heads, page, 1);
    var it := Item(page, s.table[page], 1, None);
    assert t.Items() == s.Items() + [it];
    forall k | 0 <= k < |t.Items()| ensures ItemOk(t.pages, t.Items(), k) {
      if k < |s.Items()| {
        assert ItemOk(s.pages, s.Items(), k);
        assert t.Items()[..k] == s.Items()[..k];
      }
    }
    forall p ensures PageOk(t, p) {
      assert PageOk(s, p);
      ListedGrows(s.Items(), it, p);
    }
  }

  lemma ListedGrows(items: seq<Item>, it: Item, p: int)
    ensures Listed(items + [it], p) <==> Listed(items, p) || it.page == p
  {
    if Listed(items, p) {
      var k :| 0 <= k < |items| && items[k].page == p;
      assert (items + [it])[k].page == p;
    }
    assert (items + [it])[|items|] == it;
  }

  lemma FlushPendingKeeps(s: State, t: State)
    requires Metadata(s) && FlushPending(s, t)
    ensures Metadata(t)
  {
    assert t.Items() == s.Items();
    forall p ensures PageOk(t, p) {
      assert PageOk(s, p);
    }
  }

  lemma LargeBeginKeeps(s: State, t: State, start: nat)
    requires Metadata(s) && LargeBegin(s, t, start)
    ensures Metadata(t)
  {
    assert t.Items() == s.Items();
    assert HeadOk(s.pages, s.heads, start);
    forall q | start <= q < End(s.pages, start)
      ensures q < |s.pages| && q in s.table && IsLarge(s.pages[q].kind) && End(s.pages, q) == End(s.pages, start)
    {
      Chain(s.pages, start, q);
      assert PageOk(s, q);
    }
    forall p ensures PageOk(t, p) {
      assert PageOk(s, p);
    }
    assert RunOk(s.pages, start);
  }

  lemma LargeTakeKeeps(s: State, t: State, cpu: nat)
    requires Metadata(s) && LargeTake(s, t, cpu)
    ensures Metadata(t)
  {
    var (n, e) := s.large.value;
    var it := Item(n, s.table[n], e - n, None);
    assert t.Items() == s.Items() + [it];
    forall k | 0 <= k < |t.Items()| ensures ItemOk(t.pages, t.Items(), k) {
      if k < |s.Items()| {
        assert ItemOk(s.pages, s.Items(), k);
        assert t.Items()[..k] == s.Items()[..k];
      } else {
        assert t.Items()[..k] == s.Items();
      }
    }
    forall p ensures PageOk(t, p) {
      assert PageOk(s, p);
      ListedGrows(s.Items(), it, p);
      ListedGrows(s.batch, it, p);
    }
    ListedGrows(s.Items(), it, n);
  }

  lemma LargeEndKeeps(s: State, t: State)
    requires Metadata(s) && LargeEnd(s, t)
    ensures Metadata(t)
  {
    forall p ensures PageOk(t, p) {
      assert PageOk(s, p);
    }
  }

  /** The same pages and spans, whatever their sequences. */
  ghost predicate SamePages(a: seq<Item>, b: seq<Item>) {
    |a| == |b| && forall k :: 0 <= k < |a| ==> a[k].page == b[k].page && a[k].span == b[k].span
  }

  lemma SameListed(a: seq<Item>, b: seq<Item>, p: int)
    requires SamePages(a, b) && Listed(a, p)
    ensures Listed(b, p)
  {
    var k :| 0 <= k < |a| && a[k].page == p;
    assert b[k].page == p;
  }

  /** Publishing or renumbering the batch does not concern the metadata. */
  lemma ResequencedKeeps(s: State, t: State)
    requires Metadata(s) && t == s.(batch := t.batch, log := t.log) && SamePages(s.batch, t.batch)
    ensures Metadata(t)
  {
    assert SamePages(s.Items(), t.Items());
    forall k | 0 <= k < |t.Items()| ensures ItemOk(t.pages, t.Items(), k) {
      assert ItemOk(s.pages, s.Items(), k);
      if Joined(t.pages, t.Items()[k].page) {
        SameListed(s.Items()[..k], t.Items()[..k], t.Items()[k].page - 1);
      }
    }
    forall p ensures PageOk(t, p) {
      assert PageOk(s, p);
      if Listed(s.Items(), p) {
        SameListed(s.Items(), t.Items(), p);
      }
      if Listed(s.batch, p) {
        SameListed(s.batch, t.batch, p);
      }
    }
    if s.large.Some? && Listed(s.Items(), s.large.value.0 - 1) {
      SameListed(s.Items(), t.Items(), s.large.value.0 - 1);
    }
  }

  lemma QuarantineKeeps(s: State, t: State)
    requires Metadata(s) && Frames(s) && Quarantine(s, t)
    ensures Metadata(t)
  {
    var it, at := s.batch[0], |s.ring|;
    var items := s.Items();
    assert t.Items() == items && items[at] == it && items[..at] == s.ring;
    assert ItemOk(s.pages, items, at) && ItemFrameOk(s, at);
    RetiredRuns(s.pages, s.heads, it.page, it.span);
    forall k | 0 <= k < |items| ensures ItemOk(t.pages, items, k) {
      assert ItemOk(s.pages, items, k);
    }
    forall p ensures PageOk(t, p) {
      assert PageOk(s, p);
      assert s.batch == [it] + s.batch[1..];
      if Listed(s.batch, p) && p != it.page {
        var k :| 0 <= k < |s.batch| && s.batch[k].page == p;
        assert s.batch[1..][k - 1].page == p;
      }
    }
  }

  /** Freeing the first listed page keeps the rest of the list in order. */
  lemma ReclaimItems(pages: seq<Meta>, items: seq<Item>)
    requires ItemsOk(pages, items) && items != [] && 0 <= items[0].page < |pages|
    requires forall k :: 0 < k < |items| ==> items[k].page != items[0].page
    requires forall q :: Joined(pages[items[0].page := FREE], q) ==> Joined(pages, q)
    ensures ItemsOk(pages[items[0].page := FREE], items[1..])
  {
    var it, t, rest := items[0], pages[items[0].page := FREE], items[1..];
    forall k | 0 <= k < |rest| ensures ItemOk(t, rest, k) {
      assert ItemOk(pages, items, k + 1) && rest[k] == items[k + 1];
      assert items[..k + 1] == [it] + rest[..k];
      ListedTail(it, rest[..k], rest[k].page - 1);
    }
  }

  /** The oldest item leaves the list, and no other item is for its page. */
  lemma ReclaimTakesFirst(s: State, t: State)
    requires Metadata(s) && Frames(s) && Reclaim(s, t)
    ensures s.Items() == [s.ring[0]] + t.Items() && t.Items() == s.Items()[1..]
    ensures forall k :: 0 <= k < |t.Items()| ==> t.Items()[k].page != s.ring[0].page
    ensures !Joined(s.pages, s.ring[0].page) && s.pages[s.ring[0].page].kind == Retired
  {
    var items := s.Items();
    assert ItemOk(s.pages, items, 0) && items[0] == s.ring[0];
    forall k | 0 <= k < |t.Items()| ensures t.Items()[k].page != s.ring[0].page {
      assert ItemFrameOk(s, k + 1) && t.Items()[k] == items[k + 1];
    }
  }

  lemma ReclaimPages(s: State, t: State)
    requires Metadata(s) && Frames(s) && Reclaim(s, t)
    ensures forall p :: PageOk(t, p)
  {
    ReclaimTakesFirst(s, t);
    forall p ensures PageOk(t, p) {
      assert PageOk(s, p);
      ListedTail(s.ring[0], t.Items(), p);
    }
  }

  lemma ReclaimLists(s: State, t: State)
    requires Metadata(s) && Frames(s) && Reclaim(s, t)
    requires forall q :: Joined(t.pages, q) ==> Joined(s.pages, q)
    ensures Lists(t)
  {
    ReclaimTakesFirst(s, t);
    ReclaimItems(s.pages, s.Items());
    forall k | 0 <= k < |t.ring| ensures t.ring[k].page != s.ring[0].page && t.ring[k] == s.ring[k + 1] {
      assert t.ring[k] == t.Items()[k];
    }
    forall k | 0 <= k < |t.pending| ensures t.pending[k].page != s.ring[0].page {
      assert t.pending[k] == t.Items()[|t.ring| + |t.batch| + k];
    }
    ReclaimPages(s, t);
  }

  lemma ReclaimLarge(s: State, t: State)
    requires Metadata(s) && Frames(s) && Reclaim(s, t)
    requires forall q :: Joined(t.pages, q) ==> Joined(s.pages, q)
    ensures LargeRest(t)
  {
    ReclaimTakesFirst(s, t);
    if s.large.Some? {
      ListedTail(s.ring[0], t.Items(), s.large.value.0 - 1);
    }
  }

  lemma ReclaimKeeps(s: State, t: State)
    requires Metadata(s) && Frames(s) && Reclaim(s, t)
    ensures Metadata(t)
  {
    ReclaimTakesFirst(s, t);
    FreedRuns(s.pages, s.heads, s.ring[0].page);
    ReclaimLists(s, t);
    ReclaimLarge(s, t);
  }

  lemma ListedTail(it: Item, rest: seq<Item>, p: int)
    ensures Listed([it] + rest, p) <==> it.page == p || Listed(rest, p)
  {
    if Listed(rest, p) {
      var k :| 0 <= k < |rest| && rest[k].page == p;
      assert ([it] + rest)[k + 1].page == p;
    }
    assert ([it] + rest)[0] == it;
  }

  // ---------------------------------------------------------------- invariants of the frames

  ghost predicate ItemFrameOk(s: State, k: int)
    requires 0 <= k < |s.Items()|
  {
    var it := s.Items()[k];
    && it.frame !in s.free && it.page !in s.table
    && (it.sequence.Some? ==> it.sequence.value <= |s.log|)
    && (forall j :: 0 <= j < k ==> s.Items()[j].page != it.page && s.Items()[j].frame != it.frame)
    && (forall p :: p in s.table ==> s.table[p] != it.frame)
  }

  /** Each frame is in one place: mapped once, listed once, or free. */
  ghost predicate Frames(s: State) {
    && (forall k :: 0 <= k < |s.Items()| ==> ItemFrameOk(s, k))
    && (forall p, q :: p in s.table && q in s.table && p != q ==> s.table[p] != s.table[q])
    && (forall p :: p in s.table ==> s.table[p] !in s.free)
    && (forall k :: 0 <= k < |s.ring| ==> s.ring[k].sequence.Some?)
  }

  /** Steps that keep the lists, the table, the records and the free frames keep the frames apart. */
  lemma FramesSame(s: State, t: State)
    requires Frames(s) && t.Items() == s.Items() && t.table == s.table && t.free == s.free && |t.log| >= |s.log|
    requires forall k :: 0 <= k < |t.ring| ==> t.ring[k].sequence.Some?
    ensures Frames(t)
  {
    forall k | 0 <= k < |t.Items()| ensures ItemFrameOk(t, k) {
      assert ItemFrameOk(s, k);
    }
  }

  lemma MapPageFrames(s: State, t: State, page: nat, frame: Frame)
    requires Metadata(s) && Frames(s) && MapPage(s, t, page, frame)
    ensures Frames(t)
  {
    assert t.Items() == s.Items();
    forall k | 0 <= k < |t.Items()| ensures ItemFrameOk(t, k) {
      assert ItemFrameOk(s, k) && ItemOk(s.pages, s.Items(), k);
    }
  }

  /** Unmapping moves a frame from the table to the end of the lists. */
  lemma UnmappedFrames(s: State, t: State, it: Item)
    requires Frames(s) && it.page in s.table && it.frame == s.table[it.page] && it.sequence.None?
    requires t.Items() == s.Items() + [it] && t.table == s.table - {it.page} && t.free == s.free
    requires t.log == s.log && t.ring == s.ring
    ensures Frames(t)
  {
    forall k | 0 <= k < |t.Items()| ensures ItemFrameOk(t, k) {
      if k < |s.Items()| {
        assert ItemFrameOk(s, k);
      } else {
        forall j | 0 <= j < k ensures s.Items()[j].page != it.page && s.Items()[j].frame != it.frame {
          assert ItemFrameOk(s, j);
        }
      }
    }
  }

  lemma ResequencedFrames(s: State, t: State)
    requires Frames(s) && t == s.(batch := t.batch, log := t.log) && |t.log| >= |s.log| && |t.batch| == |s.batch|
    requires forall k :: 0 <= k < |s.batch| ==>
               t.batch[k] == s.batch[k].(sequence := t.batch[k].sequence)
                   && (t.batch[k].sequence.Some? ==> t.batch[k].sequence.value <= |t.log|)
    ensures Frames(t)
  {
    forall k | 0 <= k < |t.Items()|
      ensures t.Items()[k] == s.Items()[k].(sequence := t.Items()[k].sequence)
      ensures t.Items()[k].sequence.Some? ==> t.Items()[k].sequence.value <= |t.log|
    {
      assert ItemFrameOk(s, k);
    }
    forall k | 0 <= k < |t.Items()| ensures ItemFrameOk(t, k) {
      assert ItemFrameOk(s, k);
    }
  }

  lemma ReclaimFrames(s: State, t: State)
    requires Frames(s) && Reclaim(s, t)
    ensures Frames(t)
  {
    var items := s.Items();
    assert items[0] == s.ring[0] && t.Items() == items[1..] && ItemFrameOk(s, 0);
    forall k | 0 <= k < |t.Items()| ensures ItemFrameOk(t, k) {
      assert ItemFrameOk(s, k + 1);
    }
  }

  // ---------------------------------------------------------------- invariants of the translations

  /** A CPU that has applied the first `a` records may still use the translation of `it`. */
  ghost predicate Lagging(log: seq<Record>, a: nat, it: Item) {
    it.sequence.Some? ==> exists r :: a <= r < it.sequence.value && r < |log| && log[r] == Page(it.page)
  }

  ghost predicate ListedEntry(s: State, c: int, p: int, f: Frame)
    requires 0 <= c < |s.acked|
  {
    exists k :: 0 <= k < |s.Items()| && s.Items()[k].page == p && s.Items()[k].frame == f
        && Lagging(s.log, s.acked[c], s.Items()[k])
  }

  /** A translation a CPU may use is in the page table, or belongs to a listed page it has not yet invalidated. */
  ghost predicate EntryOk(s: State, c: int, p: int)
    requires 0 <= c < |s.tlb| && |s.tlb| == |s.acked|
  {
    p in s.tlb[c] ==> (p in s.table && s.table[p] == s.tlb[c][p]) || ListedEntry(s, c, p, s.tlb[c][p])
  }

  ghost predicate Translations(s: State) {
    && |s.tlb| == |s.acked|
    && (forall c :: 0 <= c < |s.acked| ==> s.acked[c] <= |s.log|)
    && (forall c, p :: 0 <= c < |s.tlb| ==> EntryOk(s, c, p))
  }

  /** Steps that keep the lists, and only add to the table and to the records. */
  lemma TranslationsSame(s: State, t: State)
    requires Translations(s) && t.Items() == s.Items() && t.tlb == s.tlb && t.acked == s.acked && s.log <= t.log
    requires forall p :: p in s.table ==> p in t.table && t.table[p] == s.table[p]
    ensures Translations(t)
  {
    forall c, p | 0 <= c < |t.tlb| ensures EntryOk(t, c, p) {
      assert EntryOk(s, c, p);
      if p in s.tlb[c] && ListedEntry(s, c, p, s.tlb[c][p]) {
        var k :| 0 <= k < |s.Items()| && s.Items()[k].page == p && s.Items()[k].frame == s.tlb[c][p]
                 && Lagging(s.log, s.acked[c], s.Items()[k]);
        assert Lagging(t.log, t.acked[c], t.Items()[k]);
      }
    }
  }

  lemma UnmappedTranslations(s: State, t: State, it: Item, cpu: nat)
    requires Translations(s) && cpu < |s.tlb| && it.page in s.table && it.frame == s.table[it.page] && it.sequence.None?
    requires t.Items() == s.Items() + [it] && t.table == s.table - {it.page}
    requires t.tlb == s.tlb[cpu := s.tlb[cpu] - {it.page}] && t.acked == s.acked && t.log == s.log
    ensures Translations(t)
  {
    forall c, p | 0 <= c < |t.tlb| ensures EntryOk(t, c, p) {
      assert EntryOk(s, c, p);
      if p in t.tlb[c] {
        var f := s.tlb[c][p];
        if ListedEntry(s, c, p, f) {
          var k :| 0 <= k < |s.Items()| && s.Items()[k].page == p && s.Items()[k].frame == f
              && Lagging(s.log, s.acked[c], s.Items()[k]);
          assert t.Items()[k] == s.Items()[k];
        } else if p == it.page {
          assert t.Items()[|s.Items()|] == it && Lagging(t.log, t.acked[c], it);
        }
      }
    }
  }

  lemma PublishTranslations(s: State, t: State)
    requires Frames(s) && Translations(s) && Publish(s, t)
    ensures Translations(t)
  {
    forall c, p | 0 <= c < |t.tlb| ensures EntryOk(t, c, p) {
      assert EntryOk(s, c, p);
      if p in s.tlb[c] && ListedEntry(s, c, p, s.tlb[c][p]) {
        var k :| 0 <= k < |s.Items()| && s.Items()[k].page == p && s.Items()[k].frame == s.tlb[c][p]
                 && Lagging(s.log, s.acked[c], s.Items()[k]);
        var b := k - |s.ring|;
        if 0 <= b < |s.batch| {
          assert s.Items()[k] == s.batch[b] && t.Items()[k] == t.batch[b];
          assert t.log[|s.log| + b] == Page(p);
        } else {
          assert t.Items()[k] == s.Items()[k];
          LaggingGrows(s.log, t.log, s.acked[c], s.Items()[k]);
        }
        assert Lagging(t.log, t.acked[c], t.Items()[k]);
      }
    }
  }

  lemma LaggingGrows(log: seq<Record>, more: seq<Record>, a: nat, it: Item)
    requires Lagging(log, a, it) && log <= more
    ensures Lagging(more, a, it)
  {
    if it.sequence.Some? {
      var r :| a <= r < it.sequence.value && r < |log| && log[r] == Page(it.page);
      assert more[r] == Page(it.page);
    }
  }

  lemma ResequenceTranslations(s: State, t: State, sequence: nat)
    requires Translations(s) && Resequence(s, t, sequence)
    ensures Translations(t)
  {
    forall c, p | 0 <= c < |t.tlb| ensures EntryOk(t, c, p) {
      assert EntryOk(s, c, p);
      if p in s.tlb[c] && ListedEntry(s, c, p, s.tlb[c][p]) {
        var k :| 0 <= k < |s.Items()| && s.Items()[k].page == p && s.Items()[k].frame == s.tlb[c][p]
                 && Lagging(s.log, s.acked[c], s.Items()[k]);
        assert k != |s.ring| ==> t.Items()[k] == s.Items()[k];
        assert Lagging(t.log, t.acked[c], t.Items()[k]);
      }
    }
  }

  lemma ReclaimTranslations(s: State, t: State)
    requires Translations(s) && Reclaim(s, t)
    ensures Translations(t)
  {
    var items := s.Items();
    assert items[0] == s.ring[0] && t.Items() == items[1..];
    forall c, p | 0 <= c < |t.tlb| ensures EntryOk(t, c, p) {
      assert EntryOk(s, c, p);
      if p in s.tlb[c] && ListedEntry(s, c, p, s.tlb[c][p]) {
        var k :| 0 <= k < |items| && items[k].page == p && items[k].frame == s.tlb[c][p]
            && Lagging(s.log, s.acked[c], items[k]);
        assert t.Items()[k - 1] == items[k];
      }
    }
  }

  lemma FillTranslations(s: State, t: State, cpu: nat, page: int)
    requires Translations(s) && Fill(s, t, cpu, page)
    ensures Translations(t)
  {
    assert t.Items() == s.Items();
    forall c, p | 0 <= c < |t.tlb| ensures EntryOk(t, c, p) {
      assert EntryOk(s, c, p);
    }
  }

  lemma PollTranslations(s: State, t: State, cpu: nat, kept: set<int>)
    requires Translations(s) && Poll(s, t, cpu, kept)
    ensures Translations(t)
  {
    assert t.Items() == s.Items();
    forall c, p | 0 <= c < |t.tlb| ensures EntryOk(t, c, p) {
      assert EntryOk(s, c, p);
      if p in t.tlb[c] && ListedEntry(s, c, p, s.tlb[c][p]) {
        var k :| 0 <= k < |s.Items()| && s.Items()[k].page == p && s.Items()[k].frame == s.tlb[c][p]
                 && Lagging(s.log, s.acked[c], s.Items()[k]);
        assert Lagging(t.log, t.acked[c], t.Items()[k]);
      }
    }
  }

  // ---------------------------------------------------------------- every run

  /** What every step keeps. */
  ghost predicate Inv(s: State) {
    Metadata(s) && Frames(s)
  }

  /** What every step keeps but a rollback of a page that another CPU has loaded. */
  ghost predicate Safe(s: State) {
    Inv(s) && Translations(s)
  }

  /** The step keeps the invariant, and the translations in order if they were. */
  ghost predicate Kept(s: State, t: State) {
    Inv(t) && (Translations(s) ==> Translations(t))
  }

  ghost predicate Init(s: State) {
    && (forall p :: 0 <= p < |s.pages| ==> s.pages[p] == FREE)
    && s.heads == {} && s.large == None && s.ring == [] && s.batch == [] && s.pending == []
    && s.table == map[] && s.log == [] && |s.tlb| == |s.acked|
    && (forall c :: 0 <= c < |s.tlb| ==> s.tlb[c] == map[] && s.acked[c] == 0)
  }

  /** Steps that only change the side metadata. */
  lemma PagesStepKeeps(s: State, t: State)
    requires Inv(s) && Metadata(t) && t == s.(pages := t.pages, heads := t.heads, large := t.large)
    ensures Kept(s, t)
  {
    FramesSame(s, t);
    if Translations(s) { TranslationsSame(s, t); }
  }

  lemma UnmapStepKeeps(s: State, t: State, it: Item, cpu: nat)
    requires Inv(s) && Metadata(t) && cpu < |s.tlb|
    requires it.page in s.table && it.frame == s.table[it.page] && it.sequence.None?
    requires t.Items() == s.Items() + [it] && t.table == s.table - {it.page} && t.free == s.free && t.ring == s.ring
    requires t.tlb == s.tlb[cpu := s.tlb[cpu] - {it.page}] && t.acked == s.acked && t.log == s.log
    ensures Kept(s, t)
  {
    UnmappedFrames(s, t, it);
    if Translations(s) { UnmappedTranslations(s, t, it, cpu); }
  }

  lemma RunStepKeeps(s: State, t: State)
    requires Inv(s)
    requires || (exists start, n :: Reserve(s, t, start, n)) || (exists page :: ReserveSlab(s, t, page))
             || (exists start :: Clear(s, t, start)) || (exists start :: CommitLarge(s, t, start))
             || (exists start :: LargeBegin(s, t, start)) || LargeEnd(s, t)
    ensures Kept(s, t)
  {
    if start, n :| Reserve(s, t, start, n) {
      ReserveKeeps(s, t, start, n);
    } else if page :| ReserveSlab(s, t, page) {
      ReserveSlabKeeps(s, t, page);
    } else if start :| Clear(s, t, start) {
      ClearKeeps(s, t, start);
    } else if start :| CommitLarge(s, t, start) {
      CommitLargeKeeps(s, t, start);
    } else if start :| LargeBegin(s, t, start) {
      LargeBeginKeeps(s, t, start);
    } else {
      LargeEndKeeps(s, t);
    }
    PagesStepKeeps(s, t);
  }

  lemma TakeStepKeeps(s: State, t: State)
    requires Inv(s)
    requires (exists page, cpu :: ReleaseSlab(s, t, page, cpu)) || (exists cpu :: LargeTake(s, t, cpu))
    ensures Kept(s, t)
  {
    if page: nat, cpu: nat :| ReleaseSlab(s, t, page, cpu) {
      ReleaseSlabKeeps(s, t, page, cpu);
      var it := Item(page, s.table[page], 1, None);
      assert t.Items() == s.Items() + [it];
      UnmapStepKeeps(s, t, it, cpu);
    } else {
      var cpu :| LargeTake(s, t, cpu);
      LargeTakeKeeps(s, t, cpu);
      var (n, e) := s.large.value;
      var it := Item(n, s.table[n], e - n, None);
      assert t.Items() == s.Items() + [it];
      UnmapStepKeeps(s, t, it, cpu);
    }
  }

  lemma QueueStepKeeps(s: State, t: State)
    requires Inv(s)
    requires FlushPending(s, t) || Publish(s, t) || Quarantine(s, t) || FlushAll(s, t) || Reclaim(s, t)
             || exists sequence :: Resequence(s, t, sequence)
    ensures Kept(s, t)
  {
    if FlushPending(s, t) {
      FlushPendingKeeps(s, t);
      assert t.Items() == s.Items();
      FramesSame(s, t);
      if Translations(s) { TranslationsSame(s, t); }
    } else if Publish(s, t) {
      ResequencedKeeps(s, t);
      ResequencedFrames(s, t);
      if Translations(s) { PublishTranslations(s, t); }
    } else if Quarantine(s, t) {
      QuarantineKeeps(s, t);
      assert t.Items() == s.Items();
      FramesSame(s, t);
      if Translations(s) { TranslationsSame(s, t); }
    } else if FlushAll(s, t) {
      ResequencedKeeps(s, t);
      FramesSame(s, t);
      if Translations(s) { TranslationsSame(s, t); }
    } else if Reclaim(s, t) {
      ReclaimKeeps(s, t);
      ReclaimFrames(s, t);
      if Translations(s) { ReclaimTranslations(s, t); }
    } else {
      var sequence :| Resequence(s, t, sequence);
      ResequencedKeeps(s, t);
      BatchBounded(s);
      ResequencedFrames(s, t);
      if Translations(s) { ResequenceTranslations(s, t, sequence); }
    }
  }

  lemma BatchBounded(s: State)
    requires Frames(s)
    ensures forall k :: 0 <= k < |s.batch| && s.batch[k].sequence.Some? ==> s.batch[k].sequence.value <= |s.log|
  {
    forall k | 0 <= k < |s.batch| && s.batch[k].sequence.Some? ensures s.batch[k].sequence.value <= |s.log| {
      assert ItemFrameOk(s, |s.ring| + k) && s.Items()[|s.ring| + k] == s.batch[k];
    }
  }

  lemma CpuStepKeeps(s: State, t: State)
    requires Inv(s)
    requires (exists page, frame :: MapPage(s, t, page, frame)) || (exists cpu, page :: Fill(s, t, cpu, page))
             || (exists cpu, kept :: Poll(s, t, cpu, kept))
    ensures Kept(s, t)
  {
    if page, frame :| MapPage(s, t, page, frame) {
      MapPageKeeps(s, t, page, frame);
      MapPageFrames(s, t, page, frame);
      if Translations(s) { TranslationsSame(s, t); }
    } else {
      assert t == s.(tlb := t.tlb, acked := t.acked);
      forall p ensures PageOk(t, p) {
        assert PageOk(s, p);
      }
      FramesSame(s, t);
      if cpu, page :| Fill(s, t, cpu, page) {
        if Translations(s) { FillTranslations(s, t, cpu, page); }
      } else {
        var cpu, kept :| Poll(s, t, cpu, kept);
        if Translations(s) { PollTranslations(s, t, cpu, kept); }
      }
    }
  }

  ghost predicate Run(run: seq<State>) {
    && |run| > 0 && Init(run[0])
    && forall i :: 0 <= i < |run| - 1 ==> Next(run[i], run[i + 1])
  }

  lemma {:induction false} RunsKeep(run: seq<State>, i: nat)
    requires Run(run) && i < |run|
    ensures Inv(run[i])
  {
    if i == 0 {
      InitHolds(run[0]);
    } else {
      RunsKeep(run, i - 1);
      NextKeeps(run[i - 1], run[i]);
    }
  }

  lemma InitHolds(s: State)
    requires Init(s)
    ensures Safe(s)
  {
    forall q | 0 <= q < |s.pages| ensures RunOk(s.pages, q) {
    }
    forall h ensures HeadOk(s.pages, s.heads, h) {
    }
  }

  ghost predicate IsRollback(s: State, t: State) {
    exists page, cpu :: Rollback(s, t, page, cpu)
  }

  lemma NextKeeps(s: State, t: State)
    requires Inv(s) && Next(s, t)
    ensures Inv(t) && (Translations(s) && !IsRollback(s, t) ==> Translations(t))
  {
    if page, cpu :| Rollback(s, t, page, cpu) {
      RollbackKeeps(s, t, page, cpu);
    } else if || (exists start, n :: Reserve(s, t, start, n)) || (exists page :: ReserveSlab(s, t, page))
              || (exists start :: Clear(s, t, start)) || (exists start :: CommitLarge(s, t, start))
              || (exists start :: LargeBegin(s, t, start)) || LargeEnd(s, t) {
      RunStepKeeps(s, t);
    } else if (exists page, cpu :: ReleaseSlab(s, t, page, cpu)) || (exists cpu :: LargeTake(s, t, cpu)) {
      TakeStepKeeps(s, t);
    } else if FlushPending(s, t) || Publish(s, t) || Quarantine(s, t) || FlushAll(s, t) || Reclaim(s, t)
              || exists sequence :: Resequence(s, t, sequence) {
      QueueStepKeeps(s, t);
    } else {
      CpuStepKeeps(s, t);
    }
  }

  // ---------------------------------------------------------------- rollbacks

  /** No CPU other than the one that rolls it back has loaded the page. */
  ghost predicate Unloaded(s: State, page: int, cpu: int) {
    forall c :: 0 <= c < |s.tlb| && c != cpu ==> page !in s.tlb[c]
  }

  /** No CPU can translate a page to a frame that the physical allocator owns. */
  ghost predicate NoStaleFrame(s: State) {
    forall c, p :: 0 <= c < |s.tlb| && p in s.tlb[c] ==> s.tlb[c][p] !in s.free
  }

  lemma RollbackKeeps(s: State, t: State, page: nat, cpu: nat)
    requires Inv(s) && Rollback(s, t, page, cpu)
    ensures Inv(t)
  {
    assert t.Items() == s.Items();
    forall p ensures PageOk(t, p) {
      assert PageOk(s, p);
    }
    forall k | 0 <= k < |t.Items()| ensures ItemFrameOk(t, k) {
      assert ItemFrameOk(s, k);
    }
  }

  lemma RollbackTranslations(s: State, t: State, page: nat, cpu: nat)
    requires Translations(s) && Rollback(s, t, page, cpu) && Unloaded(s, page, cpu)
    ensures Translations(t)
  {
    assert t.Items() == s.Items();
    forall c, p | 0 <= c < |t.tlb| ensures EntryOk(t, c, p) {
      assert EntryOk(s, c, p);
    }
  }

  lemma SafeHasNoStaleFrame(s: State)
    requires Safe(s)
    ensures NoStaleFrame(s)
  {
    forall c, p | 0 <= c < |s.tlb| && p in s.tlb[c] ensures s.tlb[c][p] !in s.free {
      assert EntryOk(s, c, p);
      if ListedEntry(s, c, p, s.tlb[c][p]) {
        var k :| 0 <= k < |s.Items()| && s.Items()[k].page == p && s.Items()[k].frame == s.tlb[c][p]
                 && Lagging(s.log, s.acked[c], s.Items()[k]);
        assert ItemFrameOk(s, k);
      }
    }
  }

  /** After a rollback no CPU translates to a free frame if and only if no other CPU had loaded the page. */
  lemma RollbackExact(s: State, t: State, page: nat, cpu: nat)
    requires Safe(s) && Rollback(s, t, page, cpu)
    ensures NoStaleFrame(t) <==> Unloaded(s, page, cpu)
    ensures NoStaleFrame(t) <==> Translations(t)
  {
    RollbackKeeps(s, t, page, cpu);
    if Unloaded(s, page, cpu) {
      RollbackTranslations(s, t, page, cpu);
      SafeHasNoStaleFrame(t);
    } else {
      var c :| 0 <= c < |s.tlb| && c != cpu && page in s.tlb[c];
      assert EntryOk(s, c, page) && t.Items() == s.Items();
      forall k | 0 <= k < |s.Items()| ensures s.Items()[k].page != page {
        assert ItemFrameOk(s, k);
      }
      assert !EntryOk(t, c, page);
      assert page in t.tlb[c] && t.tlb[c][page] in t.free;
    }
  }

  /** A page that was just mapped has been loaded by nobody, so it may be rolled back. */
  lemma MappedIsUnloaded(s: State, t: State, page: nat, frame: Frame, cpu: nat)
    requires Safe(s) && MapPage(s, t, page, frame)
    ensures Unloaded(t, page, cpu)
  {
    forall c | 0 <= c < |s.tlb| ensures page !in s.tlb[c] {
      assert EntryOk(s, c, page);
      forall k | 0 <= k < |s.Items()| ensures s.Items()[k].page != page {
        assert ItemOk(s.pages, s.Items(), k);
      }
    }
  }

  /** If the step rolls a page back, no other CPU had loaded it. */
  ghost predicate CleanStep(s: State, t: State) {
    forall page: nat, cpu: nat :: Rollback(s, t, page, cpu) ==> Unloaded(s, page, cpu)
  }

  lemma {:induction false} CleanRunsAreSafe(run: seq<State>, i: nat)
    requires Run(run) && i < |run| && forall j :: 0 <= j < i ==> CleanStep(run[j], run[j + 1])
    ensures Safe(run[i])
  {
    if i == 0 {
      InitHolds(run[0]);
    } else {
      CleanRunsAreSafe(run, i - 1);
      var s, t := run[i - 1], run[i - 1 + 1];
      NextKeeps(s, t);
      if page: nat, cpu: nat :| Rollback(s, t, page, cpu) {
        assert CleanStep(s, t);
        RollbackTranslations(s, t, page, cpu);
      }
    }
  }

  /** Over any run, no CPU ever translates to a frame that the physical allocator owns if and only if each
      page that was rolled back had been loaded by no other CPU. */
  lemma FreeFramesUnreachable(run: seq<State>)
    requires Run(run)
    ensures (forall i :: 0 <= i < |run| ==> NoStaleFrame(run[i])) <==>
            (forall i :: 0 <= i < |run| - 1 ==> CleanStep(run[i], run[i + 1]))
  {
    if forall i :: 0 <= i < |run| - 1 ==> CleanStep(run[i], run[i + 1]) {
      forall i | 0 <= i < |run| ensures NoStaleFrame(run[i]) {
        CleanRunsAreSafe(run, i);
        SafeHasNoStaleFrame(run[i]);
      }
    } else {
      var i :| 0 <= i < |run| - 1 && !CleanStep(run[i], run[i + 1]);
      var j := FirstUnclean(run, i);
      CleanRunsAreSafe(run, j);
      var page: nat, cpu: nat :| Rollback(run[j], run[j + 1], page, cpu) && !Unloaded(run[j], page, cpu);
      RollbackExact(run[j], run[j + 1], page, cpu);
      assert !NoStaleFrame(run[j + 1]);
    }
  }

  lemma {:induction false} FirstUnclean(run: seq<State>, i: nat) returns (j: nat)
    requires i < |run| - 1 && !CleanStep(run[i], run[i + 1])
    ensures j <= i && !CleanStep(run[j], run[j + 1]) && forall k :: 0 <= k < j ==> CleanStep(run[k], run[k + 1])
  {
    if k :| 0 <= k < i && !CleanStep(run[k], run[k + 1]) {
      j := FirstUnclean(run, k);
    } else {
      j := i;
    }
  }

  /** In every run, rollbacks included, the page table maps no page to a free frame. */
  lemma MappedFramesAreNotFree(run: seq<State>, i: nat, p: int)
    requires Run(run) && i < |run| && p in run[i].table
    ensures run[i].table[p] !in run[i].free
  {
    RunsKeep(run, i);
  }

  /** A rollback can leave a stale translation: on any heap with two pages, a free frame and a second CPU, that CPU
      may load the first page of a run which has been mapped, and is taken back when the second cannot be mapped. */
  lemma RollbackCanLeaveStaleFrame(s: State, frame: Frame) returns (run: seq<State>)
    requires Init(s) && |s.pages| > 1 && |s.tlb| > 1 && frame in s.free
    ensures Run(run) && |run| == 5 && run[0] == s && Rollback(run[3], run[4], 0, 0)
    ensures !NoStaleFrame(run[4])
  {
    var s1 := s.(pages := Reserved(s.pages, 0, 2), heads := s.heads + {0});
    var s2 := s1.(table := s1.table[0 := frame], free := s1.free - {frame});
    var s3 := s2.(tlb := s2.tlb[1 := s2.tlb[1][0 := frame]]);
    var s4 := s3.(table := s3.table - {0}, tlb := s3.tlb[0 := s3.tlb[0] - {0}], free := s3.free + {frame});
    run := [s, s1, s2, s3, s4];
    assert Reserve(s, s1, 0, 2) && MapPage(s1, s2, 0, frame) && Fill(s2, s3, 1, 0) && Rollback(s3, s4, 0, 0);
    assert 0 in s4.tlb[1] && s4.tlb[1][0] in s4.free;
  }

  /** Draining after a full flush needs no check: once every CPU has applied the flush, every page
      queued before it may be reclaimed. */
  lemma DrainAfterFlush(run: seq<State>, i: nat, t: State, u: State)
    requires Run(run) && i < |run| && FlushAll(run[i], t)
    requires u.ring == run[i].ring && forall c :: 0 <= c < |u.acked| ==> |t.log| <= u.acked[c]
    ensures forall k, c :: 0 <= k < |u.ring| && 0 <= c < |u.acked| ==>
              u.ring[k].sequence.Some? && u.ring[k].sequence.value <= u.acked[c]
  {
    RunsKeep(run, i);
    forall k | 0 <= k < |u.ring| ensures u.ring[k].sequence.Some? && u.ring[k].sequence.value <= |run[i].log| {
      assert ItemFrameOk(run[i], k) && run[i].Items()[k] == u.ring[k];
    }
  }

  /** In every state of every run no free page lies inside an occupied page's span. */
  lemma SearchSpansClosed(run: seq<State>, i: nat)
    requires Run(run) && i < |run|
    ensures SpansClosed(run[i].pages)
  {
    RunsKeep(run, i);
    SpansAreClosed(run[i].pages);
  }

  /** While no batch is being published, a page is retired exactly when it is queued, and then in one
      place: once in the ring or once in the pending list. */
  lemma RetiredExactlyOnce(run: seq<State>, i: nat, p: int)
    requires Run(run) && i < |run| && run[i].batch == [] && 0 <= p < |run[i].pages|
    ensures var s := run[i];
            && (s.pages[p].kind == Retired <==> Listed(s.ring + s.pending, p))
            && forall j, k :: 0 <= j < k < |s.ring + s.pending| ==>
                (s.ring + s.pending)[j].page != (s.ring + s.pending)[k].page
  {
    RunsKeep(run, i);
    var s := run[i];
    assert s.Items() == s.ring + s.pending;
    assert PageOk(s, p);
    forall k | 0 <= k < |s.Items()|
      ensures s.pages[s.Items()[k].page].kind == Retired
      ensures forall j :: 0 <= j < k ==> s.Items()[j].page != s.Items()[k].page
    {
      assert ItemFrameOk(s, k) && ItemOk(s.pages, s.Items(), k);
      assert k < |s.ring| ==> s.Items()[k] == s.ring[k];
      assert k >= |s.ring| ==> s.Items()[k] == s.pending[k - |s.ring|];
    }
  }

  // ---------------------------------------------------------------- the ring of the arena

  /** The entries of the ring stand for the queue of the state machine. */
  ghost predicate Mirrors(entries: seq<RetiredPage>, ring: seq<Item>) {
    && |entries| == |ring|
    && forall k :: 0 <= k < |ring| ==>
         && entries[k].page == ring[k].page && entries[k].frame == ring[k].frame
         && ring[k].sequence == Some(entries[k].sequence)
  }

  /** A push is the quarantine step of the machine; it is refused exactly when that step is not enabled. */
  method Enqueue(q: RetireRing, entry: RetiredPage, ghost s: State) returns (pushed: bool)
    requires q.Valid() && Mirrors(q.Queue(), s.ring) && s.batch != [] && Mirrors([entry], [s.batch[0]])
    modifies q, q.entries
    ensures q.Valid() && pushed == (|s.ring| < TLB_RETIRE_CAPACITY)
    ensures Mirrors(q.Queue(), if pushed then s.ring + [s.batch[0]] else s.ring)
  {
    assert [entry][0] == entry;
    pushed := q.Push(entry);
  }

  /** Takes the oldest entry if every CPU has applied `applied` and that covers it; then the machine may reclaim. */
  method Collect(q: RetireRing, applied: nat, ghost s: State) returns (r: Option<RetiredPage>)
    requires q.Valid() && Mirrors(q.Queue(), s.ring) && forall c :: 0 <= c < |s.acked| ==> applied <= s.acked[c]
    modifies q
    ensures q.Valid() && (r.Some? ==> s.ring != [])
    ensures Mirrors(q.Queue(), if r.Some? then s.ring[1..] else s.ring)
    ensures r.Some? ==> && r.value.frame == s.ring[0].frame && r.value.page == s.ring[0].page
                        && s.ring[0].sequence.Some?
                        && forall c :: 0 <= c < |s.acked| ==> s.ring[0].sequence.value <= s.acked[c]
    ensures r.None? ==> s.ring == [] || (s.ring[0].sequence.Some? && s.ring[0].sequence.value > applied)
  {
    r := q.Peek();
    if r.Some? {
      if r.value.sequence > applied {
        r := None;
      } else {
        r := q.Pop();
      }
    }
  }
}

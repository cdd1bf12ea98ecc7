/** Side metadata of the heap window and the first-fit search for a run of free pages.

    Every occupied page stores how many occupied pages follow it, and the search skips by that
    span.  The search is exact as long as no free page lies inside an occupied page's span. */
module HeapPages {
  import opened Common
  import opened Arith

  const HEAP_PAGES: nat := 0x10_0000

  datatype Kind = Free | Busy | LargeHead | LargeTail | Retired

  datatype Meta = Meta(kind: Kind, aux: nat) {
    predicate Occupied() {
      kind != Free
    }

    /** How far a search may skip from this page. */
    function Span(): nat {
      match kind
      case Free => 1
      case _ => if aux > 1 then aux else 1
    }
  }

  const FREE := Meta(Free, 0)

  /** One past the last page that page `p` says is occupied. */
  function End(pages: seq<Meta>, p: nat): nat
    requires p < |pages|
  {
    p + pages[p].Span()
  }

  /** No free page lies inside an occupied page's span. */
  ghost predicate SpansClosed(pages: seq<Meta>) {
    forall p, q :: 0 <= p < q < |pages| && pages[p].Occupied() && q < End(pages, p) ==> pages[q].Occupied()
  }

  /** The smallest multiple of `align` that is at least `value`. */
  function AlignUp(value: nat, align: nat): (r: nat)
    requires align > 0
    ensures value <= r < value + align && r % align == 0
  {
    var k := (value + (align - 1)) / align;
    DivModUnique(k * align, k, 0, align);
    k * align
  }

  lemma AlignUpLeast(value: nat, align: nat, c: nat)
    requires align > 0 && value <= c && c % align == 0
    ensures AlignUp(value, align) <= c
  {
    DivModUnique(c + (align - 1), c / align, align - 1, align);
    DivMonotone(value + (align - 1), c + (align - 1), align);
    MulMonotone((value + (align - 1)) / align, c / align, align);
  }

  /** An aligned run of `n` free pages at `c` inside `[lo, hi)`. */
  ghost predicate Fits(pages: seq<Meta>, lo: nat, hi: nat, n: nat, align: nat, c: nat)
    requires align > 0
  {
    && lo <= c && c + n <= hi && hi <= |pages| && c % align == 0
    && forall p :: c <= p < c + n ==> !pages[p].Occupied()
  }

  /** What a page-by-page scan would return: the lowest fitting run, or none when nothing fits. */
  ghost predicate LowestFit(pages: seq<Meta>, lo: nat, hi: nat, n: nat, align: nat, r: Option<nat>)
    requires align > 0
  {
    match r
    case Some(c) => Fits(pages, lo, hi, n, align, c) && forall d :: lo <= d < c ==> !Fits(pages, lo, hi, n, align, d)
    case None => forall d :: lo <= d ==> !Fits(pages, lo, hi, n, align, d)
  }

  /** Skipping from an occupied `probe` by its span passes over no fitting run. */
  lemma SkipIsSafe(pages: seq<Meta>, lo: nat, hi: nat, n: nat, align: nat, idx: nat, probe: nat, d: nat)
    requires align > 0 && n > 0 && SpansClosed(pages) && hi <= |pages|
    requires idx <= probe < idx + n && probe < |pages| && pages[probe].Occupied()
    requires idx <= d < AlignUp(End(pages, probe), align)
    ensures !Fits(pages, lo, hi, n, align, d)
  {
    if d >= End(pages, probe) && d % align == 0 {
      AlignUpLeast(End(pages, probe), align, d);
    } else if probe < d < End(pages, probe) && d < |pages| {
      assert pages[d].Occupied();
    }
  }

  /** A fitting run of the whole window lies in one of the two search windows unless it straddles the hint. */
  lemma WindowsCover(pages: seq<Meta>, hint: nat, n: nat, align: nat)
    requires align > 0 && hint <= |pages|
    ensures forall d: nat :: (Fits(pages, 0, |pages|, n, align, d) && !(d < hint < d + n)) <==>
                        (Fits(pages, hint, |pages|, n, align, d) || Fits(pages, 0, hint, n, align, d))
  {
  }

  /** Whatever the hint, a run can be missed: if the only free pages are the one before the hint and the one
      at it, neither window holds the run of two that they are. */
  lemma StraddlingRunIsMissed(pages: seq<Meta>, hint: nat)
    requires |pages| == HEAP_PAGES && 0 < hint < HEAP_PAGES
    requires forall i :: 0 <= i < HEAP_PAGES ==> (pages[i].Occupied() <==> i != hint - 1 && i != hint)
    ensures Fits(pages, 0, HEAP_PAGES, 2, 1, hint - 1)
    ensures LowestFit(pages, hint, HEAP_PAGES, 2, 1, None) && LowestFit(pages, 0, hint, 2, 1, None)
  {
    forall d: nat ensures !Fits(pages, hint, HEAP_PAGES, 2, 1, d) && !Fits(pages, 0, hint, 2, 1, d) {
      assert d + 2 <= HEAP_PAGES ==> pages[d].Occupied() || pages[d + 1].Occupied() || d == hint - 1;
    }
  }

  /** `pages` with `[start, start + n)` reserved as one run. */
  ghost function Reserved(pages: seq<Meta>, start: nat, n: nat): (r: seq<Meta>)
    ensures |r| == |pages|
    ensures forall i :: 0 <= i < |r| ==> r[i] == if start <= i < start + n then Meta(Busy, start + n - i) else pages[i]
  {
    seq(|pages|, i requires 0 <= i < |pages| => if start <= i < start + n then Meta(Busy, start + n - i) else pages[i])
  }

  /** `pages` with `[start, start + n)` free. */
  ghost function Freed(pages: seq<Meta>, start: nat, n: nat): (r: seq<Meta>)
    ensures |r| == |pages|
    ensures forall i :: 0 <= i < |r| ==> r[i] == if start <= i < start + n then FREE else pages[i]
  {
    seq(|pages|, i requires 0 <= i < |pages| => if start <= i < start + n then FREE else pages[i])
  }

  class HeapArena {
    var searchHint: nat
    var pages: seq<Meta>

    /** First-fit search of `[start, end)`, skipping by stored spans. */
    method FindRunRange(start: nat, end: nat, n: nat, align: nat) returns (r: Option<nat>)
      requires align > 0 && n > 0 && end <= |pages| && SpansClosed(pages)
      ensures LowestFit(pages, start, end, n, align, r)
    {
      var idx := AlignUp(start, align);
      forall d | start <= d < idx ensures !Fits(pages, start, end, n, align, d) {
        if Fits(pages, start, end, n, align, d) {
          AlignUpLeast(start, align, d);
        }
      }
      while idx + n <= end
        invariant start <= idx && idx % align == 0
        invariant forall d :: start <= d < idx ==> !Fits(pages, start, end, n, align, d)
        decreases end - idx
      {
        var blocked := None;
        var probe := idx;
        while probe < idx + n && blocked.None?
          invariant idx <= probe <= idx + n
          invariant forall p :: idx <= p < probe ==> !pages[p].Occupied()
          invariant blocked.Some? ==> blocked.value == probe < idx + n && pages[probe].Occupied()
          decreases idx + n - probe, blocked.None?
        {
          if pages[probe].Occupied() {
            blocked := Some(probe);
          } else {
            probe := probe + 1;
          }
        }
        if blocked.None? {
          return Some(idx);
        }
        var next := AlignUp(probe + pages[probe].Span(), align);
        forall d | idx <= d < next ensures !Fits(pages, start, end, n, align, d) {
          SkipIsSafe(pages, start, end, n, align, idx, probe, d);
        }
        idx := next;
      }
      return None;
    }

    /** Searches from the hint to the end and then below the hint.  A run that straddles the hint is not
        found: the result is none exactly when neither window holds a fitting run. */
    method FindRun(hint: nat, n: nat, align: nat) returns (r: Option<nat>)
      requires align > 0 && n > 0 && hint <= |pages| && SpansClosed(pages)
      ensures r.None? <==> forall d: nat :: Fits(pages, 0, |pages|, n, align, d) ==> d < hint < d + n
      ensures r.Some? ==>
                || LowestFit(pages, hint, |pages|, n, align, r)
                || (LowestFit(pages, hint, |pages|, n, align, None) && LowestFit(pages, 0, hint, n, align, r))
    {
      r := FindRunRange(hint, |pages|, n, align);
      if r.None? {
        r := FindRunRange(0, hint, n, align);
      }
      WindowsCover(pages, hint, n, align);
    }

    /** Reserves a run of `n` pages: each records how far the run still goes. */
    method ReserveRun(n: nat, align: nat) returns (r: Option<nat>)
      requires align > 0 && |pages| == HEAP_PAGES && searchHint <= HEAP_PAGES && SpansClosed(pages)
      modifies this
      ensures |pages| == HEAP_PAGES && searchHint <= HEAP_PAGES
      ensures r.None? ==> pages == old(pages) && searchHint == old(searchHint)
      ensures r.Some? ==>
                && n > 0 && Fits(old(pages), 0, HEAP_PAGES, n, align, r.value)
                && pages == Reserved(old(pages), r.value, n) && searchHint == r.value + n
                && (|| LowestFit(old(pages), old(searchHint), HEAP_PAGES, n, align, r)
                    || (&& LowestFit(old(pages), old(searchHint), HEAP_PAGES, n, align, None)
                        && LowestFit(old(pages), 0, old(searchHint), n, align, r)))
      ensures r.None? && 0 < n <= HEAP_PAGES ==>
                forall d: nat :: Fits(pages, 0, HEAP_PAGES, n, align, d) ==> d < searchHint < d + n
    {
      if n == 0 || n > HEAP_PAGES {
        return None;
      }
      r := FindRun(searchHint, n, align);
      if r.None? {
        return;
      }
      var start := r.value;
      for idx := start to start + n
        invariant |pages| == HEAP_PAGES
        invariant forall i :: 0 <= i < HEAP_PAGES ==>
                    pages[i] == if start <= i < idx then Meta(Busy, start + n - i) else old(pages)[i]
      {
        pages := pages[idx := Meta(Busy, start + n - idx)];
      }
      searchHint := start + n;
    }

    /** Gives a reserved run back. */
    method ClearRun(start: nat, n: nat)
      requires |pages| == HEAP_PAGES && start + n <= HEAP_PAGES
      modifies this
      ensures pages == Freed(old(pages), start, n)
      ensures searchHint == if start < old(searchHint) then start else old(searchHint)
    {
      for idx := start to start + n
        invariant |pages| == HEAP_PAGES && searchHint == old(searchHint)
        invariant forall i :: 0 <= i < HEAP_PAGES ==> pages[i] == if start <= i < idx then FREE else old(pages)[i]
      {
        pages := pages[idx := FREE];
      }
      searchHint := if start < searchHint then start else searchHint;
    }
  }

  lemma ReservedCloses(pages: seq<Meta>, start: nat, n: nat)
    requires SpansClosed(pages) && start + n <= |pages|
    ensures SpansClosed(Reserved(pages, start, n))
  {
  }

  lemma FreedCloses(pages: seq<Meta>, p: nat)
    requires SpansClosed(pages) && p < |pages|
    requires forall q :: 0 <= q < p && pages[q].Occupied() ==> End(pages, q) <= p
    ensures SpansClosed(Freed(pages, p, 1))
  {
  }

  /** Reserves `n` pages where `at` is known to be the first fit from the hint on. */
  method Take(arena: HeapArena, n: nat, at: nat)
    requires |arena.pages| == HEAP_PAGES && arena.searchHint <= HEAP_PAGES && SpansClosed(arena.pages) && n > 0
    requires Fits(arena.pages, arena.searchHint, HEAP_PAGES, n, 1, at)
    requires forall d: nat :: arena.searchHint <= d < at ==> !Fits(arena.pages, arena.searchHint, HEAP_PAGES, n, 1, d)
    modifies arena
    ensures arena.pages == Reserved(old(arena.pages), at, n) && arena.searchHint == at + n && SpansClosed(arena.pages)
  {
    ghost var pages, hint := arena.pages, arena.searchHint;
    assert Fits(pages, 0, HEAP_PAGES, n, 1, at);
    var r := arena.ReserveRun(n, 1);
    assert r.Some? && r.value == at;
    ReservedCloses(pages, at, n);
  }

  /** Such a heap comes about from an empty one: page 4 is given back, a reservation of two pages passes over
      it, the rest is reserved, and page 5 is given back.  Pages 4 and 5 are free and no two pages are found. */
  method MissARun(arena: HeapArena) returns (r: Option<nat>)
    requires arena.pages == seq(HEAP_PAGES, _ => FREE) && arena.searchHint == 0
    modifies arena
    ensures r == None && Fits(arena.pages, 0, |arena.pages|, 2, 1, 4)
  {
    Take(arena, 4, 0);
    Take(arena, 1, 4);
    Take(arena, 1, 5);
    FreedCloses(arena.pages, 4);
    arena.ClearRun(4, 1);
    assert arena.pages[5].Occupied();
    Take(arena, 2, 6);
    Take(arena, HEAP_PAGES - 8, 8);
    FreedCloses(arena.pages, 5);
    arena.ClearRun(5, 1);
    StraddlingRunIsMissed(arena.pages, 5);
    r := arena.ReserveRun(2, 1);
  }
}

/** Anonymous maps: one slot array shared by many range references.

    `AmapState` keeps the occupied slots in an index list `used` with a back-index `back`, and
    the per-slot reference counts in run-length form.  `live` is the ghost set of references
    handed out; `Valid` says that the fast structures agree with the plain meaning. */
module Anon {
  import opened Common
  import opened RunLength

  datatype Error = OutOfMemory | AlreadyMapped | NotInstalled

  /** Identity of an anonymous page; the page itself is not modelled. */
  type Page = nat

  /** Fresh allocations stay below this threshold. */
  const LARGE_PAGES: nat := 256

  /** Most slots any metadata class can hold (3072 bytes of 4-byte cells). */
  const MAX_SLOTS: nat := 768

  datatype PartialReferences =
    | Unestablished
    | Disabled
    | Counts(counts: seq<int>)

  /** Slots available when `length` are asked for: the smallest metadata class that fits. */
  function Capacity(length: nat): (r: Option<nat>)
    ensures r.None? <==> length > MAX_SLOTS
    ensures r.Some? ==> length <= r.value <= MAX_SLOTS && r.value >= 16
  {
    var bytes := 4 * length;
    if bytes <= 64 then Some(64 / 4)
    else if bytes <= 128 then Some(128 / 4)
    else if bytes <= 256 then Some(256 / 4)
    else if bytes <= 512 then Some(512 / 4)
    else if bytes <= 1024 then Some(1024 / 4)
    else if bytes <= 2048 then Some(2048 / 4)
    else if bytes <= 3072 then Some(3072 / 4)
    else None
  }

  /** The runs of `[0, current)` stand for `t`, and the last of them starts at `previous`. */
  ghost predicate LastRun(c: seq<int>, previous: nat, current: nat, t: seq<nat>, refs: int, length: nat) {
    && previous + length == current <= |t| && length > 0 && refs >= 0
    && Encodes(c, 0, previous, t) && AllEqual(t, previous, current, refs)
    && HeadOf(c, previous, current) == Run(refs, length)
  }

  lemma LastRunEncodes(c: seq<int>, previous: nat, current: nat, t: seq<nat>, refs: int, length: nat)
    requires LastRun(c, previous, current, t, refs, length)
    ensures Encodes(c, 0, current, t)
  {
    assert Encodes(c, current, current, t);
    EncodesConcat(c, 0, previous, current, t);
  }

  lemma LastRunMoves(c: seq<int>, previous: nat, current: nat, s: seq<nat>, t: seq<nat>, refs: int, length: nat)
    requires LastRun(c, previous, current, s, refs, length) && current <= |c| && |t| == |s|
    requires forall i :: 0 <= i < current ==> s[i] == t[i]
    ensures LastRun(c, previous, current, t, refs, length) && Encodes(c, 0, current, t)
  {
    EncodesLocal(c, c, 0, previous, s, t);
    LastRunEncodes(c, previous, current, t, refs, length);
  }

  /** Walks the runs to `start`, cutting the one that straddles it.  The run that then ends at
      `start` begins at `previous`. */
  method SeekRun(c: seq<int>, n: nat, start: nat, ghost s: seq<nat>)
    returns (d: seq<int>, previous: nat, previousRefs: int, previousLen: nat)
    requires Encodes(c, 0, n, s) && start <= n <= |c| && n <= |s|
    requires FitsI32(c) && |c| <= MAX_SLOTS
    ensures |d| == |c| && FitsI32(d)
    ensures Encodes(d, start, n, s)
    ensures if start == 0 then previousRefs == -1 && previousLen == 0 && previous == 0
            else LastRun(d, previous, start, s, previousRefs, previousLen)
  {
    d := c;
    previous := 0;
    var current := 0;
    previousRefs, previousLen := -1, 0;
    while current < start
      invariant current <= start && |d| == |c| && FitsI32(d)
      invariant Encodes(d, current, n, s)
      invariant if current == 0 then previousRefs == -1 && previousLen == 0 && previous == 0
                else LastRun(d, previous, current, s, previousRefs, previousLen)
    {
      if current > 0 {
        LastRunEncodes(d, previous, current, s, previousRefs, previousLen);
      }
      var cut, refs, run := CutRun(d, current, start, n, s);
      EncodesLocal(d, cut, 0, current, s, s);
      d := cut;
      previous := current;
      previousRefs, previousLen := refs, run;
      current := current + run;
    }
  }

  /** The run `(previousRefs, previousLen)` at `previous` ends before `current`, or ends at `current`
      and may be extended from there. */
  ghost predicate Joinable(c: seq<int>, previous: nat, current: nat, t: seq<nat>, previousRefs: int, previousLen: nat) {
    || previous + previousLen < current
    || (current == 0 && previousRefs < 0)
    || LastRun(c, previous, current, t, previousRefs, previousLen)
  }

  /** The runs stand for `t` up to `at`, and from there to `n` for `s`. */
  ghost predicate Halves(c: seq<int>, at: nat, n: nat, s: seq<nat>, t: seq<nat>) {
    var done, left := Encodes(c, 0, at, t), Encodes(c, at, n, s);
    done && left
  }

  /** Adds a run to the runs before it. */
  method PutAfter(c: seq<int>, p: nat, m: nat, refs: nat, ghost t: seq<nat>) returns (d: seq<int>)
    requires p <= m <= |c| <= MAX_SLOTS && AllEqual(t, p, m, refs) && FitsI32(c) && refs < I32_MAX
    requires Encodes(c, 0, p, t)
    ensures |d| == |c| && FitsI32(d) && Encodes(d, 0, m, t)
    ensures forall i :: m <= i < |c| ==> d[i] == c[i]
  {
    d := PutRun(c, p, m, refs, t);
    EncodesLocal(c, d, 0, p, t, t);
    EncodesConcat(d, 0, p, m, t);
  }

  /** One step of an adjustment: changes the run at `current` by `delta`, joining it to the
      run that begins at `previous` when that one ends here and now has the same count. */
  method AdjustRun(c: seq<int>, current: nat, end: nat, delta: int,
                   previous: nat, previousRefs: int, previousLen: nat,
                   ghost n: nat, ghost s: seq<nat>, ghost t: seq<nat>)
    returns (d: seq<int>, refs: int, run: nat)
    requires current < end <= n <= |c| <= MAX_SLOTS && n <= |s| && n <= |t| && FitsI32(c)
    requires Halves(c, current, n, s, t)
    requires forall i :: current <= i < end ==> s[i] + delta == t[i] < I32_MAX
    requires Joinable(c, previous, current, t, previousRefs, previousLen)
    ensures |d| == |c| && FitsI32(d)
    ensures 1 <= run <= end - current && refs == t[current] && AllEqual(t, current, current + run, refs)
    ensures Halves(d, current + run, n, s, t)
  {
    var cut, was;
    cut, was, run := CutRun(c, current, end, n, s);
    refs := was + delta;
    assert refs == s[current] + delta;
    assert AllEqual(t, current, current + run, refs);
    var from := if current == previous + previousLen && refs == previousRefs then previous else current;
    assert Encodes(c, 0, from, t) && AllEqual(t, from, current + run, refs);
    EncodesLocal(c, cut, 0, from, t, t);
    d := PutAfter(cut, from, current + run, refs, t);
    EncodesLocal(cut, d, current + run, n, s, s);
  }

  /** Counts one reference that covers `[n, need)` too. */
  method CoverMore(c: seq<int>, n: nat, need: nat, ghost m: MapRef, ghost e: MapRef) returns (d: seq<int>)
    requires n <= need <= |c| <= MAX_SLOTS && FitsI32(c) && Encodes(c, 0, n, Coverage({m}, n))
    requires m.offset == e.offset && m.offset + m.length == n && e.offset + e.length == need
    ensures |d| == |c| && FitsI32(d) && Encodes(d, 0, need, Coverage({e}, need))
  {
    ghost var s, t := Coverage({m}, n), Coverage({e}, need);
    OnlyReference(m, n);
    OnlyReference(e, need);
    EncodesLocal(c, c, 0, n, s, t);
    d := PutAfter(c, n, need, 1, t);
  }

  /** Overwrites `cells` by runs whose only coverage is `refs` references to `[offset, offset + length)`. */
  method SingleCoverage(cells: seq<int>, n: nat, offset: nat, length: nat, refs: nat, ghost s: seq<nat>)
    returns (counts: seq<int>)
    requires offset + length <= n <= |cells| <= MAX_SLOTS && |s| == n && refs < I32_MAX && FitsI32(cells)
    requires AllEqual(s, 0, offset, 0) && AllEqual(s, offset, offset + length, refs)
        && AllEqual(s, offset + length, n, 0)
    ensures |counts| == |cells| && FitsI32(counts) && Encodes(counts, 0, n, s)
  {
    counts := PutAfter(cells, 0, offset, 0, s);
    counts := PutAfter(counts, offset, offset + length, refs, s);
    counts := PutAfter(counts, offset + length, n, 0, s);
  }

  lemma SpanDone(c: seq<int>, end: nat, n: nat, s: seq<nat>, t: seq<nat>)
    requires end <= n <= |c| && n <= |s| && n <= |t| && forall i :: end <= i < n ==> s[i] == t[i]
    requires Halves(c, end, n, s, t)
    ensures Encodes(c, 0, n, t)
  {
    EncodesLocal(c, c, end, n, s, t);
    EncodesConcat(c, 0, end, n, t);
  }

  lemma ClearedOn(was: seq<Option<Page>>, mid: seq<Option<Page>>, now: seq<Option<Page>>, start: nat, current: nat,
                  next: nat, t: seq<nat>)
    requires start <= current <= next <= |t| && Cleared(was, mid, start, current, t)
        && Cleared(mid, now, current, next, t)
    ensures Cleared(was, now, start, next, t)
  {
  }

  lemma NothingCleared(was: seq<Option<Page>>, now: seq<Option<Page>>, start: nat, end: nat, t: seq<nat>)
    requires end <= |t| && Cleared(was, now, start, end, t) && forall i :: start <= i < end ==> t[i] > 0
    ensures now == was
  {
  }

  /** What remains after the slots that only `r` covered have been cleared. */
  lemma ClearedOccupied(was: seq<Option<Page>>, now: seq<Option<Page>>, nslot: nat, rest: set<MapRef>, r: MapRef)
    requires r.offset + r.length <= nslot && Occupied(was, nslot, rest + {r}, true)
    requires Cleared(was, now, r.offset, r.offset + r.length, Coverage(rest, nslot))
    ensures Occupied(now, nslot, rest, true)
    ensures forall i :: 0 <= i < |now| ==> now[i] == if r.Covers(i) && Covering(rest, i) == {} then None else was[i]
  {
    forall i | 0 <= i < |now|
      ensures now[i] == if r.Covers(i) && Covering(rest, i) == {} then None else was[i]
      ensures now[i].Some? ==> i < nslot && exists q :: q in rest && q.Covers(i)
    {
      if was[i].Some? {
        var q :| q in rest + {r} && q.Covers(i);
        assert i < nslot && q in Covering(rest, i) + {r};
        if r.Covers(i) && Covering(rest, i) != {} {
          var p :| p in Covering(rest, i);
          assert p in rest && p.Covers(i);
        }
      }
    }
  }

  /** `used` lists exactly the occupied slots, once each, and `back` is its inverse. */
  ghost predicate Indexed(slots: seq<Option<Page>>, used: seq<nat>, back: seq<nat>) {
    && |back| == |slots|
    && (forall k :: 0 <= k < |used| ==> used[k] < |slots| && slots[used[k]].Some? && back[used[k]] == k)
    && (forall i :: 0 <= i < |slots| && slots[i].Some? ==> back[i] < |used| && used[back[i]] == i)
  }

  /** `slots` with `[start, end)` emptied. */
  ghost function Wiped(slots: seq<Option<Page>>, start: nat, end: nat): (r: seq<Option<Page>>)
    ensures |r| == |slots|
    ensures forall i :: 0 <= i < |slots| ==> r[i] == if start <= i < end then None else slots[i]
  {
    seq(|slots|, i requires 0 <= i < |slots| => if start <= i < end then None else slots[i])
  }

  /** The counters `s` with `delta` added on `[start, end)`. */
  ghost function Bumped(s: seq<nat>, start: nat, end: nat, delta: int): (t: seq<nat>)
    requires forall i :: 0 <= i < |s| && start <= i < end ==> s[i] + delta >= 0
    ensures |t| == |s|
    ensures forall i :: 0 <= i < |s| ==> t[i] == if start <= i < end then s[i] + delta else s[i]
  {
    seq(|s|, i requires 0 <= i < |s| => if start <= i < end then s[i] + delta else s[i])
  }

  /** `now` is `was` with the slots of `[start, end)` whose counter in `t` is zero emptied. */
  ghost predicate Cleared(was: seq<Option<Page>>, now: seq<Option<Page>>, start: nat, end: nat, t: seq<nat>)
    requires end <= |t|
  {
    && |now| == |was|
    && forall i :: 0 <= i < |now| ==> now[i] == if start <= i < end && t[i] == 0 then None else was[i]
  }

  /** One logical reference to a page range; `id` tells apart references to the same range. */
  datatype MapRef = MapRef(id: nat, offset: nat, length: nat) {
    predicate Covers(i: int) {
      offset <= i < offset + length
    }
  }

  /** The live references whose range contains slot `i`. */
  ghost function Covering(live: set<MapRef>, i: nat): set<MapRef> {
    set r | r in live && r.Covers(i)
  }

  /** The plain per-slot reference counters of slots `[0, n)`. */
  ghost function Coverage(live: set<MapRef>, n: nat): (s: seq<nat>)
    ensures |s| == n && forall i :: 0 <= i < n ==> s[i] == |Covering(live, i)|
  {
    seq(n, i requires 0 <= i => |Covering(live, i)|)
  }

  lemma OnlyReference(r: MapRef, n: nat)
    requires r.offset + r.length <= n
    ensures AllEqual(Coverage({r}, n), 0, r.offset, 0)
    ensures AllEqual(Coverage({r}, n), r.offset, r.offset + r.length, 1)
    ensures AllEqual(Coverage({r}, n), r.offset + r.length, n, 0)
  {
    forall i | 0 <= i < n
      ensures Coverage({r}, n)[i] == if r.Covers(i) then 1 else 0
    {
      assert Covering({r}, i) == if r.Covers(i) then {r} else {};
    }
  }

  /** Adding one reference adds one to the counters it covers. */
  lemma CoverageGrows(live: set<MapRef>, r: MapRef, n: nat)
    requires r !in live
    ensures Coverage(live + {r}, n) == Bumped(Coverage(live, n), r.offset, r.offset + r.length, 1)
  {
    forall i | 0 <= i < n
      ensures Coverage(live + {r}, n)[i] == Bumped(Coverage(live, n), r.offset, r.offset + r.length, 1)[i]
    {
      assert Covering(live + {r}, i) == if r.Covers(i) then Covering(live, i) + {r} else Covering(live, i);
    }
  }

  /** Dropping one reference takes one from the counters it covers. */
  lemma CoverageShrinks(live: set<MapRef>, r: MapRef, n: nat)
    requires r in live && r.offset + r.length <= n
    ensures var s := Coverage(live, n);
            && (forall i :: r.offset <= i < r.offset + r.length ==> 0 <= s[i] - 1 <= |live| - 1)
            && Coverage(live - {r}, n) == Bumped(s, r.offset, r.offset + r.length, -1)
  {
    CoverageGrows(live - {r}, r, n);
    assert live == live - {r} + {r};
    forall i | 0 <= i < n ensures Coverage(live, n)[i] <= |live| {
      CoverageBounded(live, n, i);
    }
  }

  /** A counter never exceeds the number of live references. */
  lemma CoverageBounded(live: set<MapRef>, n: nat, i: nat)
    requires i < n
    ensures Coverage(live, n)[i] <= |live|
  {
    SubsetSize(Covering(live, i), live);
  }

  lemma Singleton<T>(s: set<T>, x: T)
    requires x in s && |s| == 1
    ensures s == {x}
  {
    assert |s - {x}| == 0;
  }

  /** Every occupied slot is covered by `r`. */
  ghost predicate OnlyIn(slots: seq<Option<Page>>, r: MapRef) {
    forall i :: 0 <= i < |slots| && slots[i].Some? ==> r.Covers(i)
  }

  /** `e` is `r` grown by `added` pages: the old pages keep their relative positions and the new ones are empty. */
  ghost predicate Extended(was: seq<Option<Page>>, r: MapRef, now: seq<Option<Page>>, e: MapRef, added: nat,
                           backwards: bool)
    requires r.offset + r.length <= |was|
  {
    var shift := if backwards then added else 0;
    && e.id == r.id && e.length == r.length + added && e.offset + e.length <= |now|
    && now[e.offset + shift..e.offset + shift + r.length] == was[r.offset..r.offset + r.length]
    && (forall k :: e.offset <= k < e.offset + e.length && !(e.offset + shift <= k < e.offset + shift + r.length) ==>
        now[k] == None)
  }

  lemma ExtendedInPlace(slots: seq<Option<Page>>, r: MapRef, e: MapRef, added: nat, backwards: bool)
    requires OnlyIn(slots, r) && r.offset + r.length <= |slots| && e.offset + e.length <= |slots|
    requires e.id == r.id && e.length == r.length + added
        && r.offset == if backwards then e.offset + added else e.offset
    ensures Extended(slots, r, slots, e, added, backwards)
  {
    var shift := if backwards then added else 0;
    assert e.offset + shift == r.offset;
    forall k | e.offset <= k < e.offset + e.length && !(r.offset <= k < r.offset + r.length) ensures slots[k] == None {
      assert !r.Covers(k);
    }
  }

  /** `slots`, occupied only in `[offset, offset + length)`, with that range moved to start at `area`. */
  ghost function Shifted(slots: seq<Option<Page>>, offset: nat, length: nat, area: nat): (r: seq<Option<Page>>)
    requires offset + length <= |slots| && area + length <= |slots|
    ensures |r| == |slots|
    ensures forall i :: 0 <= i < |r| ==> r[i] == if area <= i < area + length then slots[i - area + offset] else None
  {
    seq(|slots|, i requires 0 <= i < |slots| => if area <= i < area + length then slots[i - area + offset] else None)
  }

  function Raised(used: seq<nat>, delta: nat): (r: seq<nat>)
    ensures |r| == |used| && forall k :: 0 <= k < |used| ==> r[k] == used[k] + delta
  {
    seq(|used|, k requires 0 <= k < |used| => used[k] + delta)
  }

  /** `slots` moved `shift` up into an array of `cells`. */
  ghost function Relocated(slots: seq<Option<Page>>, shift: nat, cells: nat): (r: seq<Option<Page>>)
    ensures |r| == cells
    ensures forall j :: 0 <= j < cells ==> r[j] == if shift <= j < shift + |slots| then slots[j - shift] else None
  {
    seq(cells, j requires 0 <= j => if shift <= j < shift + |slots| then slots[j - shift] else None)
  }

  lemma RelocatedExtends(slots: seq<Option<Page>>, r: MapRef, cells: nat, shift: nat, e: MapRef, added: nat,
                         backwards: bool)
    requires OnlyIn(slots, r) && r.offset + r.length <= |slots| && |slots| < cells
    requires e.id == r.id && e.length == r.length + added && e.offset + e.length <= cells
    requires r.offset + shift == e.offset + if backwards then added else 0
    ensures Extended(slots, r, Relocated(slots, shift, cells), e, added, backwards)
    ensures OnlyIn(Relocated(slots, shift, cells), e)
  {
    var now, at := Relocated(slots, shift, cells), r.offset + shift;
    forall k | 0 <= k < cells ensures now[k].Some? ==> r.Covers(k - shift) {
      assert now[k].Some? ==> now[k] == slots[k - shift];
    }
    var kept, pages := now[at..at + r.length], slots[r.offset..r.offset + r.length];
    forall k | 0 <= k < r.length ensures kept[k] == pages[k] {
      assert now[at + k] == slots[r.offset + k];
    }
    assert kept == pages;
  }

  lemma ShiftedExtends(slots: seq<Option<Page>>, r: MapRef, area: nat, e: MapRef, added: nat)
    requires r.offset + r.length <= |slots| && area + r.length == |slots|
    requires e == MapRef(r.id, e.offset, r.length + added) && e.offset + added == area
    ensures Extended(slots, r, Shifted(slots, r.offset, r.length, area), e, added, true)
    ensures OnlyIn(Shifted(slots, r.offset, r.length, area), e)
  {
  }

  /** Moves slots one by one from the top, so that an overlapping move does not lose any. */
  method MoveSlots(slots: seq<Option<Page>>, offset: nat, length: nat, area: nat) returns (moved: seq<Option<Page>>)
    requires offset <= area && area + length <= |slots|
    requires forall i :: 0 <= i < |slots| && slots[i].Some? ==> offset <= i < offset + length
    ensures moved == Shifted(slots, offset, length, area)
  {
    moved := slots;
    var index := length;
    while index > 0
      invariant 0 <= index <= length && |moved| == |slots|
      invariant forall i :: area + index <= i < area + length ==> moved[i] == slots[i - area + offset]
      invariant forall i :: offset <= i < offset + index ==> moved[i] == slots[i]
      invariant forall i ::
                  0 <= i < |slots| && !(area + index <= i < area + length) && !(offset <= i < offset + index) ==>
                  moved[i] == None
    {
      index := index - 1;
      var taken := moved[offset + index];
      moved := moved[offset + index := None];
      moved := moved[area + index := taken];
    }
  }

  /** Moving the back-index with the slots and raising the used indexes keeps them inverse. */
  lemma ShiftedIndexed(slots: seq<Option<Page>>, used: seq<nat>, back: seq<nat>, offset: nat, length: nat, area: nat)
    requires Indexed(slots, used, back) && offset <= area && area + length <= |slots|
    requires forall i :: 0 <= i < |slots| && slots[i].Some? ==> offset <= i < offset + length
    ensures Indexed(Shifted(slots, offset, length, area), Raised(used, area - offset),
                    back[..area] + back[offset..offset + length] + back[area + length..])
  {
    var b := back[..area] + back[offset..offset + length] + back[area + length..];
    var u := Raised(used, area - offset);
    forall k | 0 <= k < |used|
      ensures u[k] < |b| && b[u[k]] == k
    {
      assert b[used[k] + (area - offset)] == back[offset..offset + length][used[k] - offset] == back[used[k]];
    }
    var moved := Shifted(slots, offset, length, area);
    forall i | 0 <= i < |moved| && moved[i].Some?
      ensures b[i] < |used| && u[b[i]] == i
    {
      assert b[i] == back[offset..offset + length][i - area] == back[i - area + offset];
    }
  }

  /** Occupied slots are active ones, and while the coverage is tracked each is covered. */
  ghost predicate Occupied(slots: seq<Option<Page>>, nslot: nat, live: set<MapRef>, tracked: bool) {
    && nslot <= |slots|
    && forall i :: 0 <= i < |slots| && slots[i].Some? ==>
        i < nslot && (tracked ==> exists r :: r in live && r.Covers(i))
  }

  class AmapState {
    var nslot: nat
    var references: nat
    var shared: bool
    var slots: seq<Option<Page>>
    var used: seq<nat>
    var back: seq<nat>
    var partial: PartialReferences

    method Insert(index: nat, page: Page)
      requires index < |slots| && Indexed(slots, used, back)
      modifies this`slots, this`used, this`back
      ensures Indexed(slots, used, back)
      ensures slots == old(slots)[index := Some(page)]
    {
      if slots[index].None? {
        back := back[index := |used|];
        used := used + [index];
      }
      slots := slots[index := Some(page)];
    }

    /** Swaps the last used index into the removed index's place. */
    method Remove(index: nat)
      requires index < |slots| && Indexed(slots, used, back)
      modifies this`slots, this`used, this`back
      ensures Indexed(slots, used, back)
      ensures slots == old(slots)[index := None]
      ensures |used| == old(|used|) - (if old(slots[index]).Some? then 1 else 0)
      ensures forall k :: 0 <= k < |used| && (old(slots[index]).None? || k < old(back[index])) ==>
                used[k] == old(used[k])
    {
      if slots[index].None? {
        return;
      }
      var position := back[index];
      var last := |used| - 1;
      used := used[position := used[last]][..last];
      if position < |used| {
        back := back[used[position] := position];
      }
      slots := slots[index := None];
    }

    /** Both traversals, over the slots and over the used indexes, empty the same range. */
    method Wipe(start: nat, length: nat)
      requires start + length <= |slots| && Indexed(slots, used, back)
      modifies this`slots, this`used, this`back
      ensures Indexed(slots, used, back)
      ensures slots == Wiped(old(slots), start, start + length)
    {
      var end := start + length;
      if length < |used| {
        for index := start to end
          invariant Indexed(slots, used, back)
          invariant slots == Wiped(old(slots), start, index)
        {
          Remove(index);
        }
      } else {
        var at := 0;
        while at < |used|
          invariant at <= |used| && Indexed(slots, used, back) && |slots| == old(|slots|)
          invariant forall i :: 0 <= i < |slots| ==>
                      slots[i] == old(slots)[i] || (start <= i < end && slots[i] == None)
          invariant forall k :: 0 <= k < at ==> !(start <= used[k] < end)
          decreases |used| - at
        {
          var index := used[at];
          if start <= index < end {
            Remove(index);
          } else {
            at := at + 1;
          }
        }
      }
    }

    /** The stored runs stand for the plain counters `s`. */
    ghost predicate Counting(s: seq<nat>)
      reads this
    {
      && partial.Counts? && |partial.counts| == |slots| && nslot <= |slots| <= MAX_SLOTS
      && FitsI32(partial.counts)
      && |s| == nslot && Encodes(partial.counts, 0, nslot, s)
    }

    /** Adds `delta` to the counts of `[start, start + length)` and empties the slots that reach zero. */
    method Adjust(start: nat, length: nat, delta: int, ghost s: seq<nat>)
      requires Indexed(slots, used, back)
      requires partial.Counts? ==>
                 && Counting(s) && start + length <= nslot && references < I32_MAX
                 && forall i :: start <= i < start + length ==> 0 <= s[i] + delta <= references
      modifies this`partial, this`slots, this`used, this`back
      ensures Indexed(slots, used, back) && |slots| == old(|slots|)
      ensures !old(partial).Counts? ==> partial == old(partial) && slots == old(slots)
      ensures old(partial).Counts? ==>
                var t := Bumped(s, start, start + length, delta);
                && Counting(t)
                && Cleared(old(slots), slots, start, start + length, t)
    {
      if !partial.Counts? {
        return;
      }
      var end := start + length;
      ghost var t := Bumped(s, start, end, delta);
      var counts, previous, previousRefs, previousLen := SeekRun(partial.counts, nslot, start, s);
      if start != 0 {
        LastRunMoves(counts, previous, start, s, t, previousRefs, previousLen);
      }
      AdjustSpan(counts, start, end, delta, previous, previousRefs, previousLen, s, t);
    }

    /** The second half of `Adjust`: every run of `[start, end)`, after the runs have been cut at `start`. */
    method AdjustSpan(cut: seq<int>, start: nat, end: nat, delta: int,
                      previous: nat, previousRefs: int, previousLen: nat, ghost s: seq<nat>, ghost t: seq<nat>)
      requires Indexed(slots, used, back)
      requires |cut| == |slots| <= MAX_SLOTS && FitsI32(cut) && start <= end <= nslot == |t|
          && previous + previousLen <= start
      requires nslot <= |slots| && nslot <= |s| && Halves(cut, start, nslot, s, t)
          && references < I32_MAX
      requires forall i :: start <= i < end ==> s[i] + delta == t[i] <= references
      requires forall i :: end <= i < nslot ==> s[i] == t[i]
      requires Joinable(cut, previous, start, t, previousRefs, previousLen)
      modifies this`partial, this`slots, this`used, this`back
      ensures Indexed(slots, used, back) && |slots| == old(|slots|)
      ensures partial.Counts? && |partial.counts| == |slots| && FitsI32(partial.counts)
      ensures Encodes(partial.counts, 0, nslot, t)
      ensures Cleared(old(slots), slots, start, end, t)
    {
      partial := Counts(cut);
      var current := start;
      while current < end
        invariant start <= current <= end
        invariant Indexed(slots, used, back) && |slots| == old(|slots|)
        invariant partial.Counts? && |partial.counts| == |slots| && FitsI32(partial.counts)
        invariant Halves(partial.counts, current, nslot, s, t)
        invariant Joinable(partial.counts, previous, current, t, previousRefs, previousLen)
        invariant Cleared(old(slots), slots, start, current, t)
      {
        ghost var before := slots;
        var run := AdjustStep(current, end, delta, previous, previousRefs, previousLen, s, t);
        ClearedOn(old(slots), before, slots, start, current, current + run, t);
        current := current + run;
      }
      SpanDone(partial.counts, end, nslot, s, t);
    }

    method AdjustStep(current: nat, end: nat, delta: int, previous: nat, previousRefs: int, previousLen: nat,
                      ghost s: seq<nat>, ghost t: seq<nat>)
      returns (run: nat)
      requires Indexed(slots, used, back) && current < end <= nslot == |t| && nslot <= |slots| && nslot <= |s|
      requires previous + previousLen <= current
      requires partial.Counts? && |partial.counts| == |slots| <= MAX_SLOTS && FitsI32(partial.counts)
      requires Halves(partial.counts, current, nslot, s, t)
      requires references < I32_MAX && forall i :: current <= i < end ==> s[i] + delta == t[i] <= references
      requires Joinable(partial.counts, previous, current, t, previousRefs, previousLen)
      modifies this`partial, this`slots, this`used, this`back
      ensures Indexed(slots, used, back)
      ensures 1 <= run <= end - current && Cleared(old(slots), slots, current, current + run, t)
      ensures partial.Counts? && |partial.counts| == |slots| && FitsI32(partial.counts)
      ensures Halves(partial.counts, current + run, nslot, s, t)
    {
      var counts, refs;
      counts, refs, run := AdjustRun(partial.counts, current, end, delta, previous, previousRefs, previousLen, nslot,
          s, t);
      partial := Counts(counts);
      assert 0 <= refs <= references;
      if refs == 0 {
        Wipe(current, run);
      }
    }

    /** The references handed out for this map. */
    ghost var live: set<MapRef>

    /** The counts stored in run-length form are the numbers of live references covering each slot,
        and a slot that no live reference covers is empty.  Once the counts are given up neither is
        tracked; before they are first needed the only reference reaches up to the last active slot. */
    ghost predicate Valid()
      reads this
    {
      && Indexed(slots, used, back) && |slots| <= MAX_SLOTS
      && Occupied(slots, nslot, live, !partial.Disabled?)
      && references == |live| < I32_MAX
      && (forall r :: r in live ==> r.offset + r.length <= nslot)
      && (partial.Unestablished? ==> references <= 1 && forall r :: r in live ==> r.offset + r.length == nslot)
      && (partial.Counts? && references > 0 ==> Counting(Coverage(live, nslot)))
    }

    /** Turns the counts on, starting from the only reference `r` there is.  When the storage for
        them cannot be had (`stored` is false) they stay off for good. */
    method Establish(r: MapRef, stored: bool)
      requires Valid() && r in live
      modifies this`partial
      ensures Valid() && !partial.Unestablished?
      ensures !old(partial).Unestablished? ==> partial == old(partial)
      ensures old(partial).Unestablished? ==> (partial.Counts? <==> stored)
    {
      if !partial.Unestablished? {
        return;
      }
      if stored {
        Singleton(live, r);
        OnlyReference(r, nslot);
        var zeros := seq(|slots|, _ => 0);
        var counts := SingleCoverage(zeros, nslot, r.offset, r.length, references, Coverage(live, nslot));
        partial := Counts(counts);
      } else {
        partial := Disabled;
      }
    }

    /** Counts one more reference on `[start, start + length)`. */
    method Raise(start: nat, length: nat, ghost before: set<MapRef>, ghost after: set<MapRef>)
      requires Indexed(slots, used, back) && references < I32_MAX
      requires partial.Counts? ==>
                 && start + length <= nslot && Counting(Coverage(before, nslot)) && |after| <= references
                 && Coverage(after, nslot) == Bumped(Coverage(before, nslot), start, start + length, 1)
      modifies this`partial, this`slots, this`used, this`back
      ensures Indexed(slots, used, back) && slots == old(slots)
      ensures partial.Counts? <==> old(partial).Counts?
      ensures partial.Counts? ==> Counting(Coverage(after, nslot))
      ensures !partial.Counts? ==> partial == old(partial)
    {
      if partial.Counts? {
        ghost var t := Coverage(after, nslot);
        forall i | start <= i < start + length ensures t[i] <= references {
          CoverageBounded(after, nslot, i);
        }
        Adjust(start, length, 1, Coverage(before, nslot));
        NothingCleared(old(slots), slots, start, start + length, t);
      }
    }

    /** Counts the reference `r` out of `rest + {r}` and empties the slots it alone covered. */
    method Uncover(r: MapRef, ghost rest: set<MapRef>)
      requires Indexed(slots, used, back) && references < I32_MAX && !partial.Unestablished?
      requires r !in rest && references == |rest| && r.offset + r.length <= nslot
      requires Occupied(slots, nslot, rest + {r}, !partial.Disabled?)
      requires partial.Counts? ==> Counting(Coverage(rest + {r}, nslot))
      modifies this`partial, this`slots, this`used, this`back
      ensures Indexed(slots, used, back) && Occupied(slots, nslot, rest, !partial.Disabled?) && |slots| == old(|slots|)
      ensures if old(partial).Counts? then partial.Counts?
          && Counting(Coverage(rest, nslot)) else partial == old(partial)
      ensures forall i :: 0 <= i < |slots| ==>
                slots[i] == if partial.Counts? && r.Covers(i) && Covering(rest, i) == {} then None else old(slots)[i]
    {
      if partial.Counts? {
        CoverageShrinks(rest + {r}, r, nslot);
        assert rest + {r} - {r} == rest;
        Adjust(r.offset, r.length, -1, Coverage(rest + {r}, nslot));
        ClearedOccupied(old(slots), slots, nslot, rest, r);
      }
    }

    /** Adds the reference `[offset, offset + length)`, part of the live reference `r`. */
    method AddReference(r: MapRef, offset: nat, length: nat, id: nat, stored: bool) returns (n: MapRef)
      requires Valid() && r in live
      requires r.offset <= offset && offset + length <= r.offset + r.length
      requires references + 1 < I32_MAX
      requires MapRef(id, offset, length) !in live
      modifies this
      ensures Valid() && n == MapRef(id, offset, length) && live == old(live) + {n}
      ensures slots == old(slots) && nslot == old(nslot) && shared == old(shared)
    {
      Establish(r, stored);
      n := MapRef(id, offset, length);
      CoverageGrows(live, n, nslot);
      references := references + 1;
      Raise(offset, length, live, live + {n});
      live := live + {n};
    }

    /** Copies the reference `r`. */
    method Clone(r: MapRef, id: nat, stored: bool) returns (n: MapRef)
      requires Valid() && r in live && references + 1 < I32_MAX && MapRef(id, r.offset, r.length) !in live
      modifies this
      ensures Valid() && n == MapRef(id, r.offset, r.length) && live == old(live) + {n}
      ensures slots == old(slots) && nslot == old(nslot) && shared == old(shared)
    {
      n := AddReference(r, r.offset, r.length, id, stored);
    }

    /** Drops the reference `r`.  A slot is emptied exactly when the last reference covering it goes. */
    method Drop(r: MapRef, stored: bool)
      requires Valid() && r in live
      modifies this
      ensures Valid() && live == old(live) - {r} && |slots| == old(|slots|)
      ensures forall i :: 0 <= i < |slots| ==>
                slots[i] == if references == 0 || (partial.Counts? && r.Covers(i) && Covering(live, i) == {})
                            then None else old(slots)[i]
    {
      if references == 1 {
        Singleton(live, r);
        references := 0;
        Wipe(0, |slots|);
        live := {};
      } else {
        Establish(r, stored);
        if references == 2 {
          shared := false;
        }
        references := references - 1;
        assert live == live - {r} + {r};
        Uncover(r, live - {r});
        live := live - {r};
      }
    }

    /** Empties everything outside the only reference when the counts were given up. */
    method Isolate(r: MapRef)
      requires Valid() && live == {r}
      modifies this`slots, this`used, this`back
      ensures Valid() && |slots| == old(|slots|) && OnlyIn(slots, r)
      ensures slots[r.offset..r.offset + r.length] == old(slots)[r.offset..r.offset + r.length]
    {
      if partial.Disabled? {
        Wipe(0, r.offset);
        Wipe(r.offset + r.length, nslot - (r.offset + r.length));
      }
    }

    /** Grows into slots that are already active: after the reference, or before it. */
    method ExtendActive(r: MapRef, added: nat, backwards: bool) returns (e: MapRef)
      requires Valid() && live == {r} && OnlyIn(slots, r)
      requires if backwards then added <= r.offset else r.offset + r.length + added <= nslot
      modifies this
      ensures Valid() && live == {e} && Extended(old(slots), r, slots, e, added, backwards)
    {
      var from := if backwards then r.offset - added else r.offset + r.length;
      e := MapRef(r.id, if backwards then from else r.offset, r.length + added);
      CoverageExtends(r, e, from, added, nslot);
      ExtendedInPlace(slots, r, e, added, backwards);
      Raise(from, added, live, {e});
      live := {e};
    }

    /** Moves the pages of `[offset, offset + length)` up to start at `area`, with their index entries. */
    method ShiftUp(offset: nat, length: nat, area: nat)
      requires Indexed(slots, used, back) && offset <= area && area + length <= |slots|
      requires forall i :: 0 <= i < |slots| && slots[i].Some? ==> offset <= i < offset + length
      modifies this`slots, this`used, this`back
      ensures Indexed(slots, used, back) && slots == Shifted(old(slots), offset, length, area)
    {
      ShiftedIndexed(slots, used, back, offset, length, area);
      var moved := MoveSlots(slots, offset, length, area);
      back := back[..area] + back[offset..offset + length] + back[area + length..];
      used := Raised(used, area - offset);
      slots := moved;
    }

    /** Grows backwards in place: moves the pages to the end of the cells and activates all of them. */
    method ExtendShift(r: MapRef, added: nat) returns (e: MapRef)
      requires Valid() && live == {r} && OnlyIn(slots, r) && r.offset < added && r.length + added <= |slots|
      modifies this
      ensures Valid() && live == {e} && Extended(old(slots), r, slots, e, added, true)
    {
      var area := |slots| - r.length;
      e := MapRef(r.id, area - added, r.length + added);
      ShiftedExtends(slots, r, area, e, added);
      ShiftUp(r.offset, r.length, area);
      nslot := |slots|;
      ResetSingleCoverage(e);
      live := {e};
    }

    /** Grows forwards in place into cells that were allocated but not active. */
    method ExtendActivate(r: MapRef, added: nat) returns (e: MapRef)
      requires Valid() && live == {r} && OnlyIn(slots, r) && nslot < r.offset + r.length + added <= |slots|
      modifies this
      ensures Valid() && live == {e} && Extended(old(slots), r, slots, e, added, false)
    {
      e := Activate(r, added);
      live := {e};
    }

    /** Makes the counts those of the single reference `e`. */
    method ResetSingleCoverage(e: MapRef)
      requires e.offset + e.length <= nslot <= |slots| <= MAX_SLOTS
      requires partial.Counts? ==> |partial.counts| == |slots| && FitsI32(partial.counts)
      modifies this`partial
      ensures partial.Counts? <==> old(partial).Counts?
      ensures partial.Counts? ==> Counting(Coverage({e}, nslot))
      ensures !partial.Counts? ==> partial == old(partial)
    {
      if partial.Counts? {
        OnlyReference(e, nslot);
        var counts := SingleCoverage(partial.counts, nslot, e.offset, e.length, 1, Coverage({e}, nslot));
        partial := Counts(counts);
      }
    }

    /** Takes the rest of the active slots and activates as many more as are needed. */
    method Activate(r: MapRef, added: nat) returns (e: MapRef)
      requires Valid() && live == {r} && nslot < r.offset + r.length + added <= |slots|
      modifies this`partial, this`slots, this`used, this`back, this`nslot
      ensures e == MapRef(r.id, r.offset, r.length + added) && nslot == e.offset + e.length
      ensures Indexed(slots, used, back) && slots == old(slots)
      ensures partial.Counts? <==> old(partial).Counts?
      ensures partial.Counts? ==> Counting(Coverage({e}, nslot))
      ensures !partial.Counts? ==> partial == old(partial)
    {
      var oldEnd := r.offset + r.length;
      var need := oldEnd + added;
      e := MapRef(r.id, r.offset, r.length + added);
      ghost var m := MapRef(r.id, r.offset, nslot - r.offset);
      CoverageExtends(r, m, oldEnd, nslot - oldEnd, nslot);
      if oldEnd < nslot {
        Raise(oldEnd, nslot - oldEnd, live, {m});
      }
      if partial.Counts? {
        var counts := CoverMore(partial.counts, nslot, need, m, e);
        partial := Counts(counts);
      }
      nslot := need;
    }

    /** An empty map of `length` active slots with its first reference `[0, length)`. */
    constructor (length: nat, capacity: nat, id: nat)
      requires Capacity(length) == Some(capacity)
      ensures Valid() && live == {MapRef(id, 0, length)}
      ensures nslot == length && !shared && partial.Unestablished? && slots == seq(capacity, _ => None)
    {
      nslot := length;
      references := 1;
      shared := false;
      slots := seq(capacity, _ => None);
      used := [];
      back := seq(capacity, _ => 0);
      partial := Unestablished;
      live := {MapRef(id, 0, length)};
    }

    /** Moves every page to `into`, `shift` slots further up. */
    method MoveInto(into: AmapState, shift: nat)
      requires into != this && Indexed(slots, used, back) && Indexed(into.slots, into.used, into.back)
      requires forall j :: 0 <= j < |into.slots| ==> into.slots[j] == None
      requires forall i :: 0 <= i < |slots| && slots[i].Some? ==> i + shift < |into.slots|
      modifies this`slots, this`used, into`slots, into`used, into`back
      ensures Indexed(into.slots, into.used, into.back)
      ensures into.slots == Relocated(old(slots), shift, old(|into.slots|))
    {
      while |used| > 0
        invariant Indexed(slots, used, back) && Indexed(into.slots, into.used, into.back)
        invariant |slots| == old(|slots|) && |into.slots| == old(|into.slots|)
        invariant forall i :: 0 <= i < |slots| && slots[i].Some? ==>
                  i + shift < |into.slots| && slots[i] == old(slots)[i]
        invariant forall j :: 0 <= j < |into.slots| ==>
                    into.slots[j] == if shift <= j < shift + |slots|
                        && slots[j - shift].None? then old(slots)[j - shift] else None
      {
        var index := used[|used| - 1];
        used := used[..|used| - 1];
        var taken := slots[index];
        slots := slots[index := None];
        into.Insert(index + shift, taken.value);
      }
    }

    /** Grows by moving every page into a larger map. */
    method Reallocate(r: MapRef, added: nat, backwards: bool, stored: bool) returns (e: MapRef)
      requires Valid() && live == {r} && OnlyIn(slots, r)
      requires var need := if backwards then r.length + added
              else r.offset + r.length + added; |slots| < need < LARGE_PAGES
      modifies this
      ensures Valid() && live == {e} && Extended(old(slots), r, slots, e, added, backwards)
    {
      var need := if backwards then r.length + added else r.offset + r.length + added;
      var cells := Capacity(need).value;
      var shift := if backwards then cells - r.length - r.offset else 0;
      e := MapRef(r.id, if backwards then cells - r.length - added else r.offset, r.length + added);
      RelocatedExtends(slots, r, cells, shift, e, added, backwards);
      Replace(need, cells, shift, if backwards then cells else need, stored);
      ResetSingleCoverage(e);
      live := {e};
    }

    /** Replaces the three arrays by larger ones that hold the same pages `shift` slots further up. */
    method Replace(need: nat, cells: nat, shift: nat, active: nat, stored: bool)
      requires Indexed(slots, used, back) && Capacity(need) == Some(cells)
      requires forall i :: 0 <= i < |slots| && slots[i].Some? ==> i + shift < cells
      modifies this`nslot, this`slots, this`used, this`back, this`partial
      ensures nslot == active && Indexed(slots, used, back) && slots == Relocated(old(slots), shift, cells)
      ensures partial == if !old(partial).Counts? then old(partial)
                         else if stored then Counts(seq(cells, _ => 0)) else Disabled
    {
      var replacement := new AmapState(need, cells, 0);
      MoveInto(replacement, shift);
      if partial.Counts? {
        partial := if stored then Counts(seq(cells, _ => 0)) else Disabled;
      }
      nslot, slots, used, back := active, replacement.slots, replacement.used, replacement.back;
    }

    /** Extends the only reference by `added` pages.  `granted` and `stored` tell whether storage for a
        larger map and for its counts can be had. */
    method Extend(r: MapRef, added: nat, backwards: bool, granted: bool, stored: bool)
      returns (res: Result<MapRef, Error>)
      requires Valid() && r in live
      modifies this
      ensures Valid()
      ensures res.Ok? ==>
                old(references) == 1 && live == {res.value}
                    && Extended(old(slots), r, slots, res.value, added, backwards)
      ensures res.Err? ==>
                && live == old(live) && nslot == old(nslot) && |slots| == old(|slots|)
                && slots[r.offset..r.offset + r.length] == old(slots)[r.offset..r.offset + r.length]
      ensures res == Err(AlreadyMapped) <==> old(references) != 1
      ensures res == Err(OutOfMemory) <==>
                && old(references) == 1
                && var need := if backwards then r.length + added else r.offset + r.length + added;
                && need > old(|slots|) && (need >= LARGE_PAGES || !granted)
    {
      if references != 1 {
        return Err(AlreadyMapped);
      }
      res := ExtendOnly(r, added, backwards, granted, stored);
    }

    /** Grows the range of the only reference. */
    method ExtendOnly(r: MapRef, added: nat, backwards: bool, granted: bool, stored: bool)
      returns (res: Result<MapRef, Error>)
      requires Valid() && r in live && references == 1
      modifies this
      ensures Valid()
      ensures res.Ok? ==> live == {res.value} && Extended(old(slots), r, slots, res.value, added, backwards)
      ensures res.Err? ==>
                && live == old(live) && nslot == old(nslot) && |slots| == old(|slots|)
                && slots[r.offset..r.offset + r.length] == old(slots)[r.offset..r.offset + r.length]
      ensures var need := if backwards then r.length + added else r.offset + r.length + added;
              if need > old(|slots|) && (need >= LARGE_PAGES || !granted) then res == Err(OutOfMemory) else res.Ok?
    {
      Singleton(live, r);
      Isolate(r);
      res := Grow(r, added, backwards, granted, stored);
    }

    /** The five ways to grow once nothing but `r` is occupied. */
    method Grow(r: MapRef, added: nat, backwards: bool, granted: bool, stored: bool)
      returns (res: Result<MapRef, Error>)
      requires Valid() && live == {r} && OnlyIn(slots, r)
      modifies this
      ensures Valid()
      ensures res.Ok? ==> live == {res.value} && Extended(old(slots), r, slots, res.value, added, backwards)
      ensures res.Err? ==> live == old(live) && nslot == old(nslot) && slots == old(slots)
      ensures var need := if backwards then r.length + added else r.offset + r.length + added;
              if need > old(|slots|) && (need >= LARGE_PAGES || !granted) then res == Err(OutOfMemory) else res.Ok?
    {
      var e;
      var need := if backwards then r.length + added else r.offset + r.length + added;
      if if backwards then added <= r.offset else need <= nslot {
        e := ExtendActive(r, added, backwards);
      } else if need <= |slots| {
        if backwards {
          e := ExtendShift(r, added);
        } else {
          e := ExtendActivate(r, added);
        }
      } else if need >= LARGE_PAGES || !granted {
        return Err(OutOfMemory);
      } else {
        e := Reallocate(r, added, backwards, stored);
      }
      return Ok(e);
    }

    /** Installs a page at `index` if the slot still holds `expected`.  A commit inside some live
        reference keeps the map valid. */
    method Commit(index: nat, expected: Option<Page>, replacement: Option<Page>, installed: bool)
      returns (res: Result<bool, Error>)
      requires Valid()
      modifies this`slots, this`used, this`back
      ensures res == if references == 0 || index >= nslot || old(slots)[index] != expected then Ok(false)
                     else if installed then Ok(true) else Err(NotInstalled)
      ensures slots == if res == Ok(true) && replacement.Some? then old(slots)[index := replacement] else old(slots)
      ensures Covering(live, index) != {} ==> Valid()
    {
      if references == 0 || index >= nslot || slots[index] != expected {
        return Ok(false);
      }
      if !installed {
        return Err(NotInstalled);
      }
      if replacement.Some? {
        ghost var r: MapRef;
        if Covering(live, index) != {} {
          r :| r in Covering(live, index);
          assert r in live && r.Covers(index);
        }
        Insert(index, replacement.value);
      }
      return Ok(true);
    }

    /** Copies the slots `[start, start + count)` into a new map; the pages stay shared. */
    method Slice(start: nat, count: nat, id: nat, granted: bool) returns (res: Result<AmapState, Error>)
      requires Valid() && start + count <= nslot
      ensures if granted then res.Ok? else res == Err(OutOfMemory)
      ensures granted ==> fresh(res.value) && res.value.Valid() && res.value.live == {MapRef(id, 0, count)}
      ensures granted ==> res.value.nslot == count && res.value.slots[..count] == slots[start..start + count]
    {
      if !granted {
        return Err(OutOfMemory);
      }
      var copy := new AmapState(count, Capacity(count).value, id);
      ghost var whole := MapRef(id, 0, count);
      for index := 0 to count
        invariant fresh(copy) && copy.Valid() && copy.live == {whole} && copy.partial.Unestablished?
        invariant copy.nslot == count
        invariant forall k :: 0 <= k < |copy.slots| ==> copy.slots[k] == if k < index then slots[start + k] else None
      {
        if slots[start + index].Some? {
          assert whole in copy.live && whole.Covers(index);
          copy.Insert(index, slots[start + index].value);
        }
      }
      return Ok(copy);
    }
  }

  /** In every valid state with counts, walking the stored runs to slot `i` reads the number of
      live references that cover it. */
  lemma DecodedCount(a: AmapState, i: nat)
    requires a.Valid() && a.partial.Counts? && a.references > 0 && i < a.nslot
    ensures CountAt(a.partial.counts, 0, a.nslot, i) == |Covering(a.live, i)|
  {
    DecodesTo(a.partial.counts, 0, a.nslot, Coverage(a.live, a.nslot), i);
  }

  lemma CoverageExtends(r: MapRef, e: MapRef, from: nat, added: nat, n: nat)
    requires e.length == r.length + added && e.offset + e.length <= n
    requires (from == e.offset && r.offset == e.offset + added) || (r.offset == e.offset && from == r.offset + r.length)
    ensures Coverage({e}, n) == Bumped(Coverage({r}, n), from, from + added, 1)
  {
    OnlyReference(r, n);
    OnlyReference(e, n);
  }
}

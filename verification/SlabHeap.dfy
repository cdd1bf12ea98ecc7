/** Small-object slabs: intrusive free lists, doubly linked partial lists and per-CPU magazines.

    Pointers are modelled as a slab page and a slot number.  `links` is the memory of the free
    slots, which holds the free-list links; `next` and `prev` of a slab are its partial-list links.
    Each method is one section under a pool or magazine lock. */
module SlabHeap {
  import opened Common

  const NONE_PAGE: int := -1
  const NO_SLOT: int := -1
  const CLASSES: nat := 9
  const MAGAZINE_CAPACITY: nat := 8
  const PAGE_SIZE: nat := 4096
  const HEADER: nat := 64

  /** Slot size of a class: 8, 16, ... 2048. */
  function SizeClass(cls: nat): (r: nat)
    requires cls < CLASSES
    ensures 8 <= r <= 2048
  {
    [8, 16, 32, 64, 128, 256, 512, 1024, 2048][cls]
  }

  /** Slots of one slab page: what is left after the header, which is aligned to the slot size. */
  function SlotCapacity(cls: nat): (r: nat)
    requires cls < CLASSES
    ensures 1 <= r && (if HEADER > SizeClass(cls) then HEADER else SizeClass(cls)) + r * SizeClass(cls) <= PAGE_SIZE
  {
    var offset := if HEADER > SizeClass(cls) then HEADER else SizeClass(cls);
    (PAGE_SIZE - offset) / SizeClass(cls)
  }

  datatype Ptr = Ptr(page: int, slot: int)

  /** A partial list belongs to one pool and one class. */
  datatype Key = Key(owner: nat, cls: nat)

  /** A magazine belongs to one CPU and one class. */
  datatype MagKey = MagKey(cpu: nat, cls: nat)

  datatype Slab = Slab(owner: nat, cls: nat, capacity: nat, next: int, prev: int, freeCount: nat, freeHead: int) {
    function Where(): Key {
      Key(owner, cls)
    }

    /** The same slab up to its partial-list links. */
    predicate SameBut(other: Slab) {
      this == other.(next := next, prev := prev)
    }
  }

  // ---------------------------------------------------------------- partial lists

  function First(l: seq<int>): int {
    if l == [] then NONE_PAGE else l[0]
  }

  function After(l: seq<int>, i: int): int {
    if 0 <= i + 1 < |l| then l[i + 1] else NONE_PAGE
  }

  function Before(l: seq<int>, i: int): int {
    if 0 <= i - 1 < |l| then l[i - 1] else NONE_PAGE
  }

  ghost predicate LinkOk(slabs: map<int, Slab>, l: seq<int>, i: int)
    requires 0 <= i < |l|
  {
    && l[i] >= 0 && l[i] in slabs && slabs[l[i]].next == After(l, i) && slabs[l[i]].prev == Before(l, i)
    && forall j :: 0 <= j < i ==> l[j] != l[i]
  }

  /** The slabs of `l`, in this order, are the doubly linked list that starts at `head`. */
  ghost predicate Linked(slabs: map<int, Slab>, l: seq<int>, head: int) {
    head == First(l) && forall i :: 0 <= i < |l| ==> LinkOk(slabs, l, i)
  }

  /** Only list links changed, and only of the slabs in `touched`. */
  ghost predicate Relinked(was: map<int, Slab>, now: map<int, Slab>, touched: seq<int>) {
    && now.Keys == was.Keys
    && forall p :: p in was ==> now[p].SameBut(was[p]) && (p !in touched ==> now[p] == was[p])
  }

  /** Pushes `page` at the front. */
  method Link(slabs: map<int, Slab>, head: int, page: int, ghost l: seq<int>) returns (s: map<int, Slab>)
    requires Linked(slabs, l, head) && page >= 0 && page in slabs && page !in l
    ensures Linked(s, [page] + l, page) && Relinked(slabs, s, [page] + l)
  {
    s := slabs[page := slabs[page].(prev := NONE_PAGE, next := head)];
    if head != NONE_PAGE {
      assert LinkOk(slabs, l, 0);
      s := s[head := s[head].(prev := page)];
    }
    ghost var m := [page] + l;
    forall i | 0 <= i < |m| ensures LinkOk(s, m, i) {
      if i > 0 {
        assert LinkOk(slabs, l, i - 1) && m[i] == l[i - 1];
      }
    }
  }

  ghost function Without(l: seq<int>, i: nat): seq<int>
    requires i < |l|
  {
    l[..i] + l[i + 1..]
  }

  /** Takes `page` out of the list; its own links are cleared. */
  method Unlink(slabs: map<int, Slab>, head: int, page: int, ghost l: seq<int>, ghost at: nat)
    returns (s: map<int, Slab>, h: int)
    requires Linked(slabs, l, head) && at < |l| && l[at] == page
    ensures Linked(s, Without(l, at), h) && Relinked(slabs, s, l) && page !in Without(l, at)
  {
    assert LinkOk(slabs, l, at);
    assert at > 0 ==> LinkOk(slabs, l, at - 1);
    assert at + 1 < |l| ==> LinkOk(slabs, l, at + 1);
    var next, prev := slabs[page].next, slabs[page].prev;
    s, h := slabs, head;
    if prev != NONE_PAGE {
      s := s[prev := s[prev].(next := next)];
    } else {
      h := next;
    }
    if next != NONE_PAGE {
      s := s[next := s[next].(prev := prev)];
    }
    s := s[page := s[page].(next := NONE_PAGE, prev := NONE_PAGE)];
    forall k | 0 <= k < |l| && k != at ensures RelinkedAround(slabs, s, l, at, k) {
      assert LinkOk(slabs, l, k);
      Apart(slabs, l, head, k, at);
      if at > 0 { Apart(slabs, l, head, k, at - 1); }
      if at + 1 < |l| { Apart(slabs, l, head, k, at + 1); }
    }
    WithoutLinked(slabs, s, l, head, at);
  }

  /** The slab at position `k` keeps its links, except where they led to position `at`. */
  ghost predicate RelinkedAround(slabs: map<int, Slab>, s: map<int, Slab>, l: seq<int>, at: nat, k: nat)
    requires k < |l|
  {
    && l[k] in s
    && s[l[k]].next == (if k + 1 == at then After(l, at) else After(l, k))
    && s[l[k]].prev == (if k == at + 1 then Before(l, at) else Before(l, k))
  }

  lemma WithoutLinked(slabs: map<int, Slab>, s: map<int, Slab>, l: seq<int>, head: int, at: nat)
    requires Linked(slabs, l, head) && at < |l|
    requires forall k :: 0 <= k < |l| && k != at ==> RelinkedAround(slabs, s, l, at, k)
    ensures forall i :: 0 <= i < |Without(l, at)| ==> LinkOk(s, Without(l, at), i) && Without(l, at)[i] != l[at]
  {
    var m := Without(l, at);
    forall i | 0 <= i < |m| ensures LinkOk(s, m, i) && m[i] != l[at] {
      var k := if i < at then i else i + 1;
      assert LinkOk(slabs, l, k) && m[i] == l[k] && RelinkedAround(slabs, s, l, at, k);
      Apart(slabs, l, head, k, at);
      forall j | 0 <= j < i ensures m[j] != m[i] {
        Apart(slabs, l, head, if j < at then j else j + 1, k);
      }
    }
  }

  /** Different positions of a list hold different slabs. */
  lemma Apart(slabs: map<int, Slab>, l: seq<int>, head: int, i: nat, j: nat)
    requires Linked(slabs, l, head) && i < |l| && j < |l|
    ensures l[i] == l[j] ==> i == j
  {
    assert LinkOk(slabs, l, i) && LinkOk(slabs, l, j);
  }

  // ---------------------------------------------------------------- the invariant

  /** Where a slot of a mapped slab is. */
  datatype Place = InFreeList | Cached(magazine: MagKey) | Held

  /** The fields of the heap together with its ghost view: the partial lists and free lists as
      sequences, and the place of every slot. */
  datatype View = View(
    slabs: map<int, Slab>,
    links: map<Ptr, int>,
    partial: map<Key, int>,
    emptyCache: map<Key, int>,
    magazines: map<MagKey, seq<Ptr>>,
    lists: map<Key, seq<int>>,
    frees: map<int, seq<int>>,
    place: map<Ptr, Place>)
  {
    function HeadOf(k: Key): int { if k in partial then partial[k] else NONE_PAGE }
    function CacheOf(k: Key): int { if k in emptyCache then emptyCache[k] else NONE_PAGE }
    function MagOf(k: MagKey): seq<Ptr> { if k in magazines then magazines[k] else [] }
    function ListOf(k: Key): seq<int> { if k in lists then lists[k] else [] }

    predicate IsSlot(a: Ptr) {
      a.page in slabs && 0 <= a.slot < slabs[a.page].capacity
    }

    predicate IsEmpty(p: int) {
      p in slabs && slabs[p].freeCount == slabs[p].capacity
    }
  }

  ghost predicate FreeSlotOk(capacity: nat, links: map<Ptr, int>, page: int, f: seq<int>, i: int)
    requires 0 <= i < |f|
  {
    && 0 <= f[i] < capacity && Ptr(page, f[i]) in links
    && links[Ptr(page, f[i])] == (if i + 1 < |f| then f[i + 1] else NO_SLOT)
    && forall j :: 0 <= j < i ==> f[j] != f[i]
  }

  /** The slots `f` are the free list of `slab`, linked through the memory of the slots themselves. */
  ghost predicate FreeList(slab: Slab, links: map<Ptr, int>, page: int, f: seq<int>) {
    && |f| == slab.freeCount && slab.freeHead == (if f == [] then NO_SLOT else f[0])
    && forall i :: 0 <= i < |f| ==> FreeSlotOk(slab.capacity, links, page, f, i)
  }

  /** `loose` may be wholly free without being cached, and `moving` may be on or off its partial list
      whatever its free count. */
  ghost predicate SlabOk(v: View, p: int, loose: int, moving: int) {
    p in v.slabs ==>
      var slab := v.slabs[p];
      && p >= 0 && p in v.frees && FreeList(slab, v.links, p, v.frees[p])
      && slab.cls < CLASSES && slab.capacity == SlotCapacity(slab.cls) && slab.freeCount <= slab.capacity
      && (p != moving ==> (p in v.ListOf(slab.Where()) <==> slab.freeCount > 0))
      && (p != loose && v.IsEmpty(p) ==> v.CacheOf(slab.Where()) == p)
  }

  ghost predicate KeyOk(v: View, k: Key) {
    && Linked(v.slabs, v.ListOf(k), v.HeadOf(k))
    && (forall q :: q in v.ListOf(k) ==> q in v.slabs && v.slabs[q].Where() == k)
    && (v.CacheOf(k) != NONE_PAGE ==> v.IsEmpty(v.CacheOf(k)) && v.slabs[v.CacheOf(k)].Where() == k)
  }

  ghost predicate PtrOk(v: View, a: Ptr) {
    && (a in v.place <==> v.IsSlot(a))
    && (a in v.place && a.page in v.frees ==> (v.place[a] == InFreeList <==> a.slot in v.frees[a.page]))
    && (a in v.place && v.place[a].Cached? ==> a in v.MagOf(v.place[a].magazine))
  }

  ghost predicate MagOk(v: View, k: MagKey) {
    && |v.MagOf(k)| <= MAGAZINE_CAPACITY
    && forall i :: 0 <= i < |v.MagOf(k)| ==>
         var a := v.MagOf(k)[i];
         && a in v.place && v.place[a] == Cached(k) && a.page in v.slabs && v.slabs[a.page].cls == k.cls
         && forall j :: 0 <= j < i ==> v.MagOf(k)[j] != a
  }

  ghost predicate Inv(v: View, loose: int, moving: int) {
    && (forall p :: SlabOk(v, p, loose, moving))
    && (forall k :: KeyOk(v, k))
    && (forall a :: PtrOk(v, a))
    && (forall m :: MagOk(v, m))
  }

  /** Each slot of each mapped slab is in exactly one of its free list, one magazine, or the hands of a
      caller; the partial list of a class holds exactly its slabs with a free slot; a wholly free slab
      is the class's cached one. */
  ghost predicate Consistent(v: View) {
    Inv(v, NONE_PAGE, NONE_PAGE)
  }

  // ---------------------------------------------------------------- value lemmas, one per primitive

  /** The same slabs up to their partial-list links. */
  ghost predicate SameSlabs(was: map<int, Slab>, now: map<int, Slab>) {
    now.Keys == was.Keys && forall p :: p in was ==> now[p].SameBut(was[p])
  }

  /** Steps that move no slot keep the places of the slots. */
  lemma PtrsKept(v: View, w: View)
    requires (forall a :: PtrOk(v, a)) && (forall m :: MagOk(v, m)) && SameSlabs(v.slabs, w.slabs)
    requires w.place == v.place && w.frees == v.frees && w.magazines == v.magazines
    ensures (forall a :: PtrOk(w, a)) && (forall m :: MagOk(w, m))
  {
    forall a ensures PtrOk(w, a) {
      assert PtrOk(v, a);
    }
    forall m ensures MagOk(w, m) {
      assert MagOk(v, m);
    }
  }

  /** Moving list links of slabs of key `k` concerns nothing but the list of `k`. */
  lemma RelinkKeeps(v: View, w: View, k: Key, loose: int, moving: int, page: int, after: int)
    requires Inv(v, loose, moving) && page in v.slabs && v.slabs[page].Where() == k
    requires w == v.(slabs := w.slabs, partial := w.partial, lists := w.lists)
    requires Relinked(v.slabs, w.slabs, v.ListOf(k) + [page])
    requires Linked(w.slabs, w.ListOf(k), w.HeadOf(k))
    requires forall q :: q in w.ListOf(k) ==> q == page || q in v.ListOf(k)
    requires forall q :: q in v.ListOf(k) && q != page ==> q in w.ListOf(k)
    requires forall m :: m != k ==> w.ListOf(m) == v.ListOf(m) && w.HeadOf(m) == v.HeadOf(m)
    requires moving == NONE_PAGE || moving == page
    requires after == page || (after == NONE_PAGE && (page in w.ListOf(k) <==> v.slabs[page].freeCount > 0))
    ensures Inv(w, loose, after)
  {
    forall p ensures SlabOk(w, p, loose, after) {
      assert SlabOk(v, p, loose, moving);
      assert p in v.slabs && v.slabs[p].Where() != k ==> w.ListOf(v.slabs[p].Where()) == v.ListOf(v.slabs[p].Where());
    }
    forall m ensures KeyOk(w, m) {
      assert KeyOk(v, m);
      if m != k {
        assert KeyOk(v, k);
        OtherListKept(v, w, k, m, page);
      }
    }
    PtrsKept(v, w);
  }

  lemma OtherListKept(v: View, w: View, k: Key, m: Key, page: int)
    requires KeyOk(v, m) && KeyOk(v, k) && m != k && page in v.slabs && v.slabs[page].Where() == k
    requires w == v.(slabs := w.slabs, partial := w.partial, lists := w.lists)
    requires Relinked(v.slabs, w.slabs, v.ListOf(k) + [page])
    requires w.ListOf(m) == v.ListOf(m) && w.HeadOf(m) == v.HeadOf(m)
    ensures Linked(w.slabs, w.ListOf(m), w.HeadOf(m))
  {
    var l := v.ListOf(m);
    forall i | 0 <= i < |l| ensures LinkOk(w.slabs, l, i) {
      assert LinkOk(v.slabs, l, i) && l[i] in l && l[i] !in v.ListOf(k) && l[i] != page;
    }
  }

  /** A change of free counts and free lists that keeps the list links keeps every list. */
  lemma ListsKept(v: View, w: View, page: int, m: Key)
    requires KeyOk(v, m) && page in v.slabs && w.lists == v.lists && w.partial == v.partial
    requires page in w.slabs && w.slabs == v.slabs[page := w.slabs[page]]
    requires w.slabs[page].next == v.slabs[page].next && w.slabs[page].prev == v.slabs[page].prev
    requires w.slabs[page].Where() == v.slabs[page].Where()
    ensures Linked(w.slabs, w.ListOf(m), w.HeadOf(m))
    ensures forall q :: q in w.ListOf(m) ==> q in w.slabs && w.slabs[q].Where() == m
  {
    forall i | 0 <= i < |v.ListOf(m)| ensures LinkOk(w.slabs, w.ListOf(m), i) {
      assert LinkOk(v.slabs, v.ListOf(m), i);
    }
  }

  /** The slab after its first free slot has been taken. */
  function Taken(slab: Slab, link: int): Slab
    requires slab.freeCount > 0
  {
    slab.(freeHead := link, freeCount := slab.freeCount - 1)
  }

  lemma FreeListTail(slab: Slab, links: map<Ptr, int>, page: int, f: seq<int>)
    requires FreeList(slab, links, page, f) && f != []
    ensures Ptr(page, f[0]) in links && 0 <= f[0] < slab.capacity && slab.freeCount > 0
    ensures FreeList(Taken(slab, links[Ptr(page, f[0])]), links, page, f[1..])
    ensures f[0] !in f[1..] && forall x :: x in f <==> x == f[0] || x in f[1..]
  {
    assert FreeSlotOk(slab.capacity, links, page, f, 0);
    forall i | 0 <= i < |f[1..]| ensures FreeSlotOk(slab.capacity, links, page, f[1..], i) && f[1..][i] != f[0] {
      assert FreeSlotOk(slab.capacity, links, page, f, i + 1);
    }
  }

  lemma TakeKeeps(v: View, w: View, page: int, loose: int, full: int)
    requires Inv(v, loose, NONE_PAGE) && (loose == NONE_PAGE || loose == page)
    requires page in v.slabs && page in v.frees && v.slabs[page].freeCount > 0 && v.frees[page] != []
    requires var slab, f := v.slabs[page], v.frees[page];
             && Ptr(page, f[0]) in v.links
             && w == v.(slabs := v.slabs[page := Taken(slab, v.links[Ptr(page, f[0])])],
                        frees := v.frees[page := f[1..]], place := v.place[Ptr(page, f[0]) := Held],
                        emptyCache := if v.CacheOf(slab.Where()) == page
                                      then v.emptyCache[slab.Where() := NONE_PAGE] else v.emptyCache)
    requires full == if w.slabs[page].freeCount == 0 then page else NONE_PAGE
    ensures Inv(w, NONE_PAGE, full)
  {
    var slab, f := v.slabs[page], v.frees[page];
    assert SlabOk(v, page, loose, NONE_PAGE);
    FreeListTail(slab, v.links, page, f);
    forall p ensures SlabOk(w, p, NONE_PAGE, full) {
      assert SlabOk(v, p, loose, NONE_PAGE);
    }
    forall m ensures KeyOk(w, m) {
      assert KeyOk(v, m);
      ListsKept(v, w, page, m);
    }
    forall b ensures PtrOk(w, b) {
      assert PtrOk(v, b);
    }
    forall m ensures MagOk(w, m) {
      assert MagOk(v, m) && PtrOk(v, Ptr(page, f[0]));
    }
  }

  /** Distinct slots below `capacity`, none of them `slot`, leave room for it. */
  lemma Room(slab: Slab, links: map<Ptr, int>, page: int, f: seq<int>, slot: int)
    requires FreeList(slab, links, page, f) && 0 <= slot < slab.capacity && slot !in f
    ensures |f| < slab.capacity
  {
    SlotsBelow(slab, links, page, f, |f|);
    var used := set i | 0 <= i < |f| :: f[i];
    assert used + {slot} <= Below(slab.capacity) && slot !in used;
    SubsetSize(used + {slot}, Below(slab.capacity));
  }

  /** A full free list holds every slot. */
  lemma EverySlotFree(slab: Slab, links: map<Ptr, int>, page: int, f: seq<int>, slot: int)
    requires FreeList(slab, links, page, f) && |f| == slab.capacity && 0 <= slot < slab.capacity
    ensures slot in f
  {
    if slot !in f {
      Room(slab, links, page, f, slot);
    }
  }

  lemma {:induction false} SlotsBelow(slab: Slab, links: map<Ptr, int>, page: int, f: seq<int>, n: nat)
    requires FreeList(slab, links, page, f) && n <= |f|
    ensures |set i | 0 <= i < n :: f[i]| == n
    ensures forall i :: 0 <= i < n ==> 0 <= f[i] < slab.capacity
  {
    if n > 0 {
      SlotsBelow(slab, links, page, f, n - 1);
      assert FreeSlotOk(slab.capacity, links, page, f, n - 1);
      assert (set i | 0 <= i < n :: f[i]) == (set i | 0 <= i < n - 1 :: f[i]) + {f[n - 1]};
    }
  }

  /** The slab after `slot` has been pushed on its free list. */
  function Given(slab: Slab, slot: int): Slab {
    slab.(freeHead := slot, freeCount := slab.freeCount + 1)
  }

  lemma FreeListPush(slab: Slab, links: map<Ptr, int>, page: int, f: seq<int>, slot: int)
    requires FreeList(slab, links, page, f) && 0 <= slot < slab.capacity && slot !in f
    ensures FreeList(Given(slab, slot), links[Ptr(page, slot) := slab.freeHead], page, [slot] + f)
    ensures |f| < slab.capacity
  {
    Room(slab, links, page, f, slot);
    var g, m := [slot] + f, links[Ptr(page, slot) := slab.freeHead];
    forall i | 0 <= i < |g| ensures FreeSlotOk(slab.capacity, m, page, g, i) {
      if i > 0 {
        assert FreeSlotOk(slab.capacity, links, page, f, i - 1);
      }
    }
  }

  lemma OtherFreeList(slab: Slab, links: map<Ptr, int>, page: int, f: seq<int>, a: Ptr, x: int)
    requires FreeList(slab, links, page, f) && a.page != page
    ensures FreeList(slab, links[a := x], page, f)
  {
    var m := links[a := x];
    forall i | 0 <= i < |f| ensures FreeSlotOk(slab.capacity, m, page, f, i) {
      assert FreeSlotOk(slab.capacity, links, page, f, i);
    }
  }

  lemma GiveKeeps(v: View, w: View, a: Ptr, loose: int, moving: int)
    requires Inv(v, NONE_PAGE, NONE_PAGE) && a in v.place && v.place[a] == Held
    requires a.page in v.slabs && a.page in v.frees
    requires w == v.(slabs := v.slabs[a.page := Given(v.slabs[a.page], a.slot)],
            links := v.links[a := v.slabs[a.page].freeHead],
                     frees := v.frees[a.page := [a.slot] + v.frees[a.page]], place := v.place[a := InFreeList])
    requires loose == if w.IsEmpty(a.page) then a.page else NONE_PAGE
    requires moving == if v.slabs[a.page].freeCount == 0 then a.page else NONE_PAGE
    ensures Inv(w, loose, moving) && v.CacheOf(v.slabs[a.page].Where()) != a.page
  {
    var slab, f := v.slabs[a.page], v.frees[a.page];
    assert PtrOk(v, a) && SlabOk(v, a.page, NONE_PAGE, NONE_PAGE) && KeyOk(v, slab.Where());
    FreeListPush(slab, v.links, a.page, f, a.slot);
    forall p ensures SlabOk(w, p, loose, moving) {
      assert SlabOk(v, p, NONE_PAGE, NONE_PAGE);
      if p in v.slabs && p != a.page {
        OtherFreeList(v.slabs[p], v.links, p, v.frees[p], a, slab.freeHead);
      }
    }
    forall m ensures KeyOk(w, m) {
      assert KeyOk(v, m);
      ListsKept(v, w, a.page, m);
    }
    forall b ensures PtrOk(w, b) {
      assert PtrOk(v, b);
    }
    forall m ensures MagOk(w, m) {
      assert MagOk(v, m);
    }
  }

  lemma CacheKeeps(v: View, w: View, page: int)
    requires Inv(v, page, NONE_PAGE) && v.IsEmpty(page)
    requires var k := v.slabs[page].Where();
             (v.CacheOf(k) == NONE_PAGE || v.CacheOf(k) == page) && w == v.(emptyCache := v.emptyCache[k := page])
    ensures Inv(w, NONE_PAGE, NONE_PAGE)
  {
    forall p ensures SlabOk(w, p, NONE_PAGE, NONE_PAGE) {
      assert SlabOk(v, p, page, NONE_PAGE);
    }
    forall m ensures KeyOk(w, m) {
      assert KeyOk(v, m);
    }
    PtrsKept(v, w);
  }

  /** A cached slab that is off its list gives up the cache. */
  lemma UncacheKeeps(v: View, w: View, page: int)
    requires Inv(v, NONE_PAGE, page) && page in v.slabs
    requires var k := v.slabs[page].Where(); v.CacheOf(k) == page && w == v.(emptyCache := v.emptyCache[k := NONE_PAGE])
    ensures Inv(w, page, page)
  {
    forall p ensures SlabOk(w, p, page, page) {
      assert SlabOk(v, p, NONE_PAGE, page);
    }
    forall m ensures KeyOk(w, m) {
      assert KeyOk(v, m);
    }
    PtrsKept(v, w);
  }

  ghost function PlacesOff(place: map<Ptr, Place>, page: int): map<Ptr, Place> {
    map a | a in place && a.page != page :: place[a]
  }

  /** Unmapping a wholly free slab that is neither listed nor cached: every one of its slots was free. */
  lemma ReleaseKeeps(v: View, w: View, page: int)
    requires Inv(v, page, page) && v.IsEmpty(page)
    requires page !in v.ListOf(v.slabs[page].Where()) && v.CacheOf(v.slabs[page].Where()) != page
    requires w == v.(slabs := v.slabs - {page}, frees := v.frees - {page}, place := PlacesOff(v.place, page))
    ensures Inv(w, NONE_PAGE, NONE_PAGE)
    ensures forall a :: a in v.place && a.page == page ==> v.place[a] == InFreeList
  {
    assert SlabOk(v, page, page, page);
    var slab, f := v.slabs[page], v.frees[page];
    forall a | a in v.place && a.page == page ensures v.place[a] == InFreeList {
      assert PtrOk(v, a);
      EverySlotFree(slab, v.links, page, f, a.slot);
    }
    forall p ensures SlabOk(w, p, NONE_PAGE, NONE_PAGE) {
      assert SlabOk(v, p, page, page);
    }
    forall m ensures KeyOk(w, m) {
      assert KeyOk(v, m);
      assert page !in v.ListOf(m);
      forall i | 0 <= i < |v.ListOf(m)| ensures LinkOk(w.slabs, w.ListOf(m), i) {
        assert LinkOk(v.slabs, v.ListOf(m), i) && v.ListOf(m)[i] in v.ListOf(m);
      }
    }
    forall b ensures PtrOk(w, b) {
      assert PtrOk(v, b);
    }
    forall m ensures MagOk(w, m) {
      assert MagOk(v, m);
    }
  }

  /** Links of the free slots of other slabs are left alone. */
  ghost predicate LinksOff(was: map<Ptr, int>, now: map<Ptr, int>, page: int) {
    forall a :: a in was && a.page != page ==> a in now && now[a] == was[a]
  }

  /** All slots of a fresh slab, in the order of its first free list. */
  function Slots(capacity: nat): (f: seq<int>)
    ensures |f| == capacity && forall i :: 0 <= i < capacity ==> f[i] == i
  {
    seq(capacity, i => i)
  }

  /** Threads the free list through a fresh slab page, from its last slot to its first. */
  method InitSlabPage(links: map<Ptr, int>, page: int, owner: nat, cls: nat) returns (now: map<Ptr, int>, slab: Slab)
    requires cls < CLASSES
    ensures slab == Slab(owner, cls, SlotCapacity(cls), NONE_PAGE, NONE_PAGE, SlotCapacity(cls), 0)
    ensures LinksOff(links, now, page) && FreeList(slab, now, page, Slots(slab.capacity))
  {
    var capacity := SlotCapacity(cls);
    now := links;
    var head := NO_SLOT;
    var slot := capacity;
    while slot > 0
      invariant 0 <= slot <= capacity && head == (if slot < capacity then slot else NO_SLOT)
      invariant LinksOff(links, now, page)
      invariant forall i :: slot <= i < capacity ==>
                  Ptr(page, i) in now && now[Ptr(page, i)] == if i + 1 < capacity then i + 1 else NO_SLOT
    {
      slot := slot - 1;
      now := now[Ptr(page, slot) := head];
      head := slot;
    }
    slab := Slab(owner, cls, capacity, NONE_PAGE, NONE_PAGE, capacity, head);
    forall i | 0 <= i < capacity ensures FreeSlotOk(capacity, now, page, Slots(capacity), i) {
    }
  }

  ghost function PlacesOn(place: map<Ptr, Place>, page: int, capacity: nat): (r: map<Ptr, Place>)
    ensures forall a :: a in r <==> a in place || (a.page == page && 0 <= a.slot < capacity)
    ensures forall a :: a in r ==> r[a] == if a.page == page && 0 <= a.slot < capacity then InFreeList else place[a]
  {
    if capacity == 0 then place else PlacesOn(place, page, capacity - 1)[Ptr(page, capacity - 1) := InFreeList]
  }

  lemma GrowKeeps(v: View, w: View, page: int, slab: Slab)
    requires Inv(v, NONE_PAGE, NONE_PAGE) && page >= 0 && page !in v.slabs
    requires slab.cls < CLASSES && slab.capacity == SlotCapacity(slab.cls) == slab.freeCount
    requires w == v.(slabs := v.slabs[page := slab], links := w.links, frees := v.frees[page := Slots(slab.capacity)],
                     place := PlacesOn(v.place, page, slab.capacity))
    requires LinksOff(v.links, w.links, page) && FreeList(slab, w.links, page, Slots(slab.capacity))
    ensures Inv(w, page, page) && page !in w.ListOf(slab.Where())
  {
    forall p ensures SlabOk(w, p, page, page) {
      assert SlabOk(v, p, NONE_PAGE, NONE_PAGE);
      if p in v.slabs {
        FreeListLocal(v.slabs[p], v.links, w.links, p, v.frees[p], page);
      }
    }
    forall m ensures KeyOk(w, m) {
      assert KeyOk(v, m);
      forall i | 0 <= i < |v.ListOf(m)| ensures LinkOk(w.slabs, w.ListOf(m), i) {
        assert LinkOk(v.slabs, v.ListOf(m), i);
      }
    }
    assert KeyOk(v, slab.Where());
    GrowPtrs(v, w, page, slab);
  }

  lemma GrowPtrs(v: View, w: View, page: int, slab: Slab)
    requires (forall a :: PtrOk(v, a)) && (forall m :: MagOk(v, m)) && page !in v.slabs
    requires w == v.(slabs := v.slabs[page := slab], links := w.links, frees := v.frees[page := Slots(slab.capacity)],
                     place := PlacesOn(v.place, page, slab.capacity))
    ensures (forall a :: PtrOk(w, a)) && (forall m :: MagOk(w, m))
  {
    forall b ensures PtrOk(w, b) {
      assert PtrOk(v, b);
      assert 0 <= b.slot < slab.capacity ==> Slots(slab.capacity)[b.slot] == b.slot;
    }
    forall m ensures MagOk(w, m) {
      assert MagOk(v, m);
    }
  }

  lemma FreeListLocal(slab: Slab, links: map<Ptr, int>, now: map<Ptr, int>, p: int, f: seq<int>, page: int)
    requires FreeList(slab, links, p, f) && LinksOff(links, now, page) && p != page
    ensures FreeList(slab, now, p, f)
  {
    forall i | 0 <= i < |f| ensures FreeSlotOk(slab.capacity, now, p, f, i) {
      assert FreeSlotOk(slab.capacity, links, p, f, i);
    }
  }

  /** The last cached slot of a magazine goes to a caller. */
  lemma PopKeeps(v: View, w: View, k: MagKey)
    requires Inv(v, NONE_PAGE, NONE_PAGE) && v.MagOf(k) != []
    requires var m := v.MagOf(k); var a := m[|m| - 1];
             w == v.(magazines := v.magazines[k := m[..|m| - 1]], place := v.place[a := Held])
    ensures Inv(w, NONE_PAGE, NONE_PAGE)
  {
    var m := v.MagOf(k);
    var a := m[|m| - 1];
    assert MagOk(v, k);
    forall p ensures SlabOk(w, p, NONE_PAGE, NONE_PAGE) {
      assert SlabOk(v, p, NONE_PAGE, NONE_PAGE);
    }
    forall q ensures KeyOk(w, q) {
      assert KeyOk(v, q);
    }
    forall b ensures PtrOk(w, b) {
      assert PtrOk(v, b) && PtrOk(v, a);
      assert b in m && b != a ==> b in m[..|m| - 1];
    }
    forall q ensures MagOk(w, q) {
      assert MagOk(v, q);
    }
  }

  /** A held slot goes into a magazine of its class. */
  lemma PushKeeps(v: View, w: View, k: MagKey, a: Ptr)
    requires Inv(v, NONE_PAGE, NONE_PAGE) && a in v.place && v.place[a] == Held && |v.MagOf(k)| < MAGAZINE_CAPACITY
    requires a.page in v.slabs && v.slabs[a.page].cls == k.cls
    requires w == v.(magazines := v.magazines[k := v.MagOf(k) + [a]], place := v.place[a := Cached(k)])
    ensures Inv(w, NONE_PAGE, NONE_PAGE)
  {
    forall p ensures SlabOk(w, p, NONE_PAGE, NONE_PAGE) {
      assert SlabOk(v, p, NONE_PAGE, NONE_PAGE);
    }
    forall q ensures KeyOk(w, q) {
      assert KeyOk(v, q);
    }
    forall b ensures PtrOk(w, b) {
      assert PtrOk(v, b) && PtrOk(v, a);
    }
    forall q ensures MagOk(w, q) {
      assert MagOk(v, q);
    }
  }

  // ---------------------------------------------------------------- the allocator

  class SlabHeap {
    var slabs: map<int, Slab>
    var links: map<Ptr, int>
    var partial: map<Key, int>
    var emptyCache: map<Key, int>
    var magazines: map<MagKey, seq<Ptr>>
    ghost var lists: map<Key, seq<int>>
    ghost var frees: map<int, seq<int>>
    ghost var place: map<Ptr, Place>

    ghost function Now(): View
      reads this
    {
      View(slabs, links, partial, emptyCache, magazines, lists, frees, place)
    }

    ghost predicate Valid()
      reads this
    {
      Consistent(Now())
    }

    constructor ()
      ensures Valid() && place == map[]
    {
      slabs, links, partial, emptyCache, magazines := map[], map[], map[], map[], map[];
      lists, frees, place := map[], map[], map[];
      new;
      forall p ensures SlabOk(Now(), p, NONE_PAGE, NONE_PAGE) {
      }
    }

    /** Puts a slab at the front of its partial list. */
    method InsertPartial(page: int, ghost loose: int)
      requires Inv(Now(), loose, page) && page >= 0 && page in slabs && slabs[page].freeCount > 0
      requires page !in Now().ListOf(slabs[page].Where())
      modifies this`slabs, this`partial, this`lists
      ensures Inv(Now(), loose, NONE_PAGE) && SameSlabs(old(slabs), slabs)
    {
      var key := slabs[page].Where();
      ghost var v := Now();
      ghost var l := v.ListOf(key);
      assert KeyOk(v, key);
      var head := if key in partial then partial[key] else NONE_PAGE;
      slabs := Link(slabs, head, page, l);
      partial := partial[key := page];
      lists := lists[key := [page] + l];
      RelinkKeeps(v, Now(), key, loose, page, page, NONE_PAGE);
    }

    /** Takes a slab off its partial list. */
    method RemovePartial(page: int, ghost loose: int, ghost moving: int, ghost after: int)
      requires Inv(Now(), loose, moving) && (moving == NONE_PAGE || moving == page)
      requires page in slabs && page in Now().ListOf(slabs[page].Where())
      requires after == page || (after == NONE_PAGE && slabs[page].freeCount == 0)
      modifies this`slabs, this`partial, this`lists
      ensures Inv(Now(), loose, after) && SameSlabs(old(slabs), slabs)
      ensures page !in Now().ListOf(slabs[page].Where())
    {
      var key := slabs[page].Where();
      ghost var v := Now();
      ghost var l := v.ListOf(key);
      assert KeyOk(v, key);
      ghost var at :| 0 <= at < |l| && l[at] == page;
      var head := if key in partial then partial[key] else NONE_PAGE;
      slabs, head := Unlink(slabs, head, page, l, at);
      partial := partial[key := head];
      lists := lists[key := Without(l, at)];
      WithoutMembers(l, at);
      RelinkKeeps(v, Now(), key, loose, moving, page, after);
    }

    /** Maps `page` as a slab of its own and lists it.  Until a slot is taken it is wholly free. */
    method GrowSlab(cls: nat, owner: nat, page: int)
      requires Valid() && cls < CLASSES && page >= 0 && page !in slabs
      modifies this
      ensures Inv(Now(), page, NONE_PAGE) && page in slabs && slabs[page].Where() == Key(owner, cls)
      ensures slabs[page].freeCount > 0 && magazines == old(magazines)
      ensures forall a :: a in old(place) ==> a in place && place[a] == old(place)[a]
      ensures forall a :: a in place && a !in old(place) ==> place[a] == InFreeList
    {
      ghost var v := Now();
      var slab;
      links, slab := InitSlabPage(links, page, owner, cls);
      slabs := slabs[page := slab];
      frees := frees[page := Slots(slab.capacity)];
      place := PlacesOn(place, page, slab.capacity);
      forall a | a in v.place ensures a.page != page {
        assert PtrOk(v, a);
      }
      GrowKeeps(v, Now(), page, slab);
      InsertPartial(page, page);
    }

    /** Takes the first free slot of a listed slab. */
    method TakeSlot(page: int, ghost loose: int) returns (a: Ptr)
      requires Inv(Now(), loose, NONE_PAGE) && (loose == NONE_PAGE || loose == page)
      requires page in slabs && slabs[page].freeCount > 0
      modifies this
      ensures Valid() && magazines == old(magazines)
      ensures a.page == page && a in old(place) && old(place)[a] == InFreeList && place == old(place)[a := Held]
      ensures a.page in slabs && slabs[a.page].Where() == old(slabs[page].Where())
    {
      ghost var v := Now();
      assert SlabOk(v, page, loose, NONE_PAGE);
      FreeListTail(slabs[page], links, page, frees[page]);
      var slab := slabs[page];
      var key, node := slab.Where(), slab.freeHead;
      a := Ptr(page, node);
      assert PtrOk(v, a) && node in frees[page];
      slabs := slabs[page := Taken(slab, links[a])];
      frees := frees[page := frees[page][1..]];
      place := place[a := Held];
      var cache := if key in emptyCache then emptyCache[key] else NONE_PAGE;
      if cache == page {
        emptyCache := emptyCache[key := NONE_PAGE];
      }
      ghost var full := if slabs[page].freeCount == 0 then page else NONE_PAGE;
      TakeKeeps(v, Now(), page, loose, full);
      if slabs[page].freeCount == 0 {
        RemovePartial(page, NONE_PAGE, page, NONE_PAGE);
      }
    }

    /** Allocates a slot of class `cls` from pool `owner`.  `spare` is the page the pool may map when its
        partial list is empty, none when no page or frame can be had. */
    method AllocSlab(cls: nat, owner: nat, spare: Option<int>) returns (r: Option<Ptr>)
      requires Valid() && cls < CLASSES
      requires spare.Some? ==> spare.value >= 0 && spare.value !in slabs
      modifies this
      ensures Valid() && magazines == old(magazines)
      ensures r.None? <==> spare.None? && old(Now().ListOf(Key(owner, cls))) == []
      ensures r.None? ==> Now() == old(Now())
      ensures r.Some? ==>
                HandedOut(old(place), place, r.value) && r.value.page in slabs
                    && slabs[r.value.page].Where() == Key(owner, cls)
    {
      var key := Key(owner, cls);
      ghost var v := Now();
      assert KeyOk(v, key);
      var page := if key in partial then partial[key] else NONE_PAGE;
      if page == NONE_PAGE {
        assert v.ListOf(key) == [] || LinkOk(v.slabs, v.ListOf(key), 0);
        if spare.None? {
          return None;
        }
        GrowSlab(cls, owner, spare.value);
        var a := TakeSlot(spare.value, spare.value);
        r := Some(a);
      } else {
        assert v.ListOf(key)[0] in v.ListOf(key);
        assert SlabOk(v, page, NONE_PAGE, NONE_PAGE);
        var a := TakeSlot(page, NONE_PAGE);
        r := Some(a);
      }
    }

    /** Returns a held slot to its slab.  The slab page is released when it became wholly free while
        another wholly free slab is cached. */
    method DeallocSlab(a: Ptr) returns (released: Option<int>)
      requires Valid() && a in place && place[a] == Held
      modifies this
      ensures Valid() && magazines == old(magazines)
      ensures released.None? ==> place == old(place)[a := InFreeList]
      ensures released.Some? ==> released.value == a.page && ReleasedFree(old(place)[a := InFreeList], place, a.page)
    {
      ghost var v := Now();
      assert PtrOk(v, a) && SlabOk(v, a.page, NONE_PAGE, NONE_PAGE);
      var page, slab := a.page, slabs[a.page];
      var key := slab.Where();
      links := links[a := slab.freeHead];
      slabs := slabs[page := Given(slab, a.slot)];
      frees := frees[page := [a.slot] + frees[page]];
      place := place[a := InFreeList];
      ghost var loose := if Now().IsEmpty(page) then page else NONE_PAGE;
      ghost var moving := if slab.freeCount == 0 then page else NONE_PAGE;
      GiveKeeps(v, Now(), a, loose, moving);
      if slab.freeCount == 0 {
        InsertPartial(page, loose);
      }
      released := None;
      if slabs[page].freeCount == slabs[page].capacity {
        released := Settle(page);
      }
    }

    /** A slab that just became wholly free becomes the cached one, or is released. */
    method Settle(page: int) returns (released: Option<int>)
      requires Inv(Now(), page, NONE_PAGE) && Now().IsEmpty(page) && Now().CacheOf(slabs[page].Where()) != page
      modifies this
      ensures Valid() && magazines == old(magazines)
      ensures released.None? ==> place == old(place)
      ensures released.Some? ==> released.value == page && ReleasedFree(old(place), place, page)
    {
      var key := slabs[page].Where();
      var cache := if key in emptyCache then emptyCache[key] else NONE_PAGE;
      ghost var v := Now();
      if cache == NONE_PAGE || cache == page {
        emptyCache := emptyCache[key := page];
        CacheKeeps(v, Now(), page);
        return None;
      }
      assert SlabOk(v, page, page, NONE_PAGE);
      RemovePartial(page, page, NONE_PAGE, page);
      ReleasePage(page);
      return Some(page);
    }

    /** Gives an unlisted, wholly free slab page back to the arena. */
    method ReleasePage(page: int)
      requires Inv(Now(), page, page) && Now().IsEmpty(page)
      requires page !in Now().ListOf(slabs[page].Where()) && Now().CacheOf(slabs[page].Where()) != page
      modifies this`slabs, this`frees, this`place
      ensures Valid() && ReleasedFree(old(place), place, page)
    {
      ghost var v := Now();
      slabs := slabs - {page};
      frees := frees - {page};
      place := PlacesOff(place, page);
      ReleaseKeeps(v, Now(), page);
    }

    /** Releases the cached slab of a class. */
    method TrimClass(owner: nat, cls: nat)
      requires Valid() && cls < CLASSES
      modifies this
      ensures Valid() && magazines == old(magazines)
      ensures forall a :: a in old(place) && old(place)[a] != InFreeList ==> a in place && place[a] == old(place)[a]
      ensures forall a :: a in place ==> a in old(place)
    {
      var key := Key(owner, cls);
      var page := if key in emptyCache then emptyCache[key] else NONE_PAGE;
      if page != NONE_PAGE {
        ghost var v := Now();
        assert KeyOk(v, key) && SlabOk(v, page, NONE_PAGE, NONE_PAGE);
        RemovePartial(page, NONE_PAGE, NONE_PAGE, page);
        v := Now();
        emptyCache := emptyCache[key := NONE_PAGE];
        UncacheKeeps(v, Now(), page);
        ReleasePage(page);
      }
    }

    /** Takes a cached slot from a magazine. */
    method MagazinePop(k: MagKey) returns (r: Option<Ptr>)
      requires Valid()
      modifies this`magazines, this`place
      ensures Valid() && (r.None? <==> old(Now().MagOf(k)) == [])
      ensures r.None? ==> Now() == old(Now())
      ensures r.Some? ==>
                && r.value in old(place) && old(place)[r.value] == Cached(k) && place == old(place)[r.value := Held]
                && r.value.page in slabs && slabs[r.value.page].cls == k.cls
                && old(Now().MagOf(k)) == Now().MagOf(k) + [r.value]
      ensures forall m :: m != k ==> Now().MagOf(m) == old(Now().MagOf(m))
    {
      var m := if k in magazines then magazines[k] else [];
      if m == [] {
        return None;
      }
      ghost var v := Now();
      assert MagOk(v, k);
      var a := m[|m| - 1];
      magazines := magazines[k := m[..|m| - 1]];
      place := place[a := Held];
      PopKeeps(v, Now(), k);
      return Some(a);
    }

    method MagazinePush(k: MagKey, a: Ptr)
      requires Valid() && a in place && place[a] == Held && |Now().MagOf(k)| < MAGAZINE_CAPACITY
      requires a.page in slabs && slabs[a.page].cls == k.cls
      modifies this`magazines, this`place
      ensures Valid() && place == old(place)[a := Cached(k)]
    {
      ghost var v := Now();
      var m := if k in magazines then magazines[k] else [];
      magazines := magazines[k := m + [a]];
      place := place[a := Cached(k)];
      PushKeeps(v, Now(), k, a);
    }

    /** Caches a freed slot in the local magazine; a full magazine first spills half of its slots to
        their slabs.  Afterwards the caller no longer holds the slot, and what others hold is untouched. */
    method CacheDeallocation(cpu: nat, a: Ptr)
      requires Valid() && a in place && place[a] == Held
      modifies this
      ensures Valid() && a in place && a.page in slabs && place[a] == Cached(MagKey(cpu, slabs[a.page].cls))
      ensures forall b :: b in old(place) && b != a && old(place)[b] == Held ==> b in place && place[b] == Held
    {
      assert PtrOk(Now(), a) && SlabOk(Now(), a.page, NONE_PAGE, NONE_PAGE);
      var k := MagKey(cpu, slabs[a.page].cls);
      assert MagOk(Now(), k);
      var m := if k in magazines then magazines[k] else [];
      var spilled: seq<Ptr> := [];
      if |m| == MAGAZINE_CAPACITY {
        spilled := Spill(k);
      }
      MagazinePush(k, a);
      DeallocAll(spilled, a);
    }

    /** Takes half of a full magazine. */
    method Spill(k: MagKey) returns (spilled: seq<Ptr>)
      requires Valid() && |Now().MagOf(k)| == MAGAZINE_CAPACITY
      modifies this`magazines, this`place
      ensures Valid() && |Now().MagOf(k)| < MAGAZINE_CAPACITY && Spilling(old(place), place, spilled, k)
    {
      spilled := [];
      while |spilled| < MAGAZINE_CAPACITY / 2
        invariant Valid() && |Now().MagOf(k)| + |spilled| == MAGAZINE_CAPACITY && |spilled| <= MAGAZINE_CAPACITY / 2
        invariant Spilling(old(place), place, spilled, k)
      {
        var p := MagazinePop(k);
        spilled := spilled + [p.value];
      }
    }

    /** Returns slots the caller holds to their slabs; `kept` is a slot it does not return. */
    method DeallocAll(slots: seq<Ptr>, ghost kept: Ptr)
      requires Valid() && kept in place && place[kept].Cached?
      requires forall j :: 0 <= j < |slots| ==> slots[j] in place && place[slots[j]] == Held
      requires forall j, l :: 0 <= j < l < |slots| ==> slots[j] != slots[l]
      modifies this
      ensures Valid() && magazines == old(magazines)
      ensures kept in place && place[kept] == old(place)[kept] && kept.page in slabs
          && slabs[kept.page].cls == old(place)[kept].magazine.cls
      ensures forall b :: b in old(place) && b !in slots && old(place)[b] == Held ==> b in place && place[b] == Held
    {
      var i := 0;
      while i < |slots|
        invariant 0 <= i <= |slots| && Valid() && magazines == old(magazines)
        invariant kept in place && place[kept] == old(place)[kept]
        invariant forall j :: i <= j < |slots| ==> slots[j] in place && place[slots[j]] == Held
        invariant forall b :: b in old(place) && b !in slots && old(place)[b] == Held ==> b in place && place[b] == Held
      {
        var released := DeallocSlab(slots[i]);
        i := i + 1;
      }
      assert PtrOk(Now(), kept) && MagOk(Now(), place[kept].magazine);
    }

    /** Returns every slot a magazine caches to its slab. */
    method DrainMagazine(k: MagKey)
      requires Valid()
      modifies this
      ensures Valid() && Now().MagOf(k) == []
      ensures forall b :: b in old(place) && old(place)[b] == Held ==> b in place && place[b] == Held
      ensures forall m :: m != k ==> Now().MagOf(m) == old(Now().MagOf(m))
    {
      var done := false;
      while !done
        invariant Valid() && (done ==> Now().MagOf(k) == [])
        invariant forall b :: b in old(place) && old(place)[b] == Held ==> b in place && place[b] == Held
        invariant forall m :: m != k ==> Now().MagOf(m) == old(Now().MagOf(m))
        decreases |Now().MagOf(k)|, !done
      {
        var p := MagazinePop(k);
        if p.None? {
          done := true;
        } else {
          var released := DeallocSlab(p.value);
        }
      }
    }

    /** Drains the magazines of `cpus` CPUs and releases the cached slabs of their pools. */
    method DrainCaches(cpus: nat)
      requires Valid()
      modifies this
      ensures Valid()
      ensures forall b :: b in old(place) && old(place)[b] == Held ==> b in place && place[b] == Held
      ensures forall cpu, cls :: 0 <= cpu < cpus && 0 <= cls < CLASSES ==> Now().MagOf(MagKey(cpu, cls)) == []
    {
      for cpu := 0 to cpus
        invariant Valid()
        invariant forall b :: b in old(place) && old(place)[b] == Held ==> b in place && place[b] == Held
        invariant forall c, cls :: 0 <= c < cpu && 0 <= cls < CLASSES ==> Now().MagOf(MagKey(c, cls)) == []
      {
        for cls := 0 to CLASSES
          invariant Valid()
          invariant forall b :: b in old(place) && old(place)[b] == Held ==> b in place && place[b] == Held
          invariant forall c, l :: 0 <= c < cpu && 0 <= l < CLASSES ==> Now().MagOf(MagKey(c, l)) == []
          invariant forall l :: 0 <= l < cls ==> Now().MagOf(MagKey(cpu, l)) == []
        {
          DrainMagazine(MagKey(cpu, cls));
        }
      }
      for cpu := 0 to cpus
        invariant Valid()
        invariant forall b :: b in old(place) && old(place)[b] == Held ==> b in place && place[b] == Held
        invariant forall c, cls :: 0 <= c < cpus && 0 <= cls < CLASSES ==> Now().MagOf(MagKey(c, cls)) == []
      {
        for cls := 0 to CLASSES
          invariant Valid()
          invariant forall b :: b in old(place) && old(place)[b] == Held ==> b in place && place[b] == Held
          invariant forall c, l :: 0 <= c < cpus && 0 <= l < CLASSES ==> Now().MagOf(MagKey(c, l)) == []
        {
          TrimClass(cpu, cls);
        }
      }
    }

    /** Allocates from the local magazine when it holds a slot, and from the CPU's pool otherwise.  When that
        fails the caches of all `cpus` CPUs are drained and the pool is tried once more; `again` is the page
        it may map then. */
    method Allocate(cpu: nat, cls: nat, spare: Option<int>, cpus: nat, again: Option<int>) returns (r: Option<Ptr>)
      requires Valid() && cls < CLASSES
      requires spare.Some? ==> spare.value >= 0 && spare.value !in slabs
      modifies this
      ensures Valid()
      ensures r.Some? ==>
                && r.value in place && place[r.value] == Held && (r.value in old(place) ==> old(place)[r.value] != Held)
                && r.value.page in slabs && slabs[r.value.page].cls == cls
      ensures forall a :: a in old(place) && old(place)[a] == Held ==> a in place && place[a] == Held
      ensures old(Now().MagOf(MagKey(cpu, cls))) != [] || old(Now().ListOf(Key(cpu, cls))) != [] || spare.Some? ==>
                && r.Some?
                && forall a :: a in old(place) && a != r.value ==> a in place && place[a] == old(place)[a]
      ensures r.None? ==>
                && spare == None && Now().ListOf(Key(cpu, cls)) == []
                && (again.Some? ==> again.value < 0 || again.value in slabs)
                && forall c, l :: 0 <= c < cpus && 0 <= l < CLASSES ==> Now().MagOf(MagKey(c, l)) == []
    {
      r := MagazinePop(MagKey(cpu, cls));
      if r.None? {
        r := AllocSlab(cls, cpu, spare);
        if r.None? {
          r := DrainAndAllocate(cpu, cls, cpus, again);
        }
      }
    }

    /** The second attempt: whatever caches hold back is given to it. */
    method DrainAndAllocate(cpu: nat, cls: nat, cpus: nat, again: Option<int>) returns (r: Option<Ptr>)
      requires Valid() && cls < CLASSES
      modifies this
      ensures Valid()
      ensures r.Some? ==>
                && r.value in place && place[r.value] == Held && (r.value in old(place) ==> old(place)[r.value] != Held)
                && r.value.page in slabs && slabs[r.value.page].cls == cls
      ensures forall a :: a in old(place) && old(place)[a] == Held ==> a in place && place[a] == Held
      ensures r.None? ==>
                && Now().ListOf(Key(cpu, cls)) == [] && (again.Some? ==> again.value < 0 || again.value in slabs)
                && forall c, l :: 0 <= c < cpus && 0 <= l < CLASSES ==> Now().MagOf(MagKey(c, l)) == []
    {
      DrainCaches(cpus);
      var page := if again.Some? && again.value >= 0 && again.value !in slabs then again else None;
      r := AllocSlab(cls, cpu, page);
    }
  }

  /** The slots `spilled` moved from magazine `k` into the hands of the spilling CPU. */
  ghost predicate Spilling(was: map<Ptr, Place>, now: map<Ptr, Place>, spilled: seq<Ptr>, k: MagKey) {
    && now.Keys == was.Keys
    && (forall j :: 0 <= j < |spilled| ==> spilled[j] in was && was[spilled[j]] == Cached(k) && now[spilled[j]] == Held)
    && (forall j, l :: 0 <= j < l < |spilled| ==> spilled[j] != spilled[l])
    && (forall b :: b in was && b !in spilled ==> now[b] == was[b])
  }

  /** The only slot that changed hands is `a`, which was free (or did not exist) and is now held. */
  ghost predicate HandedOut(was: map<Ptr, Place>, now: map<Ptr, Place>, a: Ptr) {
    && a in now && now[a] == Held && (a in was ==> was[a] == InFreeList)
    && (forall b :: b in was && b != a ==> b in now && now[b] == was[b])
    && (forall b :: b in now && b !in was && b != a ==> now[b] == InFreeList)
  }

  /** Exactly the slots of `page` are gone, and every one of them was free. */
  ghost predicate ReleasedFree(was: map<Ptr, Place>, now: map<Ptr, Place>, page: int) {
    now == PlacesOff(was, page) && forall b :: b in was && b.page == page ==> was[b] == InFreeList
  }

  lemma WithoutMembers(l: seq<int>, at: nat)
    requires at < |l|
    ensures forall q :: q in Without(l, at) ==> q in l
    ensures forall q :: q in l && q != l[at] ==> q in Without(l, at)
  {
    assert l == l[..at] + [l[at]] + l[at + 1..];
  }

  /** How often `a` occurs in the magazines, as positions. */
  ghost predicate CachedAt(v: View, a: Ptr, k: MagKey, i: int) {
    0 <= i < |v.MagOf(k)| && v.MagOf(k)[i] == a
  }

  /** In every consistent heap each slot of each mapped slab is free, cached once, or held, and these
      exclude each other. */
  lemma SlotInExactlyOnePlace(v: View, a: Ptr)
    requires Consistent(v) && v.IsSlot(a)
    ensures a in v.place && a.page in v.frees
    ensures v.place[a] == InFreeList <==> a.slot in v.frees[a.page]
    ensures v.place[a].Cached? <==> exists k, i :: CachedAt(v, a, k, i)
    ensures forall k, i, l, j :: CachedAt(v, a, k, i) && CachedAt(v, a, l, j) ==> k == l && i == j
  {
    assert PtrOk(v, a) && SlabOk(v, a.page, NONE_PAGE, NONE_PAGE);
    if v.place[a].Cached? {
      var k := v.place[a].magazine;
      var i :| 0 <= i < |v.MagOf(k)| && v.MagOf(k)[i] == a;
      assert CachedAt(v, a, k, i);
    }
    forall k, i | CachedAt(v, a, k, i) ensures v.place[a] == Cached(k) {
      assert MagOk(v, k);
    }
    forall k, i, l, j | CachedAt(v, a, k, i) && CachedAt(v, a, l, j) ensures k == l && i == j {
      assert MagOk(v, k) && MagOk(v, l);
    }
  }

  /** The partial list of a class is exactly its slabs with a free slot, and a wholly free slab is the cached one. */
  lemma PartialListExact(v: View, p: int)
    requires Consistent(v) && p in v.slabs
    ensures p in v.ListOf(v.slabs[p].Where()) <==>
              exists slot :: 0 <= slot < v.slabs[p].capacity && Ptr(p, slot) in v.place
                  && v.place[Ptr(p, slot)] == InFreeList
    ensures (forall slot :: 0 <= slot < v.slabs[p].capacity ==>
              Ptr(p, slot) in v.place && v.place[Ptr(p, slot)] == InFreeList)
            ==> v.CacheOf(v.slabs[p].Where()) == p
  {
    assert SlabOk(v, p, NONE_PAGE, NONE_PAGE);
    var slab, f := v.slabs[p], v.frees[p];
    if slab.freeCount > 0 {
      assert FreeSlotOk(slab.capacity, v.links, p, f, 0) && PtrOk(v, Ptr(p, f[0]));
      assert v.place[Ptr(p, f[0])] == InFreeList;
    }
    forall slot | 0 <= slot < slab.capacity ensures Ptr(p, slot) in v.place
        && (v.place[Ptr(p, slot)] == InFreeList <==> slot in f) {
      assert PtrOk(v, Ptr(p, slot));
    }
    if forall slot :: 0 <= slot < slab.capacity ==> slot in f {
      AllFreeCount(slab, v.links, p, f);
    }
  }

  lemma AllFreeCount(slab: Slab, links: map<Ptr, int>, page: int, f: seq<int>)
    requires FreeList(slab, links, page, f) && forall slot :: 0 <= slot < slab.capacity ==> slot in f
    ensures |f| >= slab.capacity
  {
    SlotsBelow(slab, links, page, f, |f|);
    var used := set i | 0 <= i < |f| :: f[i];
    assert forall slot :: slot in f ==> slot in used;
    SubsetSize(Below(slab.capacity), used);
  }
}

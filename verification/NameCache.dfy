/** The component-name cache and the sequence word that gates it.

    Lookups and directory mutations interleave one atomic instruction or one bucket-lock section at a
    time.  A mutation guard first raises the sequence word of its directory, then removes the exact
    name from the cache, and only then may the backing directory change. */
module NameCache {
  import opened Common
  import opened Arith

  const WRITER: nat := 0x1_0000

  type Dir = int
  type Name = int
  type Vnode = int

  datatype Entry = Entry(parent: Dir, name: Name, target: Option<Vnode>, used: nat) {
    predicate Names(d: Dir, n: Name) {
      parent == d && name == n
    }
  }

  /** One active mutation guard; `purged` once it has removed its name from the cache. */
  datatype Guard = Guard(id: int, parent: Dir, name: Name, purged: bool)

  datatype Phase =
    | Stamped(stamp: nat)
    | Missed(stamp: nat)
    | Bypass
    | Loaded(stamp: nat, result: Option<Vnode>)
    | Checked(stamp: nat, result: Option<Vnode>)
    | Done(result: Option<Vnode>)

  /** A lookup of `(d, n)`.  `seen` collects every answer that was true since it began. */
  datatype Lookup = Lookup(d: Dir, n: Name, phase: Phase, seen: set<Option<Vnode>>)

  datatype Bucket = Bucket(entries: seq<Option<Entry>>, clock: nat)

  /** `hash` assigns names to buckets; nothing depends on which assignment it is. */
  datatype State = State(
    hash: (Dir, Name) -> nat,
    dirs: map<(Dir, Name), Vnode>,
    words: map<Dir, nat>,
    guards: set<Guard>,
    cache: seq<Bucket>,
    lookups: map<int, Lookup>)
  {
    /** What the backing directory answers now; none is an authoritative miss. */
    function Truth(d: Dir, n: Name): Option<Vnode> {
      if (d, n) in dirs then Some(dirs[(d, n)]) else None
    }

    function Word(d: Dir): nat {
      if d in words then words[d] else 0
    }

    ghost function Writers(d: Dir): set<Guard> {
      set g | g in guards && g.parent == d
    }
  }

  // ---------------------------------------------------------------- the bucket replacement policy

  ghost predicate Holds(entries: seq<Option<Entry>>, i: int, d: Dir, n: Name) {
    0 <= i < |entries| && entries[i].Some? && entries[i].value.Names(d, n)
  }

  /** The slot a new entry goes to: the slot of the same name, else the first empty slot, else the first
      least recently used one. */
  ghost predicate Chosen(entries: seq<Option<Entry>>, d: Dir, n: Name, slot: int) {
    && 0 <= slot < |entries|
    && if exists i :: Holds(entries, i, d, n) then Holds(entries, slot, d, n) && forall i :: 0 <= i < slot ==>
        !Holds(entries, i, d, n)
       else if exists i :: 0 <= i < |entries| && entries[i].None? then
         entries[slot].None? && forall i :: 0 <= i < slot ==> entries[i].Some?
       else
         && (forall i :: 0 <= i < |entries| ==> entries[i].Some?)
         && (forall i :: 0 <= i < |entries| ==> entries[slot].value.used <= entries[i].value.used)
         && (forall i :: 0 <= i < slot ==> entries[slot].value.used < entries[i].value.used)
  }

  method ChooseSlot(entries: seq<Option<Entry>>, d: Dir, n: Name) returns (slot: nat)
    requires |entries| > 0
    ensures Chosen(entries, d, n, slot)
  {
    for i := 0 to |entries|
      invariant forall j :: 0 <= j < i ==> !Holds(entries, j, d, n)
    {
      if entries[i].Some? && entries[i].value.Names(d, n) {
        assert Holds(entries, i, d, n);
        return i;
      }
    }
    for i := 0 to |entries|
      invariant forall j :: 0 <= j < i ==> entries[j].Some?
    {
      if entries[i].None? {
        return i;
      }
    }
    slot := 0;
    for i := 1 to |entries|
      invariant slot < i && slot < |entries|
      invariant forall j :: 0 <= j < i ==> entries[slot].value.used <= entries[j].value.used
      invariant forall j :: 0 <= j < slot ==> entries[slot].value.used < entries[j].value.used
    {
      if entries[i].value.used < entries[slot].value.used {
        slot := i;
      }
    }
  }

  // ---------------------------------------------------------------- steps

  /** The snapshot of a sequence word: none while a writer is active. */
  function Snapshot(word: nat): Option<nat> {
    if word % WRITER == 0 then Some(word) else None
  }

  /** Raises the sequence word before anything else; fewer than 65535 guards may be active on a directory. */
  ghost predicate Enter(s: State, t: State, g: Guard) {
    && !g.purged && (forall h :: h in s.guards ==> h.id != g.id) && |s.Writers(g.parent)| < WRITER - 1
    && t == s.(guards := s.guards + {g}, words := s.words[g.parent := s.Word(g.parent) + (WRITER + 1)])
  }

  /** Removes the exact name under the bucket lock. */
  ghost predicate Purge(s: State, t: State, g: Guard) {
    && g in s.guards && !g.purged
    && var b := s.hash(g.parent, g.name);
    && b < |s.cache|
    && t == s.(guards := s.guards - {g} + {g.(purged := true)},
               cache := s.cache[b := s.cache[b].(entries := Removed(s.cache[b].entries, g.parent, g.name))])
  }

  ghost function Removed(entries: seq<Option<Entry>>, d: Dir, n: Name): (r: seq<Option<Entry>>)
    ensures |r| == |entries|
    ensures forall i :: 0 <= i < |r| ==> r[i] == if Holds(entries, i, d, n) then None else entries[i]
  {
    seq(|entries|, i requires 0 <= i < |entries| => if Holds(entries, i, d, n) then None else entries[i])
  }

  /** The backend changes names for which purged guards are held, and no others. */
  ghost predicate Mutate(s: State, t: State) {
    && (forall d, n :: t.Truth(d, n) != s.Truth(d, n) ==> exists g ::
          g in s.guards && g.purged && g.parent == d && g.name == n)
    && t == s.(dirs := t.dirs,
               lookups := map k | k in s.lookups :: Watch(s.lookups[k], t.Truth(s.lookups[k].d, s.lookups[k].n)))
  }

  function Watch(l: Lookup, now: Option<Vnode>): Lookup {
    if l.phase.Done? then l else l.(seen := l.seen + {now})
  }

  ghost predicate Exit(s: State, t: State, g: Guard) {
    && g in s.guards && g.purged
    && t == s.(guards := s.guards - {g}, words := s.words[g.parent := s.Word(g.parent) + (WRITER - 1)])
  }

  ghost predicate Begin(s: State, t: State, k: int, d: Dir, n: Name) {
    && k !in s.lookups
    && var seen := {s.Truth(d, n)};
    && var phase := match Snapshot(s.Word(d)) case Some(stamp) => Stamped(stamp) case None => Bypass;
    && t == s.(lookups := s.lookups[k := Lookup(d, n, phase, seen)])
  }

  /** Probes the bucket; an entry counts as a hit only if the snapshot has not moved. */
  ghost predicate Probe(s: State, t: State, k: int, i: int) {
    && k in s.lookups && s.lookups[k].phase.Stamped?
    && var l := s.lookups[k];
    && var b, unmoved := s.hash(l.d, l.n), Snapshot(s.Word(l.d)) == Some(l.phase.stamp);
    && b < |s.cache|
    && var entries, clock := s.cache[b].entries, s.cache[b].clock + 1;
    && if Holds(entries, i, l.d, l.n) && unmoved then
         t == s.(lookups := s.lookups[k := l.(phase := Done(entries[i].value.target))],
                 cache := s.cache[b := Bucket(entries[i := Some(entries[i].value.(used := clock))], clock)])
       else
         && ((forall j :: !Holds(entries, j, l.d, l.n)) || !unmoved)
         && t == s.(lookups := s.lookups[k := l.(phase := Missed(l.phase.stamp))],
             cache := s.cache[b := Bucket(entries, clock)])
  }

  /** Asks the filesystem; a lookup that bypassed the cache is then done. */
  ghost predicate Load(s: State, t: State, k: int) {
    && k in s.lookups && (s.lookups[k].phase.Missed? || s.lookups[k].phase.Bypass?)
    && var l := s.lookups[k];
    && var answer := s.Truth(l.d, l.n);
    && t == s.(lookups := s.lookups[k := l.(phase := if l.phase.Bypass? then Done(answer)
        else Loaded(l.phase.stamp, answer))])
  }

  /** Rechecks the snapshot; `room` is false when the name cannot be copied. */
  ghost predicate Check(s: State, t: State, k: int, room: bool) {
    && k in s.lookups && s.lookups[k].phase.Loaded?
    && var l := s.lookups[k];
    && t == s.(lookups := s.lookups[k := l.(phase := if Snapshot(s.Word(l.d)) == Some(l.phase.stamp) && room
                                                     then Checked(l.phase.stamp, l.phase.result)
                                                     else Done(l.phase.result))])
  }

  /** Publishes the answer under the bucket lock if the snapshot still has not moved. */
  ghost predicate Insert(s: State, t: State, k: int, slot: int) {
    && k in s.lookups && s.lookups[k].phase.Checked?
    && var l := s.lookups[k];
    && var b := s.hash(l.d, l.n);
    && b < |s.cache|
    && var done := s.lookups[k := l.(phase := Done(l.phase.result))];
    && if Snapshot(s.Word(l.d)) == Some(l.phase.stamp) then
         && Chosen(s.cache[b].entries, l.d, l.n, slot)
         && t == s.(lookups := done, cache := s.cache[b := s.cache[b].(entries :=
              s.cache[b].entries[slot := Some(Entry(l.d, l.n, l.phase.result, s.cache[b].clock))])])
       else t == s.(lookups := done)
  }

  /** Reclaim under memory pressure and purging of a detached filesystem only remove entries. */
  ghost predicate Evict(s: State, t: State, b: nat) {
    && b < |s.cache| && b < |t.cache| && |t.cache[b].entries| == |s.cache[b].entries|
    && (forall i :: 0 <= i < |s.cache[b].entries| ==>
          t.cache[b].entries[i] == None || t.cache[b].entries[i] == s.cache[b].entries[i])
    && t == s.(cache := s.cache[b := t.cache[b]])
  }

  ghost predicate Next(s: State, t: State) {
    || (exists g :: Enter(s, t, g) || Purge(s, t, g) || Exit(s, t, g))
    || Mutate(s, t)
    || (exists k, d, n :: Begin(s, t, k, d, n))
    || (exists k, i :: Probe(s, t, k, i))
    || (exists k :: Load(s, t, k))
    || (exists k, room :: Check(s, t, k, room))
    || (exists k, slot :: Insert(s, t, k, slot))
    || (exists b :: Evict(s, t, b))
  }

  // ---------------------------------------------------------------- invariants

  /** The low half of a sequence word is the number of active guards on the directory. */
  ghost predicate WordOk(s: State, d: Dir) {
    s.Word(d) % WRITER == |s.Writers(d)| < WRITER
  }

  /** A cached answer is the one the directory gives, and its name is cached once. */
  ghost predicate EntryOk(s: State, b: int, i: int)
    requires 0 <= b < |s.cache|
  {
    0 <= i < |s.cache[b].entries| && s.cache[b].entries[i].Some? ==>
      var e := s.cache[b].entries[i].value;
      && s.hash(e.parent, e.name) == b && e.target == s.Truth(e.parent, e.name)
      && forall j :: 0 <= j < i ==> !Holds(s.cache[b].entries, j, e.parent, e.name)
  }

  /** While a purged guard is held its name is not cached. */
  ghost predicate GuardOk(s: State, g: Guard) {
    && (forall h :: h in s.guards && h.id == g.id ==> h == g)
    && (g.purged ==> forall b, i :: 0 <= b < |s.cache| ==> !Holds(s.cache[b].entries, i, g.parent, g.name))
  }

  /** What is true now was seen, a recorded answer was seen, and an unmoved stamp certifies it. */
  ghost predicate LookupOk(s: State, k: int)
    requires k in s.lookups
  {
    var l := s.lookups[k];
    && (!l.phase.Done? ==> s.Truth(l.d, l.n) in l.seen)
    && match l.phase
       case Bypass => true
       case Stamped(stamp) => StampOk(s, l.d, stamp)
       case Missed(stamp) => StampOk(s, l.d, stamp)
       case Loaded(stamp, result) => StampOk(s, l.d, stamp) && result in l.seen
           && (s.Word(l.d) == stamp ==> result == s.Truth(l.d, l.n))
       case Checked(stamp, result) => StampOk(s, l.d, stamp) && result in l.seen
           && (s.Word(l.d) == stamp ==> result == s.Truth(l.d, l.n))
       case Done(result) => result in l.seen
  }

  /** A stamp was taken while no writer was active, and words only grow. */
  ghost predicate StampOk(s: State, d: Dir, stamp: nat) {
    stamp % WRITER == 0 && stamp <= s.Word(d)
  }

  ghost predicate Inv(s: State) {
    && (forall d :: WordOk(s, d))
    && (forall b, i :: 0 <= b < |s.cache| ==> EntryOk(s, b, i))
    && (forall g :: g in s.guards ==> GuardOk(s, g))
    && (forall k :: k in s.lookups ==> LookupOk(s, k))
  }

  lemma WritersGrow(s: State, t: State, g: Guard, d: Dir)
    requires t.guards == s.guards + {g} && g !in s.guards
    ensures t.Writers(d) == if g.parent == d then s.Writers(d) + {g} else s.Writers(d)
  {
  }

  /** Entering adds one to the writer count of a word and leaving takes one away; both raise the word. */
  lemma WordMoves(w: nat)
    ensures w % WRITER < WRITER - 1 ==> (w + (WRITER + 1)) % WRITER == w % WRITER + 1
    ensures w % WRITER > 0 ==> (w + (WRITER - 1)) % WRITER == w % WRITER - 1
  {
    if w % WRITER < WRITER - 1 {
      DivModUnique(w + (WRITER + 1), w / WRITER + 1, w % WRITER + 1, WRITER);
    }
    if w % WRITER > 0 {
      DivModUnique(w + (WRITER - 1), w / WRITER + 1, w % WRITER - 1, WRITER);
    }
  }

  /** Raising words moves them past every stamp and concerns no entry. */
  lemma RaiseKeeps(s: State, t: State)
    requires Inv(s) && t == s.(guards := t.guards, words := t.words) && forall d :: s.Word(d) <= t.Word(d)
    ensures forall b, i :: 0 <= b < |t.cache| ==> EntryOk(t, b, i)
    ensures forall k :: k in t.lookups ==> LookupOk(t, k)
  {
    forall b, i | 0 <= b < |t.cache| ensures EntryOk(t, b, i) {
      assert EntryOk(s, b, i);
    }
    forall k | k in t.lookups ensures LookupOk(t, k) {
      assert LookupOk(s, k);
    }
  }

  lemma EnterWord(s: State, t: State, g: Guard, d: Dir)
    requires WordOk(s, d) && Enter(s, t, g)
    ensures WordOk(t, d)
  {
    WritersGrow(s, t, g, d);
    if d == g.parent {
      WordMoves(s.Word(d));
    }
  }

  lemma ExitWord(s: State, t: State, g: Guard, d: Dir)
    requires WordOk(s, d) && Exit(s, t, g)
    ensures WordOk(t, d)
  {
    assert s.guards == t.guards + {g};
    WritersGrow(t, s, g, d);
    if d == g.parent {
      WordMoves(s.Word(d));
    }
  }

  lemma EnterKeeps(s: State, t: State, g: Guard)
    requires Inv(s) && Enter(s, t, g)
    ensures Inv(t)
  {
    forall d ensures WordOk(t, d) {
      EnterWord(s, t, g, d);
    }
    RaiseKeeps(s, t);
    forall h | h in t.guards ensures GuardOk(t, h) {
      assert h in s.guards ==> GuardOk(s, h);
    }
  }

  lemma ExitKeeps(s: State, t: State, g: Guard)
    requires Inv(s) && Exit(s, t, g)
    ensures Inv(t)
  {
    forall d ensures WordOk(t, d) {
      ExitWord(s, t, g, d);
    }
    RaiseKeeps(s, t);
    forall h | h in t.guards ensures GuardOk(t, h) {
      assert GuardOk(s, h);
    }
  }

  lemma PurgeKeeps(s: State, t: State, g: Guard)
    requires Inv(s) && Purge(s, t, g)
    ensures Inv(t)
  {
    var h := g.(purged := true);
    assert GuardOk(s, g);
    forall d ensures WordOk(t, d) {
      assert WordOk(s, d);
      PurgedWriters(s, t, g, d);
    }
    forall b, i | 0 <= b < |t.cache| ensures EntryOk(t, b, i) {
      assert EntryOk(s, b, i);
      assert forall j, d, n :: Holds(t.cache[b].entries, j, d, n) ==> Holds(s.cache[b].entries, j, d, n);
    }
    forall x | x in t.guards ensures GuardOk(t, x) {
      if x == h {
        forall b, i | 0 <= b < |t.cache| ensures !Holds(t.cache[b].entries, i, g.parent, g.name) {
          assert EntryOk(s, b, i);
        }
      } else {
        assert GuardOk(s, x);
        assert forall b, j, d, n :: 0 <= b < |t.cache| && Holds(t.cache[b].entries, j, d, n) ==>
            Holds(s.cache[b].entries, j, d, n);
      }
    }
    forall k | k in t.lookups ensures LookupOk(t, k) {
      assert LookupOk(s, k);
    }
  }

  lemma PurgedWriters(s: State, t: State, g: Guard, d: Dir)
    requires g in s.guards && g.(purged := true) !in s.guards && t.guards == s.guards - {g} + {g.(purged := true)}
    ensures |t.Writers(d)| == |s.Writers(d)|
  {
    var h := g.(purged := true);
    assert t.Writers(d) == if g.parent == d then s.Writers(d) - {g} + {h} else s.Writers(d);
  }

  /** A held guard keeps the word of its directory away from every stamp. */
  lemma GuardBlocksStamps(s: State, g: Guard, stamp: nat)
    requires Inv(s) && g in s.guards && stamp % WRITER == 0
    ensures s.Word(g.parent) != stamp
  {
    assert WordOk(s, g.parent) && g in s.Writers(g.parent);
  }

  lemma MutateKeeps(s: State, t: State)
    requires Inv(s) && Mutate(s, t)
    ensures Inv(t)
  {
    forall d ensures WordOk(t, d) {
      assert WordOk(s, d);
      assert t.Writers(d) == s.Writers(d);
    }
    forall b, i | 0 <= b < |t.cache| ensures EntryOk(t, b, i) {
      assert EntryOk(s, b, i);
      if 0 <= i < |s.cache[b].entries| && s.cache[b].entries[i].Some? {
        var e := s.cache[b].entries[i].value;
        assert Holds(s.cache[b].entries, i, e.parent, e.name);
        assert forall g :: g in s.guards && g.parent == e.parent && g.name == e.name ==> GuardOk(s, g);
      }
    }
    forall h | h in t.guards ensures GuardOk(t, h) {
      assert GuardOk(s, h);
    }
    forall k | k in t.lookups ensures LookupOk(t, k) {
      assert LookupOk(s, k);
      var l := s.lookups[k];
      if t.Truth(l.d, l.n) != s.Truth(l.d, l.n) && (l.phase.Loaded? || l.phase.Checked?) {
        var g :| g in s.guards && g.purged && g.parent == l.d && g.name == l.n;
        GuardBlocksStamps(s, g, l.phase.stamp);
      }
    }
  }

  /** Steps of lookups and evictions that keep the directory, the words and the guards. */
  lemma CacheStepKeeps(s: State, t: State)
    requires Inv(s) && t == s.(cache := t.cache, lookups := t.lookups) && |t.cache| == |s.cache|
    requires forall b, i :: 0 <= b < |t.cache| ==> EntryOk(t, b, i)
    requires forall b, i, g ::
              0 <= b < |t.cache| && g in s.guards && g.purged && Holds(t.cache[b].entries, i, g.parent, g.name) ==>
               Holds(s.cache[b].entries, i, g.parent, g.name)
    requires forall k :: k in t.lookups ==> LookupOk(t, k)
    ensures Inv(t)
  {
    forall d ensures WordOk(t, d) {
      assert WordOk(s, d);
      assert t.Writers(d) == s.Writers(d);
    }
    forall h | h in t.guards ensures GuardOk(t, h) {
      assert GuardOk(s, h);
    }
  }

  lemma LookupStepKeeps(s: State, t: State, k: int)
    requires Inv(s)
    requires (exists d, n :: Begin(s, t, k, d, n)) || Load(s, t, k) || (exists room :: Check(s, t, k, room))
    ensures Inv(t)
  {
    forall b, i | 0 <= b < |t.cache| ensures EntryOk(t, b, i) {
      assert EntryOk(s, b, i);
    }
    forall j | j in t.lookups ensures LookupOk(t, j) {
      assert j in s.lookups ==> LookupOk(s, j);
    }
    CacheStepKeeps(s, t);
  }

  lemma ProbeKeeps(s: State, t: State, k: int, i: int)
    requires Inv(s) && Probe(s, t, k, i)
    ensures Inv(t)
  {
    forall b, j | 0 <= b < |t.cache| ensures EntryOk(t, b, j) {
      assert EntryOk(s, b, j);
      assert forall m, d, n :: Holds(t.cache[b].entries, m, d, n) ==> Holds(s.cache[b].entries, m, d, n);
    }
    var l := s.lookups[k];
    forall j | j in t.lookups ensures LookupOk(t, j) {
      assert LookupOk(s, j);
      if j == k {
        assert EntryOk(s, s.hash(l.d, l.n), i);
      }
    }
    CacheStepKeeps(s, t);
  }

  lemma InsertKeeps(s: State, t: State, k: int, slot: int)
    requires Inv(s) && Insert(s, t, k, slot)
    ensures Inv(t)
  {
    var l := s.lookups[k];
    var b0 := s.hash(l.d, l.n);
    assert LookupOk(s, k) && WordOk(s, l.d);
    forall j | j in t.lookups ensures LookupOk(t, j) {
      assert LookupOk(s, j);
    }
    forall b, i | 0 <= b < |t.cache| ensures EntryOk(t, b, i) {
      assert EntryOk(s, b, i);
      if b == b0 && t.cache != s.cache {
        InsertedEntry(s, t, Entry(l.d, l.n, l.phase.result, s.cache[b0].clock), slot, i);
      }
    }
    forall b, i, g | 0 <= b < |t.cache| && g in s.guards && g.purged && Holds(t.cache[b].entries, i, g.parent, g.name)
      ensures Holds(s.cache[b].entries, i, g.parent, g.name)
    {
      if g.parent == l.d {
        GuardBlocksStamps(s, g, l.phase.stamp);
      }
    }
    CacheStepKeeps(s, t);
  }

  /** A name goes to the slot that already holds it, so no bucket holds a name twice. */
  lemma InsertedEntry(s: State, t: State, e: Entry, slot: int, i: int)
    requires forall b, j :: 0 <= b < |s.cache| ==> EntryOk(s, b, j)
    requires var b := s.hash(e.parent, e.name);
             && b < |s.cache| && Chosen(s.cache[b].entries, e.parent, e.name, slot)
             && t == s.(cache := s.cache[b := s.cache[b].(entries := s.cache[b].entries[slot := Some(e)])],
                 lookups := t.lookups)
    requires e.target == s.Truth(e.parent, e.name)
    ensures EntryOk(t, s.hash(e.parent, e.name), i)
  {
    var b := s.hash(e.parent, e.name);
    var was, now := s.cache[b].entries, t.cache[b].entries;
    assert EntryOk(s, b, i) && EntryOk(s, b, slot);
    assert forall j :: Holds(was, j, e.parent, e.name) ==> EntryOk(s, b, j);
    assert forall j :: Holds(was, j, e.parent, e.name) ==> j == slot;
    assert forall j, d, n :: j != slot && Holds(now, j, d, n) ==> Holds(was, j, d, n);
    if i != slot && 0 <= i < |now| && now[i].Some? {
      var o := now[i].value;
      assert Holds(was, i, o.parent, o.name);
      forall j | 0 <= j < i ensures !Holds(now, j, o.parent, o.name) {
        assert j == slot ==> !e.Names(o.parent, o.name);
      }
    }
  }

  lemma EvictKeeps(s: State, t: State, b0: nat)
    requires Inv(s) && Evict(s, t, b0)
    ensures Inv(t)
  {
    forall b, i | 0 <= b < |t.cache| ensures EntryOk(t, b, i) {
      assert EntryOk(s, b, i);
      assert forall j, d, n :: Holds(t.cache[b].entries, j, d, n) ==> Holds(s.cache[b].entries, j, d, n);
    }
    forall j | j in t.lookups ensures LookupOk(t, j) {
      assert LookupOk(s, j);
    }
    CacheStepKeeps(s, t);
  }

  // ---------------------------------------------------------------- every run

  lemma NextKeeps(s: State, t: State)
    requires Inv(s) && Next(s, t)
    ensures Inv(t)
  {
    if g :| Enter(s, t, g) || Purge(s, t, g) || Exit(s, t, g) {
      if Enter(s, t, g) { EnterKeeps(s, t, g); }
      else if Purge(s, t, g) { PurgeKeeps(s, t, g); }
      else { ExitKeeps(s, t, g); }
    } else if Mutate(s, t) {
      MutateKeeps(s, t);
    } else if k, i :| Probe(s, t, k, i) {
      ProbeKeeps(s, t, k, i);
    } else if k, slot :| Insert(s, t, k, slot) {
      InsertKeeps(s, t, k, slot);
    } else if b: nat :| Evict(s, t, b) {
      EvictKeeps(s, t, b);
    } else {
      assert (exists k, d, n :: Begin(s, t, k, d, n)) || (exists k :: Load(s, t, k))
          || (exists k, room :: Check(s, t, k, room));
      if k, d, n :| Begin(s, t, k, d, n) {
        LookupStepKeeps(s, t, k);
      } else if k :| Load(s, t, k) {
        LookupStepKeeps(s, t, k);
      } else {
        var k, room :| Check(s, t, k, room);
        LookupStepKeeps(s, t, k);
      }
    }
  }

  ghost predicate Init(s: State) {
    && s.words == map[] && s.guards == {} && s.lookups == map[]
    && forall b, i :: 0 <= b < |s.cache| && 0 <= i < |s.cache[b].entries| ==> s.cache[b].entries[i] == None
  }

  ghost predicate Run(run: seq<State>) {
    && |run| > 0 && Init(run[0])
    && forall i :: 0 <= i < |run| - 1 ==> Next(run[i], run[i + 1])
  }

  lemma {:induction false} RunsKeep(run: seq<State>, i: nat)
    requires Run(run) && i < |run|
    ensures Inv(run[i])
  {
    if i == 0 {
      var s := run[0];
      forall d ensures WordOk(s, d) {
        assert s.Writers(d) == {};
      }
    } else {
      RunsKeep(run, i - 1);
      NextKeeps(run[i - 1], run[i]);
    }
  }

  /** In every state of every run each cached answer, positive or negative, is the one the backing
      directory gives, and no bucket holds a name twice. */
  lemma CacheAgreesWithDirectory(run: seq<State>, at: nat, b: nat, i: nat)
    requires Run(run) && at < |run| && b < |run[at].cache| && i < |run[at].cache[b].entries|
    requires run[at].cache[b].entries[i].Some?
    ensures var e := run[at].cache[b].entries[i].value;
            && e.target == run[at].Truth(e.parent, e.name)
            && forall c, j :: 0 <= c < |run[at].cache| && Holds(run[at].cache[c].entries, j, e.parent, e.name) ==>
                c == b && j == i
  {
    RunsKeep(run, at);
    var s := run[at];
    assert EntryOk(s, b, i);
    var e := s.cache[b].entries[i].value;
    forall c, j | 0 <= c < |s.cache| && Holds(s.cache[c].entries, j, e.parent, e.name) ensures c == b && j == i {
      assert EntryOk(s, c, j) && Holds(s.cache[b].entries, i, e.parent, e.name);
    }
  }

  /** The step leaves alone the name a lookup asks for, and adds to what it has seen only the present truth. */
  ghost predicate Watches(s: State, t: State, k: int) {
    k in t.lookups ==>
      var l := t.lookups[k];
      if k in s.lookups then s.lookups[k].d == l.d && s.lookups[k].n == l.n
          && l.seen <= s.lookups[k].seen + {t.Truth(l.d, l.n)}
      else l.seen == {t.Truth(l.d, l.n)}
  }

  lemma ProbeWatches(s: State, t: State, j: int, i: int, k: int)
    requires Probe(s, t, j, i)
    ensures Watches(s, t, k)
  {
  }

  lemma InsertWatches(s: State, t: State, j: int, slot: int, k: int)
    requires Insert(s, t, j, slot)
    ensures Watches(s, t, k)
  {
  }

  lemma LookupStepWatches(s: State, t: State, j: int, k: int)
    requires (exists d, n :: Begin(s, t, j, d, n)) || Load(s, t, j) || (exists room :: Check(s, t, j, room))
    ensures Watches(s, t, k)
  {
  }

  lemma MutateWatches(s: State, t: State, k: int)
    requires Mutate(s, t)
    ensures Watches(s, t, k)
  {
  }

  lemma NextWatches(s: State, t: State, k: int)
    requires Next(s, t)
    ensures Watches(s, t, k)
  {
    if j, i :| Probe(s, t, j, i) {
      ProbeWatches(s, t, j, i, k);
    } else if j, slot :| Insert(s, t, j, slot) {
      InsertWatches(s, t, j, slot, k);
    } else if Mutate(s, t) {
      MutateWatches(s, t, k);
    } else if j, d, n :| Begin(s, t, j, d, n) {
      LookupStepWatches(s, t, j, k);
    } else if j :| Load(s, t, j) {
      LookupStepWatches(s, t, j, k);
    } else if j, room :| Check(s, t, j, room) {
      LookupStepWatches(s, t, j, k);
    } else {
      assert t.lookups == s.lookups;
    }
  }

  lemma {:induction false} SeenWasTrue(run: seq<State>, at: nat, k: int, x: Option<Vnode>)
    requires at < |run| && run[0].lookups == map[] && k in run[at].lookups && x in run[at].lookups[k].seen
    requires forall i :: 0 <= i < |run| - 1 ==> Watches(run[i], run[i + 1], k)
    ensures exists j ::
              0 <= j <= at && k in run[j].lookups && run[j].Truth(run[at].lookups[k].d, run[at].lookups[k].n) == x
  {
    assert at > 0 && Watches(run[at - 1], run[at - 1 + 1], k);
    if k in run[at - 1].lookups && x in run[at - 1].lookups[k].seen {
      SeenWasTrue(run, at - 1, k, x);
    }
  }

  /** The answer of a finished lookup was true at some instant of that lookup. */
  lemma LookupsAreTrue(run: seq<State>, at: nat, k: int)
    requires Run(run) && at < |run| && k in run[at].lookups && run[at].lookups[k].phase.Done?
    ensures var l := run[at].lookups[k];
            exists j :: 0 <= j <= at && k in run[j].lookups && run[j].Truth(l.d, l.n) == l.phase.result
  {
    RunsKeep(run, at);
    assert LookupOk(run[at], k);
    forall i | 0 <= i < |run| - 1 ensures Watches(run[i], run[i + 1], k) {
      NextWatches(run[i], run[i + 1], k);
    }
    SeenWasTrue(run, at, k, run[at].lookups[k].phase.result);
  }
}

/** The mount table and the gate between directory mutations and changes of the mount topology.

    Unlink, rename and device removal share the gate; mount, unmount and root replacement hold it alone.
    Each step below is one atomic instruction, one filesystem operation or one section under the lock of
    the mount table.  `at` remembers through which directory entry each mount was made. */
module MountTable {
  import opened Common

  type Vnode = int
  type MountId = nat

  /** A name in a directory. */
  datatype Loc = Loc(directory: Vnode, name: int)

  datatype Mount = Mount(root: Vnode, covered: Option<Vnode>, parent: Option<MountId>)

  /** A holder of the shared gate: what its lookups found, and the names its busy checks let pass. */
  datatype Mutator = Mutator(found: map<Loc, Option<Vnode>>, passed: set<Loc>)

  /** The holder of the exclusive gate.  In the last two phases it also holds the table lock: hints are
      still to be set for `on` and cleared for `off`. */
  datatype Topology =
    | Resolving(mount: MountId)
    | Covering(mount: MountId, loc: Loc, covered: Vnode)
    | Publishing(on: set<Vnode>, off: set<Vnode>)
    | Counted

  datatype State = State(
    entries: map<Loc, Vnode>,
    vnodes: set<Vnode>,
    directories: set<Vnode>,
    mounts: map<MountId, Mount>,
    root: MountId,
    next: MountId,
    table: map<Vnode, MountId>,
    at: map<Vnode, Loc>,
    hints: set<Vnode>,
    count: nat,
    mutators: map<int, Mutator>,
    topology: Option<Topology>)
  {
    function Found(loc: Loc): Option<Vnode> {
      if loc in entries then Some(entries[loc]) else None
    }

    /** `m` is in the table. */
    predicate Mounted(m: MountId) {
      m in mounts && mounts[m].covered.Some? && mounts[m].covered.value in table && table[mounts[m].covered.value] == m
    }

    predicate Attached(m: MountId) {
      m == root || Mounted(m)
    }

    predicate TableLocked() {
      topology.Some? && (topology.value.Publishing? || topology.value.Counted?)
    }

    predicate IsMountPoint(loc: Loc) {
      loc in entries && entries[loc] in table
    }
  }

  // ---------------------------------------------------------------- directory mutations

  ghost predicate EnterShared(s: State, t: State, k: int) {
    && k !in s.mutators && s.topology == None
    && t == s.(mutators := s.mutators[k := Mutator(map[], {})])
  }

  ghost predicate LeaveShared(s: State, t: State, k: int) {
    k in s.mutators && t == s.(mutators := s.mutators - {k})
  }

  ghost predicate Lookup(s: State, t: State, k: int, loc: Loc) {
    && k in s.mutators
    && t == s.(mutators := s.mutators[k := s.mutators[k].(found := s.mutators[k].found[loc := s.Found(loc)])])
  }

  /** Lets a name pass: nothing is mounted anywhere, the table does not have what was found there, or the
      hint of what is there now is clear. */
  ghost predicate Pass(s: State, t: State, k: int, loc: Loc) {
    && k in s.mutators
    && (|| s.count == 0
        || (loc in s.mutators[k].found && !s.TableLocked() &&
            (s.mutators[k].found[loc] == None || s.mutators[k].found[loc].value !in s.table))
        || (loc in s.entries && s.entries[loc] !in s.hints))
    && t == s.(mutators := s.mutators[k := s.mutators[k].(passed := s.mutators[k].passed + {loc})])
  }

  /** Removes names that have passed: one for unlink, all of an owner's nodes for a device removal. */
  ghost predicate Unlink(s: State, t: State, k: int, locs: set<Loc>) {
    k in s.mutators && locs <= s.mutators[k].passed && t == s.(entries := s.entries - locs)
  }

  ghost predicate Rename(s: State, t: State, k: int, from: Loc, to: Loc) {
    && k in s.mutators && from in s.mutators[k].passed && to in s.mutators[k].passed && from in s.entries && from != to
    && t == s.(entries := (s.entries - {from})[to := s.entries[from]])
  }

  /** Creation and hard links only fill free names, with a new vnode or with one that is no directory. */
  ghost predicate Create(s: State, t: State, loc: Loc, v: Vnode, directory: bool) {
    && loc !in s.entries && (v in s.vnodes ==> v !in s.directories && !directory)
    && t == s.(entries := s.entries[loc := v], vnodes := s.vnodes + {v},
               directories := if directory then s.directories + {v} else s.directories)
  }

  // ---------------------------------------------------------------- changes of the topology

  ghost predicate EnterExclusive(s: State, t: State) {
    s.topology == None && s.mutators == map[] && t == s.(topology := Some(Resolving(s.root)))
  }

  /** Path resolution starts over at the root, crosses into a mount or ascends out of one. */
  ghost predicate Walk(s: State, t: State, m: MountId) {
    && s.topology.Some? && s.topology.value.Resolving?
    && (m == s.root || s.Mounted(m) || (s.topology.value.mount in s.mounts
        && s.mounts[s.topology.value.mount].parent == Some(m)))
    && t == s.(topology := Some(Resolving(m)))
  }

  ghost predicate LookupCovered(s: State, t: State, loc: Loc) {
    && s.topology.Some? && s.topology.value.Resolving?
    && loc in s.entries && s.entries[loc] in s.directories
    && t == s.(topology := Some(Covering(s.topology.value.mount, loc, s.entries[loc])))
  }

  ghost predicate InsertMount(s: State, t: State, fsRoot: Vnode) {
    && s.topology.Some? && s.topology.value.Covering?
    && var c, p := s.topology.value.covered, s.topology.value.mount;
    && c !in s.table
    && t == s.(mounts := s.mounts[s.next := Mount(fsRoot, Some(c), Some(p))], next := s.next + 1,
        table := s.table[c := s.next],
               at := s.at[c := s.topology.value.loc], topology := Some(Publishing({c}, {})))
  }

  /** Only the root of a mount that nothing is mounted on and that nobody else refers to is detached. */
  ghost predicate RemoveMount(s: State, t: State) {
    && s.topology.Some? && s.topology.value.Resolving? && s.topology.value.mount in s.mounts
    && var m := s.topology.value.mount;
    && s.mounts[m].covered.Some? && s.mounts[m].root !in s.table
    && var c := s.mounts[m].covered.value;
    && c in s.table && s.table[c] == m
    && (forall d :: d in s.table && s.table[d] in s.mounts ==> s.mounts[s.table[d]].parent != Some(m))
    && t == s.(table := s.table - {c}, at := s.at - {c}, topology := Some(Publishing({}, {c})))
  }

  ghost predicate ReplaceRoot(s: State, t: State, fsRoot: Vnode) {
    && s.topology.Some? && s.topology.value.Resolving?
    && t == s.(mounts := s.mounts[s.next := Mount(fsRoot, None, None)], next := s.next + 1, root := s.next,
               table := map[], at := map[], topology := Some(Publishing({}, s.table.Keys)))
  }

  ghost predicate SetHint(s: State, t: State, v: Vnode) {
    && s.topology.Some? && s.topology.value.Publishing?
    && var on, off := s.topology.value.on, s.topology.value.off;
    && (v in on || v in off)
    && t == s.(hints := if v in on then s.hints + {v} else s.hints - {v},
        topology := Some(Publishing(on - {v}, off - {v})))
  }

  ghost predicate StoreCount(s: State, t: State) {
    s.topology == Some(Publishing({}, {})) && t == s.(count := |s.table|, topology := Some(Counted))
  }

  /** Releases the gate, after success or, before the table changed, after an error. */
  ghost predicate LeaveExclusive(s: State, t: State) {
    s.topology.Some? && !s.topology.value.Publishing? && t == s.(topology := None)
  }

  ghost predicate MutatorStep(s: State, t: State) {
    || (exists k :: EnterShared(s, t, k) || LeaveShared(s, t, k))
    || (exists k, loc :: Lookup(s, t, k, loc) || Pass(s, t, k, loc))
    || (exists k, locs :: Unlink(s, t, k, locs))
    || (exists k, from, to :: Rename(s, t, k, from, to))
    || (exists loc, v, directory :: Create(s, t, loc, v, directory))
  }

  ghost predicate TopologyStep(s: State, t: State) {
    || EnterExclusive(s, t)
    || (exists m :: Walk(s, t, m))
    || (exists loc :: LookupCovered(s, t, loc))
    || (exists r :: InsertMount(s, t, r) || ReplaceRoot(s, t, r))
    || RemoveMount(s, t)
    || (exists v :: SetHint(s, t, v))
    || StoreCount(s, t)
    || LeaveExclusive(s, t)
  }

  ghost predicate Next(s: State, t: State) {
    MutatorStep(s, t) || TopologyStep(s, t)
  }

  // ---------------------------------------------------------------- invariants

  /** A covered directory is still where it was mounted over, and the mount hangs below an attached one. */
  ghost predicate CoverOk(s: State, c: Vnode) {
    c in s.table ==>
      && c in s.directories && c in s.at && s.Found(s.at[c]) == Some(c)
      && var m := s.table[c];
      && m in s.mounts && s.mounts[m].covered == Some(c)
      && s.mounts[m].parent.Some? && s.mounts[m].parent.value < m && s.Attached(s.mounts[m].parent.value)
  }

  /** What has passed is no mount point now; what was found is still there, or what is there is none. */
  ghost predicate MutatorOk(s: State, k: int) {
    k in s.mutators ==>
      && (forall loc :: loc in s.mutators[k].passed ==> !s.IsMountPoint(loc))
      && (forall loc :: loc in s.mutators[k].found ==> s.mutators[k].found[loc] == s.Found(loc) || !s.IsMountPoint(loc))
  }

  ghost predicate HintsOk(s: State) {
    match s.topology
    case Some(Publishing(on, off)) => s.hints == s.table.Keys - on + off && on <= s.table.Keys && off !! s.table.Keys
    case _ => s.hints == s.table.Keys && s.count == |s.table|
  }

  ghost predicate TopologyOk(s: State) {
    && (s.topology.Some? ==> s.mutators == map[])
    && match s.topology
       case Some(Resolving(m)) => s.Attached(m)
       case Some(Covering(m, loc, c)) => s.Attached(m) && s.Found(loc) == Some(c) && c in s.directories
       case _ => true
  }

  ghost predicate Shape(s: State) {
    && s.root in s.mounts && s.mounts[s.root].parent == None && (forall m :: m in s.mounts ==> m < s.next)
    && s.directories <= s.vnodes && s.entries.Values <= s.vnodes && s.at.Keys == s.table.Keys
  }

  ghost predicate Inv(s: State) {
    Shape(s) && TopologyOk(s) && HintsOk(s) && (forall c :: CoverOk(s, c)) && (forall k :: MutatorOk(s, k))
  }

  /** Entries of mount points stay and no entry becomes one. */
  ghost predicate Spares(s: State, t: State, loc: Loc) {
    && (s.IsMountPoint(loc) ==> t.Found(loc) == s.Found(loc))
    && (t.IsMountPoint(loc) ==> s.IsMountPoint(loc))
  }

  lemma SparingKeeps(s: State, t: State)
    requires Inv(s) && t == s.(entries := t.entries, vnodes := t.vnodes, directories := t.directories)
    requires s.topology.Some? ==> forall loc :: loc in s.entries ==> t.Found(loc) == s.Found(loc)
    requires s.directories <= t.directories <= t.vnodes && t.entries.Values <= t.vnodes
    requires forall loc :: Spares(s, t, loc)
    ensures Inv(t)
  {
    forall c ensures CoverOk(t, c) {
      assert CoverOk(s, c);
      assert c in s.table ==> s.IsMountPoint(s.at[c]) && Spares(s, t, s.at[c]);
    }
    forall k ensures MutatorOk(t, k) {
      assert MutatorOk(s, k);
      if k in s.mutators {
        forall loc | loc in s.mutators[k].passed ensures !t.IsMountPoint(loc) {
          assert Spares(s, t, loc);
        }
        forall loc | loc in s.mutators[k].found ensures s.mutators[k].found[loc] == t.Found(loc)
            || !t.IsMountPoint(loc) {
          assert Spares(s, t, loc);
        }
      }
    }
  }

  lemma UnlinkKeeps(s: State, t: State, k: int, locs: set<Loc>)
    requires Inv(s) && Unlink(s, t, k, locs)
    ensures Inv(t)
  {
    assert MutatorOk(s, k);
    forall loc ensures Spares(s, t, loc) {
    }
    SparingKeeps(s, t);
  }

  lemma RenameKeeps(s: State, t: State, k: int, from: Loc, to: Loc)
    requires Inv(s) && Rename(s, t, k, from, to)
    ensures Inv(t)
  {
    assert MutatorOk(s, k);
    assert !s.IsMountPoint(from) && !s.IsMountPoint(to);
    forall loc ensures Spares(s, t, loc) {
    }
    SparingKeeps(s, t);
  }

  lemma CreateKeeps(s: State, t: State, loc: Loc, v: Vnode, directory: bool)
    requires Inv(s) && Create(s, t, loc, v, directory)
    ensures Inv(t)
  {
    assert CoverOk(s, v);
    forall l ensures Spares(s, t, l) {
    }
    SparingKeeps(s, t);
  }

  /** Gate entries and exits, lookups and busy checks leave directories and mounts alone. */
  lemma MutatorsKeep(s: State, t: State)
    requires Inv(s) && t == s.(mutators := t.mutators) && (s.topology.Some? ==> t.mutators == map[])
    requires forall k :: MutatorOk(t, k)
    ensures Inv(t)
  {
    forall c ensures CoverOk(t, c) {
      assert CoverOk(s, c);
    }
  }

  lemma PassKeeps(s: State, t: State, k: int, loc: Loc)
    requires Inv(s) && (Lookup(s, t, k, loc) || Pass(s, t, k, loc))
    ensures Inv(t)
  {
    assert s.topology == None;
    forall j ensures MutatorOk(t, j) {
      assert MutatorOk(s, j);
    }
    MutatorsKeep(s, t);
  }

  lemma GateKeeps(s: State, t: State, k: int)
    requires Inv(s) && (EnterShared(s, t, k) || LeaveShared(s, t, k))
    ensures Inv(t)
  {
    forall j ensures MutatorOk(t, j) {
      assert MutatorOk(s, j);
    }
    MutatorsKeep(s, t);
  }

  lemma MutatorStepKeeps(s: State, t: State)
    requires Inv(s) && MutatorStep(s, t)
    ensures Inv(t)
  {
    if k :| EnterShared(s, t, k) || LeaveShared(s, t, k) {
      GateKeeps(s, t, k);
    } else if k, loc :| Lookup(s, t, k, loc) || Pass(s, t, k, loc) {
      PassKeeps(s, t, k, loc);
    } else if k, locs :| Unlink(s, t, k, locs) {
      UnlinkKeeps(s, t, k, locs);
    } else if k, from, to :| Rename(s, t, k, from, to) {
      RenameKeeps(s, t, k, from, to);
    } else {
      var loc, v, directory :| Create(s, t, loc, v, directory);
      CreateKeeps(s, t, loc, v, directory);
    }
  }

  lemma InsertMountKeeps(s: State, t: State, fsRoot: Vnode)
    requires Inv(s) && InsertMount(s, t, fsRoot)
    ensures Inv(t)
  {
    forall c ensures CoverOk(t, c) {
      assert CoverOk(s, c);
    }
  }

  lemma RemoveMountKeeps(s: State, t: State)
    requires Inv(s) && RemoveMount(s, t)
    ensures Inv(t)
  {
    forall c ensures CoverOk(t, c) {
      assert CoverOk(s, c);
    }
  }

  lemma ReplaceRootKeeps(s: State, t: State, fsRoot: Vnode)
    requires Inv(s) && ReplaceRoot(s, t, fsRoot)
    ensures Inv(t)
  {
  }

  /** Steps of the exclusive holder that do not touch the table. */
  lemma TopologyKeeps(s: State, t: State)
    requires Inv(s) && t == s.(topology := t.topology, hints := t.hints, count := t.count)
    requires TopologyOk(t) && HintsOk(t)
    ensures Inv(t)
  {
    forall c ensures CoverOk(t, c) {
      assert CoverOk(s, c);
    }
    forall k ensures MutatorOk(t, k) {
      assert MutatorOk(s, k);
    }
  }

  lemma WalkKeeps(s: State, t: State, m: MountId)
    requires Inv(s) && Walk(s, t, m)
    ensures Inv(t)
  {
    var from := s.topology.value.mount;
    if from != s.root {
      assert CoverOk(s, s.mounts[from].covered.value);
    }
    TopologyKeeps(s, t);
  }

  lemma PublishKeeps(s: State, t: State)
    requires Inv(s) && ((exists v :: SetHint(s, t, v)) || StoreCount(s, t) || LeaveExclusive(s, t))
    ensures Inv(t)
  {
    TopologyKeeps(s, t);
  }

  lemma TopologyStepKeeps(s: State, t: State)
    requires Inv(s) && TopologyStep(s, t)
    ensures Inv(t)
  {
    if r :| InsertMount(s, t, r) || ReplaceRoot(s, t, r) {
      if InsertMount(s, t, r) { InsertMountKeeps(s, t, r); } else { ReplaceRootKeeps(s, t, r); }
    } else if RemoveMount(s, t) {
      RemoveMountKeeps(s, t);
    } else if m :| Walk(s, t, m) {
      WalkKeeps(s, t, m);
    } else if loc :| LookupCovered(s, t, loc) {
      TopologyKeeps(s, t);
    } else if EnterExclusive(s, t) {
      TopologyKeeps(s, t);
    } else {
      PublishKeeps(s, t);
    }
  }

  // ---------------------------------------------------------------- every run

  ghost predicate Init(s: State) {
    && Shape(s) && s.table == map[] && s.hints == {} && s.count == 0 && s.mutators == map[] && s.topology == None
  }

  ghost predicate Run(run: seq<State>) {
    && |run| > 0 && Init(run[0])
    && forall i :: 0 <= i < |run| - 1 ==> Next(run[i], run[i + 1])
  }

  lemma NextKeeps(s: State, t: State)
    requires Inv(s) && Next(s, t)
    ensures Inv(t)
  {
    if MutatorStep(s, t) {
      MutatorStepKeeps(s, t);
    } else {
      TopologyStepKeeps(s, t);
    }
  }

  lemma {:induction false} RunsKeep(run: seq<State>, i: nat)
    requires Run(run) && i < |run|
    ensures Inv(run[i])
  {
    if i > 0 {
      RunsKeep(run, i - 1);
      NextKeeps(run[i - 1], run[i]);
    }
  }

  /** In every state of every run the entry a directory was mounted over through still names that
      directory, and the hints and the counter agree with the table whenever its lock is free. */
  lemma CoveredEntriesStay(run: seq<State>, i: nat)
    requires Run(run) && i < |run|
    ensures run[i].at.Keys == run[i].table.Keys
    ensures forall c :: c in run[i].table ==> run[i].Found(run[i].at[c]) == Some(c)
    ensures !run[i].TableLocked() ==> run[i].hints == run[i].table.Keys && run[i].count == |run[i].table|
  {
    RunsKeep(run, i);
    forall c | c in run[i].table ensures run[i].Found(run[i].at[c]) == Some(c) {
      assert CoverOk(run[i], c);
    }
  }

  lemma MutatorsLeaveTable(s: State, t: State)
    requires MutatorStep(s, t)
    ensures t.table == s.table && t.at == s.at
  {
    if k :| EnterShared(s, t, k) || LeaveShared(s, t, k) {
    } else if k, loc :| Lookup(s, t, k, loc) || Pass(s, t, k, loc) {
    } else if k, locs :| Unlink(s, t, k, locs) {
    }
  }

  /** A mount stays at the entry it was made at for as long as it is mounted. */
  lemma PlacesAreFixed(s: State, t: State, c: Vnode)
    requires Next(s, t) && c in s.table && c in t.table && c in s.at
    ensures c in t.at && t.at[c] == s.at[c] && t.table[c] == s.table[c]
  {
    if MutatorStep(s, t) {
      MutatorsLeaveTable(s, t);
    } else if r :| InsertMount(s, t, r) || ReplaceRoot(s, t, r) {
    } else if RemoveMount(s, t) {
    } else {
      assert t.table == s.table && t.at == s.at;
    }
  }

  lemma CoveredIsFound(run: seq<State>, i: nat, c: Vnode)
    requires Run(run) && i < |run| && c in run[i].table
    ensures c in run[i].at && run[i].Found(run[i].at[c]) == Some(c)
  {
    RunsKeep(run, i);
    assert CoverOk(run[i], c);
  }

  ghost predicate SamePlace(s: State, t: State, c: Vnode) {
    c in s.at && c in t.at && t.at[c] == s.at[c]
  }

  lemma {:induction false} PlaceStays(run: seq<State>, i: nat, j: nat, c: Vnode)
    requires i <= j < |run| && c in run[i].at && forall n :: i <= n < j ==> SamePlace(run[n], run[n + 1], c)
    ensures SamePlace(run[i], run[j], c)
  {
    if i < j {
      PlaceStays(run, i, j - 1, c);
      assert SamePlace(run[j - 1], run[j - 1 + 1], c);
    }
  }

  /** Between two states of a run, a directory covered all along keeps its entry. */
  lemma CoveredEntryStays(run: seq<State>, i: nat, j: nat, c: Vnode)
    requires Run(run) && i <= j < |run| && forall n :: i <= n <= j ==> c in run[n].table
    ensures c in run[i].at && c in run[j].at && run[j].at[c] == run[i].at[c] && run[j].Found(run[i].at[c]) == Some(c)
  {
    CoveredIsFound(run, i, c);
    CoveredIsFound(run, j, c);
    forall n | i <= n < j ensures SamePlace(run[n], run[n + 1], c) {
      CoveredIsFound(run, n, c);
      PlacesAreFixed(run[n], run[n + 1], c);
    }
    PlaceStays(run, i, j, c);
  }

  /** Every mount hangs, through mounted parents, below the root. */
  lemma {:induction false} MountsHangBelowRoot(s: State, m: MountId) returns (path: seq<MountId>)
    requires Inv(s) && s.Attached(m)
    ensures |path| > 0 && path[0] == m && path[|path| - 1] == s.root
    ensures forall i :: 0 <= i < |path| - 1 ==> s.Mounted(path[i]) && s.mounts[path[i]].parent == Some(path[i + 1])
    decreases m
  {
    if m == s.root {
      path := [m];
    } else {
      assert CoverOk(s, s.mounts[m].covered.value);
      var rest := MountsHangBelowRoot(s, s.mounts[m].parent.value);
      path := [m] + rest;
    }
  }

  /** In every state of every run each mount in the table hangs below the root. */
  lemma MountsStayAttached(run: seq<State>, i: nat, c: Vnode) returns (path: seq<MountId>)
    requires Run(run) && i < |run| && c in run[i].table
    ensures |path| > 1 && path[0] == run[i].table[c] && path[|path| - 1] == run[i].root
    ensures forall n :: 0 <= n < |path| - 1 ==>
              run[i].Mounted(path[n]) && run[i].mounts[path[n]].parent == Some(path[n + 1])
  {
    RunsKeep(run, i);
    assert CoverOk(run[i], c);
    path := MountsHangBelowRoot(run[i], run[i].table[c]);
  }
}

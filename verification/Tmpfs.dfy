/** The memory filesystem: create, link, unlink and rename keep its directories a tree. */
module Tmpfs {
  import opened Common
  import opened TmpfsTree

  const MAX_NAME_LEN := 255
  const MAX_DIRECTORY_DEPTH := 4096

  datatype Error = InvalidArgument | NameTooLong | NotFound | AlreadyExists | NotDirectory | IsADirectory
                 | NotEmpty | NoSpace | PermissionDenied | SymlinkLoop | CrossDevice | Io

  function LeafFault(n: Name): Option<Error> {
    if |n.bytes| > MAX_NAME_LEN then Some(NameTooLong)
    else if n.bytes == "" || '\0' in n.bytes || '/' in n.bytes || n.bytes == "."
        || n.bytes == ".." then Some(InvalidArgument)
    else None
  }

  /** The entries of `t` are those of `s`, except that `(d, n)` now holds `e`. */
  ghost predicate Only(s: Nodes, t: Nodes, d: Id, n: Name, e: Option<DirEntry>) {
    forall c: Id, m :: Entry(t, c, m) == if c == d && m == n then e else Entry(s, c, m)
  }

  /** Every node keeps its kind. */
  ghost predicate SameKinds(s: Nodes, t: Nodes) {
    forall x :: x in s ==> x in t && t[x].kind == s[x].kind
  }

  /** Why nothing can be entered into `d` under the name `n`, if so. */
  function EnterFault(s: Nodes, d: Id, n: Name): Option<Error>
    requires d in s
  {
    if !s[d].kind.Directory? then Some(NotDirectory)
    else if s[d].links == 0 then Some(NotFound)
    else if n in s[d].contents.entries then Some(AlreadyExists)
    else if s[d].contents.next + 1 > U64_MAX then Some(NoSpace)
    else None
  }

  function UnlinkFault(s: Nodes, d: Id, n: Name, removeDirectory: bool): Option<Error>
    requires d in s && forall e :: e in s[d].contents.entries ==> s[d].contents.entries[e].node in s
  {
    if !s[d].kind.Directory? then Some(NotDirectory)
    else if s[d].links == 0 || n !in s[d].contents.entries then Some(NotFound)
    else
      var x := s[s[d].contents.entries[n].node];
      if removeDirectory then (if !x.kind.Directory? then Some(NotDirectory)
          else if x.contents.entries != map[] then Some(NotEmpty) else None)
      else if x.kind.Directory? then Some(IsADirectory)
      else None
  }

  class Tmpfs {
    const id: nat
    var nodes: Nodes
    var nextNode: nat

    ghost predicate Valid()
      reads this
    {
      Tree(nodes, None) && forall x :: x in nodes ==> x < nextNode
    }

    constructor (id: nat)
      ensures Valid() && this.id == id && nodes.Keys == {ROOT} && forall n :: Entry(nodes, ROOT, n) == None
    {
      this.id := id;
      nodes, nextNode := map[ROOT := Node(Directory, 2, None, EMPTY)], ROOT + 1;
      new;
      assert Names(nodes, ROOT) == {} && Subdirectories(nodes, ROOT) == {};
      assert forall x: Id :: Rooted(nodes, {ROOT}, x) by {
        assert Reaches(nodes, {ROOT}, ROOT, 0);
      }
    }

    /** Enters a node that only its caller holds. */
    method Enter(d: Id, n: Name, x: Id)
      requires Tree(nodes, Some(x)) && d in nodes && EnterFault(nodes, d, n) == None && x != d
          && (Live(nodes, x) ==> nodes[x].contents == EMPTY)
      modifies this`nodes
      ensures nodes == Attached(old(nodes), d, n, x, old(nodes[d].contents.next), old(nodes[d].contents.next) + 1)
      ensures Tree(nodes, None)
    {
      ghost var s := nodes;
      assert NodeOk(s, Some(x), d);
      var c := nodes[d].contents;
      nodes := Attached(nodes, d, n, x, c.next, c.next + 1);
      if Live(s, x) {
        assert Rooted(s, Stops(s, Some(x)), d);
        var k: nat :| Reaches(s, {ROOT, x}, d, k);
        ReachesAround(s, x, d, k);
      }
      AttachKeeps(s, d, n, x, c.next, c.next + 1);
    }

    /** `full` is true when the contents of a symbolic link find no space. */
    method Create(d: Id, n: Name, kind: Kind, full: bool) returns (r: Result<Id, Error>)
      requires Valid() && d in nodes
      modifies this
      ensures Valid()
      ensures r.Ok? <==> LeafFault(n) == None && EnterFault(old(nodes), d, n) == None && !(kind.Symlink? && full)
      ensures r.Err? ==> nodes == old(nodes)
      ensures r.Ok? ==>
                && r.value !in old(nodes) && nodes.Keys == old(nodes.Keys) + {r.value}
                && SameKinds(old(nodes), nodes) && nodes[r.value].kind == kind
                && Only(old(nodes), nodes, d, n, Some(DirEntry(r.value, old(nodes[d].contents.next))))
    {
      ghost var s := nodes;
      var fault := LeafFault(n);
      if fault.Some? { return Err(fault.value); }
      fault := EnterFault(nodes, d, n);
      if fault.Some? { return Err(fault.value); }
      var x := nextNode;
      nextNode := nextNode + 1;
      if kind.Symlink? && full { return Err(NoSpace); }
      nodes := Raised(nodes, x, Node(kind, if kind.Directory? then 2 else 1, Some(d), EMPTY));
      RaiseKeeps(s, x, nodes[x]);
      Enter(d, n, x);
      r := Ok(x);
    }

    method Link(d: Id, n: Name, filesystem: nat, x: Id) returns (r: Option<Error>)
      requires Valid() && d in nodes && (filesystem == id ==> x in nodes)
      modifies this`nodes
      ensures Valid()
      ensures r == None <==>
                && LeafFault(n) == None && filesystem == id && !old(nodes)[x].kind.Directory?
                && EnterFault(old(nodes), d, n) == None
      ensures r.Some? ==> nodes == old(nodes)
      ensures r == None ==>
                && nodes.Keys == old(nodes.Keys) && SameKinds(old(nodes), nodes)
                && Only(old(nodes), nodes, d, n, Some(DirEntry(x, old(nodes[d].contents.next))))
    {
      ghost var s := nodes;
      r := LeafFault(n);
      if r.Some? { return; }
      if filesystem != id { return Some(CrossDevice); }
      if nodes[x].kind.Directory? { return Some(PermissionDenied); }
      r := EnterFault(nodes, d, n);
      if r.Some? { return; }
      nodes := Raised(nodes, x, nodes[x].(links := nodes[x].links + 1));
      RaiseKeeps(s, x, nodes[x]);
      Enter(d, n, x);
    }

    /** Drops one link of a node; a directory loses all of its links. */
    method RemoveLink(x: Id) returns (r: Option<Error>)
      requires x in nodes
      modifies this`nodes
      ensures r == if old(nodes[x].links) == 0 && !old(nodes[x].kind.Directory?) then Some(Io) else None
      ensures nodes == if old(nodes[x].links) == 0 then old(nodes) else Released(old(nodes), x)
    {
      var links := nodes[x].links;
      if nodes[x].kind.Directory? {
        nodes := nodes[x := nodes[x].(links := 0)];
      } else if links == 0 {
        return Some(Io);
      } else {
        nodes := nodes[x := nodes[x].(links := links - 1)];
      }
      r := None;
    }

    /** Drops one directory link from a parent. */
    method ReleaseDirectoryLink(d: Id) returns (r: Option<Error>)
      requires d in nodes
      modifies this`nodes
      ensures r == if old(nodes[d].links) > 2 then None else Some(Io)
      ensures nodes == if r == None then old(nodes)[d := old(nodes)[d].(links := old(nodes[d].links) - 1)]
              else old(nodes)
    {
      if nodes[d].links <= 2 { return Some(Io); }
      nodes := nodes[d := nodes[d].(links := nodes[d].links - 1)];
      r := None;
    }

    /** Takes the entry `n` out of `d` and drops the link it held. */
    method Remove(d: Id, n: Name) returns (r: Option<Error>)
      requires Tree(nodes, None) && Vacant(nodes, d, n)
      modifies this`nodes
      ensures r == None && Removed(old(nodes), d, n, nodes)
    {
      ghost var s := nodes;
      var x := nodes[d].contents.entries[n].node;
      DetachKeeps(s, d, n);
      NotItsOwnChild(s, None, d, n);
      nodes := nodes[d := nodes[d].(contents := nodes[d].contents.Cut(n))];
      if nodes[x].kind.Directory? {
        r := ReleaseDirectoryLink(d);
      }
      assert nodes == Detached(s, d, n);
      r := RemoveLink(x);
    }

    method Unlink(d: Id, n: Name, removeDirectory: bool) returns (r: Option<Error>)
      requires Valid() && d in nodes
      modifies this`nodes
      ensures Valid() && r != Some(Io)
      ensures r == None <==> LeafFault(n) == None && Removable(old(nodes), d, n, removeDirectory)
      ensures r.Some? ==> nodes == old(nodes)
      ensures r == None ==>
                && nodes.Keys == old(nodes.Keys) && SameKinds(old(nodes), nodes)
                && Only(old(nodes), nodes, d, n, None)
    {
      UnlinkGuards(nodes, d, n, removeDirectory);
      r := LeafFault(n);
      if r.Some? { return; }
      r := UnlinkFault(nodes, d, n, removeDirectory);
      if r.Some? { return; }
      ghost var s := nodes;
      r := Remove(d, n);
      RemovalKeeps(s, d, n, nodes);
    }

    /** Rejects a move of directory `x` to a place below itself.  The walk is bounded. */
    method EnsureAcyclic(x: Id, target: Id) returns (r: Option<Error>)
      requires x in nodes
      ensures r == None <==> !nodes[x].kind.Directory? || ReachesTop(nodes, x, target)
      ensures r == Some(InvalidArgument) <==>
                nodes[x].kind.Directory? && exists k :: 0 <= k < MAX_DIRECTORY_DEPTH && Ancestor(nodes, target, k) == x
      ensures r in {None, Some(InvalidArgument), Some(SymlinkLoop)}
    {
      if !nodes[x].kind.Directory? { return None; }
      var ancestor := target;
      for i := 0 to MAX_DIRECTORY_DEPTH
        invariant ancestor == Ancestor(nodes, target, i)
        invariant forall j :: 0 <= j < i ==> Ancestor(nodes, target, j) != x && !Top(nodes, target, j)
      {
        if ancestor == x { return Some(InvalidArgument); }
        var parent := Parent(nodes, ancestor);
        if parent == ancestor {
          TopFound(nodes, x, target, i);
          return None;
        }
        ancestor := parent;
      }
      r := Some(SymlinkLoop);
    }

    method RenameWithin(d: Id, sn: Name, tn: Name)
      requires Tree(nodes, None) && Entry(nodes, d, sn).Some? && tn !in nodes[d].contents.entries
      modifies this`nodes
      ensures Tree(nodes, None) && nodes.Keys == old(nodes.Keys) && SameKinds(old(nodes), nodes)
      ensures Moved(old(nodes), nodes, d, sn, d, tn, Entry(old(nodes), d, sn).value)
    {
      ghost var s := nodes;
      var c := nodes[d].contents;
      var e := c.entries[sn];
      nodes := nodes[d := nodes[d].(contents := c.Cut(sn).Put(tn, e.node, e.cookie, c.next))];
      WithinKeeps(s, d, sn, tn, nodes);
    }

    method MoveAcross(sd: Id, sn: Name, td: Id, tn: Name) returns (r: Option<Error>)
      requires Tree(nodes, None) && Entry(nodes, sd, sn).Some? && Enterable(nodes, td, tn)
      requires sd != td && Clear(nodes, td, Entry(nodes, sd, sn).value.node)
      modifies this`nodes
      ensures r == None && Tree(nodes, None) && nodes.Keys == old(nodes.Keys) && SameKinds(old(nodes), nodes)
      ensures Moved(old(nodes), nodes, sd, sn, td, tn,
              DirEntry(Entry(old(nodes), sd, sn).value.node, old(nodes[td].contents.next)))
    {
      ghost var s := nodes;
      AcrossKeeps(s, sd, sn, td, tn);
      var x, c := nodes[sd].contents.entries[sn].node, nodes[td].contents;
      nodes := nodes[sd := nodes[sd].(contents := nodes[sd].contents.Cut(sn))];
      nodes := nodes[td := nodes[td].(contents := c.Put(tn, x, c.next, c.next + 1))];
      if nodes[x].kind.Directory? {
        nodes := nodes[x := nodes[x].(parent := Some(td))];
        r := ReleaseDirectoryLink(sd);
        nodes := nodes[td := nodes[td].(links := nodes[td].links + 1)];
      } else {
        r := None;
      }
      AcrossMoves(s, sd, sn, td, tn, nodes);
    }

    /** Makes room at `(d, n)` for the entry of `x` to move there. */
    method Replace(d: Id, n: Name, x: Id) returns (r: Option<Error>)
      requires Tree(nodes, None) && d in nodes && x in nodes && ReplaceFault(nodes, d, n, x) == None
      requires !NamesNode(nodes, d, n, x)
      modifies this`nodes
      ensures r == None && Tree(nodes, None) && Cleared(old(nodes), d, n, nodes)
    {
      r := None;
      if n in nodes[d].contents.entries {
        ghost var s := nodes;
        TargetsExist(s, d);
        r := Remove(d, n);
        RemovalKeeps(s, d, n, nodes);
      }
    }

    method RenameInside(d: Id, sn: Name, tn: Name) returns (r: Option<Error>)
      requires Tree(nodes, None) && d in nodes && nodes[d].kind.Directory?
      modifies this`nodes
      ensures Tree(nodes, None) && r != Some(Io)
      ensures r == None <==> Movable(old(nodes), d, sn, d, tn)
      ensures r.Some? ==> nodes == old(nodes)
      ensures r == None ==> Renamed(old(nodes), nodes, d, sn, d, tn)
    {
      ghost var s := nodes;
      TargetsExist(s, d);
      if nodes[d].links == 0 || sn !in nodes[d].contents.entries { return Some(NotFound); }
      var x := nodes[d].contents.entries[sn].node;
      if sn == tn { return None; }
      r := ReplaceFault(nodes, d, tn, x);
      if r.Some? { return; }
      if tn in nodes[d].contents.entries && nodes[d].contents.entries[tn].node == x { return; }
      r := Replace(d, tn, x);
      RenameWithin(d, sn, tn);
    }

    method RenameBetween(sd: Id, sn: Name, td: Id, tn: Name) returns (r: Option<Error>)
      requires Tree(nodes, None) && sd in nodes && td in nodes && sd != td
      requires nodes[sd].kind.Directory? && nodes[td].kind.Directory?
      modifies this`nodes
      ensures Tree(nodes, None) && r != Some(Io)
      ensures r == None <==> Movable(old(nodes), sd, sn, td, tn)
      ensures r.Some? ==> nodes == old(nodes)
      ensures r == None ==> Renamed(old(nodes), nodes, sd, sn, td, tn)
    {
      ghost var s := nodes;
      TargetsExist(s, sd);
      TargetsExist(s, td);
      if sn !in nodes[sd].contents.entries { return Some(NotFound); }
      var x := nodes[sd].contents.entries[sn].node;
      r := EnsureAcyclic(x, td);
      if r.Some? { return; }
      if nodes[sd].links == 0 || nodes[td].links == 0 { return Some(NotFound); }
      r := ReplaceFault(nodes, td, tn, x);
      if r.Some? { return; }
      if tn in nodes[td].contents.entries && nodes[td].contents.entries[tn].node == x { return; }
      if nodes[td].contents.next + 1 > U64_MAX { return Some(NoSpace); }
      r := Replace(td, tn, x);
      ClearSurvives(s, nodes, td, x);
      r := MoveAcross(sd, sn, td, tn);
    }

    method Rename(sd: Id, sn: Name, filesystem: nat, td: Id, tn: Name) returns (r: Option<Error>)
      requires Valid() && sd in nodes && (filesystem == id ==> td in nodes)
      modifies this`nodes
      ensures Valid() && r != Some(Io)
      ensures r == None <==>
                LeafFault(sn) == LeafFault(tn) == None && filesystem == id && Movable(old(nodes), sd, sn, td, tn)
      ensures r.Some? ==> nodes == old(nodes)
      ensures r == None ==> Renamed(old(nodes), nodes, sd, sn, td, tn)
    {
      r := LeafFault(sn);
      if r.Some? { return; }
      r := LeafFault(tn);
      if r.Some? { return; }
      if filesystem != id { return Some(CrossDevice); }
      if !nodes[sd].kind.Directory? || !nodes[td].kind.Directory? { return Some(NotDirectory); }
      if sd == td {
        r := RenameInside(sd, sn, tn);
      } else {
        r := RenameBetween(sd, sn, td, tn);
      }
    }

    /** The last holder of a node without links lets go of it. */
    method Free(x: Id)
      requires Valid() && x in nodes && nodes[x].links == 0
      modifies this`nodes
      ensures Valid() && nodes.Keys == old(nodes.Keys) - {x}
          && forall d: Id, n :: Entry(nodes, d, n) == Entry(old(nodes), d, n)
    {
      FreeKeeps(nodes, x);
      assert NodeOk(nodes, None, x);
      nodes := nodes - {x};
    }
  }

  // ---------------------------------------------------------------- moving an entry

  /** Why the entry `(d, n)` may not be replaced by one for `x`, if so. */
  function ReplaceFault(s: Nodes, d: Id, n: Name, x: Id): Option<Error>
    requires d in s && x in s
  {
    if n !in s[d].contents.entries || s[d].contents.entries[n].node == x
        || s[d].contents.entries[n].node !in s then None
    else
      var y := s[s[d].contents.entries[n].node];
      if s[x].kind.Directory? && !y.kind.Directory? then Some(NotDirectory)
      else if !s[x].kind.Directory? && y.kind.Directory? then Some(IsADirectory)
      else if y.kind.Directory? && y.contents.entries != map[] then Some(NotEmpty)
      else None
  }

  ghost predicate NamesNode(s: Nodes, d: Id, n: Name, x: Id) {
    Entry(s, d, n).Some? && Entry(s, d, n).value.node == x
  }

  /** When a rename succeeds: both directories are live, the source exists, a directory does not move
      below itself or too deep, and the entry it replaces is of its kind and has nothing below it. */
  ghost predicate Movable(s: Nodes, sd: Id, sn: Name, td: Id, tn: Name) {
    && Live(s, sd) && Live(s, td) && Entry(s, sd, sn).Some?
    && var x := Entry(s, sd, sn).value.node;
    && (sd == td || !IsDirectory(s, x) || ReachesTop(s, x, td))
    && (sd == td || s[td].contents.next + 1 <= U64_MAX || NamesNode(s, td, tn, x))
    && (Entry(s, td, tn).Some? && !NamesNode(s, td, tn, x) ==>
          IsDirectory(s, Entry(s, td, tn).value.node) == IsDirectory(s, x) && Vacant(s, td, tn))
  }

  /** The entry has moved, replacing what was there; within a directory it keeps its cookie.  If both
      names are links to one file nothing happens. */
  ghost predicate Renamed(s: Nodes, t: Nodes, sd: Id, sn: Name, td: Id, tn: Name) {
    && Entry(s, sd, sn).Some? && td in s
    && var e := Entry(s, sd, sn).value;
    if NamesNode(s, td, tn, e.node) then t == s
    else t.Keys == s.Keys && SameKinds(s, t) &&
         Moved(s, t, sd, sn, td, tn, if sd == td then e else DirEntry(e.node, s[td].contents.next))
  }

  /** At most the entry `(d, n)` and its link are gone. */
  ghost predicate Cleared(s: Nodes, d: Id, n: Name, t: Nodes) {
    && t.Keys == s.Keys && SameKinds(s, t) && Only(s, t, d, n, None) && (Live(s, d) ==> Live(t, d))
    && forall y :: y in s ==> t[y].parent == s[y].parent && t[y].contents.next == s[y].contents.next
  }

  /** Following parents from `x` has come to a directory that is its own parent. */
  ghost predicate Top(s: Nodes, x: Id, k: nat) {
    Parent(s, Ancestor(s, x, k)) == Ancestor(s, x, k)
  }

  lemma {:induction false} TopStays(s: Nodes, x: Id, k: nat)
    requires Top(s, x, k)
    ensures forall j :: k <= j < MAX_DIRECTORY_DEPTH ==> Ancestor(s, x, j) == Ancestor(s, x, k)
    decreases MAX_DIRECTORY_DEPTH - k
  {
    if k < MAX_DIRECTORY_DEPTH {
      TopStays(s, x, k + 1);
    }
  }

  /** Within the depth limit the walk from `target` comes to a top and does not meet `x`. */
  ghost predicate ReachesTop(s: Nodes, x: Id, target: Id) {
    && (exists k :: 0 <= k < MAX_DIRECTORY_DEPTH && Top(s, target, k))
    && forall j :: 0 <= j < MAX_DIRECTORY_DEPTH ==> Ancestor(s, target, j) != x
  }

  lemma TopFound(s: Nodes, x: Id, target: Id, k: nat)
    requires Top(s, target, k) && k < MAX_DIRECTORY_DEPTH && forall j :: 0 <= j <= k ==> Ancestor(s, target, j) != x
    ensures ReachesTop(s, x, target)
  {
    TopStays(s, target, k);
  }

  /** A directory `x` is not on the way from `d` to the root. */
  ghost predicate Clear(s: Nodes, d: Id, x: Id) {
    IsDirectory(s, x) ==> exists k :: Avoids(s, d, x, k)
  }

  /** The walk that `ReachesTop` describes shows that a move is safe, also once an entry was replaced. */
  lemma ClearSurvives(s: Nodes, t: Nodes, d: Id, x: Id)
    requires Tree(s, None) && Live(s, d) && (!IsDirectory(s, x) || ReachesTop(s, x, d)) && SameKinds(s, t)
    requires t.Keys == s.Keys && forall y :: y in s ==> t[y].parent == s[y].parent
    ensures Clear(t, d, x)
  {
    if IsDirectory(s, x) {
      WalkIsClear(s, x, d);
      var k :| Avoids(s, d, x, k);
      AvoidsSame(s, t, d, x, k);
    }
  }

  lemma WalkIsClear(s: Nodes, x: Id, target: Id)
    requires Tree(s, None) && Live(s, target) && ReachesTop(s, x, target)
    ensures Clear(s, target, x)
  {
    var k :| 0 <= k < MAX_DIRECTORY_DEPTH && Top(s, target, k);
    AncestorIsLive(s, target, k);
    OnlyRootIsTop(s, Ancestor(s, target, k));
    WalkAvoids(s, target, x, k, 0);
  }

  /** The entry at `(sd, sn)` is gone and `(td, tn)` holds `e`; nothing else changed. */
  ghost predicate Moved(s: Nodes, t: Nodes, sd: Id, sn: Name, td: Id, tn: Name, e: DirEntry) {
    forall c: Id, m :: Entry(t, c, m) ==
      if c == td && m == tn then Some(e) else if c == sd && m == sn then None else Entry(s, c, m)
  }

  predicate Enterable(s: Nodes, d: Id, n: Name) {
    Live(s, d) && n !in s[d].contents.entries && s[d].contents.next + 1 <= U64_MAX
  }

  lemma WithinKeeps(s: Nodes, d: Id, sn: Name, tn: Name, t: Nodes)
    requires Tree(s, None) && Entry(s, d, sn).Some? && tn !in s[d].contents.entries
    requires var c := s[d].contents; var e := c.entries[sn];
             t == s[d := s[d].(contents := c.Cut(sn).Put(tn, e.node, e.cookie, c.next))]
    ensures Tree(t, None) && Moved(s, t, d, sn, d, tn, Entry(s, d, sn).value)
  {
    var c := s[d].contents;
    var e := c.entries[sn];
    var x := e.node;
    DetachKeeps(s, d, sn);
    NotItsOwnChild(s, None, d, sn);
    var u := Detached(s, d, sn);
    assert EntryOk(s, d, sn);
    assert NodeOk(s, None, d);
    WithinClear(s, d, sn);
    AttachKeeps(u, d, tn, x, e.cookie, c.next);
    WithinIsAttached(s, d, sn, tn, t);
    WithinMoves(s, d, sn, tn, t);
  }

  lemma WithinMoves(s: Nodes, d: Id, sn: Name, tn: Name, t: Nodes)
    requires Entry(s, d, sn).Some? && tn != sn
    requires var c := s[d].contents; var e := c.entries[sn];
             t == s[d := s[d].(contents := c.Cut(sn).Put(tn, e.node, e.cookie, c.next))]
    ensures Moved(s, t, d, sn, d, tn, Entry(s, d, sn).value)
  {
  }

  lemma WithinIsAttached(s: Nodes, d: Id, sn: Name, tn: Name, t: Nodes)
    requires Entry(s, d, sn).Some? && s[d].links >= 1 && EntryOk(s, d, sn) && s[d].contents.entries[sn].node != d
    requires var c := s[d].contents; var e := c.entries[sn];
             t == s[d := s[d].(contents := c.Cut(sn).Put(tn, e.node, e.cookie, c.next))]
    ensures t == Attached(Detached(s, d, sn), d, tn, s[d].contents.entries[sn].node,
            s[d].contents.entries[sn].cookie, s[d].contents.next)
  {
  }

  lemma WithinClear(s: Nodes, d: Id, n: Name)
    requires Tree(s, None) && Entry(s, d, n).Some? && s[d].links >= 1
    ensures Clear(Detached(s, d, n), d, s[d].contents.entries[n].node)
  {
    var x := s[d].contents.entries[n].node;
    assert EntryOk(s, d, n) && NodeOk(s, None, x) && (d, n) in Names(s, x);
    if IsDirectory(s, x) {
      var k := ParentAvoidsChild(s, d, x);
      AvoidsSame(s, Detached(s, d, n), d, x, k);
    }
  }

  ghost function Across(s: Nodes, sd: Id, sn: Name, td: Id, tn: Name): Nodes
    requires sd in s && sn in s[sd].contents.entries && s[sd].links >= 1 && td in s
        && s[sd].contents.entries[sn].node in s
  {
    Attached(Detached(s, sd, sn), td, tn, s[sd].contents.entries[sn].node, s[td].contents.next, s[td].contents.next + 1)
  }

  lemma AcrossMoves(s: Nodes, sd: Id, sn: Name, td: Id, tn: Name, t: Nodes)
    requires sd in s && sn in s[sd].contents.entries && s[sd].links >= 1 && td in s
        && s[sd].contents.entries[sn].node in s
    requires sd != td && s[sd].contents.entries[sn].node !in {sd, td} && t == Across(s, sd, sn, td, tn)
    ensures t.Keys == s.Keys && SameKinds(s, t)
    ensures Moved(s, t, sd, sn, td, tn, DirEntry(s[sd].contents.entries[sn].node, s[td].contents.next))
  {
  }

  lemma AcrossKeeps(s: Nodes, sd: Id, sn: Name, td: Id, tn: Name)
    requires Tree(s, None) && Entry(s, sd, sn).Some? && Enterable(s, td, tn) && sd != td
    requires Clear(s, td, Entry(s, sd, sn).value.node)
    ensures s[sd].contents.entries[sn].node in s && s[sd].contents.entries[sn].node !in {sd, td}
    ensures s[sd].links >= 1 + 2 * Weight(s, s[sd].contents.entries[sn].node)
    ensures Tree(Across(s, sd, sn, td, tn), None)
  {
    var x := s[sd].contents.entries[sn].node;
    DetachKeeps(s, sd, sn);
    NotItsOwnChild(s, None, sd, sn);
    var u := Detached(s, sd, sn);
    assert EntryOk(s, sd, sn) && NodeOk(s, None, td) && td != x;
    if IsDirectory(s, x) {
      var k :| Avoids(s, td, x, k);
      AvoidsSame(s, u, td, x, k);
    }
    AttachKeeps(u, td, tn, x, s[td].contents.next, s[td].contents.next + 1);
  }

  /** The entry `(d, n)` exists, and nothing lies below it. */
  ghost predicate Vacant(s: Nodes, d: Id, n: Name) {
    && Entry(s, d, n).Some?
    && var x := Entry(s, d, n).value.node;
    && x in s && s[x].contents.entries == map[]
  }

  /** `t` is `s` without the entry `(d, n)` and the link it held. */
  ghost predicate Removed(s: Nodes, d: Id, n: Name, t: Nodes) {
    && d in s && n in s[d].contents.entries && s[d].links >= 1
    && var x := s[d].contents.entries[n].node;
    && x in s && x != d && s[x].links >= 1
    && t == Released(Detached(s, d, n), x)
  }

  lemma RemovalKeeps(s: Nodes, d: Id, n: Name, t: Nodes)
    requires Tree(s, None) && Vacant(s, d, n) && Removed(s, d, n, t)
    ensures Tree(t, None) && Cleared(s, d, n, t)
  {
    var x := s[d].contents.entries[n].node;
    DetachKeeps(s, d, n);
    assert Detached(s, d, n)[x] == s[x];
    ReleaseKeeps(Detached(s, d, n), x);
  }

  /** The entry exists in a live directory and is of the kind asked for, and a directory is empty. */
  ghost predicate Removable(s: Nodes, d: Id, n: Name, removeDirectory: bool) {
    Live(s, d) && Vacant(s, d, n) && s[Entry(s, d, n).value.node].kind.Directory? == removeDirectory
  }

  lemma TargetsExist(s: Nodes, d: Id)
    requires Tree(s, None) && d in s
    ensures forall e :: e in s[d].contents.entries ==>
              var x := s[d].contents.entries[e].node;
              x in s && (s[x].contents.entries != map[] ==> s[x].kind.Directory?)
  {
    forall e | e in s[d].contents.entries
      ensures var x := s[d].contents.entries[e].node; x in s && (s[x].contents.entries != map[] ==>
                s[x].kind.Directory?)
    {
      assert EntryOk(s, d, e) && NodeOk(s, None, s[d].contents.entries[e].node);
    }
  }

  lemma UnlinkGuards(s: Nodes, d: Id, n: Name, removeDirectory: bool)
    requires Tree(s, None) && d in s
    ensures forall e :: e in s[d].contents.entries ==> s[d].contents.entries[e].node in s
    ensures UnlinkFault(s, d, n, removeDirectory) == None <==> Removable(s, d, n, removeDirectory)
    ensures UnlinkFault(s, d, n, removeDirectory) != Some(Io)
  {
    TargetsExist(s, d);
    assert NodeOk(s, None, d);
  }
}

/** The shape of a memory filesystem: its nodes, and what makes them a tree.

    The four elementary changes below are the ones create, link, unlink and rename are made of.  Between
    two of them one node may be loose: counted by its own links, but named by no directory. */
module TmpfsTree {
  import opened Common

  const ROOT: Id := 1

  type Id = nat

  datatype Name = Name(bytes: string)

  datatype Kind = Regular | Directory | Symlink

  datatype DirEntry = DirEntry(node: Id, cookie: nat)

  datatype Contents = Contents(entries: map<Name, DirEntry>, cookies: map<nat, Name>, next: nat) {
    function Put(n: Name, x: Id, cookie: nat, after: nat): Contents {
      Contents(entries[n := DirEntry(x, cookie)], cookies[cookie := n], after)
    }

    function Cut(n: Name): Contents
      requires n in entries
    {
      Contents(entries - {n}, cookies - {entries[n].cookie}, next)
    }

    /** Names and cookies are inverse to each other, and no cookie at or above the counter is in use. */
    ghost predicate Valid() {
      && (forall n :: n in entries ==> entries[n].cookie in cookies && cookies[entries[n].cookie] == n)
      && (forall k :: k in cookies ==> 2 <= k < next && cookies[k] in entries && entries[cookies[k]].cookie == k)
      && 2 <= next <= U64_MAX
    }
  }

  const EMPTY := Contents(map[], map[], 2)

  datatype Node = Node(kind: Kind, links: nat, parent: Option<Id>, contents: Contents)

  type Nodes = map<Id, Node>

  predicate Live(s: Nodes, x: Id) {
    x in s && s[x].kind.Directory? && s[x].links > 0
  }

  function Entry(s: Nodes, d: Id, n: Name): Option<DirEntry> {
    if d in s && n in s[d].contents.entries then Some(s[d].contents.entries[n]) else None
  }

  /** Every directory entry that names node `x`. */
  ghost function Names(s: Nodes, x: Id): set<(Id, Name)> {
    set d, n | d in s && n in s[d].contents.entries && s[d].contents.entries[n].node == x :: (d, n)
  }

  ghost predicate IsDirectory(s: Nodes, x: Id) {
    x in s && s[x].kind.Directory?
  }

  ghost function Subdirectories(s: Nodes, d: Id): set<Name>
    requires d in s
  {
    set n | n in s[d].contents.entries && IsDirectory(s, s[d].contents.entries[n].node)
  }

  // ---------------------------------------------------------------- the tree

  /** How many entries name `x`: the links of a file, one for a live directory other than the root. */
  ghost function Expected(s: Nodes, loose: Option<Id>, x: Id): int
    requires x in s
  {
    if s[x].kind.Directory? then (if s[x].links > 0 && x != ROOT && Some(x) != loose then 1 else 0)
    else s[x].links - (if Some(x) == loose then 1 else 0)
  }

  ghost predicate NodeOk(s: Nodes, loose: Option<Id>, x: Id) {
    x in s ==>
    && s[x].contents.Valid()
    && (s[x].contents.entries != map[] ==> Live(s, x))
    && (Live(s, x) ==> s[x].links == 2 + |Subdirectories(s, x)|)
    && |Names(s, x)| == Expected(s, loose, x)
  }

  ghost predicate EntryOk(s: Nodes, d: Id, n: Name) {
    d in s && n in s[d].contents.entries ==>
      var x := s[d].contents.entries[n].node;
      x in s && (s[x].kind.Directory? ==> s[x].parent == Some(d))
  }

  /** Following parents from `x` reaches a node of `stop` within `k` steps. */
  ghost predicate Reaches(s: Nodes, stop: set<Id>, x: Id, k: nat)
    decreases k
  {
    x in stop || (k > 0 && x in s && s[x].parent.Some? && Reaches(s, stop, s[x].parent.value, k - 1))
  }

  ghost predicate Rooted(s: Nodes, stop: set<Id>, x: Id) {
    Live(s, x) ==> exists k: nat :: Reaches(s, stop, x, k)
  }

  ghost function Stops(s: Nodes, loose: Option<Id>): set<Id> {
    if loose.Some? && IsDirectory(s, loose.value) then {ROOT, loose.value} else {ROOT}
  }

  ghost predicate Tree(s: Nodes, loose: Option<Id>) {
    && Live(s, ROOT) && s[ROOT].parent == None && loose != Some(ROOT)
    && (loose.Some? ==> loose.value in s && s[loose.value].links > 0)
    && (forall x :: NodeOk(s, loose, x))
    && (forall d, n :: EntryOk(s, d, n))
    && (forall x :: Rooted(s, Stops(s, loose), x))
  }

  // ---------------------------------------------------------------- elementary changes

  function Weight(s: Nodes, x: Id): nat {
    if x in s && s[x].kind.Directory? then 1 else 0
  }

  /** Takes the entry `n` out of directory `d`. */
  function Detached(s: Nodes, d: Id, n: Name): Nodes
    requires d in s && n in s[d].contents.entries && s[d].links >= 1
  {
    s[d := s[d].(contents := s[d].contents.Cut(n), links := s[d].links - Weight(s, s[d].contents.entries[n].node))]
  }

  /** Enters `x` into directory `d` under name `n`. */
  function Attached(s: Nodes, d: Id, n: Name, x: Id, cookie: nat, after: nat): Nodes
    requires d in s && x in s
  {
    var child := if s[x].kind.Directory? then s[x].(parent := Some(d)) else s[x];
    s[x := child][d := s[d].(contents := s[d].contents.Put(n, x, cookie, after), links := s[d].links + Weight(s, x))]
  }

  /** Drops the link of a node that was taken out of its directory. */
  function Released(s: Nodes, x: Id): Nodes
    requires x in s && s[x].links >= 1
  {
    s[x := s[x].(links := if s[x].kind.Directory? then 0 else s[x].links - 1)]
  }

  /** A new node, or one more link to a file, before any directory names it. */
  function Raised(s: Nodes, x: Id, v: Node): Nodes {
    s[x := v]
  }

  // ---------------------------------------------------------------- parents

  /** The parent of a live directory is live and has an entry for it, under one name only. */
  lemma ParentIsLive(s: Nodes, loose: Option<Id>, x: Id) returns (p: Id, n: Name)
    requires Tree(s, loose) && Live(s, x) && x != ROOT && Some(x) != loose
    ensures s[x].parent == Some(p) && Live(s, p) && Entry(s, p, n).Some? && Entry(s, p, n).value.node == x
    ensures Names(s, x) == {(p, n)}
  {
    assert NodeOk(s, loose, x);
    var e :| e in Names(s, x);
    p, n := e.0, e.1;
    assert Names(s, x) == {e} by {
      var rest := Names(s, x) - {e};
      assert Names(s, x) == rest + {e};
    }
    assert EntryOk(s, p, n) && NodeOk(s, loose, p);
  }

  lemma {:induction false} ReachesMore(s: Nodes, stop: set<Id>, x: Id, k: nat, m: nat)
    requires Reaches(s, stop, x, k) && k <= m
    ensures Reaches(s, stop, x, m)
    decreases k
  {
    if x !in stop {
      ReachesMore(s, stop, s[x].parent.value, k - 1, m - 1);
    }
  }

  lemma {:induction false} ReachesSame(s: Nodes, t: Nodes, stop: set<Id>, more: set<Id>, x: Id, k: nat)
    requires Reaches(s, stop, x, k) && stop <= more
    requires forall y :: y in s ==> y in t && t[y].parent == s[y].parent
    ensures Reaches(t, more, x, k)
    decreases k
  {
    if x !in stop {
      ReachesSame(s, t, stop, more, s[x].parent.value, k - 1);
    }
  }

  lemma RootedSame(s: Nodes, t: Nodes, stop: set<Id>, more: set<Id>, x: Id)
    requires Rooted(s, stop, x) && stop <= more && (Live(t, x) ==> Live(s, x))
    requires forall y :: y in s ==> y in t && t[y].parent == s[y].parent
    ensures Rooted(t, more, x)
  {
    if Live(t, x) {
      var k: nat :| Reaches(s, stop, x, k);
      ReachesSame(s, t, stop, more, x, k);
    }
  }

  /** No directory has an entry for itself. */
  lemma NotItsOwnChild(s: Nodes, loose: Option<Id>, d: Id, n: Name)
    requires Tree(s, loose) && d in s && n in s[d].contents.entries && loose != Some(d)
    ensures s[d].contents.entries[n].node != d
  {
    assert NodeOk(s, loose, d) && EntryOk(s, d, n) && Rooted(s, Stops(s, loose), d);
    var k: nat :| Reaches(s, Stops(s, loose), d, k);
    if s[d].parent == Some(d) {
      OwnParent(s, Stops(s, loose), d, k);
    }
  }

  lemma {:induction false} OwnParent(s: Nodes, stop: set<Id>, x: Id, k: nat)
    requires x in s && s[x].parent == Some(x) && x !in stop
    ensures !Reaches(s, stop, x, k)
    decreases k
  {
    if k > 0 {
      OwnParent(s, stop, x, k - 1);
    }
  }

  /** Following parents from `x` reaches the root within `k` steps and never meets `a`. */
  ghost predicate Avoids(s: Nodes, x: Id, a: Id, k: nat)
    decreases k
  {
    x != a && (x == ROOT || (k > 0 && x in s && s[x].parent.Some? && Avoids(s, s[x].parent.value, a, k - 1)))
  }

  lemma {:induction false} AvoidingSurvives(s: Nodes, t: Nodes, x: Id, a: Id, k: nat)
    requires Avoids(s, x, a, k)
    requires forall y :: y in s && y != a ==> y in t && t[y].parent == s[y].parent
    ensures Reaches(t, {ROOT}, x, k)
    decreases k
  {
    if x != ROOT {
      AvoidingSurvives(s, t, s[x].parent.value, a, k - 1);
    }
  }

  /** After `a` moved below `d`, whoever reached the root or `a` reaches the root. */
  lemma {:induction false} ReachesAcross(s: Nodes, t: Nodes, a: Id, d: Id, j: nat, x: Id, k: nat)
    requires Reaches(s, {ROOT, a}, x, k) && Reaches(t, {ROOT}, d, j)
    requires forall y :: y in s && y != a ==> y in t && t[y].parent == s[y].parent
    requires a in t && t[a].parent == Some(d)
    ensures Reaches(t, {ROOT}, x, k + j + 1)
    decreases k
  {
    if x == a {
      ReachesMore(t, {ROOT}, d, j, k + j);
    } else if x != ROOT {
      ReachesAcross(s, t, a, d, j, s[x].parent.value, k - 1);
    }
  }

  /** An empty directory lies on nobody else's way to the root. */
  lemma {:induction false} ReachesAround(s: Nodes, a: Id, x: Id, k: nat)
    requires Tree(s, Some(a)) && s[a].contents.entries == map[]
    requires Live(s, x) && x != a && Reaches(s, {ROOT, a}, x, k)
    ensures Reaches(s, {ROOT}, x, k) && Avoids(s, x, a, k)
    decreases k
  {
    if x != ROOT {
      var p, n := ParentIsLive(s, Some(a), x);
      ReachesAround(s, a, p, k - 1);
    }
  }

  // ---------------------------------------------------------------- what each change keeps

  lemma CutKeeps(c: Contents, n: Name)
    requires c.Valid() && n in c.entries
    ensures c.Cut(n).Valid()
  {
  }

  lemma PutKeeps(c: Contents, n: Name, x: Id, cookie: nat, after: nat)
    requires c.Valid() && n !in c.entries && cookie !in c.cookies && 2 <= cookie < after <= U64_MAX && c.next <= after
    ensures c.Put(n, x, cookie, after).Valid()
  {
  }

  lemma DetachKeeps(s: Nodes, d: Id, n: Name)
    requires Tree(s, None) && d in s && n in s[d].contents.entries
    ensures s[d].links >= 1 + 2 * Weight(s, s[d].contents.entries[n].node)
        && Tree(Detached(s, d, n), Some(s[d].contents.entries[n].node))
  {
    var x := s[d].contents.entries[n].node;
    assert NodeOk(s, None, d) && EntryOk(s, d, n) && NodeOk(s, None, x) && (d, n) in Names(s, x);
    assert IsDirectory(s, x) ==> n in Subdirectories(s, d);
    NotItsOwnChild(s, None, d, n);
    var t := Detached(s, d, n);
    forall y: Id ensures NodeOk(t, Some(x), y) {
      assert NodeOk(s, None, y);
      DetachedNode(s, d, n, y);
    }
    forall e: Id, m ensures EntryOk(t, e, m) {
      assert EntryOk(s, e, m);
    }
    forall y: Id ensures Rooted(t, Stops(t, Some(x)), y) {
      assert Rooted(s, Stops(s, None), y);
      RootedSame(s, t, Stops(s, None), Stops(t, Some(x)), y);
    }
  }

  lemma DetachedNode(s: Nodes, d: Id, n: Name, y: Id)
    requires d in s && n in s[d].contents.entries && s[d].links >= 1 + 2 * Weight(s, s[d].contents.entries[n].node)
    requires NodeOk(s, None, d) && NodeOk(s, None, y) && s[d].contents.entries[n].node !in {d, ROOT}
    ensures NodeOk(Detached(s, d, n), Some(s[d].contents.entries[n].node), y)
  {
    var x := s[d].contents.entries[n].node;
    CutKeeps(s[d].contents, n);
    DetachedCounts(s, d, n, y);
  }

  lemma DetachedNames(s: Nodes, d: Id, n: Name, y: Id)
    requires d in s && n in s[d].contents.entries && s[d].links >= 1
    ensures var t, x := Detached(s, d, n), s[d].contents.entries[n].node;
            && (y == x ==> (d, n) in Names(s, y) && Names(t, y) == Names(s, y) - {(d, n)})
            && (y != x ==> Names(t, y) == Names(s, y))
  {
  }

  lemma DetachedSubdirectories(s: Nodes, d: Id, n: Name, y: Id)
    requires d in s && n in s[d].contents.entries && s[d].links >= 1 && y in s
    ensures var t, x := Detached(s, d, n), s[d].contents.entries[n].node;
            && (y == d && IsDirectory(s, x) ==>
                  n in Subdirectories(s, y) && Subdirectories(t, y) == Subdirectories(s, y) - {n})
            && (y != d || !IsDirectory(s, x) ==> Subdirectories(t, y) == Subdirectories(s, y))
  {
  }

  lemma DetachedCounts(s: Nodes, d: Id, n: Name, y: Id)
    requires d in s && n in s[d].contents.entries && s[d].links >= 1
    ensures var t, x := Detached(s, d, n), s[d].contents.entries[n].node;
            && |Names(t, y)| == |Names(s, y)| - (if y == x then 1 else 0)
            && (y in s ==> |Subdirectories(t, y)| == |Subdirectories(s, y)| - if y == d then Weight(s, x) else 0)
  {
    DetachedNames(s, d, n, y);
    if y in s {
      DetachedSubdirectories(s, d, n, y);
    }
  }

  lemma AttachKeeps(s: Nodes, d: Id, n: Name, x: Id, cookie: nat, after: nat)
    requires Tree(s, Some(x)) && Live(s, d) && d != x && n !in s[d].contents.entries
    requires cookie !in s[d].contents.cookies && 2 <= cookie < after <= U64_MAX && s[d].contents.next <= after
    requires IsDirectory(s, x) ==> exists k :: Avoids(s, d, x, k)
    ensures Tree(Attached(s, d, n, x, cookie, after), None)
  {
    var t := Attached(s, d, n, x, cookie, after);
    forall y: Id ensures NodeOk(t, None, y) {
      assert NodeOk(s, Some(x), y) && NodeOk(s, Some(x), d);
      AttachedNode(s, d, n, x, cookie, after, y);
    }
    assert NodeOk(s, Some(x), x);
    forall e: Id, m ensures EntryOk(t, e, m) {
      assert EntryOk(s, e, m);
      assert IsDirectory(s, x) && Entry(s, e, m).Some? && Entry(s, e, m).value.node == x ==> (e, m) in Names(s, x);
    }
    forall y: Id ensures Rooted(t, Stops(t, None), y) {
      assert Rooted(s, Stops(s, Some(x)), y);
      AttachedReaches(s, d, n, x, cookie, after, y);
    }
  }

  lemma AttachedReaches(s: Nodes, d: Id, n: Name, x: Id, cookie: nat, after: nat, y: Id)
    requires d in s && x in s && d != x && Rooted(s, Stops(s, Some(x)), y)
    requires IsDirectory(s, x) ==> exists k :: Avoids(s, d, x, k)
    ensures var t := Attached(s, d, n, x, cookie, after); Live(s, y) ==> Rooted(t, Stops(t, None), y)
  {
    var t := Attached(s, d, n, x, cookie, after);
    if !IsDirectory(s, x) {
      RootedSame(s, t, Stops(s, Some(x)), Stops(t, None), y);
    } else if Live(s, y) {
      var k: nat :| Reaches(s, {ROOT, x}, y, k);
      var j: nat :| Avoids(s, d, x, j);
      AvoidingSurvives(s, t, d, x, j);
      ReachesAcross(s, t, x, d, j, y, k);
    }
  }

  lemma AttachedNode(s: Nodes, d: Id, n: Name, x: Id, cookie: nat, after: nat, y: Id)
    requires Live(s, d) && x in s && d != x && x != ROOT && s[x].links > 0 && n !in s[d].contents.entries
    requires cookie !in s[d].contents.cookies && 2 <= cookie < after <= U64_MAX && s[d].contents.next <= after
    requires NodeOk(s, Some(x), d) && NodeOk(s, Some(x), y)
    ensures NodeOk(Attached(s, d, n, x, cookie, after), None, y)
  {
    PutKeeps(s[d].contents, n, x, cookie, after);
    AttachedCounts(s, d, n, x, cookie, after, y);
  }

  lemma AttachedNames(s: Nodes, d: Id, n: Name, x: Id, cookie: nat, after: nat, y: Id)
    requires d in s && x in s && d != x && n !in s[d].contents.entries
    ensures var t := Attached(s, d, n, x, cookie, after);
            && (y == x ==> (d, n) !in Names(s, y) && Names(t, y) == Names(s, y) + {(d, n)})
            && (y != x ==> Names(t, y) == Names(s, y))
  {
  }

  lemma AttachedSubdirectories(s: Nodes, d: Id, n: Name, x: Id, cookie: nat, after: nat, y: Id)
    requires d in s && x in s && d != x && n !in s[d].contents.entries && y in s
    ensures var t := Attached(s, d, n, x, cookie, after);
            && (y == d && IsDirectory(s, x) ==>
                  n !in Subdirectories(s, y) && Subdirectories(t, y) == Subdirectories(s, y) + {n})
            && (y != d || !IsDirectory(s, x) ==> Subdirectories(t, y) == Subdirectories(s, y))
  {
  }

  lemma AttachedCounts(s: Nodes, d: Id, n: Name, x: Id, cookie: nat, after: nat, y: Id)
    requires d in s && x in s && d != x && n !in s[d].contents.entries
    ensures var t := Attached(s, d, n, x, cookie, after);
            && |Names(t, y)| == |Names(s, y)| + (if y == x then 1 else 0)
            && (y in s ==> |Subdirectories(t, y)| == |Subdirectories(s, y)| + if y == d then Weight(s, x) else 0)
  {
    AttachedNames(s, d, n, x, cookie, after, y);
    if y in s {
      AttachedSubdirectories(s, d, n, x, cookie, after, y);
    }
  }

  /** Changing a node that no directory names, other than its entries, leaves all counts alone. */
  lemma SameNames(s: Nodes, t: Nodes, y: Id)
    requires forall d: Id, n :: Entry(s, d, n) == Entry(t, d, n)
    ensures Names(t, y) == Names(s, y)
  {
    forall e: (Id, Name) ensures e in Names(s, y) <==> e in Names(t, y) {
      assert Entry(s, e.0, e.1) == Entry(t, e.0, e.1);
    }
  }

  /** Nodes other than `x` are the same, and their entries name no directory that came or went. */
  lemma OtherNode(s: Nodes, t: Nodes, a: Option<Id>, b: Option<Id>, x: Id, y: Id)
    requires NodeOk(s, a, y) && y != x && (y in t ==> y in s && t[y] == s[y]) && Some(y) !in {a, b}
    requires forall z: Id :: z != x ==> IsDirectory(s, z) == IsDirectory(t, z)
    requires IsDirectory(s, x) == IsDirectory(t, x) || Names(s, x) == {}
    requires Names(t, y) == Names(s, y)
    ensures NodeOk(t, b, y)
  {
    if y in t {
      forall n | n in s[y].contents.entries
        ensures IsDirectory(s, s[y].contents.entries[n].node) == IsDirectory(t, s[y].contents.entries[n].node)
      {
        assert (y, n) in Names(s, s[y].contents.entries[n].node);
      }
      assert Subdirectories(t, y) == Subdirectories(s, y);
    }
  }

  lemma NamesExist(s: Nodes, loose: Option<Id>, x: Id)
    requires Tree(s, loose)
    ensures Names(s, x) != {} ==> x in s
  {
    forall e | e in Names(s, x) ensures x in s {
      assert EntryOk(s, e.0, e.1);
    }
  }

  /** A node about to be named for the first time, or a file about to get one more name. */
  lemma RaiseKeeps(s: Nodes, x: Id, v: Node)
    requires Tree(s, None)
    requires if x in s then !s[x].kind.Directory? && v == s[x].(links := s[x].links + 1)
             else v.contents == EMPTY && v.links == if v.kind.Directory? then 2 else 1
    ensures Tree(Raised(s, x, v), Some(x))
  {
    var t := Raised(s, x, v);
    assert NodeOk(s, None, x);
    assert forall d: Id, n :: Entry(s, d, n) == Entry(t, d, n);
    if x !in s {
      NamesExist(s, None, x);
    }
    forall y: Id ensures NodeOk(t, Some(x), y) {
      assert NodeOk(s, None, y);
      SameNames(s, t, y);
      if y != x {
        OtherNode(s, t, None, Some(x), x, y);
      } else {
        assert IsDirectory(t, x) ==> Subdirectories(t, x) == {};
      }
    }
    forall e: Id, m ensures EntryOk(t, e, m) {
      assert EntryOk(s, e, m);
    }
    forall y: Id ensures Rooted(t, Stops(t, Some(x)), y) {
      assert Rooted(s, Stops(s, None), y);
      if y == x {
        assert Live(t, x) ==> Reaches(t, Stops(t, Some(x)), x, 0);
      } else {
        RootedSame(s, t, Stops(s, None), Stops(t, Some(x)), y);
      }
    }
  }

  /** Dropping the link of a loose file, or of a loose empty directory, puts the tree in order again. */
  lemma ReleaseKeeps(s: Nodes, x: Id)
    requires Tree(s, Some(x)) && s[x].contents.entries == map[]
    ensures Tree(Released(s, x), None)
  {
    var t := Released(s, x);
    assert NodeOk(s, Some(x), x);
    assert forall d: Id, n :: Entry(s, d, n) == Entry(t, d, n);
    forall y: Id ensures NodeOk(t, None, y) {
      assert NodeOk(s, Some(x), y);
      SameNames(s, t, y);
      if y != x {
        OtherNode(s, t, Some(x), None, x, y);
      }
    }
    forall e: Id, m ensures EntryOk(t, e, m) {
      assert EntryOk(s, e, m);
    }
    forall y: Id ensures Rooted(t, Stops(t, None), y) {
      assert Rooted(s, Stops(s, Some(x)), y);
      ReleasedReaches(s, x, y);
    }
  }

  lemma ReleasedReaches(s: Nodes, x: Id, y: Id)
    requires Tree(s, Some(x)) && s[x].contents.entries == map[] && Rooted(s, Stops(s, Some(x)), y)
    ensures var t := Released(s, x); Rooted(t, Stops(t, None), y)
  {
    var t := Released(s, x);
    if !IsDirectory(s, x) {
      RootedSame(s, t, {ROOT}, {ROOT}, y);
    } else if Live(t, y) {
      var k: nat :| Reaches(s, {ROOT, x}, y, k);
      ReachesAround(s, x, y, k);
      ReachesSame(s, t, {ROOT}, {ROOT}, y, k);
    }
  }

  /** A node without links may be freed once nobody holds it. */
  lemma FreeKeeps(s: Nodes, x: Id)
    requires Tree(s, None) && x in s && s[x].links == 0
    ensures Tree(s - {x}, None)
  {
    var t := s - {x};
    assert NodeOk(s, None, x);
    assert forall d: Id, n :: Entry(s, d, n) == Entry(t, d, n);
    forall y: Id ensures NodeOk(t, None, y) {
      assert NodeOk(s, None, y);
      SameNames(s, t, y);
      if y != x {
        OtherNode(s, t, None, None, x, y);
      }
    }
    forall e: Id, m ensures EntryOk(t, e, m) {
      assert EntryOk(s, e, m);
      assert Entry(s, e, m).Some? ==> (e, m) in Names(s, Entry(s, e, m).value.node);
    }
    forall y: Id ensures Rooted(t, {ROOT}, y) {
      assert Rooted(s, Stops(s, None), y);
      if Live(t, y) {
        var k: nat :| Reaches(s, {ROOT}, y, k);
        LiveReaches(s, t, y, k);
      }
    }
  }

  /** A live directory reaches the root through live directories. */
  lemma {:induction false} LiveReaches(s: Nodes, t: Nodes, x: Id, k: nat)
    requires Tree(s, None) && Live(s, x) && Reaches(s, {ROOT}, x, k)
    requires forall y :: Live(s, y) ==> y in t && t[y].parent == s[y].parent
    ensures Reaches(t, {ROOT}, x, k)
    decreases k
  {
    if x != ROOT {
      var p, n := ParentIsLive(s, None, x);
      LiveReaches(s, t, p, k - 1);
    }
  }

  // ---------------------------------------------------------------- ancestors

  /** The parent of a directory; the root, and a directory whose parent is gone, are their own. */
  function Parent(s: Nodes, x: Id): Id {
    if x in s && s[x].parent.Some? && s[x].parent.value in s then s[x].parent.value else x
  }

  ghost function Ancestor(s: Nodes, x: Id, k: nat): Id {
    if k == 0 then x else Parent(s, Ancestor(s, x, k - 1))
  }

  lemma {:induction false} AncestorIsLive(s: Nodes, x: Id, k: nat)
    requires Tree(s, None) && Live(s, x)
    ensures Live(s, Ancestor(s, x, k))
  {
    if k > 0 {
      AncestorIsLive(s, x, k - 1);
      var a := Ancestor(s, x, k - 1);
      if a != ROOT {
        var p, n := ParentIsLive(s, None, a);
      }
    }
  }

  /** A live directory that is its own parent is the root. */
  lemma OnlyRootIsTop(s: Nodes, x: Id)
    requires Tree(s, None) && Live(s, x) && Parent(s, x) == x
    ensures x == ROOT
  {
    if x != ROOT {
      var p, n := ParentIsLive(s, None, x);
      NotItsOwnChild(s, None, p, n);
    }
  }

  /** A walk to the top that does not meet `a` shows that `x` is not below `a`. */
  lemma {:induction false} WalkAvoids(s: Nodes, x: Id, a: Id, k: nat, m: nat)
    requires Tree(s, None) && Live(s, x) && Ancestor(s, x, k) == ROOT && m <= k
    requires forall j :: 0 <= j <= k ==> Ancestor(s, x, j) != a
    ensures Avoids(s, Ancestor(s, x, m), a, k - m)
    decreases k - m
  {
    var y := Ancestor(s, x, m);
    if m < k {
      WalkAvoids(s, x, a, k, m + 1);
      AncestorIsLive(s, x, m);
      if y != ROOT {
        var p, n := ParentIsLive(s, None, y);
      }
    }
  }

  lemma {:induction false} AvoidsSame(s: Nodes, t: Nodes, x: Id, a: Id, k: nat)
    requires Avoids(s, x, a, k) && forall y :: y in s ==> y in t && t[y].parent == s[y].parent
    ensures Avoids(t, x, a, k)
    decreases k
  {
    if x != ROOT {
      AvoidsSame(s, t, s[x].parent.value, a, k - 1);
    }
  }

  lemma {:induction false} AvoidsOrMeets(s: Nodes, x: Id, a: Id, k: nat)
    requires Reaches(s, {ROOT}, x, k) && a != ROOT
    ensures Avoids(s, x, a, k) || Reaches(s, {ROOT}, a, k)
    decreases k
  {
    if x != ROOT && x != a {
      AvoidsOrMeets(s, s[x].parent.value, a, k - 1);
      if Reaches(s, {ROOT}, a, k - 1) {
        ReachesMore(s, {ROOT}, a, k - 1, k);
      }
    }
  }

  lemma {:induction false} Nearest(s: Nodes, x: Id, k: nat) returns (m: nat)
    requires Reaches(s, {ROOT}, x, k)
    ensures m <= k && Reaches(s, {ROOT}, x, m) && (m > 0 ==> !Reaches(s, {ROOT}, x, m - 1))
  {
    m := k;
    if k > 0 && Reaches(s, {ROOT}, x, k - 1) {
      m := Nearest(s, x, k - 1);
    }
  }

  /** A directory does not lie below its own child. */
  lemma ParentAvoidsChild(s: Nodes, d: Id, x: Id) returns (k: nat)
    requires Tree(s, None) && Live(s, x) && x != ROOT && s[x].parent == Some(d)
    ensures Avoids(s, d, x, k)
  {
    assert Rooted(s, Stops(s, None), x);
    var j: nat :| Reaches(s, {ROOT}, x, j);
    var m := Nearest(s, x, j);
    k := m - 1;
    AvoidsOrMeets(s, d, x, k);
  }

  lemma {:induction false} AncestorFromParent(s: Nodes, x: Id, k: nat)
    ensures Ancestor(s, Parent(s, x), k) == Ancestor(s, x, k + 1)
  {
    if k > 0 {
      AncestorFromParent(s, x, k - 1);
    }
  }

  /** Every live directory lies below the root. */
  lemma {:induction false} BelowRoot(s: Nodes, x: Id, k: nat) returns (m: nat)
    requires Tree(s, None) && Live(s, x) && Reaches(s, {ROOT}, x, k)
    ensures Ancestor(s, x, m) == ROOT
    decreases k
  {
    m := 0;
    if x != ROOT {
      var p, n := ParentIsLive(s, None, x);
      m := BelowRoot(s, p, k - 1);
      AncestorFromParent(s, x, m);
      m := m + 1;
    }
  }

  /** What the invariant amounts to: a live directory other than the root has one name, in its parent,
      and lies below the root; its links count its subdirectories; the links of a file are its names. */
  lemma TreeMeaning(s: Nodes, x: Id)
    requires Tree(s, None) && x in s
    ensures Live(s, x) ==> s[x].links == 2 + |Subdirectories(s, x)| && exists k :: Ancestor(s, x, k) == ROOT
    ensures Live(s, x) && x != ROOT ==> exists n :: Names(s, x) == {(Parent(s, x), n)}
    ensures !s[x].kind.Directory? ==> s[x].links == |Names(s, x)|
    ensures s[x].kind.Directory? && s[x].links == 0 ==> Names(s, x) == {} && s[x].contents.entries == map[]
  {
    assert NodeOk(s, None, x) && Rooted(s, Stops(s, None), x);
    if Live(s, x) {
      var k: nat :| Reaches(s, {ROOT}, x, k);
      var m := BelowRoot(s, x, k);
      if x != ROOT {
        var p, n := ParentIsLive(s, None, x);
        assert Names(s, x) == {(Parent(s, x), n)};
      }
    }
  }
}

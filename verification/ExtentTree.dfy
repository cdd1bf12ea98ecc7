/** The on-disk extent tree of a file: reading it terminates on every disk image and gives its leaves in order. */
module ExtentTree {
  import opened Common
  import opened LittleEndian
  import opened Extents
  import opened Sorting

  const EXTENT_MAGIC := 0xf30a
  const MAX_DEPTH := 5

  type Bytes = seq<Byte>

  /** Reads the block of a node, or fails. */
  type Reader = nat -> Option<Bytes>

  function Leaf(b: Bytes, at: nat): Extent
    requires at + 12 <= |b|
  {
    var raw := Le16(b, at + 4);
    Extent(Le32(b, at), Le32(b, at + 8) + 0x1_0000_0000 * Le16(b, at + 6),
           if raw > 0x8000 then raw - 0x8000 else raw, raw <= 0x8000)
  }

  function Child(b: Bytes, at: nat): nat
    requires at + 12 <= |b|
  {
    Le32(b, at + 4) + 0x1_0000_0000 * Le16(b, at + 8)
  }

  function Count(b: Bytes): nat {
    if |b| < 8 then 0 else Le16(b, 2)
  }

  function Depth(b: Bytes): nat {
    if |b| < 8 then 0 else Le16(b, 6)
  }

  /** The extents below the first `n` entries of a node of depth `depth`, from left to right. */
  ghost function Leaves(read: Reader, b: Bytes, depth: nat, n: nat): seq<Extent>
    decreases depth, n
  {
    if n == 0 || 12 + n * 12 > |b| then [] else Leaves(read, b, depth, n - 1) + Entry(read, b, depth, n * 12)
  }

  /** The extents of the entry at byte `at`: itself in a leaf, those of its child otherwise. */
  ghost function Entry(read: Reader, b: Bytes, depth: nat, at: nat): seq<Extent>
    requires at + 12 <= |b|
    decreases depth, 0
  {
    if depth == 0 then [Leaf(b, at)]
    else
      match read(Child(b, at))
      case Some(child) => Leaves(read, child, depth - 1, Count(child))
      case None => []
  }

  /** The extents below a node. */
  ghost function Below(read: Reader, b: Bytes): seq<Extent> {
    Leaves(read, b, Depth(b), Count(b))
  }

  ghost predicate HeaderSound(b: Bytes, expected: Option<nat>) {
    && |b| >= 8 && Le16(b, 0) == EXTENT_MAGIC && (expected.Some? ==> Depth(b) == expected.value)
    && Depth(b) <= MAX_DEPTH
    && Count(b) <= Le16(b, 4) <= if |b| < 12 then 0 else (|b| - 12) / 12
  }

  /** The first `n` entries of a node start in ascending order, and each is sound. */
  ghost predicate EntriesSound(read: Reader, b: Bytes, depth: nat, n: nat)
    decreases depth, n
  {
    n == 0 ||
    (&& 12 + n * 12 <= |b| && EntriesSound(read, b, depth, n - 1) && EntrySound(read, b, depth, n * 12)
     && (n > 1 ==> Le32(b, (n - 1) * 12) < Le32(b, n * 12)))
  }

  ghost predicate EntrySound(read: Reader, b: Bytes, depth: nat, at: nat)
    requires at + 12 <= |b|
    decreases depth, 0
  {
    if depth == 0 then Le16(b, at + 4) != 0
    else
      match read(Child(b, at))
      case Some(child) => HeaderSound(child, Some(depth - 1)) && EntriesSound(read, child, depth - 1, Count(child))
      case None => false
  }

  /** The tree below a node can be read: every node is well formed and one level below its parent. */
  ghost predicate Readable(read: Reader, b: Bytes, expected: Option<nat>) {
    HeaderSound(b, expected) && EntriesSound(read, b, Depth(b), Count(b))
  }

  lemma {:induction false} SoundPrefix(read: Reader, b: Bytes, depth: nat, m: nat, n: nat)
    requires m <= n && EntriesSound(read, b, depth, n)
    ensures EntriesSound(read, b, depth, m)
  {
    if m < n {
      SoundPrefix(read, b, depth, m, n - 1);
    }
  }

  method CollectEntry(read: Reader, bytes: Bytes, depth: nat, at: nat, output: seq<Extent>)
    returns (r: Result<seq<Extent>, Error>)
    requires at + 12 <= |bytes|
    ensures r.Ok? <==> EntrySound(read, bytes, depth, at)
    ensures r.Ok? ==> r.value == output + Entry(read, bytes, depth, at)
    decreases depth + 1, 0
  {
    if depth == 0 {
      if Le16(bytes, at + 4) == 0 { return Err(Io); }
      return Ok(output + [Leaf(bytes, at)]);
    }
    var child := read(Child(bytes, at));
    if child == None { return Err(Io); }
    r := CollectExtents(read, child.value, Some(depth - 1), output);
  }

  /** Appends the extents below a node to `output`, and succeeds exactly when the tree can be read. */
  method CollectExtents(read: Reader, bytes: Bytes, expected: Option<nat>, output: seq<Extent>)
    returns (r: Result<seq<Extent>, Error>)
    ensures r.Ok? <==> Readable(read, bytes, expected)
    ensures r.Ok? ==> r.value == output + Below(read, bytes)
    decreases if expected.Some? then expected.value + 1 else MAX_DEPTH + 2, 2
  {
    if |bytes| < 8 || Le16(bytes, 0) != EXTENT_MAGIC { return Err(Io); }
    var entries, maximum, depth := Count(bytes), Le16(bytes, 4), Depth(bytes);
    if (expected.Some? && expected.value != depth) || depth > MAX_DEPTH { return Err(Io); }
    var capacity := if |bytes| < 12 then 0 else (|bytes| - 12) / 12;
    if entries > maximum || maximum > capacity { return Err(Io); }
    r := CollectEntries(read, bytes, depth, entries, output);
  }

  /** The entries of one node, which must start in ascending order. */
  method CollectEntries(read: Reader, bytes: Bytes, depth: nat, entries: nat, output: seq<Extent>)
    returns (r: Result<seq<Extent>, Error>)
    requires 12 + entries * 12 <= |bytes| || entries == 0
    ensures r.Ok? <==> EntriesSound(read, bytes, depth, entries)
    ensures r.Ok? ==> r.value == output + Leaves(read, bytes, depth, entries)
    decreases depth + 1, 1
  {
    var previous: Option<nat>, out := None, output;
    for i := 0 to entries
      invariant out == output + Leaves(read, bytes, depth, i) && EntriesSound(read, bytes, depth, i)
      invariant previous == if i == 0 then None else Some(Le32(bytes, i * 12))
    {
      var at := 12 + i * 12;
      var logical := Le32(bytes, at);
      if EntriesSound(read, bytes, depth, entries) { SoundPrefix(read, bytes, depth, i + 1, entries); }
      if previous.Some? && logical <= previous.value { return Err(Io); }
      previous := Some(logical);
      r := CollectEntry(read, bytes, depth, at, out);
      if r.Err? { return; }
      Joined(output, Leaves(read, bytes, depth, i), Entry(read, bytes, depth, at));
      out := r.value;
    }
    r := Ok(out);
  }

  lemma Joined(a: seq<Extent>, b: seq<Extent>, c: seq<Extent>)
    ensures (a + b) + c == a + (b + c)
  {
  }

  /** Valid extents are in the order of their starts, and no two start together. */
  lemma ValidAscends(es: seq<Extent>, blocks: nat)
    requires Valid(es, blocks)
    ensures forall i, j :: 0 <= i < j < |es| ==> es[i].logical < es[j].logical
  {
  }

  /** The extents an inode is opened with: the leaves of its tree in the one order in which they are valid.  They
      are had exactly when the tree can be read and its leaves are valid in some order. */
  method InodeExtents(read: Reader, bytes: Bytes, blocks: nat) returns (r: Result<seq<Extent>, Error>)
    requires blocks <= U64_MAX
    ensures r.Ok? ==> Valid(r.value, blocks) && multiset(r.value) == multiset(Below(read, bytes))
    ensures r.Ok? <==> && Readable(read, bytes, None)
                       && exists es :: multiset(es) == multiset(Below(read, bytes)) && Valid(es, blocks)
  {
    r := CollectExtents(read, bytes, None, []);
    if r.Ok? {
      assert r.value == Below(read, bytes);
      var key := (e: Extent) => e.logical;
      var sorted := Sort(key, r.value);
      var ok := ValidateExtents(sorted, blocks);
      if ok { return Ok(sorted); }
      forall es | multiset(es) == multiset(Below(read, bytes)) ensures !Valid(es, blocks) {
        if Valid(es, blocks) {
          ValidAscends(es, blocks);
          SortedIsUnique(key, sorted, es);
        }
      }
      r := Err(Io);
    }
  }
}

/** The in-place run-length encoding of per-slot reference counts used by anonymous maps.

    A run of `length` equal counts starting at cell `p` is stored as one positive cell
    `refs + 1` when `length == 1`, and as the two cells `-(refs + 1)`, `length` otherwise.
    The remaining cells of a long run are never read and may hold anything. */
module RunLength {

  const I32_MAX: int := 0x7FFF_FFFF

  /** Reads the run that starts at `offset`: its count and its length. */
  function GetRun(counts: seq<int>, offset: nat): (int, int)
    requires offset < |counts|
    requires counts[offset] <= 0 ==> offset + 1 < |counts|
  {
    if counts[offset] > 0 then (counts[offset] - 1, 1)
    else (-counts[offset] - 1, counts[offset + 1])
  }

  /** Writes one run over cells `[offset, offset + length)`. */
  function SetRun(counts: seq<int>, offset: nat, refs: nat, length: nat): (r: seq<int>)
    requires offset + length <= |counts|
    ensures |r| == |counts|
    ensures forall i :: 0 <= i < |counts| && !(offset <= i < offset + length) ==> r[i] == counts[i]
    ensures FitsI32(counts) && refs < I32_MAX && length <= I32_MAX ==> FitsI32(r)
  {
    if length == 0 then counts
    else if length == 1 then counts[offset := refs + 1]
    else counts[offset := -(refs + 1)][offset + 1 := length]
  }

  ghost predicate FitsI32(c: seq<int>) {
    forall i :: 0 <= i < |c| ==> -I32_MAX <= c[i] <= I32_MAX
  }

  datatype Head = Empty | Malformed | Run(refs: nat, length: nat)

  /** The first run of the region `[p, q)`. */
  ghost function HeadOf(c: seq<int>, p: nat, q: nat): (h: Head)
    ensures h.Run? ==>
              1 <= h.length <= q - p && q <= |c| && (c[p] <= 0 ==> p + 1 < q) && GetRun(c, p) == (h.refs, h.length)
  {
    if p == q <= |c| then Empty
    else if p < q <= |c| && c[p] > 0 then Run(c[p] - 1, 1)
    else if p + 1 < q <= |c| && c[p] < 0 && 2 <= c[p + 1] <= q - p then Run(-c[p] - 1, c[p + 1])
    else Malformed
  }

  ghost predicate AllEqual(s: seq<nat>, p: nat, q: nat, x: int) {
    q <= |s| && forall i :: p <= i < q ==> s[i] == x
  }

  /** Cells `[p, q)` of `c` are whole runs that stand for the plain counters `s[p..q]`. */
  ghost predicate Encodes(c: seq<int>, p: nat, q: nat, s: seq<nat>)
    decreases q - p
  {
    match HeadOf(c, p, q)
    case Empty => q <= |s|
    case Malformed => false
    case Run(refs, n) => AllEqual(s, p, p + n, refs) && Encodes(c, p + n, q, s)
  }

  lemma {:induction false} EncodesBounds(c: seq<int>, p: nat, q: nat, s: seq<nat>)
    requires Encodes(c, p, q, s)
    ensures p <= q <= |c| && q <= |s|
    decreases q - p
  {
    if HeadOf(c, p, q).Run? {
      EncodesBounds(c, p + HeadOf(c, p, q).length, q, s);
    }
  }

  /** The counter of slot `i`, read by walking the runs of `[p, q)`. */
  ghost function CountAt(c: seq<int>, p: nat, q: nat, i: nat): nat
    decreases q - p
  {
    match HeadOf(c, p, q)
    case Run(refs, n) => if i < p + n then refs else CountAt(c, p + n, q, i)
    case _ => 0
  }

  /** An encoding determines the counters it stands for: walking it reads them back. */
  lemma {:induction false} DecodesTo(c: seq<int>, p: nat, q: nat, s: seq<nat>, i: nat)
    requires Encodes(c, p, q, s) && p <= i < q
    ensures i < |s| && CountAt(c, p, q, i) == s[i]
    decreases q - p
  {
    var n := HeadOf(c, p, q).length;
    if i >= p + n {
      DecodesTo(c, p + n, q, s, i);
    }
  }

  /** Runs only look at the cells they own. */
  lemma {:induction false} EncodesLocal(c: seq<int>, d: seq<int>, p: nat, q: nat, s: seq<nat>, t: seq<nat>)
    requires Encodes(c, p, q, s) && q <= |c| && q <= |d| && q <= |s| && q <= |t|
    requires forall i :: p <= i < q ==> c[i] == d[i] && s[i] == t[i]
    ensures Encodes(d, p, q, t)
    decreases q - p
  {
    if HeadOf(c, p, q).Run? {
      EncodesLocal(c, d, p + HeadOf(c, p, q).length, q, s, t);
    }
  }

  lemma {:induction false} EncodesConcat(c: seq<int>, p: nat, m: nat, q: nat, s: seq<nat>)
    requires Encodes(c, p, m, s) && Encodes(c, m, q, s)
    ensures Encodes(c, p, q, s)
    decreases m - p
  {
    EncodesBounds(c, m, q, s);
    if HeadOf(c, p, m).Run? {
      EncodesConcat(c, p + HeadOf(c, p, m).length, m, q, s);
    }
  }

  /** A freshly written run stands for its count. */
  lemma SetRunEncodes(c: seq<int>, p: nat, q: nat, refs: nat, s: seq<nat>)
    requires p <= q <= |c| && AllEqual(s, p, q, refs)
    ensures Encodes(SetRun(c, p, refs, q - p), p, q, s)
    ensures p < q ==> HeadOf(SetRun(c, p, refs, q - p), p, q) == Run(refs, q - p)
  {
    var d := SetRun(c, p, refs, q - p);
    assert Encodes(d, q, q, s);
  }

  /** Writes the run `(refs, m - p)` at `p`. */
  method PutRun(c: seq<int>, p: nat, m: nat, refs: nat, ghost t: seq<nat>) returns (d: seq<int>)
    requires p <= m <= |c| && AllEqual(t, p, m, refs)
    ensures |d| == |c| && (FitsI32(c) && |c| <= I32_MAX && refs < I32_MAX ==> FitsI32(d))
    ensures forall i :: 0 <= i < |c| && !(p <= i < m) ==> d[i] == c[i]
    ensures Encodes(d, p, m, t) && (p < m ==> HeadOf(d, p, m) == Run(refs, m - p))
  {
    SetRunEncodes(c, p, m, refs, t);
    d := SetRun(c, p, refs, m - p);
  }

  /** Reads the run at `p` and, when it reaches past `stop`, cuts it there first. */
  method CutRun(c: seq<int>, p: nat, stop: nat, ghost q: nat, ghost s: seq<nat>)
    returns (d: seq<int>, refs: nat, run: nat)
    requires p < stop <= q <= |c| && q <= |s| && Encodes(c, p, q, s)
    ensures |d| == |c| && (FitsI32(c) && |c| <= I32_MAX ==> FitsI32(d))
    ensures forall i :: 0 <= i < p ==> d[i] == c[i]
    ensures 1 <= run <= stop - p && HeadOf(d, p, p + run) == Run(refs, run) && AllEqual(s, p, p + run, refs)
    ensures Encodes(d, p + run, q, s)
  {
    d := c;
    var r := GetRun(c, p);
    refs, run := r.0, r.1;
    if p + run > stop {
      var e := PutRun(c, p, stop, refs, s);
      d := PutRun(e, stop, p + run, refs, s);
      EncodesLocal(c, d, p + run, q, s, s);
      EncodesConcat(d, stop, p + run, q, s);
      run := stop - p;
    }
  }
}

/** Terminal output: post-processing in batches, with exact accounting of partial writes
    (output modes of section 11.2.3 of the POSIX.1-2017 Base Definitions). */
module Tty {
  import opened Common

  const OUTPUT_BATCH_SIZE := 512
  const USIZE_LIMIT := 0x1_0000_0000_0000_0000
  const BS: Byte := 0x08
  const HT: Byte := 0x09
  const LF: Byte := 0x0a
  const CR: Byte := 0x0d
  const SPACE: Byte := 0x20

  /** The output modes that change bytes or the column. */
  datatype Modes = Modes(olcuc: bool, onlcr: bool, ocrnl: bool, onocr: bool, onlret: bool, tab3: bool)

  predicate IsControl(b: Byte) {
    (b < SPACE && b != LF && b != HT) || b == 0x7f
  }

  function Upper(b: Byte): Byte {
    if 0x61 <= b <= 0x7a then b - 0x20 else b
  }

  function Spaces(n: nat): (s: seq<Byte>)
    ensures |s| == n
  {
    seq(n, _ => SPACE)
  }

  /** What one byte becomes, and the column it leaves. */
  function Transform(m: Modes, raw: Byte, column: nat): (r: (seq<Byte>, nat))
    ensures |r.0| <= 8
  {
    var b := if m.olcuc then Upper(raw) else raw;
    if b == CR && m.onocr && column == 0 then ([], column)
    else if b == CR && m.ocrnl then ([LF], if m.onlret then 0 else column)
    else if b == LF && m.onlcr then ([CR, LF], 0)
    else if b == HT && m.tab3 then (Spaces(8 - column % 8), (column + (8 - column % 8)) % USIZE_LIMIT)
    else if b == CR then ([b], 0)
    else if b == LF then ([b], if m.onlret then 0 else column)
    else if b == BS then ([b], if column > 0 then column - 1 else 0)
    else ([b], if IsControl(b) then column else if column + 1 < USIZE_LIMIT then column + 1 else USIZE_LIMIT - 1)
  }

  /** The column after the first `n` bytes. */
  ghost function Column(m: Modes, input: seq<Byte>, column: nat, n: nat): nat
    requires n <= |input|
  {
    if n == 0 then column else Transform(m, input[n - 1], Column(m, input, column, n - 1)).1
  }

  /** What the first `n` bytes become. */
  ghost function Output(m: Modes, input: seq<Byte>, column: nat, n: nat): seq<Byte>
    requires n <= |input|
  {
    if n == 0 then [] else Output(m, input, column, n - 1) + Transform(m, input[n - 1],
        Column(m, input, column, n - 1)).0
  }

  /** Where a terminal that shows byte `b` in column `c` puts its cursor: it shows one byte in one column, has a tab
      stop every eight columns and no right margin. */
  function Moved(m: Modes, c: nat, b: Byte): nat {
    if b == CR then 0
    else if b == LF then (if m.onlret then 0 else c)
    else if b == BS then (if c > 0 then c - 1 else 0)
    else if b == HT then c + (8 - c % 8)
    else if IsControl(b) then c else c + 1
  }

  ghost function Cursor(m: Modes, c: nat, shown: seq<Byte>): nat {
    if shown == [] then c else Moved(m, Cursor(m, c, shown[..|shown| - 1]), shown[|shown| - 1])
  }

  lemma {:induction false} CursorConcat(m: Modes, c: nat, a: seq<Byte>, b: seq<Byte>)
    ensures Cursor(m, c, a + b) == Cursor(m, Cursor(m, c, a), b)
  {
    if b == [] {
      assert a + b == a;
    } else {
      var n := |b| - 1;
      assert (a + b)[..|a + b| - 1] == a + b[..n];
      CursorConcat(m, c, a, b[..n]);
    }
  }

  lemma {:induction false} CursorSpaces(m: Modes, c: nat, n: nat)
    ensures Cursor(m, c, Spaces(n)) == c + n
  {
    if n > 0 {
      assert Spaces(n)[..n - 1] == Spaces(n - 1);
      CursorSpaces(m, c, n - 1);
    }
  }

  /** A tab that goes out as it is counts as one column, which is wrong unless the next column is a tab stop. */
  predicate Miscounted(m: Modes, raw: Byte, c: nat) {
    raw == HT && !m.tab3 && c % 8 != 7
  }

  /** For one byte: the column kept is the cursor's if and only if the cursor's fits the counter and the byte is no
      miscounted tab. */
  lemma CursorStep(m: Modes, raw: Byte, c: nat)
    requires c < USIZE_LIMIT
    ensures var (out, next) := Transform(m, raw, c);
            && next < USIZE_LIMIT
            && (next == Cursor(m, c, out) <==> Cursor(m, c, out) < USIZE_LIMIT && !Miscounted(m, raw, c))
  {
    var out := Transform(m, raw, c).0;
    var b := if m.olcuc then Upper(raw) else raw;
    if b == HT && m.tab3 {
      CursorSpaces(m, c, 8 - c % 8);
    } else if |out| == 2 {
      assert out[..1] == [CR] && [CR][..0] == [];
    } else if |out| == 1 {
      assert out[..0] == [];
    }
  }

  /** A byte moves the cursor by at most eight columns, whatever the column kept. */
  lemma CursorGrows(m: Modes, raw: Byte, column: nat, c: nat)
    ensures Cursor(m, c, Transform(m, raw, column).0) <= c + 8
  {
    var out := Transform(m, raw, column).0;
    if raw == HT && m.tab3 {
      CursorSpaces(m, c, 8 - column % 8);
    } else if |out| == 2 {
      assert out[..1] == [CR] && [CR][..0] == [];
    } else if |out| == 1 {
      assert out[..0] == [];
    }
  }

  /** Where what the first `n` bytes become leaves the cursor. */
  ghost function CursorAfter(m: Modes, input: seq<Byte>, column: nat, n: nat): nat
    requires n <= |input|
  {
    Cursor(m, column, Output(m, input, column, n))
  }

  /** Byte `i` is no tab that is miscounted where the cursor is. */
  ghost predicate Counted(m: Modes, input: seq<Byte>, column: nat, i: nat)
    requires i < |input|
  {
    !Miscounted(m, input[i], CursorAfter(m, input, column, i))
  }

  /** One more byte, from a column that is the cursor's. */
  lemma AgreeOnce(m: Modes, input: seq<Byte>, column: nat, n: nat)
    requires n < |input| && Column(m, input, column, n) == CursorAfter(m, input, column, n) < USIZE_LIMIT
    ensures Column(m, input, column, n + 1) < USIZE_LIMIT
    ensures Column(m, input, column, n + 1) == CursorAfter(m, input, column, n + 1) <==>
            CursorAfter(m, input, column, n + 1) < USIZE_LIMIT && Counted(m, input, column, n)
  {
    var c := Column(m, input, column, n);
    CursorConcat(m, column, Output(m, input, column, n), Transform(m, input[n], c).0);
    CursorStep(m, input[n], c);
  }

  ghost predicate Agrees(m: Modes, input: seq<Byte>, column: nat, i: nat)
    requires i <= |input|
  {
    Column(m, input, column, i) == CursorAfter(m, input, column, i)
  }

  ghost predicate Below(m: Modes, input: seq<Byte>, column: nat, i: nat)
    requires i <= |input|
  {
    CursorAfter(m, input, column, i) < USIZE_LIMIT
  }

  /** The column kept is, after each prefix, where what was delivered leaves a terminal's cursor if and only if
      the cursor stays below the limit of the counter and no tab is miscounted. */
  lemma ColumnIsCursorExactly(m: Modes, input: seq<Byte>, column: nat, n: nat)
    requires n <= |input| && column < USIZE_LIMIT
    ensures (forall i :: 0 <= i <= n ==> Agrees(m, input, column, i)) <==>
            && (forall i :: 0 <= i <= n ==> Below(m, input, column, i))
            && (forall i :: 0 <= i < n ==> Counted(m, input, column, i))
  {
    if forall i :: 0 <= i <= n ==> Agrees(m, input, column, i) {
      forall i | 0 <= i <= n ensures Below(m, input, column, i) {
        assert Agrees(m, input, column, i);
        ColumnFits(m, input, column, i);
      }
      forall i | 0 <= i < n ensures Counted(m, input, column, i) {
        assert Agrees(m, input, column, i) && Agrees(m, input, column, i + 1) && Below(m, input, column, i);
        AgreeOnce(m, input, column, i);
      }
    }
    if (forall i :: 0 <= i <= n ==> Below(m, input, column, i))
        && (forall i :: 0 <= i < n ==> Counted(m, input, column, i)) {
      forall i | 0 <= i <= n ensures Agrees(m, input, column, i) {
        CountedAgrees(m, input, column, i);
      }
    }
  }

  lemma {:induction false} CountedAgrees(m: Modes, input: seq<Byte>, column: nat, n: nat)
    requires n <= |input| && forall i :: 0 <= i <= n ==> Below(m, input, column, i)
    requires forall i :: 0 <= i < n ==> Counted(m, input, column, i)
    ensures Agrees(m, input, column, n)
  {
    if n > 0 {
      CountedAgrees(m, input, column, n - 1);
      assert Below(m, input, column, n - 1) && Below(m, input, column, n) && Counted(m, input, column, n - 1);
      AgreeOnce(m, input, column, n - 1);
    }
  }

  lemma {:induction false} ColumnFits(m: Modes, input: seq<Byte>, column: nat, n: nat)
    requires n <= |input| && column < USIZE_LIMIT
    ensures Column(m, input, column, n) < USIZE_LIMIT
  {
    if n > 0 {
      ColumnFits(m, input, column, n - 1);
      CursorStep(m, input[n - 1], Column(m, input, column, n - 1));
    }
  }

  lemma {:induction false} CursorReaches(m: Modes, input: seq<Byte>, column: nat, n: nat)
    requires n <= |input|
    ensures CursorAfter(m, input, column, n) <= column + 8 * n
  {
    if n > 0 {
      CursorReaches(m, input, column, n - 1);
      var c := Column(m, input, column, n - 1);
      CursorConcat(m, column, Output(m, input, column, n - 1), Transform(m, input[n - 1], c).0);
      CursorGrows(m, input[n - 1], c, CursorAfter(m, input, column, n - 1));
    }
  }

  /** Far from the limit only miscounted tabs matter. */
  lemma ColumnIsCursor(m: Modes, input: seq<Byte>, column: nat, n: nat)
    requires n <= |input| && column + 8 * n < USIZE_LIMIT
    ensures (forall i :: 0 <= i <= n ==> Agrees(m, input, column, i)) <==>
            (forall i :: 0 <= i < n ==> Counted(m, input, column, i))
  {
    forall i | 0 <= i <= n ensures Below(m, input, column, i) {
      CursorReaches(m, input, column, i);
    }
    ColumnIsCursorExactly(m, input, column, n);
  }

  /** They part already at a first tab that goes out as it is. */
  lemma TabIsMiscounted(m: Modes)
    requires !m.tab3
    ensures Column(m, [HT], 0, 1) == 1 && CursorAfter(m, [HT], 0, 1) == 8
  {
    assert Transform(m, HT, 0) == ([HT], 1);
    assert Column(m, [HT], 0, 0) == 0 && Output(m, [HT], 0, 0) == [];
    assert Output(m, [HT], 0, 1) == [] + [HT] == [HT];
    assert [HT][..0] == [] && Cursor(m, 0, [HT]) == Moved(m, 0, HT);
  }

  /** And they part at the limit: a tab at the largest column wraps the counter around. */
  lemma ColumnMayWrap()
    ensures var m, c := Modes(false, false, false, false, false, true), USIZE_LIMIT - 1;
            Column(m, [HT], c, 1) == 0 && CursorAfter(m, [HT], c, 1) == USIZE_LIMIT
  {
    var m, c := Modes(false, false, false, false, false, true), USIZE_LIMIT - 1;
    assert Output(m, [HT], c, 0) + Spaces(1) == Spaces(1);
    assert Column(m, [HT], c, 0) == c;
    CursorSpaces(m, c, 1);
  }

  lemma Joined(a: seq<Byte>, b: seq<Byte>, c: seq<Byte>)
    ensures (a + b) + c == a + (b + c)
  {
  }

  method Append(output: array<Byte>, length: nat, bytes: seq<Byte>)
    requires length + |bytes| <= output.Length
    modifies output
    ensures output[..length + |bytes|] == old(output[..length]) + bytes
  {
    forall j | 0 <= j < |bytes| { output[length + j] := bytes[j]; }
  }

  class Tty {
    var column: nat
    /** What the backend has accepted. */
    var delivered: seq<Byte>

    /** The backend refuses nothing. */
    const reliable: bool

    /** The backend takes all of a buffer or none of it. */
    method BackendWrite(bytes: seq<Byte>) returns (ok: bool)
      modifies this`delivered
      ensures delivered == if ok then old(delivered) + bytes else old(delivered)
      ensures reliable ==> ok
    {
      var refuses: bool := *;
      ok := reliable || !refuses;
      if ok {
        delivered := delivered + bytes;
      }
    }

    /** Writes the batch out if `need` more bytes would not fit. */
    method MakeRoom(m: Modes, input: seq<Byte>, i: nat, output: array<Byte>, p: Progress, need: nat,
                    ghost start: nat, ghost base: seq<Byte>)
      returns (ok: bool, q: Progress)
      requires i <= |input| && need <= 8 && Reached(m, input, start, base, i, p, output[..], delivered)
      modifies this`delivered
      ensures if ok then Reached(m, input, start, base, i, q, output[..], delivered)
          && q.length + need <= OUTPUT_BATCH_SIZE
              else delivered == old(delivered) && q == p && !reliable
    {
      ok, q := true, p;
      if p.length + need > OUTPUT_BATCH_SIZE {
        Joined(base, Output(m, input, start, p.consumed), output[..p.length]);
        ok := BackendWrite(output[..p.length]);
        if ok {
          q := Progress(0, 0, p.consumed + p.buffered, p.current, p.current);
        }
      }
    }

    /** Adds what byte `i` becomes to the batch, after writing the batch out if it would not fit. */
    method Put(m: Modes, input: seq<Byte>, i: nat, output: array<Byte>, p: Progress, ghost start: nat,
               ghost base: seq<Byte>)
      returns (ok: bool, q: Progress)
      requires i < |input| && Reached(m, input, start, base, i, p, output[..], delivered)
      modifies this`delivered, output
      ensures if ok then Reached(m, input, start, base, i + 1, q, output[..], delivered)
              else delivered == old(delivered) && q == p && !reliable
    {
      var r := Transform(m, input[i], p.current);
      ok, q := MakeRoom(m, input, i, output, p, |r.0|, start, base);
      if !ok { return; }
      assert q.current == p.current;
      ghost var before := output[..];
      Append(output, q.length, r.0);
      NextReached(m, input, start, base, i, q, before, output[..], delivered);
      q := Progress(q.length + |r.0|, q.buffered + 1, q.consumed, r.1, q.sent);
    }

    /** Writes the last batch out. */
    method Flush(m: Modes, input: seq<Byte>, output: array<Byte>, p: Progress, ghost start: nat, ghost base: seq<Byte>)
      returns (ok: bool)
      requires Reached(m, input, start, base, |input|, p, output[..], delivered)
      modifies this`delivered
      ensures ok ==> delivered == base + Output(m, input, start, |input|)
      ensures !ok ==> delivered == old(delivered) && !reliable
    {
      Joined(base, Output(m, input, start, p.consumed), output[..p.length]);
      if p.length == 0 { return true; }
      ok := BackendWrite(output[..p.length]);
    }

    /** Fills batches and writes them out until the input is used up or the backend refuses one. */
    method Pump(m: Modes, input: seq<Byte>, ghost base: seq<Byte>) returns (refused: bool, p: Progress)
      requires delivered == base
      modifies this`delivered
      ensures p.consumed <= |input| && p.sent == Column(m, input, column, p.consumed)
      ensures refused ==> delivered == base + Output(m, input, column, p.consumed) && !reliable
      ensures !refused ==> p.consumed + p.buffered == |input| && p.current == Column(m, input, column, |input|)
      ensures !refused ==> delivered == base + Output(m, input, column, |input|)
    {
      var output := new Byte[OUTPUT_BATCH_SIZE];
      p := Progress(0, 0, 0, column, column);
      var ok;
      for i := 0 to |input|
        invariant Reached(m, input, column, base, i, p, output[..], delivered)
      {
        ok, p := Put(m, input, i, output, p, column, base);
        if !ok { return true, p; }
      }
      ok := Flush(m, input, output, p, column, base);
      refused := !ok;
    }

    /** Delivers a prefix of the input, transformed, and keeps the column that prefix leaves.  A write that
        the backend never refused delivers everything; an error means that nothing was delivered. */
    method WriteTransformed(m: Modes, input: seq<Byte>) returns (r: Option<nat>, refused: bool)
      modifies this
      ensures r.Some? ==>
                && r.value <= |input|
                && delivered == old(delivered) + Output(m, input, old(column), r.value)
                && column == Column(m, input, old(column), r.value)
      ensures r == None ==> refused && delivered == old(delivered) && column == old(column)
      ensures !refused ==> r == Some(|input|)
      ensures reliable ==> !refused
      ensures refused && r.Some? ==> r.value > 0
    {
      var p;
      refused, p := Pump(m, input, delivered);
      if refused {
        column := p.sent;
        r := if p.consumed == 0 then None else Some(p.consumed);
      } else {
        column := p.current;
        r := Some(p.consumed + p.buffered);
      }
    }
  }

  /** Bytes in the batch, input bytes behind them, input bytes delivered, and the columns after both. */
  datatype Progress = Progress(length: nat, buffered: nat, consumed: nat, current: nat, sent: nat)

  /** After `i` input bytes: the delivered ones and the batch together are what those bytes become. */
  ghost predicate Reached(m: Modes, input: seq<Byte>, start: nat, base: seq<Byte>, i: nat, p: Progress,
                          output: seq<Byte>, delivered: seq<Byte>)
    requires i <= |input|
  {
    && p.length <= |output| == OUTPUT_BATCH_SIZE && p.consumed + p.buffered == i && (p.length > 0 ==> p.buffered > 0)
    && delivered == base + Output(m, input, start, p.consumed)
    && Output(m, input, start, i) == Output(m, input, start, p.consumed) + output[..p.length]
    && p.current == Column(m, input, start, i) && p.sent == Column(m, input, start, p.consumed)
  }

  lemma NextReached(m: Modes, input: seq<Byte>, start: nat, base: seq<Byte>, i: nat, p: Progress,
                    before: seq<Byte>, output: seq<Byte>, delivered: seq<Byte>)
    requires i < |input| && Reached(m, input, start, base, i, p, before, delivered) && |output| == |before|
    requires var r := Transform(m, input[i], p.current);
             p.length + |r.0| <= |output| && output[..p.length + |r.0|] == before[..p.length] + r.0
    ensures var r := Transform(m, input[i], p.current);
            Reached(m, input, start, base, i + 1,
                Progress(p.length + |r.0|, p.buffered + 1, p.consumed, r.1, p.sent), output, delivered)
  {
    Joined(Output(m, input, start, p.consumed), before[..p.length], Transform(m, input[i], p.current).0);
  }
}

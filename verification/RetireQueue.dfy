/** The bounded first-in first-out queue of heap pages whose frames cannot be reused yet. */
module RetireQueue {
  import opened Common

  const TLB_RETIRE_CAPACITY: nat := 0x1000

  datatype RetiredPage = RetiredPage(page: int, frame: int, sequence: nat)

  /** Where entry `i` is, counted from the oldest, which is at `head`. */
  function Slot(head: nat, i: nat): (k: nat)
    ensures k < TLB_RETIRE_CAPACITY
  {
    (head + i) % TLB_RETIRE_CAPACITY
  }

  lemma SlotsDiffer(head: nat, i: nat, j: nat)
    requires i < j < TLB_RETIRE_CAPACITY
    ensures Slot(head, i) != Slot(head, j)
  {
  }

  lemma SlotMoves(head: nat, i: nat)
    ensures Slot(Slot(head, 1), i) == Slot(head, i + 1)
  {
  }

  /** The `len` entries from `head` on, around the end. */
  ghost function Ring(entries: seq<RetiredPage>, head: nat, len: nat): (q: seq<RetiredPage>)
    requires |entries| == TLB_RETIRE_CAPACITY
    ensures |q| == len
  {
    seq(len, i requires i >= 0 => entries[Slot(head, i)])
  }

  lemma RingGrows(entries: seq<RetiredPage>, head: nat, len: nat, e: RetiredPage)
    requires |entries| == TLB_RETIRE_CAPACITY && len < TLB_RETIRE_CAPACITY
    ensures Ring(entries[Slot(head, len) := e], head, len + 1) == Ring(entries, head, len) + [e]
  {
    var after := entries[Slot(head, len) := e];
    forall i | 0 <= i < len ensures after[Slot(head, i)] == entries[Slot(head, i)] {
      SlotsDiffer(head, i, len);
    }
  }

  lemma RingShrinks(entries: seq<RetiredPage>, head: nat, len: nat)
    requires |entries| == TLB_RETIRE_CAPACITY && len > 0
    ensures Ring(entries, Slot(head, 1), len - 1) == Ring(entries, head, len)[1..]
  {
    var q, r := Ring(entries, head, len), Ring(entries, Slot(head, 1), len - 1);
    forall i | 0 <= i < len - 1 ensures r[i] == q[1..][i] {
      SlotMoves(head, i);
    }
  }

  class RetireRing {
    const entries: array<RetiredPage>
    var head: nat
    var len: nat
    var peak: nat

    ghost predicate Valid()
      reads this
    {
      entries.Length == TLB_RETIRE_CAPACITY && head < TLB_RETIRE_CAPACITY && len <= TLB_RETIRE_CAPACITY && len <= peak
    }

    /** The queued entries, oldest first. */
    ghost function Queue(): (q: seq<RetiredPage>)
      requires Valid()
      reads this, entries
      ensures |q| == len
    {
      Ring(entries[..], head, len)
    }

    constructor ()
      ensures Valid() && fresh(entries) && Queue() == []
    {
      entries := new RetiredPage[TLB_RETIRE_CAPACITY](_ => RetiredPage(0, 0, 0));
      head, len, peak := 0, 0, 0;
    }

    method Push(entry: RetiredPage) returns (pushed: bool)
      requires Valid()
      modifies this, entries
      ensures Valid() && pushed == (old(len) < TLB_RETIRE_CAPACITY)
      ensures Queue() == if pushed then old(Queue()) + [entry] else old(Queue())
      ensures peak == if len > old(peak) then len else old(peak)
    {
      if len == TLB_RETIRE_CAPACITY {
        return false;
      }
      RingGrows(entries[..], head, len, entry);
      entries[Slot(head, len)] := entry;
      len := len + 1;
      peak := if peak > len then peak else len;
      return true;
    }

    method Peek() returns (r: Option<RetiredPage>)
      requires Valid()
      ensures r == if |Queue()| == 0 then None else Some(Queue()[0])
    {
      r := if len != 0 then Some(entries[head]) else None;
    }

    method Pop() returns (r: Option<RetiredPage>)
      requires Valid()
      modifies this
      ensures Valid()
      ensures |old(Queue())| == 0 ==> r == None && Queue() == []
      ensures |old(Queue())| > 0 ==> r == Some(old(Queue())[0]) && Queue() == old(Queue())[1..]
    {
      r := Peek();
      if r.None? {
        return;
      }
      RingShrinks(entries[..], head, len);
      head := Slot(head, 1);
      len := len - 1;
    }
  }
}

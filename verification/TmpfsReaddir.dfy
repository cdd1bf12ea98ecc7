/** Listing a directory of the memory filesystem in batches, while it changes between them. */
module TmpfsReaddir {
  import opened TmpfsTree
  import Batches

  /** The names "." and "..", and the names of entries. */
  datatype Title = Here | Above | Named(name: Name)

  datatype Listed = Listed(title: Title, node: Id, offset: nat)

  function Dot(d: Id): Listed {
    Listed(Here, d, 1)
  }

  function DotDot(s: Nodes, d: Id): Listed {
    Listed(Above, Parent(s, d), 2)
  }

  function Stored(c: Contents, cookie: nat): Listed
    requires c.Valid() && cookie in c.cookies
  {
    Listed(Named(c.cookies[cookie]), c.entries[c.cookies[cookie]].node, cookie + 1)
  }

  /** Everything a listing that resumes at cookie `from` still has to return. */
  ghost function Listing(s: Nodes, d: Id, from: nat): seq<Listed>
    requires d in s && s[d].contents.Valid()
    decreases s[d].contents.next - from
  {
    var c := s[d].contents;
    if from == 0 then [Dot(d)] + Listing(s, d, 1)
    else if from == 1 then [DotDot(s, d)] + Listing(s, d, 2)
    else if from >= c.next then []
    else (if from in c.cookies then [Stored(c, from)] else []) + Listing(s, d, from + 1)
  }

  lemma Push(out: seq<Listed>, e: Listed, rest: seq<Listed>)
    ensures (out + [e]) + rest == out + ([e] + rest)
  {
  }

  /** The entries for the directory itself and its parent come first. */
  method Dots(s: Nodes, d: Id, cursor: nat, maximum: nat) returns (out: seq<Listed>, next: nat)
    requires d in s && s[d].contents.Valid() && maximum > 0
    ensures out + Listing(s, d, next) == Listing(s, d, cursor)
    ensures |out| <= maximum && (next < 2 ==> |out| == maximum)
    ensures next == if out == [] then cursor else out[|out| - 1].offset
  {
    out, next := [], cursor;
    if next == 0 && |out| < maximum {
      out, next := [Dot(d)], 1;
      assert out + Listing(s, d, 1) == Listing(s, d, cursor);
    }
    if next == 1 && |out| < maximum {
      Push(out, DotDot(s, d), Listing(s, d, 2));
      out, next := out + [DotDot(s, d)], 2;
    }
  }

  /** One call returns the first `maximum` of the remaining entries, and the cookie it returns leaves
      exactly the others. */
  method Readdir(s: Nodes, d: Id, cursor: nat, maximum: nat) returns (out: seq<Listed>, next: nat)
    requires d in s && s[d].contents.Valid()
    ensures Answers(s, d, cursor, maximum, out, next)
  {
    if maximum == 0 { return [], cursor; }
    out, next := Dots(s, d, cursor, maximum);
    if next >= 2 {
      out, next := ListStored(s, d, cursor, maximum, out, next);
    }
  }

  /** The stored entries follow, in the order of their cookies. */
  method ListStored(s: Nodes, d: Id, ghost cursor: nat, maximum: nat, head: seq<Listed>, from: nat)
    returns (out: seq<Listed>, next: nat)
    requires d in s && s[d].contents.Valid() && from >= 2 && |head| <= maximum
    requires head + Listing(s, d, from) == Listing(s, d, cursor)
        && from == if head == [] then cursor else head[|head| - 1].offset
    ensures Answers(s, d, cursor, maximum, out, next)
  {
    out, next := head, from;
    var c, cookie := s[d].contents, next;
    while cookie < c.next && |out| < maximum
      invariant |out| <= maximum && out + Listing(s, d, next) == Listing(s, d, cursor)
      invariant cookie >= next >= 2 && Listing(s, d, next) == Listing(s, d, cookie)
      invariant next == if out == [] then cursor else out[|out| - 1].offset
      decreases c.next - cookie
    {
      if cookie in c.cookies {
        Push(out, Stored(c, cookie), Listing(s, d, cookie + 1));
        out, next := out + [Stored(c, cookie)], cookie + 1;
      }
      cookie := cookie + 1;
    }
  }

  ghost predicate Answers(s: Nodes, d: Id, cursor: nat, maximum: nat, out: seq<Listed>, next: nat)
    requires d in s && s[d].contents.Valid()
  {
    && out + Listing(s, d, next) == Listing(s, d, cursor)
    && |out| <= maximum && (|out| < maximum ==> Listing(s, d, next) == [])
    && next == if out == [] then cursor else out[|out| - 1].offset
  }

  // ---------------------------------------------------------------- a listing in many calls

  /** One call of a listing, with the filesystem it found. */
  datatype Call = Call(s: Nodes, d: Id, cursor: nat, maximum: nat, out: seq<Listed>, next: nat) {
    ghost predicate Valid() {
      d in s && s[d].contents.Valid() && maximum > 0 && Answers(s, d, cursor, maximum, out, next)
    }
  }

  /** Each call resumes where the one before stopped; between calls anything may have changed. */
  ghost predicate Chained(calls: seq<Call>) {
    && (forall i :: 0 <= i < |calls| ==> calls[i].Valid())
    && forall i :: 0 < i < |calls| ==> calls[i].cursor == calls[i - 1].next
  }

  ghost function All(calls: seq<Call>): seq<Listed> {
    if calls == [] then [] else calls[0].out + All(calls[1..])
  }

  /** The offsets ascend from above `from`. */
  ghost predicate Ascending(l: seq<Listed>, from: nat) {
    l == [] || (l[0].offset > from && Ascending(l[1..], l[0].offset))
  }

  lemma {:induction false} AscendingOffsets(l: seq<Listed>, from: nat, i: nat, j: nat)
    requires Ascending(l, from) && i <= j < |l|
    ensures from < l[i].offset && (i < j ==> l[i].offset < l[j].offset)
  {
    if 0 < i {
      AscendingOffsets(l[1..], l[0].offset, i - 1, j - 1);
    } else if 0 < j {
      AscendingOffsets(l[1..], l[0].offset, j - 1, j - 1);
    }
  }

  ghost function End(l: seq<Listed>, from: nat): nat {
    if l == [] then from else l[|l| - 1].offset
  }

  lemma {:induction false} AscendingConcat(a: seq<Listed>, b: seq<Listed>, from: nat)
    ensures Ascending(a + b, from) <==> Ascending(a, from) && Ascending(b, End(a, from))
  {
    if a == [] {
      assert a + b == b;
    } else {
      assert (a + b)[1..] == a[1..] + b;
      AscendingConcat(a[1..], b, a[0].offset);
    }
  }

  lemma {:induction false} ListingAscends(s: Nodes, d: Id, from: nat)
    requires d in s && s[d].contents.Valid()
    ensures Ascending(Listing(s, d, from), from)
    decreases s[d].contents.next - from
  {
    if from < 2 || from < s[d].contents.next {
      ListingAscends(s, d, from + 1);
      var rest := Listing(s, d, from + 1);
      if from < 2 || from in s[d].contents.cookies {
        assert Listing(s, d, from)[1..] == rest;
      } else {
        assert Listing(s, d, from) == rest;
      }
    }
  }

  lemma {:induction false} ListingCovers(s: Nodes, d: Id, from: nat, k: nat)
    requires d in s && s[d].contents.Valid() && k in s[d].contents.cookies && from <= k
    ensures Stored(s[d].contents, k) in Listing(s, d, from)
    decreases s[d].contents.next - from
  {
    if from < k {
      ListingCovers(s, d, from + 1, k);
    }
  }

  lemma CallAscends(call: Call)
    requires call.Valid()
    ensures Ascending(call.out, call.cursor) && call.next == End(call.out, call.cursor)
  {
    ListingAscends(call.s, call.d, call.cursor);
    AscendingConcat(call.out, Listing(call.s, call.d, call.next), call.cursor);
  }

  lemma {:induction false} AllAscend(calls: seq<Call>)
    requires Chained(calls) && |calls| > 0
    ensures Ascending(All(calls), calls[0].cursor)
  {
    CallAscends(calls[0]);
    AscendingConcat(calls[0].out, All(calls[1..]), calls[0].cursor);
    if |calls| > 1 {
      AllAscend(calls[1..]);
      assert calls[1].cursor == calls[0].next;
    }
  }

  /** A call returns the entry with cookie `k`, or leaves it for the calls to come. */
  lemma CallCovers(call: Call, k: nat)
    requires call.Valid() && k in call.s[call.d].contents.cookies && call.cursor <= k
    ensures Stored(call.s[call.d].contents, k) in call.out || (call.next <= k && |call.out| == call.maximum)
  {
    var e, rest := Stored(call.s[call.d].contents, k), Listing(call.s, call.d, call.next);
    ListingCovers(call.s, call.d, call.cursor, k);
    assert e in call.out + rest;
    if e in rest {
      ListingAscends(call.s, call.d, call.next);
      var i :| 0 <= i < |rest| && rest[i] == e;
      AscendingOffsets(rest, call.next, i, i);
    }
  }

  lemma {:induction false} SomeCallCovers(calls: seq<Call>, k: nat) returns (i: nat)
    requires Chained(calls) && |calls| > 0 && calls[0].cursor <= k
    requires forall i :: 0 <= i < |calls| ==> k in calls[i].s[calls[i].d].contents.cookies
    requires |calls[|calls| - 1].out| < calls[|calls| - 1].maximum
    ensures i < |All(calls)| && All(calls)[i].offset == k + 1
  {
    CallCovers(calls[0], k);
    var e := Stored(calls[0].s[calls[0].d].contents, k);
    if e in calls[0].out {
      i :| 0 <= i < |calls[0].out| && calls[0].out[i] == e;
    } else {
      assert calls[1].cursor == calls[0].next;
      i := SomeCallCovers(calls[1..], k);
      i := i + |calls[0].out|;
    }
  }

  /** A listing that ran to its end returned the entry with cookie `k` exactly once, if the directory held
      one at each call, whatever happened to the rest of the filesystem and to the entry's name. */
  lemma ListedExactlyOnce(calls: seq<Call>, k: nat)
    requires Chained(calls) && |calls| > 0 && calls[0].cursor <= k
    requires forall i :: 0 <= i < |calls| ==> k in calls[i].s[calls[i].d].contents.cookies
    requires |calls[|calls| - 1].out| < calls[|calls| - 1].maximum
    ensures exists i :: 0 <= i < |All(calls)| && All(calls)[i].offset == k + 1 &&
              forall j :: 0 <= j < |All(calls)| && All(calls)[j].offset == k + 1 ==> j == i
  {
    var i := SomeCallCovers(calls, k);
    AllAscend(calls);
    forall j | 0 <= j < |All(calls)| && All(calls)[j].offset == k + 1 ensures j == i {
      AscendingOffsets(All(calls), calls[0].cursor, if i <= j then i else j, if i <= j then j else i);
    }
  }

  /** Without changes in between, the batches make up the listing that one call would have returned. */
  lemma BatchesMakeListing(s: Nodes, d: Id, calls: seq<Batches.Call<Listed>>)
    requires d in s && s[d].contents.Valid() && |calls| > 0
    requires forall i :: 0 <= i < |calls| ==>
              calls[i].maximum > 0 && Answers(s, d, calls[i].cursor, calls[i].maximum, calls[i].out, calls[i].next)
    requires forall i :: 0 < i < |calls| ==> calls[i].cursor == calls[i - 1].next
    requires |calls[|calls| - 1].out| < calls[|calls| - 1].maximum
    ensures Batches.All(calls) == Listing(s, d, calls[0].cursor)
  {
    var rest := (k: nat) => Listing(s, d, k);
    Batches.BatchesMakeListing(rest, calls);
  }
}

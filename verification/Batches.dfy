/** Listings that are fetched in batches and resumed from the cookie the last batch returned. */
module Batches {

  /** One call: where it resumed, how much it may return, what it returned and where to resume next. */
  datatype Call<T> = Call(cursor: nat, maximum: nat, out: seq<T>, next: nat)

  /** The call returned the first entries of what was left, and its cookie leaves exactly the others. */
  ghost predicate Served<T>(rest: nat -> seq<T>, c: Call<T>) {
    && c.out + rest(c.next) == rest(c.cursor)
    && |c.out| <= c.maximum && (|c.out| < c.maximum ==> rest(c.next) == [])
  }

  ghost predicate Chained<T(!new)>(rest: nat -> seq<T>, calls: seq<Call<T>>) {
    && (forall i :: 0 <= i < |calls| ==> Served(rest, calls[i]) && calls[i].maximum > 0)
    && forall i :: 0 < i < |calls| ==> calls[i].cursor == calls[i - 1].next
  }

  ghost function All<T>(calls: seq<Call<T>>): seq<T> {
    if calls == [] then [] else calls[0].out + All(calls[1..])
  }

  /** The batches of a listing that ran to its end make up the listing one large call would return. */
  lemma {:induction false} BatchesMakeListing<T(!new)>(rest: nat -> seq<T>, calls: seq<Call<T>>)
    requires Chained(rest, calls) && |calls| > 0
    requires |calls[|calls| - 1].out| < calls[|calls| - 1].maximum
    ensures All(calls) == rest(calls[0].cursor)
  {
    assert Served(rest, calls[0]);
    if |calls| == 1 {
      assert All(calls[1..]) == [];
    } else {
      BatchesMakeListing(rest, calls[1..]);
      assert calls[1].cursor == calls[0].next;
    }
  }
}

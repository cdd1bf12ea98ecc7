/** Sorting by a key. */
module Sorting {

  ghost predicate SortedBy<T(!new)>(key: T -> nat, s: seq<T>) {
    forall i, j :: 0 <= i < j < |s| ==> key(s[i]) <= key(s[j])
  }

  method Insert<T(!new, ==)>(key: T -> nat, s: seq<T>, x: T) returns (r: seq<T>)
    requires SortedBy(key, s)
    ensures SortedBy(key, r) && multiset(r) == multiset(s) + multiset{x}
  {
    var i := |s|;
    while i > 0 && key(x) < key(s[i - 1])
      invariant 0 <= i <= |s| && forall j :: i <= j < |s| ==> key(x) < key(s[j])
    {
      i := i - 1;
    }
    r := s[..i] + [x] + s[i..];
    InsertedSorted(key, s, x, i, r);
    InsertedSame(s, x, i);
  }

  lemma InsertedSame<T>(s: seq<T>, x: T, i: nat)
    requires i <= |s|
    ensures multiset(s[..i] + [x] + s[i..]) == multiset(s) + multiset{x}
  {
    assert s == s[..i] + s[i..];
  }

  lemma InsertedSorted<T(!new)>(key: T -> nat, s: seq<T>, x: T, i: nat, r: seq<T>)
    requires SortedBy(key, s) && i <= |s| && r == s[..i] + [x] + s[i..]
    requires (i > 0 ==> key(s[i - 1]) <= key(x)) && forall j :: i <= j < |s| ==> key(x) < key(s[j])
    ensures SortedBy(key, r)
  {
    assert forall j :: 0 <= j < i ==> r[j] == s[j] && key(s[j]) <= key(x);
    assert forall j :: i < j < |r| ==> r[j] == s[j - 1];
  }

  /** The same elements, in the order of their keys. */
  method Sort<T(!new, ==)>(key: T -> nat, s: seq<T>) returns (r: seq<T>)
    ensures SortedBy(key, r) && multiset(r) == multiset(s)
  {
    r := [];
    for i := 0 to |s|
      invariant SortedBy(key, r) && multiset(r) == multiset(s[..i])
    {
      r := Insert(key, r, s[i]);
      assert s[..i + 1] == s[..i] + [s[i]];
    }
    assert s[..|s|] == s;
  }

  lemma SameFirst<T(!new)>(key: T -> nat, s: seq<T>, t: seq<T>)
    requires SortedBy(key, s) && multiset(s) == multiset(t) && |s| > 0 && |t| > 0
    requires forall i :: 0 < i < |t| ==> key(t[0]) < key(t[i])
    ensures s[0] == t[0]
  {
    assert s[0] in multiset(t) && t[0] in multiset(s);
    var i :| 0 <= i < |t| && t[i] == s[0];
    var j :| 0 <= j < |s| && s[j] == t[0];
    assert j > 0 ==> key(s[0]) <= key(s[j]);
  }

  /** An arrangement with ascending keys is the only sorted one. */
  lemma {:induction false} SortedIsUnique<T(!new)>(key: T -> nat, s: seq<T>, t: seq<T>)
    requires SortedBy(key, s) && multiset(s) == multiset(t)
    requires forall i, j :: 0 <= i < j < |t| ==> key(t[i]) < key(t[j])
    ensures s == t
  {
    assert |multiset(s)| == |s| && |multiset(t)| == |t|;
    if s != [] {
      SameFirst(key, s, t);
      WithoutFirst(s);
      WithoutFirst(t);
      SortedIsUnique(key, s[1..], t[1..]);
      assert s == [s[0]] + s[1..] && t == [t[0]] + t[1..];
    }
  }

  lemma WithoutFirst<T>(s: seq<T>)
    requires s != []
    ensures multiset(s[1..]) == multiset(s) - multiset{s[0]}
  {
    assert s == [s[0]] + s[1..];
  }
}

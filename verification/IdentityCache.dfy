/** The weak identity index: openers of one key share one object, and dead entries are swept now and then.

    Each step is one section under the index's lock, the construction of an object outside it, or the
    end of an object's life. */
module IdentityCache {
  import opened Common

  const MIN_INTERVAL: nat := 64

  type Key = int
  type Object = int

  datatype Opener = Creating(key: Key) | Holding(key: Key, candidate: Object)

  /** An entry does not keep its object alive.  `handed` records which objects were handed out for which
      keys, `published` and `scanned` count publications and the entries all sweeps looked at.  The last
      sweep left at most `base` entries, counting the one it made room for, and set the countdown to
      `interval`. */
  datatype State = State(
    objects: map<Key, Object>,
    untilSweep: int,
    alive: set<Object>,
    born: set<Object>,
    openers: map<int, Opener>,
    handed: set<(Key, Object)>,
    published: nat,
    scanned: nat,
    base: nat,
    interval: nat)
  {
    /** The entry of a key, if its object is still alive. */
    function Upgrade(key: Key): Option<Object> {
      if key in objects && objects[key] in alive then Some(objects[key]) else None
    }
  }

  ghost function Survivors(s: State): map<Key, Object> {
    map k | k in s.objects && s.objects[k] in s.alive :: s.objects[k]
  }

  // ---------------------------------------------------------------- steps

  /** The first look: a hit returns the object. */
  ghost predicate Begin(s: State, t: State, k: int, key: Key) {
    && k !in s.openers
    && t == match s.Upgrade(key)
            case Some(o) => s.(handed := s.handed + {(key, o)})
            case None => s.(openers := s.openers[k := Creating(key)])
  }

  ghost predicate Create(s: State, t: State, k: int, o: Object) {
    && k in s.openers && s.openers[k].Creating? && o !in s.born
    && t == s.(openers := s.openers[k := Holding(s.openers[k].key, o)], alive := s.alive + {o}, born := s.born + {o})
  }

  ghost predicate Fail(s: State, t: State, k: int) {
    k in s.openers && s.openers[k].Creating? && t == s.(openers := s.openers - {k})
  }

  /** The second look finds that another opener was faster; the candidate is dropped. */
  ghost predicate Yield(s: State, t: State, k: int) {
    && k in s.openers && s.openers[k].Holding? && s.Upgrade(s.openers[k].key).Some?
    && var key := s.openers[k].key;
    && t == s.(openers := s.openers - {k}, alive := s.alive - {s.openers[k].candidate},
        handed := s.handed + {(key, s.Upgrade(key).value)})
  }

  /** Publishes the candidate, after a sweep if the countdown is over. */
  ghost predicate Publish(s: State, t: State, k: int) {
    && k in s.openers && s.openers[k].Holding? && s.Upgrade(s.openers[k].key) == None
    && var key, o := s.openers[k].key, s.openers[k].candidate;
    && var sweep, kept := s.untilSweep - 1 == 0, if s.untilSweep - 1 == 0 then Survivors(s) else s.objects;
    && var next := if |kept| > MIN_INTERVAL then |kept| else MIN_INTERVAL;
    && t == s.(openers := s.openers - {k}, handed := s.handed + {(key, o)}, published := s.published + 1,
               objects := kept[key := o],
               untilSweep := if sweep then next else s.untilSweep - 1,
               scanned := if sweep then s.scanned + |s.objects| else s.scanned,
               base := if sweep then |kept| + 1 else s.base,
               interval := if sweep then next else s.interval)
  }

  /** The last holder of an object lets go; an opener still holds its candidate. */
  ghost predicate Drop(s: State, t: State, o: Object) {
    && o in s.alive && (forall k :: k in s.openers && s.openers[k].Holding? ==> s.openers[k].candidate != o)
    && t == s.(alive := s.alive - {o})
  }

  ghost predicate Next(s: State, t: State) {
    || (exists k, key :: Begin(s, t, k, key))
    || (exists k, o :: Create(s, t, k, o))
    || (exists k :: Fail(s, t, k) || Yield(s, t, k) || Publish(s, t, k))
    || (exists o :: Drop(s, t, o))
  }

  // ---------------------------------------------------------------- invariants

  /** An object handed out for a key and still alive is the key's entry. */
  ghost predicate HandedOk(s: State, key: Key, o: Object) {
    (key, o) in s.handed ==> o in s.born && (o in s.alive ==> s.Upgrade(key) == Some(o))
  }

  /** A candidate was not handed out, is no entry and is nobody else's candidate. */
  ghost predicate CandidateOk(s: State, k: int) {
    k in s.openers && s.openers[k].Holding? ==>
      var c := s.openers[k].candidate;
      && c in s.alive
      && (forall key :: (key, c) !in s.handed)
      && (forall key :: key in s.objects ==> s.objects[key] != c)
      && (forall j :: j in s.openers && s.openers[j].Holding? && s.openers[j].candidate == c ==> j == k)
  }

  ghost predicate CountsOk(s: State) {
    && 0 < s.untilSweep <= s.interval && s.base <= s.interval + 1
    && |s.objects| <= s.base + (s.interval - s.untilSweep)
    && s.interval - s.untilSweep <= s.published
    && s.scanned <= 2 * (s.published - (s.interval - s.untilSweep))
  }

  ghost predicate Inv(s: State) {
    && s.alive <= s.born && s.objects.Values <= s.born && CountsOk(s)
    && (forall key, o :: HandedOk(s, key, o))
    && forall k :: CandidateOk(s, k)
  }

  lemma SurvivorsFewer(s: State)
    ensures |Survivors(s)| <= |s.objects|
  {
    SubsetSize(Survivors(s).Keys, s.objects.Keys);
    assert |Survivors(s).Keys| == |Survivors(s)| && |s.objects.Keys| == |s.objects|;
  }

  lemma InsertSize(m: map<Key, Object>, key: Key, o: Object)
    ensures |m[key := o]| <= |m| + 1
  {
    var n := m[key := o];
    assert n.Keys == m.Keys + {key};
    assert |n.Keys| == |n| && |m.Keys| == |m|;
  }

  lemma PublishCounts(s: State, t: State, k: int)
    requires CountsOk(s) && Publish(s, t, k)
    ensures CountsOk(t)
  {
    var key, o := s.openers[k].key, s.openers[k].candidate;
    if s.untilSweep == 1 {
      SurvivorsFewer(s);
      InsertSize(Survivors(s), key, o);
    } else {
      InsertSize(s.objects, key, o);
    }
  }

  lemma PublishKeeps(s: State, t: State, k: int)
    requires Inv(s) && Publish(s, t, k)
    ensures Inv(t)
  {
    PublishCounts(s, t, k);
    assert CandidateOk(s, k);
    forall key, o ensures HandedOk(t, key, o) {
      assert HandedOk(s, key, o);
    }
    forall j ensures CandidateOk(t, j) {
      assert CandidateOk(s, j);
    }
  }

  lemma BeginKeeps(s: State, t: State, k: int, key: Key)
    requires Inv(s) && Begin(s, t, k, key)
    ensures Inv(t)
  {
    forall e, o ensures HandedOk(t, e, o) {
      assert HandedOk(s, e, o);
    }
    forall j ensures CandidateOk(t, j) {
      assert CandidateOk(s, j);
    }
  }

  lemma CreateKeeps(s: State, t: State, k: int, o: Object)
    requires Inv(s) && Create(s, t, k, o)
    ensures Inv(t)
  {
    forall i | i in s.openers && s.openers[i].Holding? ensures s.openers[i].candidate != o {
      assert CandidateOk(s, i);
    }
    forall e, x ensures HandedOk(t, e, x) {
      assert HandedOk(s, e, x);
      assert e in s.objects ==> s.objects[e] in s.objects.Values;
    }
    forall j ensures CandidateOk(t, j) {
      assert CandidateOk(s, j);
      assert forall e :: e in s.objects ==> s.objects[e] in s.objects.Values;
      assert forall e :: (e, o) in s.handed ==> HandedOk(s, e, o);
    }
  }

  lemma FailKeeps(s: State, t: State, k: int)
    requires Inv(s) && Fail(s, t, k)
    ensures Inv(t)
  {
    forall e, o ensures HandedOk(t, e, o) {
      assert HandedOk(s, e, o);
    }
    forall j ensures CandidateOk(t, j) {
      assert CandidateOk(s, j);
    }
  }

  lemma YieldKeeps(s: State, t: State, k: int)
    requires Inv(s) && Yield(s, t, k)
    ensures Inv(t)
  {
    assert CandidateOk(s, k);
    forall key, o ensures HandedOk(t, key, o) {
      assert HandedOk(s, key, o);
    }
    forall j ensures CandidateOk(t, j) {
      assert CandidateOk(s, j);
    }
  }

  lemma DropKeeps(s: State, t: State, o: Object)
    requires Inv(s) && Drop(s, t, o)
    ensures Inv(t)
  {
    forall key, o ensures HandedOk(t, key, o) {
      assert HandedOk(s, key, o);
    }
    forall j ensures CandidateOk(t, j) {
      assert CandidateOk(s, j);
    }
  }

  // ---------------------------------------------------------------- every run

  ghost predicate Init(s: State) {
    s == State(map[], MIN_INTERVAL, {}, {}, map[], {}, 0, 0, 0, MIN_INTERVAL)
  }

  ghost predicate Run(run: seq<State>) {
    && |run| > 0 && Init(run[0])
    && forall i :: 0 <= i < |run| - 1 ==> Next(run[i], run[i + 1])
  }

  lemma NextKeeps(s: State, t: State)
    requires Inv(s) && Next(s, t)
    ensures Inv(t)
  {
    if k :| Publish(s, t, k) {
      PublishKeeps(s, t, k);
    } else if k :| Yield(s, t, k) {
      YieldKeeps(s, t, k);
    } else if o :| Drop(s, t, o) {
      DropKeeps(s, t, o);
    } else if k, key :| Begin(s, t, k, key) {
      BeginKeeps(s, t, k, key);
    } else if k, o :| Create(s, t, k, o) {
      CreateKeeps(s, t, k, o);
    } else {
      var k :| Fail(s, t, k);
      FailKeeps(s, t, k);
    }
  }

  lemma {:induction false} RunsKeep(run: seq<State>, i: nat)
    requires Run(run) && i < |run|
    ensures Inv(run[i])
  {
    if i > 0 {
      RunsKeep(run, i - 1);
      NextKeeps(run[i - 1], run[i]);
    }
  }

  /** Two live objects handed out for one key, at whatever times, are the same object. */
  lemma OneObjectPerKey(run: seq<State>, i: nat, key: Key, a: Object, b: Object)
    requires Run(run) && i < |run| && (key, a) in run[i].handed && (key, b) in run[i].handed
    requires a in run[i].alive && b in run[i].alive
    ensures a == b
  {
    RunsKeep(run, i);
    assert HandedOk(run[i], key, a) && HandedOk(run[i], key, b);
  }

  /** All sweeps together look at no more than two entries per publication. */
  lemma SweepsAmortize(run: seq<State>, i: nat)
    requires Run(run) && i < |run|
    ensures run[i].scanned <= 2 * run[i].published
  {
    RunsKeep(run, i);
  }
}

/** One interrupt line: dispatches on any number of processors, requests and releases of handlers, and the
    worker threads of threaded handlers, interleaved one atomic instruction or one lock section at a time. */
module Irq {
  import opened Common

  type Action = int
  type Cpu = int

  /** A dispatch counts itself in before it takes the handler list, and out after the last handler. */
  datatype Dispatch =
    | Counted
    | Running(list: set<Action>, inside: Option<Action>, waking: Option<Action>)
    | Leaving(waking: Option<Action>)

  /** The phases of `request` and `release`; both read the list and replace it in two lock sections. */
  datatype Phase =
    | Adding(list: set<Action>)
    | Published
    | Marked
    | Started
    | Removing(list: set<Action>)
    | Draining
    | Stopping
    | Waking
    | Waiting

  datatype Caller = Caller(action: Action, thread: bool, phase: Phase)

  datatype Worker = Sleeping | Woken | Reset | InThread | Exiting | Exited

  ghost function CountedIn(m: map<Cpu, Dispatch>): set<Cpu> {
    set c | c in m && !m[c].Leaving?
  }

  /** `requested`, `removed`, `drained` and `released` record how far each action has come. */
  datatype State = State(
    actions: set<Action>,
    inFlight: int,
    dispatches: map<Cpu, Dispatch>,
    registration: Option<int>,
    callers: map<int, Caller>,
    workers: map<Action, Worker>,
    threaded: set<Action>,
    stopping: set<Action>,
    wake: set<Action>,
    finished: set<Action>,
    known: set<Action>,
    requested: set<Action>,
    removed: set<Action>,
    drained: set<Action>,
    released: set<Action>)
  {
    /** The dispatches that have counted themselves in and not yet out. */
    ghost function Counting(): set<Cpu> {
      CountedIn(dispatches)
    }

    /** The dispatch on `c` is inside the handler of `a`, or will still call it. */
    predicate CanReach(c: Cpu, a: Action) {
      c in dispatches && dispatches[c].Running? && (a in dispatches[c].list || dispatches[c].inside == Some(a))
    }
  }

  // ---------------------------------------------------------------- dispatch

  ghost predicate CountIn(s: State, t: State, c: Cpu) {
    c !in s.dispatches && t == s.(inFlight := s.inFlight + 1, dispatches := s.dispatches[c := Counted])
  }

  ghost predicate TakeList(s: State, t: State, c: Cpu) {
    c in s.dispatches && s.dispatches[c].Counted?
        && t == s.(dispatches := s.dispatches[c := Running(s.actions, None, None)])
  }

  ghost predicate EnterHandler(s: State, t: State, c: Cpu, a: Action) {
    && c in s.dispatches && s.dispatches[c].Running?
    && var d := s.dispatches[c];
    && d.inside == None && a in d.list
    && t == s.(dispatches := s.dispatches[c := Running(d.list - {a}, Some(a), d.waking)])
  }

  ghost predicate LeaveHandler(s: State, t: State, c: Cpu, wakes: bool) {
    && c in s.dispatches && s.dispatches[c].Running?
    && var d := s.dispatches[c];
    && d.inside.Some?
    && t == s.(dispatches := s.dispatches[c := Running(d.list, None, if wakes then d.inside else d.waking)])
  }

  ghost predicate CountOut(s: State, t: State, c: Cpu) {
    && c in s.dispatches && s.dispatches[c].Running?
    && var d := s.dispatches[c];
    && d.list == {} && d.inside == None
    && t == s.(inFlight := s.inFlight - 1, dispatches := s.dispatches[c := Leaving(d.waking)])
  }

  ghost predicate FinishDispatch(s: State, t: State, c: Cpu) {
    && c in s.dispatches && s.dispatches[c].Leaving?
    && var w := s.dispatches[c].waking;
    && t == s.(dispatches := s.dispatches - {c}, wake := if w.Some? then s.wake + {w.value} else s.wake)
  }

  // ---------------------------------------------------------------- request

  ghost predicate BeginRequest(s: State, t: State, k: int, a: Action, thread: bool) {
    && k !in s.callers && s.registration == None && a !in s.known
    && t == s.(registration := Some(k), known := s.known + {a},
        callers := s.callers[k := Caller(a, thread, Adding(s.actions))])
  }

  /** The line is busy. */
  ghost predicate RefuseRequest(s: State, t: State, k: int) {
    && k in s.callers && s.callers[k].phase.Adding?
    && t == s.(registration := None, callers := s.callers - {k})
  }

  ghost predicate Publish(s: State, t: State, k: int) {
    && k in s.callers && s.callers[k].phase.Adding?
    && t == s.(actions := s.callers[k].phase.list + {s.callers[k].action},
        callers := s.callers[k := s.callers[k].(phase := Published)])
  }

  ghost predicate MarkThreaded(s: State, t: State, k: int) {
    && k in s.callers && s.callers[k].phase.Published? && s.callers[k].thread
    && t == s.(threaded := s.threaded + {s.callers[k].action},
        callers := s.callers[k := s.callers[k].(phase := Marked)])
  }

  /** The worker may run before the request returns. */
  ghost predicate StartWorker(s: State, t: State, k: int) {
    && k in s.callers && s.callers[k].phase.Marked?
    && t == s.(workers := s.workers[s.callers[k].action := Sleeping],
        callers := s.callers[k := s.callers[k].(phase := Started)])
  }

  ghost predicate ReturnRequest(s: State, t: State, k: int) {
    && k in s.callers && (s.callers[k].phase.Started? || (s.callers[k].phase.Published? && !s.callers[k].thread))
    && t == s.(registration := None, requested := s.requested + {s.callers[k].action}, callers := s.callers - {k})
  }

  // ---------------------------------------------------------------- release

  /** An action is released after its request returned. */
  ghost predicate BeginRelease(s: State, t: State, k: int, a: Action) {
    && k !in s.callers && s.registration == None && a in s.requested
    && t == s.(registration := Some(k), callers := s.callers[k := Caller(a, false, Removing(s.actions))])
  }

  ghost predicate Unpublish(s: State, t: State, k: int) {
    && k in s.callers && s.callers[k].phase.Removing?
    && var a := s.callers[k].action;
    && t == s.(registration := None, actions := s.callers[k].phase.list - {a}, removed := s.removed + {a},
               callers := s.callers[k := s.callers[k].(phase := Draining)])
  }

  ghost predicate Drain(s: State, t: State, k: int) {
    && k in s.callers && s.callers[k].phase.Draining? && s.inFlight == 0
    && t == s.(drained := s.drained + {s.callers[k].action},
        callers := s.callers[k := s.callers[k].(phase := Stopping)])
  }

  ghost predicate Stop(s: State, t: State, k: int) {
    && k in s.callers && s.callers[k].phase.Stopping? && s.callers[k].action in s.threaded
    && t == s.(stopping := s.stopping + {s.callers[k].action},
        callers := s.callers[k := s.callers[k].(phase := Waking)])
  }

  ghost predicate SignalWorker(s: State, t: State, k: int) {
    && k in s.callers && s.callers[k].phase.Waking?
    && t == s.(wake := s.wake + {s.callers[k].action}, callers := s.callers[k := s.callers[k].(phase := Waiting)])
  }

  ghost predicate ReturnRelease(s: State, t: State, k: int) {
    && k in s.callers
    && var a := s.callers[k].action;
    && ((s.callers[k].phase.Stopping? && a !in s.threaded) || (s.callers[k].phase.Waiting? && a in s.finished))
    && t == s.(released := s.released + {a}, callers := s.callers - {k})
  }

  // ---------------------------------------------------------------- worker threads

  ghost predicate WorkerStep(s: State, t: State, a: Action) {
    && a in s.workers
    && match s.workers[a]
       case Sleeping => a in s.wake && t == s.(workers := s.workers[a := Woken])
       case Woken => t == s.(wake := s.wake - {a}, workers := s.workers[a := Reset])
       case Reset => t == s.(workers := s.workers[a := if a in s.stopping then Exiting else InThread])
       case InThread => t == s.(workers := s.workers[a := Sleeping])
       case Exiting => t == s.(finished := s.finished + {a}, workers := s.workers[a := Exited])
       case Exited => false
  }

  ghost predicate DispatchStep(s: State, t: State, c: Cpu) {
    || CountIn(s, t, c) || TakeList(s, t, c) || (exists a :: EnterHandler(s, t, c, a))
    || (exists wakes :: LeaveHandler(s, t, c, wakes))
    || CountOut(s, t, c) || FinishDispatch(s, t, c)
  }

  ghost predicate RequestStep(s: State, t: State, k: int) {
    || (exists a, thread :: BeginRequest(s, t, k, a, thread)) || RefuseRequest(s, t, k) || Publish(s, t, k)
    || MarkThreaded(s, t, k) || StartWorker(s, t, k) || ReturnRequest(s, t, k)
  }

  ghost predicate ReleaseStep(s: State, t: State, k: int) {
    || (exists a :: BeginRelease(s, t, k, a)) || Unpublish(s, t, k) || Drain(s, t, k) || Stop(s, t, k)
    || SignalWorker(s, t, k) || ReturnRelease(s, t, k)
  }

  ghost predicate Next(s: State, t: State) {
    || (exists c :: DispatchStep(s, t, c))
    || (exists k :: RequestStep(s, t, k))
    || (exists k :: ReleaseStep(s, t, k))
    || (exists a :: WorkerStep(s, t, a))
  }

  // ---------------------------------------------------------------- invariants

  ghost predicate CallerOk(s: State, k: int) {
    k in s.callers ==>
      var c := s.callers[k];
      && c.action in s.known
      && match c.phase
         case Adding(list) => s.registration == Some(k) && list == s.actions && c.action !in s.requested
             && c.action !in s.threaded
         case Published => s.registration == Some(k) && c.action !in s.requested && c.action !in s.threaded
         case Marked => && s.registration == Some(k) && c.action !in s.requested && c.thread
                        && c.action in s.threaded && c.action !in s.workers
         case Started => s.registration == Some(k) && c.action !in s.requested && c.thread && c.action in s.threaded
         case Removing(list) => s.registration == Some(k) && list == s.actions && c.action in s.requested
         case Draining => c.action in s.requested && c.action in s.removed
         case _ => c.action in s.requested && c.action in s.drained
  }

  /** Where an action stands on its way from request to release. */
  ghost predicate ActionOk(s: State, a: Action) {
    && (a in s.requested ==> a in s.known)
    && (a in s.removed ==> a in s.requested && a !in s.actions)
    && (a in s.drained ==> a in s.removed)
    && (a in s.released ==> a in s.drained && (a in s.threaded ==> a in s.finished))
    && (a in s.workers ==> a in s.threaded)
    && (a in s.finished <==> a in s.workers && s.workers[a] == Exited)
    && (a in s.actions || a in s.threaded ==> a in s.known)
  }

  /** Once drained, no dispatch can reach the handler. */
  ghost predicate Unreachable(s: State, c: Cpu, a: Action) {
    a in s.drained ==> !s.CanReach(c, a)
  }

  ghost predicate Inv(s: State) {
    && s.inFlight == |s.Counting()|
    && (forall k :: CallerOk(s, k))
    && (forall a :: ActionOk(s, a))
    && (forall c, a :: Unreachable(s, c, a))
  }

  /** Dispatches only change the counter, their own state and wake events. */
  lemma DispatchStepKeeps(s: State, t: State, c: Cpu)
    requires Inv(s) && DispatchStep(s, t, c)
    ensures Inv(t)
  {
    DispatchCounts(s, t, c);
    DispatchFrame(s, t, c);
    forall k ensures CallerOk(t, k) {
      assert CallerOk(s, k);
    }
    forall a ensures ActionOk(t, a) {
      assert ActionOk(s, a);
    }
    forall d, a ensures Unreachable(t, d, a) {
      assert Unreachable(s, d, a) && ActionOk(s, a);
    }
  }

  /** A dispatch can reach no more than before, or what the published list has. */
  lemma DispatchFrame(s: State, t: State, c: Cpu)
    requires DispatchStep(s, t, c)
    ensures t == s.(inFlight := t.inFlight, dispatches := t.dispatches, wake := t.wake)
    ensures forall d, a :: t.CanReach(d, a) ==> s.CanReach(d, a) || a in s.actions
  {
  }

  lemma CountedSet(m: map<Cpu, Dispatch>, c: Cpu, d: Dispatch)
    ensures CountedIn(m[c := d]) == if d.Leaving? then CountedIn(m) - {c} else CountedIn(m) + {c}
    ensures CountedIn(m - {c}) == CountedIn(m) - {c}
    ensures c in CountedIn(m) <==> c in m && !m[c].Leaving?
  {
  }

  lemma CountedSize(m: map<Cpu, Dispatch>, c: Cpu, d: Dispatch)
    ensures var n := |CountedIn(m)| - if c in m && !m[c].Leaving? then 1 else 0;
            |CountedIn(m[c := d])| == n + (if d.Leaving? then 0 else 1) && |CountedIn(m - {c})| == n
  {
    CountedSet(m, c, d);
    var a := CountedIn(m);
    assert c in a ==> a + {c} == a;
    assert c !in a ==> a - {c} == a;
  }

  lemma DispatchCounts(s: State, t: State, c: Cpu)
    requires s.inFlight == |s.Counting()| && DispatchStep(s, t, c)
    ensures t.inFlight == |t.Counting()|
  {
    CountedSize(s.dispatches, c, if c in t.dispatches then t.dispatches[c] else Counted);
    if CountIn(s, t, c) {
    } else if TakeList(s, t, c) {
    } else if CountOut(s, t, c) {
    } else if FinishDispatch(s, t, c) {
    } else if a :| EnterHandler(s, t, c, a) {
    } else {
      var wakes :| LeaveHandler(s, t, c, wakes);
    }
  }

  /** A step that leaves the dispatches alone and drains nothing. */
  lemma QuietKeeps(s: State, t: State)
    requires Inv(s) && t.dispatches == s.dispatches && t.inFlight == s.inFlight && t.drained == s.drained
    requires (forall k :: CallerOk(t, k)) && forall a :: ActionOk(t, a)
    ensures Inv(t)
  {
    assert t.Counting() == s.Counting();
    forall c, a ensures Unreachable(t, c, a) {
      assert Unreachable(s, c, a);
    }
  }

  lemma BeginStepKeeps(s: State, t: State, k: int)
    requires Inv(s) && ((exists a, thread :: BeginRequest(s, t, k, a, thread)) || RefuseRequest(s, t, k))
    ensures Inv(t)
  {
    assert CallerOk(s, k);
    forall j ensures CallerOk(t, j) {
      assert CallerOk(s, j);
      assert j in t.callers ==> ActionOk(s, t.callers[j].action);
    }
    forall a ensures ActionOk(t, a) {
      assert ActionOk(s, a);
    }
    QuietKeeps(s, t);
  }

  lemma PublishStepKeeps(s: State, t: State, k: int)
    requires Inv(s) && (Publish(s, t, k) || MarkThreaded(s, t, k) || StartWorker(s, t, k) || ReturnRequest(s, t, k))
    ensures Inv(t)
  {
    assert CallerOk(s, k);
    forall j ensures CallerOk(t, j) {
      assert CallerOk(s, j) && (j in s.callers ==> ActionOk(s, s.callers[j].action));
    }
    forall a ensures ActionOk(t, a) {
      assert ActionOk(s, a);
    }
    QuietKeeps(s, t);
  }

  lemma StopStepKeeps(s: State, t: State, k: int)
    requires Inv(s) && (Stop(s, t, k) || SignalWorker(s, t, k) || ReturnRelease(s, t, k))
    ensures Inv(t)
  {
    assert CallerOk(s, k);
    forall j ensures CallerOk(t, j) {
      assert CallerOk(s, j);
    }
    forall a ensures ActionOk(t, a) {
      assert ActionOk(s, a);
    }
    QuietKeeps(s, t);
  }

  lemma ListStepKeeps(s: State, t: State, k: int)
    requires Inv(s) && ((exists a :: BeginRelease(s, t, k, a)) || Unpublish(s, t, k))
    ensures Inv(t)
  {
    assert CallerOk(s, k);
    forall j ensures CallerOk(t, j) {
      assert CallerOk(s, j);
      assert j in t.callers ==> ActionOk(s, t.callers[j].action);
    }
    forall a ensures ActionOk(t, a) {
      assert ActionOk(s, a);
    }
    QuietKeeps(s, t);
  }

  lemma DrainKeeps(s: State, t: State, k: int)
    requires Inv(s) && Drain(s, t, k)
    ensures Inv(t)
  {
    assert CallerOk(s, k);
    assert t.Counting() == s.Counting();
    forall j ensures CallerOk(t, j) {
      assert CallerOk(s, j);
    }
    forall a ensures ActionOk(t, a) {
      assert ActionOk(s, a);
    }
    forall c, a ensures Unreachable(t, c, a) {
      if c in s.dispatches {
        NoneCounting(s, c);
      }
    }
  }

  lemma NoneCounting(s: State, c: Cpu)
    requires s.inFlight == |s.Counting()| == 0 && c in s.dispatches
    ensures s.dispatches[c].Leaving?
  {
    assert c in s.Counting() ==> |s.Counting()| > 0;
  }

  lemma WorkerStepKeeps(s: State, t: State, a: Action)
    requires Inv(s) && WorkerStep(s, t, a)
    ensures Inv(t)
  {
    forall k ensures CallerOk(t, k) {
      assert CallerOk(s, k);
    }
    forall b ensures ActionOk(t, b) {
      assert ActionOk(s, b);
    }
    QuietKeeps(s, t);
  }

  // ---------------------------------------------------------------- every run

  ghost predicate Init(s: State) {
    s == State({}, 0, map[], None, map[], map[], {}, {}, {}, {}, {}, {}, {}, {}, {})
  }

  ghost predicate Run(run: seq<State>) {
    && |run| > 0 && Init(run[0])
    && forall i :: 0 <= i < |run| - 1 ==> Next(run[i], run[i + 1])
  }

  lemma NextKeeps(s: State, t: State)
    requires Inv(s) && Next(s, t)
    ensures Inv(t)
  {
    if c :| DispatchStep(s, t, c) {
      DispatchStepKeeps(s, t, c);
    } else if k :| RequestStep(s, t, k) {
      if Publish(s, t, k) || MarkThreaded(s, t, k) || StartWorker(s, t, k) || ReturnRequest(s, t, k) {
        PublishStepKeeps(s, t, k);
      } else {
        BeginStepKeeps(s, t, k);
      }
    } else if k :| ReleaseStep(s, t, k) {
      if Drain(s, t, k) {
        DrainKeeps(s, t, k);
      } else if Stop(s, t, k) || SignalWorker(s, t, k) || ReturnRelease(s, t, k) {
        StopStepKeeps(s, t, k);
      } else {
        ListStepKeeps(s, t, k);
      }
    } else {
      var a :| WorkerStep(s, t, a);
      WorkerStepKeeps(s, t, a);
    }
  }

  lemma {:induction false} RunsKeep(run: seq<State>, i: nat)
    requires Run(run) && i < |run|
    ensures Inv(run[i])
  {
    if i > 0 {
      RunsKeep(run, i - 1);
      NextKeeps(run[i - 1], run[i]);
    }
  }

  /** In every state from the one in which the release of an action has returned, no processor is inside its
      handler or will still call it, the published list does not have it, and its worker has exited. */
  lemma ReleasedIsGone(run: seq<State>, i: nat, j: nat, a: Action)
    requires Run(run) && i <= j < |run| && a in run[i].released
    ensures forall c :: !run[j].CanReach(c, a)
    ensures a !in run[j].actions && (a in run[j].workers ==> run[j].workers[a] == Exited)
  {
    forall n | 0 <= n < |run| - 1 ensures run[n].released <= run[n + 1].released {
      ReleasedGrows(run[n], run[n + 1]);
    }
    StaysReleased(run, i, j, a);
    RunsKeep(run, j);
    assert ActionOk(run[j], a);
    forall c ensures !run[j].CanReach(c, a) {
      assert Unreachable(run[j], c, a);
    }
  }

  lemma {:induction false} StaysReleased(run: seq<State>, i: nat, j: nat, a: Action)
    requires i <= j < |run| && a in run[i].released
    requires forall n :: 0 <= n < |run| - 1 ==> run[n].released <= run[n + 1].released
    ensures a in run[j].released
  {
    if i < j {
      StaysReleased(run, i, j - 1, a);
      assert run[j - 1].released <= run[j - 1 + 1].released;
    }
  }

  lemma ReleasedGrows(s: State, t: State)
    requires Next(s, t)
    ensures s.released <= t.released
  {
    if c :| DispatchStep(s, t, c) {
      assert t.released == s.released;
    } else if k :| RequestStep(s, t, k) {
      assert t.released == s.released;
    } else if k :| ReleaseStep(s, t, k) {
      ReleaseGrows(s, t, k);
    } else {
      var a :| WorkerStep(s, t, a);
    }
  }

  lemma ReleaseGrows(s: State, t: State, k: int)
    requires ReleaseStep(s, t, k)
    ensures s.released <= t.released
  {
    if !ReturnRelease(s, t, k) {
      assert t.released == s.released;
    }
  }
}

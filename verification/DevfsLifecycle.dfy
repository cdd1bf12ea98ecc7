/** The lifecycle word of a device node: one atomic 64-bit word packs whether the node is revoked, how many
    descriptions are open and how many driver callbacks run.

    Each step is one atomic instruction on the word or one driver callback.  A session is one call of open,
    the description it makes and the close that ends it. */
module DevfsLifecycle {
  import opened Common

  const OPEN_ONE := 0x1_0000_0000
  const OPEN_LIMIT := 0x8000_0000
  const REVOKED := 0x8000_0000_0000_0000

  /** The fields of the word: running callbacks in the low half, open descriptions above, a flag on top. */
  function Active(word: nat): nat {
    word % OPEN_ONE
  }

  function Opens(word: nat): nat {
    word / OPEN_ONE % OPEN_LIMIT
  }

  predicate IsRevoked(word: nat) {
    word >= REVOKED
  }

  datatype Phase =
    | Entered           // counted as active, before the driver's open
    | Refused           // the driver refused to open
    | Accepted          // the driver has opened
    | Unwound           // revoked meanwhile: the driver has closed again
    | Marked            // counted as open, still active
    | Open              // a description
    | Closing           // active again, before the driver's close
    | Closed            // the driver has closed
    | Left              // no longer active, still counted as open
    | Gone

  predicate IsActive(p: Phase) {
    p.Entered? || p.Refused? || p.Accepted? || p.Unwound? || p.Marked? || p.Closing? || p.Closed?
  }

  predicate IsOpen(p: Phase) {
    p.Marked? || p.Open? || p.Closing? || p.Closed? || p.Left?
  }

  /** `driverOpens` and `driverCloses` count the successful opens and the closes of the driver, per session. */
  datatype State = State(
    word: nat,
    sessions: map<int, Phase>,
    callbacks: set<int>,
    revoked: bool,
    quiet: bool,
    driverOpens: multiset<int>,
    driverCloses: multiset<int>)
  {
    ghost function ActiveSessions(): set<int> {
      set k | k in sessions && IsActive(sessions[k])
    }

    ghost function OpenSessions(): set<int> {
      set k | k in sessions && IsOpen(sessions[k])
    }

    /** The callbacks that run now. */
    ghost function Running(): nat {
      |ActiveSessions()| + |callbacks|
    }
  }

  // ---------------------------------------------------------------- steps

  /** The guard of a callback: not revoked, and room in the counter. */
  predicate MayEnter(word: nat) {
    !IsRevoked(word) && Active(word) != OPEN_ONE - 1
  }

  ghost predicate EnterCallback(s: State, t: State, c: int) {
    c !in s.callbacks && MayEnter(s.word) && t == s.(word := s.word + 1, callbacks := s.callbacks + {c})
  }

  ghost predicate LeaveCallback(s: State, t: State, c: int) {
    c in s.callbacks && t == s.(word := if Active(s.word) != 0 then s.word - 1 else s.word,
        callbacks := s.callbacks - {c})
  }

  ghost predicate EnterOpen(s: State, t: State, k: int) {
    k !in s.sessions && MayEnter(s.word) && t == s.(word := s.word + 1, sessions := s.sessions[k := Entered])
  }

  ghost predicate DriverOpen(s: State, t: State, k: int, ok: bool) {
    && k in s.sessions && s.sessions[k] == Entered
    && t == if ok then s.(sessions := s.sessions[k := Accepted], driverOpens := s.driverOpens + multiset{k})
            else s.(sessions := s.sessions[k := Refused])
  }

  /** Counts the description, unless the node was revoked or the counter is full: then the driver closes. */
  ghost predicate MarkOpen(s: State, t: State, k: int) {
    && k in s.sessions && s.sessions[k] == Accepted
    && t == if !IsRevoked(s.word) && Opens(s.word) != OPEN_LIMIT - 1
            then s.(word := s.word + OPEN_ONE, sessions := s.sessions[k := Marked])
            else s.(sessions := s.sessions[k := Unwound], driverCloses := s.driverCloses + multiset{k})
  }

  ghost predicate LeaveOpen(s: State, t: State, k: int) {
    && k in s.sessions && (s.sessions[k] == Refused || s.sessions[k] == Unwound || s.sessions[k] == Marked)
    && t == s.(word := if Active(s.word) != 0 then s.word - 1 else s.word,
               sessions := s.sessions[k := if s.sessions[k] == Marked then Open else Gone])
  }

  /** Close enters even if the node is revoked, without looking at the counter; fewer than 2^32 - 1
      callbacks run at a time. */
  ghost predicate EnterClose(s: State, t: State, k: int) {
    && k in s.sessions && s.sessions[k] == Open && s.Running() < OPEN_ONE - 1
    && t == s.(word := s.word + 1, sessions := s.sessions[k := Closing])
  }

  ghost predicate DriverClose(s: State, t: State, k: int) {
    && k in s.sessions && s.sessions[k] == Closing
    && t == s.(sessions := s.sessions[k := Closed], driverCloses := s.driverCloses + multiset{k})
  }

  ghost predicate LeaveClose(s: State, t: State, k: int) {
    && k in s.sessions && s.sessions[k] == Closed
    && t == s.(word := if s.word > 0 then s.word - 1 else U64_MAX, sessions := s.sessions[k := Left])
  }

  ghost predicate MarkClosed(s: State, t: State, k: int) {
    && k in s.sessions && s.sessions[k] == Left
    && t == s.(word := if Opens(s.word) != 0 then s.word - OPEN_ONE else s.word, sessions := s.sessions[k := Gone])
  }

  /** Succeeds only on an idle node. */
  ghost predicate TryRevoke(s: State, t: State) {
    s.word == 0 && t == s.(word := REVOKED, revoked := true, quiet := true)
  }

  ghost predicate ForceRevoke(s: State, t: State) {
    t == s.(word := if IsRevoked(s.word) then s.word else s.word + REVOKED, revoked := true)
  }

  ghost predicate Next(s: State, t: State) {
    || (exists c :: EnterCallback(s, t, c) || LeaveCallback(s, t, c))
    || (exists k :: SessionStep(s, t, k))
    || TryRevoke(s, t) || ForceRevoke(s, t)
  }

  ghost predicate SessionStep(s: State, t: State, k: int) {
    || EnterOpen(s, t, k) || (exists ok :: DriverOpen(s, t, k, ok)) || MarkOpen(s, t, k) || LeaveOpen(s, t, k)
    || EnterClose(s, t, k) || DriverClose(s, t, k) || LeaveClose(s, t, k) || MarkClosed(s, t, k)
  }

  // ---------------------------------------------------------------- invariants

  function Packed(revoked: bool, opens: nat, active: nat): nat {
    (if revoked then REVOKED else 0) + opens * OPEN_ONE + active
  }

  /** The packed fields are read back. */
  lemma Unpack(revoked: bool, opens: nat, active: nat)
    requires opens < OPEN_LIMIT && active < OPEN_ONE
    ensures var w := Packed(revoked, opens, active); Active(w) == active && Opens(w) == opens && IsRevoked(w) == revoked
  {
  }

  ghost predicate SessionOk(s: State, k: int) {
    if k !in s.sessions then s.driverOpens[k] == 0 && s.driverCloses[k] == 0
    else match s.sessions[k]
      case Entered => s.driverOpens[k] == 0 && s.driverCloses[k] == 0
      case Refused => s.driverOpens[k] == 0 && s.driverCloses[k] == 0
      case Accepted => s.driverOpens[k] == 1 && s.driverCloses[k] == 0
      case Unwound => s.driverOpens[k] == 1 && s.driverCloses[k] == 1
      case Marked => s.driverOpens[k] == 1 && s.driverCloses[k] == 0
      case Open => s.driverOpens[k] == 1 && s.driverCloses[k] == 0
      case Closing => s.driverOpens[k] == 1 && s.driverCloses[k] == 0
      case Closed => s.driverOpens[k] == 1 && s.driverCloses[k] == 1
      case Left => s.driverOpens[k] == 1 && s.driverCloses[k] == 1
      case Gone => s.driverOpens[k] == s.driverCloses[k] <= 1
  }

  ghost predicate Inv(s: State) {
    && |s.OpenSessions()| < OPEN_LIMIT && s.Running() < OPEN_ONE
    && s.word == Packed(s.revoked, |s.OpenSessions()|, s.Running())
    && (s.quiet ==> s.revoked && s.Running() == 0 && s.OpenSessions() == {})
    && forall k :: SessionOk(s, k)
  }

  // ---------------------------------------------------------------- what each step keeps

  lemma SetPhase(s: State, t: State, k: int, p: Phase)
    requires t.sessions == s.sessions[k := p]
    ensures t.ActiveSessions() == if IsActive(p) then s.ActiveSessions() + {k} else s.ActiveSessions() - {k}
    ensures t.OpenSessions() == if IsOpen(p) then s.OpenSessions() + {k} else s.OpenSessions() - {k}
  {
  }

  function Count(b: bool): int {
    if b then 1 else 0
  }

  lemma SetSize(a: set<int>, k: int)
    ensures |a + {k}| == |a| + Count(k !in a) && |a - {k}| == |a| - Count(k in a)
  {
    if k in a {
      assert a + {k} == a;
    } else {
      assert a - {k} == a;
    }
  }

  /** A change of phase moves the two counts, and the word with them. */
  lemma PhaseKeeps(s: State, t: State, k: int, p: Phase, active: int, open: int)
    requires Inv(s)
        && t == s.(word := t.word, sessions := s.sessions[k := p], driverOpens := t.driverOpens,
            driverCloses := t.driverCloses)
    requires active == Count(IsActive(p)) - Count(k in s.sessions && IsActive(s.sessions[k]))
    requires open == Count(IsOpen(p)) - Count(k in s.sessions && IsOpen(s.sessions[k]))
    requires t.word == s.word + active + open * OPEN_ONE
    requires |s.OpenSessions()| + open < OPEN_LIMIT && s.Running() + active < OPEN_ONE
        && (s.quiet ==> active <= 0 && open <= 0)
    requires forall j :: SessionOk(t, j)
    ensures Inv(t)
  {
    PhaseCounts(s, t, k, p);
    assert t.OpenSessions() == {} <==> |t.OpenSessions()| == 0;
  }

  lemma PhaseCounts(s: State, t: State, k: int, p: Phase)
    requires t.sessions == s.sessions[k := p]
    ensures |t.ActiveSessions()| == |s.ActiveSessions()| + Count(IsActive(p)) - Count(k in s.sessions
            && IsActive(s.sessions[k]))
    ensures |t.OpenSessions()| == |s.OpenSessions()| + Count(IsOpen(p)) - Count(k in s.sessions
            && IsOpen(s.sessions[k]))
  {
    SetPhase(s, t, k, p);
    var a, b := s.ActiveSessions(), s.OpenSessions();
    assert k in a <==> k in s.sessions && IsActive(s.sessions[k]);
    assert k in b <==> k in s.sessions && IsOpen(s.sessions[k]);
    SetSize(a, k);
    SetSize(b, k);
  }

  /** A session in an active or open phase shows in the word. */
  lemma PhaseShows(s: State, k: int)
    requires Inv(s)
    ensures Active(s.word) == s.Running() && Opens(s.word) == |s.OpenSessions()| && IsRevoked(s.word) == s.revoked
    ensures k in s.sessions && IsActive(s.sessions[k]) ==> s.Running() > 0
    ensures k in s.sessions && IsOpen(s.sessions[k]) ==> |s.OpenSessions()| > 0
  {
    Unpack(s.revoked, |s.OpenSessions()|, s.Running());
    assert k in s.sessions && IsActive(s.sessions[k]) ==> k in s.ActiveSessions();
    assert k in s.sessions && IsOpen(s.sessions[k]) ==> k in s.OpenSessions();
  }

  lemma SessionsKeep(s: State, t: State, k: int)
    requires (forall j :: SessionOk(s, j)) && SessionStep(s, t, k)
    ensures forall j :: SessionOk(t, j)
  {
    assert SessionOk(s, k);
    OthersStay(s, t, k);
    if ok :| DriverOpen(s, t, k, ok) {
      assert SessionOk(t, k);
    } else if MarkOpen(s, t, k) || DriverClose(s, t, k) {
      assert SessionOk(t, k);
    } else {
      assert t.driverOpens == s.driverOpens && t.driverCloses == s.driverCloses;
      assert SessionOk(t, k);
    }
    forall j ensures SessionOk(t, j) {
      assert SessionOk(s, j);
    }
  }

  lemma OthersStay(s: State, t: State, k: int)
    requires SessionStep(s, t, k)
    ensures k in t.sessions && t.sessions == s.sessions[k := t.sessions[k]]
    ensures forall j :: j != k ==> t.driverOpens[j] == s.driverOpens[j] && t.driverCloses[j] == s.driverCloses[j]
  {
  }

  lemma OpenStepKeeps(s: State, t: State, k: int)
    requires Inv(s)
        && (EnterOpen(s, t, k) || (exists ok :: DriverOpen(s, t, k, ok)) || MarkOpen(s, t, k) || LeaveOpen(s, t, k))
    ensures Inv(t)
  {
    SessionsKeep(s, t, k);
    PhaseShows(s, k);
    var p := t.sessions[k];
    PhaseKeeps(s, t, k, p, Count(IsActive(p)) - Count(k in s.sessions && IsActive(s.sessions[k])),
               Count(IsOpen(p)) - Count(k in s.sessions && IsOpen(s.sessions[k])));
  }

  lemma CloseStepKeeps(s: State, t: State, k: int)
    requires Inv(s) && (EnterClose(s, t, k) || DriverClose(s, t, k) || LeaveClose(s, t, k) || MarkClosed(s, t, k))
    ensures Inv(t)
  {
    SessionsKeep(s, t, k);
    PhaseShows(s, k);
    var p := t.sessions[k];
    PhaseKeeps(s, t, k, p, Count(IsActive(p)) - Count(IsActive(s.sessions[k])),
        Count(IsOpen(p)) - Count(IsOpen(s.sessions[k])));
  }

  lemma CallbackStepKeeps(s: State, t: State, c: int)
    requires Inv(s) && (EnterCallback(s, t, c) || LeaveCallback(s, t, c))
    ensures Inv(t)
  {
    Unpack(s.revoked, |s.OpenSessions()|, s.Running());
    assert t.ActiveSessions() == s.ActiveSessions() && t.OpenSessions() == s.OpenSessions();
    forall j ensures SessionOk(t, j) {
      assert SessionOk(s, j);
    }
  }

  lemma RevokeKeeps(s: State, t: State)
    requires Inv(s) && (TryRevoke(s, t) || ForceRevoke(s, t))
    ensures Inv(t)
  {
    Unpack(s.revoked, |s.OpenSessions()|, s.Running());
    assert t.ActiveSessions() == s.ActiveSessions() && t.OpenSessions() == s.OpenSessions();
    forall j ensures SessionOk(t, j) {
      assert SessionOk(s, j);
    }
  }

  // ---------------------------------------------------------------- every run

  ghost predicate Init(s: State) {
    s == State(0, map[], {}, false, false, multiset{}, multiset{})
  }

  ghost predicate Run(run: seq<State>) {
    && |run| > 0 && Init(run[0])
    && forall i :: 0 <= i < |run| - 1 ==> Next(run[i], run[i + 1])
  }

  lemma NextKeeps(s: State, t: State)
    requires Inv(s) && Next(s, t)
    ensures Inv(t)
  {
    if c :| EnterCallback(s, t, c) || LeaveCallback(s, t, c) {
      CallbackStepKeeps(s, t, c);
    } else if k :| SessionStep(s, t, k) {
      if EnterClose(s, t, k) || DriverClose(s, t, k) || LeaveClose(s, t, k) || MarkClosed(s, t, k) {
        CloseStepKeeps(s, t, k);
      } else {
        OpenStepKeeps(s, t, k);
      }
    } else {
      RevokeKeeps(s, t);
    }
  }

  lemma {:induction false} RunsKeep(run: seq<State>, i: nat)
    requires Run(run) && i < |run|
    ensures Inv(run[i])
  {
    if i == 0 {
      assert run[0].ActiveSessions() == {} && run[0].OpenSessions() == {};
    } else {
      RunsKeep(run, i - 1);
      NextKeeps(run[i - 1], run[i]);
    }
  }

  /** In every state of every run the word is exactly what it stands for. */
  lemma WordDecodes(run: seq<State>, i: nat)
    requires Run(run) && i < |run|
    ensures var s := run[i];
            IsRevoked(s.word) == s.revoked && Opens(s.word) == |s.OpenSessions()| && Active(s.word) == s.Running()
  {
    RunsKeep(run, i);
    PhaseShows(run[i], 0);
  }

  /** The driver closes each session at most once and only after it opened it, and has closed a session it
      opened by the time the session is over, revoked or not. */
  lemma OneCloseForEachOpen(run: seq<State>, i: nat, k: int)
    requires Run(run) && i < |run|
    ensures var s := run[i];
            && s.driverCloses[k] <= s.driverOpens[k] <= 1
            && (k in s.sessions && s.sessions[k] == Gone ==> s.driverCloses[k] == s.driverOpens[k])
  {
    RunsKeep(run, i);
    assert SessionOk(run[i], k);
  }

  /** From a successful revocation on nothing runs, nothing is open, and no callback can start. */
  lemma RevokedStaysQuiet(run: seq<State>, i: nat, j: nat)
    requires Run(run) && i <= j < |run| && run[i].quiet
    ensures run[j].Running() == 0 && run[j].OpenSessions() == {} && !MayEnter(run[j].word)
  {
    forall n | 0 <= n < |run| - 1 ensures run[n].quiet ==> run[n + 1].quiet {
      if run[n].quiet {
        QuietStays(run[n], run[n + 1]);
      }
    }
    StaysQuiet(run, i, j);
    RunsKeep(run, j);
    PhaseShows(run[j], 0);
  }

  lemma {:induction false} StaysQuiet(run: seq<State>, i: nat, j: nat)
    requires i <= j < |run| && run[i].quiet && forall n :: 0 <= n < |run| - 1 ==> run[n].quiet ==> run[n + 1].quiet
    ensures run[j].quiet
  {
    if i < j {
      StaysQuiet(run, i, j - 1);
      assert run[j - 1].quiet ==> run[j - 1 + 1].quiet;
    }
  }

  lemma QuietStays(s: State, t: State)
    requires Next(s, t) && s.quiet
    ensures t.quiet
  {
  }
}

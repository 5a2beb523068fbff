/** Concrete runs showing what the conditions of the shutdown theorems are for, and the initReady
    gate that fixes the negotiated capabilities before any message is handled. */
module LifecycleRuns {
  import opened Lifecycle
  import opened Shutdown
  import opened ShutdownTheorems
  import opened SoloCalls
  import opened SweepTheorems

  const A: Guid := "a"
  const B: Guid := "b"

  function Plugin(): seq<Action> { [InitBegin, InitDone] }

  const ReadyShared: Shared := Shared(false, Ready, 0, {}, 0, 0, 0, 0)

  lemma PluginRun()
    ensures CarefullyReached(false, Plugin(), State(ReadyShared, map[], NotSwept))
  {
    var s := Start(false);
    Cons(Next(s, InitBegin), InitDone, []);
    Cons(s, InitBegin, [InitDone]);
    assert [InitBegin] + [InitDone] == Plugin();
    assert [InitDone] + [] == [InitDone];
  }

  lemma {:induction false} CarefulIsDisciplined(s: State, acts: seq<Action>)
    requires Runs(s, acts) && CarefulRun(s, acts)
    ensures DisciplinedRun(s, acts)
    decreases |acts|
  {
    if acts != [] {
      CarefulIsDisciplined(Next(s, acts[0]), acts[1..]);
    }
  }

  /** Extending a reached state by one whole call. */
  lemma ThenCall(session: bool, acts: seq<Action>, s: State, id: CallId, c: Call, oks: seq<bool>)
    returns (more: seq<Action>, t: State)
    requires Runs(Start(session), acts) && Run(Start(session), acts) == s
    requires id !in s.calls && Initial(c) && CanSolo(s.sh, c, oks)
    ensures Runs(Start(session), more) && Run(Start(session), more) == t
    ensures t == s.(sh := Solo(s.sh, c, oks).0, calls := s.calls[id := Solo(s.sh, c, oks).1])
    ensures Reached(session, acts, s) && Disciplined(s, Arrive(id, c)) ==> Reached(session, more, t)
    ensures CarefullyReached(session, acts, s) && Careful(s, Arrive(id, c)) ==> CarefullyReached(session, more, t)
  {
    CallRun(s, id, c, oks);
    RunConcat(Start(session), acts, SoloCall(id, c, oks));
    more, t := acts + SoloCall(id, c, oks), Run(s, SoloCall(id, c, oks));
  }

  lemma NodeUp() returns (acts: seq<Action>, s: State)
    ensures CarefullyReached(false, acts, s)
    ensures s == State(ReadyShared.(table := {A}, nc := 1), map[0 := Create(A, Counted)], NotSwept)
  {
    PluginRun();
    CreateSolo(ReadyShared, A, true);
    acts, s := ThenCall(false, Plugin(), State(ReadyShared, map[], NotSwept), 0, Create(A, CreateWaiting), [true, true, true]);
  }

  /** A close of a node whose create failed brings the counter to zero and signals shutdown while
      another node is live. */
  lemma FailedCloseSignalsEarly() returns (acts: seq<Action>, t: State)
    ensures Reached(false, acts, t)
    ensures A in Live(t.calls) && t.sh.nc == 0 && B in Orphans(t.calls)
    ensures 2 in t.calls && t.calls[2] == Close(B, Signalling)
  {
    var up, s := NodeUp();
    CarefulIsDisciplined(Start(false), up);
    CreateSolo(s.sh, B, false);
    var failed, s1 := ThenCall(false, up, s, 1, Create(B, CreateWaiting), [true, false]);
    CloseSolo(s1.sh, B);
    acts, t := ThenCall(false, failed, s1, 2, Close(B, CloseArrived), [true, true, true, true]);
    assert t.calls == map[0 := Create(A, Counted), 1 := Create(B, CreateFailed), 2 := Close(B, Signalling)];
    assert CountedCreate(t.calls[0]) && PastDecrement(t.calls[2]);
  }

  lemma ZeroRead() returns (acts: seq<Action>, s: State)
    ensures CarefullyReached(false, acts, s)
    ensures s == State(ReadyShared, map[0 := Create(A, Counted), 1 := Close(A, Signalling)], NotSwept)
  {
    var up, s0 := NodeUp();
    CloseSolo(s0.sh, A);
    assert s0.calls[0] == Create(A, Counted);
    acts, s := ThenCall(false, up, s0, 1, Close(A, CloseArrived), [true, true, true, true]);
    assert {A} - {A} == {};
  }

  /** Even a careful host can see the signal arrive while a node is live: a create counted between
      the closer's reading of zero and its send. */
  lemma SignalRacesCreate() returns (acts: seq<Action>, t: State)
    ensures CarefullyReached(false, acts, t)
    ensures t.sh.pending == 1 && B in Live(t.calls)
  {
    var zero, s := ZeroRead();
    CreateSolo(s.sh, B, true);
    var again, s1 := ThenCall(false, zero, s, 2, Create(B, CreateWaiting), [true, true, true]);
    Cons(s1, Advance(1, true), []);
    RunConcat(Start(false), again, [Advance(1, true)] + []);
    acts, t := again + ([Advance(1, true)] + []), Next(s1, Advance(1, true));
    assert t.calls == map[0 := Create(A, Counted), 1 := Close(A, Closed), 2 := Create(B, Counted)];
    assert CountedCreate(t.calls[2]);
  }

  /** A setup that reuses a running node's guid removes that node's handler: its close is refused,
      every call has returned, nothing is registered, and the signal never comes. */
  lemma SetupCollisionMissesShutdown() returns (acts: seq<Action>, t: State)
    ensures Runs(Start(false), acts) && Run(Start(false), acts) == t
    ensures forall i <- t.calls :: Returned(t.calls[i])
    ensures t.sh.table == {} && t.sh.nc == 1 && t.sh.pending + t.sh.received == 0
    ensures 2 in t.calls && t.calls[2] == Close(A, CloseNoHandler)
  {
    var up, s := NodeUp();
    SetupSolo(s.sh, A);
    var setup, s1 := ThenCall(false, up, s, 1, Setup(A, SetupWaiting), [true, true, true]);
    assert CanSolo(s1.sh, Close(A, CloseArrived), [true]);
    acts, t := ThenCall(false, setup, s1, 2, Close(A, CloseArrived), [true]);
    assert t.calls == map[0 := Create(A, Counted), 1 := Setup(A, SetupReturned), 2 := Close(A, CloseNoHandler)];
  }

  /** A daemon sweeps its one node and the host then closes it: the handler's OnClose runs twice and the
      counter goes negative, for the most careful host. */
  lemma SweptNodeClosedAgain() returns (acts: seq<Action>, t: State)
    ensures CarefullyReached(true, acts, t)
    ensures ClosedTwice(t, A) && t.sh.nc == -1 && t.sh.table == {}
  {
    var s := Start(true);
    CreateSolo(s.sh, A, true);
    var up, s1 := ThenCall(true, [], s, 0, Create(A, CreateWaiting), [true, true, true]);
    var swept, s2 := ThenSweep(up, s1);
    CloseSolo(s2.sh, A);
    assert s2.calls[0] == Create(A, Counted);
    acts, t := ThenCall(true, swept, s2, 1, Close(A, CloseArrived), [true, true, true, true]);
    assert t.sh.table == {A} - {A} == {};
    assert t.calls[1].Close? && RanClose(t.calls[1]) && t.calls[1].guid == A;
  }

  lemma ThenSweep(acts: seq<Action>, s: State) returns (more: seq<Action>, t: State)
    requires CarefullyReached(true, acts, s) && s.sh.session && s.sweep.NotSwept?
    requires s.sh.table == {A} && s.sh.nc == 1
    ensures CarefullyReached(true, more, t)
    ensures t == s.(sh := s.sh.(nc := 0), sweep := Looking([], [A]))
  {
    assert Lists([A], s.sh.table) by {
      assert SetOf([A]) == {A};
    }
    SweepSolo(s, [A], 1);
    assert forall a <- SweepMoves([A]) :: !a.Arrive?;
    SweepCareful(s, SweepMoves([A]));
    RunConcat(Start(true), acts, SweepMoves([A]));
    more, t := acts + SweepMoves([A]), Run(s, SweepMoves([A]));
  }

  lemma {:induction false} SweepCareful(s: State, acts: seq<Action>)
    requires Runs(s, acts) && forall a <- acts :: !a.Arrive?
    ensures CarefulRun(s, acts)
    decreases |acts|
  {
    if acts != [] {
      assert acts[0] in acts && forall a <- acts[1..] :: a in acts;
      SweepCareful(Next(s, acts[0]), acts[1..]);
    }
  }

  // ----- The initReady gate -----

  /** Nothing is registered and no message passed its lookup before initReady closed, and every
      delivered message decided under the capabilities that now stand. */
  ghost predicate Gated(s: State) {
    && (!s.sh.init.Ready? ==> s.sh.table == {})
    && (forall i <- s.calls :: s.calls[i].Message? ==>
          && (s.calls[i].message.Handling? ==> s.sh.init.Ready?)
          && (s.calls[i].message.Delivered? ==> s.sh.init.Ready? && s.calls[i].message.seen == s.sh.caps))
  }

  lemma {:induction false} RunGated(s: State, acts: seq<Action>)
    requires Gated(s) && Runs(s, acts)
    ensures Gated(Run(s, acts))
    ensures s.sh.init.Ready? ==> Run(s, acts).sh.init.Ready? && Run(s, acts).sh.caps == s.sh.caps
    decreases |acts|
  {
    if acts != [] {
      StepGated(s, acts[0]);
      RunGated(Next(s, acts[0]), acts[1..]);
    }
  }

  lemma StepGated(s: State, a: Action)
    requires Gated(s) && Enabled(s, a)
    ensures Gated(Next(s, a))
    ensures s.sh.init.Ready? ==> Next(s, a).sh.init.Ready? && Next(s, a).sh.caps == s.sh.caps
  {
    if a.Advance? {
      GateEffect(s.sh, s.calls[a.id], a.ok);
    }
  }

  lemma GateEffect(sh: Shared, c: Call, ok: bool)
    requires CanAdvance(sh, c) && (!sh.init.Ready? ==> sh.table == {})
    ensures var sh', c' := Effect(sh, c, ok), After(sh, c, ok);
            && sh'.init == sh.init && sh'.caps == sh.caps
            && (!sh.init.Ready? ==> sh'.table == {})
            && (c'.Message? ==> c.Message?)
            && (c'.Message? && c'.message.Handling? ==> sh.init.Ready?)
            && (c'.Message? && c'.message.Delivered? ==> c.message.Handling? && c'.message.seen == sh.caps)
  {}

  /** Every message that finds a handler decides whether to pack under one and the same capability
      set, in every run with a single Init: the set standing when initReady closed. */
  lemma OneCapabilitySet(session: bool, before: seq<Action>, after: seq<Action>, i: CallId, j: CallId)
    requires Runs(Start(session), before) && Runs(Run(Start(session), before), after)
    requires var s, t := Run(Start(session), before), Run(Run(Start(session), before), after);
             && i in s.calls && s.calls[i].Message? && s.calls[i].message.Delivered?
             && j in t.calls && t.calls[j].Message? && t.calls[j].message.Delivered?
    ensures var s, t := Run(Start(session), before), Run(Run(Start(session), before), after);
            s.calls[i].message.seen == t.calls[j].message.seen == t.sh.caps
  {
    RunGated(Start(session), before);
    RunGated(Run(Start(session), before), after);
  }
}

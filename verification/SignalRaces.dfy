/** Between reading a zero counter and sending on done: when the signal of a close can arrive while a
    node is live. */
module SignalRaces {
  import opened Lifecycle
  import opened Shutdown
  import opened ShutdownTheorems
  import opened SoloCalls

  predicate CreateOutstanding(s: State) {
    exists i <- s.calls :: s.calls[i].Create? && !Returned(s.calls[i])
  }

  predicate CloseOutstanding(s: State) {
    exists i <- s.calls :: s.calls[i].Close? && !Returned(s.calls[i])
  }

  predicate Sending(c: Call) { c.Close? && c.close.Signalling? }

  // ----- A host that keeps creates and closes apart -----

  /** No create is outstanding while a close is, and fewer than 2^31 handlers are registered. */
  predicate Calm(s: State) {
    !(CreateOutstanding(s) && CloseOutstanding(s)) && |s.sh.table| < TWO_31
  }

  predicate CalmRun(s: State, acts: seq<Action>)
    requires Runs(s, acts)
    decreases |acts|
  {
    Calm(s) && (acts != [] ==> CalmRun(Next(s, acts[0]), acts[1..]))
  }

  ghost predicate Quiet(s: State) {
    (exists i <- s.calls :: Sending(s.calls[i])) ==> Live(s.calls) == {}
  }

  lemma LiveShrinks(s: State, id: CallId, ok: bool)
    requires OneOwner(s.calls) && Enabled(s, Advance(id, ok)) && !Increments(s.calls[id])
    ensures Live(Next(s, Advance(id, ok)).calls) <= Live(s.calls)
  {
    var c' := After(s.sh, s.calls[id], ok);
    CounterEffect(s.sh, s.calls[id], ok);
    AfterSame(s.sh, s.calls[id], ok);
    if Decrements(s.calls[id]) {
      DecrementMoves(s.calls, id, c');
    } else {
      OtherwiseStill(s.calls, id, c');
    }
  }

  /** A close starts to send only when it reads zero, and then no node is live. */
  lemma StartsQuiet(s: State, id: CallId, ok: bool)
    requires Accounted(s) && Ordinary(s) && Orphans(s.calls) == {} && |s.sh.table| < TWO_31
    requires Enabled(s, Advance(id, ok)) && Sending(After(s.sh, s.calls[id], ok)) && !Sending(s.calls[id])
    ensures Live(s.calls) == {}
  {}

  lemma CalmApart(s: State, id: CallId)
    requires Calm(s) && id in s.calls && Increments(s.calls[id])
    ensures forall i <- s.calls :: !Sending(s.calls[i])
  {
    assert CreateOutstanding(s);
  }

  lemma AdvanceQuiet(s: State, id: CallId, ok: bool)
    requires OneOwner(s.calls) && Accounted(s) && Ordinary(s) && Orphans(s.calls) == {}
    requires Calm(s) && Quiet(s) && Enabled(s, Advance(id, ok))
    ensures Quiet(Next(s, Advance(id, ok)))
  {
    var c, c' := s.calls[id], After(s.sh, s.calls[id], ok);
    AfterSame(s.sh, c, ok);
    if Increments(c) {
      CalmApart(s, id);
      NoSender(s.calls, id, c');
    } else {
      LiveShrinks(s, id, ok);
      if Sending(c') && !Sending(c) {
        StartsQuiet(s, id, ok);
      }
    }
  }

  lemma NoSender(calls: map<CallId, Call>, id: CallId, c: Call)
    requires (forall i <- calls :: !Sending(calls[i])) && !c.Close?
    ensures var t := calls[id := c]; forall i <- t :: !Sending(t[i])
  {}

  lemma StepQuiet(s: State, a: Action)
    requires OneOwner(s.calls) && Accounted(s) && Ordinary(s) && Orphans(s.calls) == {}
    requires Calm(s) && Quiet(s) && Enabled(s, a)
    ensures Quiet(Next(s, a))
  {
    match a
    case Advance(id, ok) => AdvanceQuiet(s, id, ok);
    case Arrive(id, c) => ArriveBalance(s, id, c);
    case _ =>
  }

  lemma {:induction false} RunQuiet(s: State, acts: seq<Action>)
    requires Kept(s) && Quiet(s) && Runs(s, acts) && CarefulRun(s, acts) && CalmRun(s, acts)
    ensures Quiet(Run(s, acts))
    decreases |acts|
  {
    if acts != [] {
      OneStepKept(s, acts[0]);
      NoOrphans(s.calls);
      StepQuiet(s, acts[0]);
      RunQuiet(Next(s, acts[0]), acts[1..]);
    }
  }

  /** If the host never has a create outstanding while a close is, every close that sends on done does so
      with no node live. */
  lemma SendsAreQuiet(acts: seq<Action>, s: State, id: CallId)
    requires CarefullyReached(false, acts, s) && CalmRun(Start(false), acts)
    requires id in s.calls && Sending(s.calls[id])
    ensures Live(s.calls) == {}
  {
    StartKept(false);
    RunQuiet(Start(false), acts);
  }

  // ----- When the race can happen -----

  predicate NoArrivals(acts: seq<Action>) {
    forall a <- acts :: !a.Arrive?
  }

  lemma {:induction false} NoArrivalsCareful(s: State, acts: seq<Action>)
    requires Runs(s, acts) && NoArrivals(acts)
    ensures DisciplinedRun(s, acts) && CarefulRun(s, acts)
    decreases |acts|
  {
    if acts != [] {
      assert acts[0] in acts && forall a <- acts[1..] :: a in acts;
      NoArrivalsCareful(Next(s, acts[0]), acts[1..]);
    }
  }

  /** The calls already there can move so that the closer comes to send while a node is live. */
  ghost predicate CanSendEarly(s: State, closer: CallId) {
    exists more {:trigger Run(s, more)} :: Runs(s, more) && NoArrivals(more) && SendsEarly(Run(s, more), closer)
  }

  ghost predicate SendsEarly(u: State, closer: CallId) {
    && closer in u.calls && Sending(u.calls[closer])
    && Enabled(u, Advance(closer, true)) && Live(u.calls) != {}
  }

  lemma {:induction false} NothingCounted(s: State, acts: seq<Action>)
    requires Runs(s, acts) && NoArrivals(acts) && !CreateOutstanding(s)
    ensures NoIncrement(s, acts)
    decreases |acts|
  {
    if acts != [] {
      var a := acts[0];
      assert a in acts && forall b <- acts[1..] :: b in acts;
      if a.Advance? {
        AfterSame(s.sh, s.calls[a.id], a.ok);
        assert !s.calls[a.id].Create?;
      }
      NothingCounted(Next(s, a), acts[1..]);
    }
  }

  function Receives(n: nat): seq<Action> {
    if n == 0 then [] else [Receive] + Receives(n - 1)
  }

  lemma {:induction false} Drain(s: State, n: nat)
    requires n == s.sh.pending
    ensures Runs(s, Receives(n)) && NoArrivals(Receives(n))
    ensures Run(s, Receives(n)) == s.(sh := s.sh.(pending := 0, received := s.sh.received + n))
    decreases n
  {
    if n > 0 {
      Drain(Next(s, Receive), n - 1);
      Cons(s, Receive, Receives(n - 1));
    }
  }

  // ----- An outstanding create can be counted -----

  /** Nothing was created before initReady closed. */
  predicate Opened(s: State) {
    forall i <- s.calls :: s.calls[i].Create? && !s.calls[i].create.CreateWaiting? ==> s.sh.init.Ready?
  }

  lemma {:induction false} RunOpened(s: State, acts: seq<Action>)
    requires Opened(s) && Runs(s, acts)
    ensures Opened(Run(s, acts))
    decreases |acts|
  {
    if acts != [] {
      StepOpened(s, acts[0]);
      RunOpened(Next(s, acts[0]), acts[1..]);
    }
  }

  lemma StepOpened(s: State, a: Action)
    requires Opened(s) && Enabled(s, a)
    ensures Opened(Next(s, a))
  {
    if a.Advance? {
      AdvanceOpened(s.sh, s.calls[a.id], a.ok);
    }
  }

  lemma AdvanceOpened(sh: Shared, c: Call, ok: bool)
    requires CanAdvance(sh, c) && (c.Create? && !c.create.CreateWaiting? ==> sh.init.Ready?)
    ensures Effect(sh, c, ok).init == sh.init
    ensures var c' := After(sh, c, ok); c'.Create? && !c'.create.CreateWaiting? ==> sh.init.Ready?
  {}

  function CountingOutcomes(pc: CreatePc): seq<bool> {
    if pc.CreateWaiting? then [true, true, true] else if pc.Registered? then [true, true] else [true]
  }

  lemma CanBeCounted(sh: Shared, g: Guid, pc: CreatePc)
    requires !Returned(Create(g, pc)) && (pc.CreateWaiting? ==> sh.init.Ready?) && (pc.Registered? ==> g in sh.table)
    ensures var c, oks := Create(g, pc), CountingOutcomes(pc);
            && CanSolo(sh, c, oks)
            && Solo(sh, c, oks).1 == Create(g, Counted) && Solo(sh, c, oks).0.pending == sh.pending
  {
    var sh1 := sh.(table := sh.table + {g});
    assert [true, true, true][1..] == [true, true] && [true, true][1..] == [true] && [true][1..] == [];
    assert CanSolo(sh1, Create(g, Created), [true]) && CanSolo(sh, Create(g, Created), [true]);
    assert pc.CreateWaiting? ==> CanSolo(sh1, Create(g, Registered), [true, true]);
  }

  /** Nobody closes a node that is still being created. */
  lemma NotClosedYet(s: State, i: CallId)
    requires OneOwner(s.calls) && TableExact(s) && ClosesCounted(s.calls)
    requires i in s.calls && s.calls[i].Create? && !CountedCreate(s.calls[i])
    ensures forall j <- s.calls :: s.calls[j].Close? ==> s.calls[j].guid != s.calls[i].guid
    ensures s.calls[i].create.Registered? ==> s.calls[i].guid in s.sh.table
  {
    Alone(s.calls, i);
    SomeUpdate(s.calls, i, s.calls[i], CountedCreate, s.calls[i].guid);
    if s.calls[i].create.Registered? {
      assert Some(s.calls, Registering, s.calls[i].guid);
    }
  }

  lemma ThenLive(calls: map<CallId, Call>, i: CallId, g: Guid)
    requires i in calls && calls[i].guid == g
    requires forall j <- calls :: calls[j].Close? ==> calls[j].guid != g
    requires calls[i].Create?
    ensures g in Live(calls[i := Create(g, Counted)])
  {
    var t := calls[i := Create(g, Counted)];
    LiveAt(t, g);
    assert CountedCreate(t[i]);
  }

  /** With the channel empty, the create runs to its increment and the closer can send. */
  lemma CountedThenSends(s: State, closer: CallId, i: CallId)
    requires s.sh.pending == 0 && closer in s.calls && Sending(s.calls[closer])
    requires i in s.calls && s.calls[i].Create? && !Returned(s.calls[i])
    requires s.calls[i].create.CreateWaiting? ==> s.sh.init.Ready?
    requires s.calls[i].create.Registered? ==> s.calls[i].guid in s.sh.table
    requires forall j <- s.calls :: s.calls[j].Close? ==> s.calls[j].guid != s.calls[i].guid
    ensures var acts := Advances(i, CountingOutcomes(s.calls[i].create));
            Runs(s, acts) && SendsEarly(Run(s, acts), closer)
  {
    var g, pc := s.calls[i].guid, s.calls[i].create;
    CanBeCounted(s.sh, g, pc);
    AdvancesRun(s, i, CountingOutcomes(pc));
    ThenLive(s.calls, i, g);
  }

  lemma IsReady(s: State, closer: CallId)
    requires ClosesCounted(s.calls) && Opened(s) && closer in s.calls && s.calls[closer].Close?
    ensures s.sh.init.Ready?
  {
    var k :| k in s.calls && CountedCreate(s.calls[k]) && s.calls[k].guid == s.calls[closer].guid;
  }

  lemma CreateRaces(s: State, closer: CallId, i: CallId)
    requires OneOwner(s.calls) && TableExact(s) && ClosesCounted(s.calls) && Opened(s)
    requires closer in s.calls && Sending(s.calls[closer])
    requires i in s.calls && s.calls[i].Create? && !Returned(s.calls[i])
    ensures CanSendEarly(s, closer)
  {
    NotClosedYet(s, i);
    IsReady(s, closer);
    RacesAfterDrain(s, closer, i);
  }

  lemma RacesAfterDrain(s: State, closer: CallId, i: CallId)
    requires closer in s.calls && Sending(s.calls[closer]) && s.sh.init.Ready?
    requires i in s.calls && s.calls[i].Create? && !Returned(s.calls[i])
    requires s.calls[i].create.Registered? ==> s.calls[i].guid in s.sh.table
    requires forall j <- s.calls :: s.calls[j].Close? ==> s.calls[j].guid != s.calls[i].guid
    ensures CanSendEarly(s, closer)
  {
    var drain, oks := Receives(s.sh.pending), CountingOutcomes(s.calls[i].create);
    Drain(s, s.sh.pending);
    CountedThenSends(Run(s, drain), closer, i);
    RunConcat(s, drain, Advances(i, oks));
    AdvancesArriveNot(i, oks);
    assert SendsEarly(Run(s, drain + Advances(i, oks)), closer);
  }

  lemma {:induction false} AdvancesArriveNot(id: CallId, oks: seq<bool>)
    ensures NoArrivals(Advances(id, oks))
    decreases |oks|
  {
    if oks != [] {
      AdvancesArriveNot(id, oks[1..]);
    }
  }

  lemma LiveRaces(s: State, closer: CallId)
    requires closer in s.calls && Sending(s.calls[closer]) && Live(s.calls) != {}
    ensures CanSendEarly(s, closer)
  {
    Drain(s, s.sh.pending);
    assert SendsEarly(Run(s, Receives(s.sh.pending)), closer);
  }

  /** From every state a careful host can reach with a close about to send, the calls already there can
      bring it to send while a node is live exactly when one is live or a create has not returned. */
  lemma SendRacesIff(acts: seq<Action>, s: State, closer: CallId)
    requires CarefullyReached(false, acts, s) && closer in s.calls && Sending(s.calls[closer])
    ensures CanSendEarly(s, closer) <==> Live(s.calls) != {} || CreateOutstanding(s)
  {
    StartKept(false);
    RunKept(Start(false), acts);
    RunOpened(Start(false), acts);
    if CreateOutstanding(s) {
      var i :| i in s.calls && s.calls[i].Create? && !Returned(s.calls[i]);
      CreateRaces(s, closer, i);
    } else if Live(s.calls) != {} {
      LiveRaces(s, closer);
    } else if CanSendEarly(s, closer) {
      var more :| Runs(s, more) && NoArrivals(more) && SendsEarly(Run(s, more), closer);
      NoArrivalsCareful(s, more);
      NothingCounted(s, more);
      QuietWindow(s, more);
    }
  }
}

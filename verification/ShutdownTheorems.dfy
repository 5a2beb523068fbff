/** The shutdown protocol over whole runs: accounting, safety and no missed signal for every
    interleaving, the exact conditions, and runs that show where the conditions matter. */
module ShutdownTheorems {
  import opened Lifecycle
  import opened Shutdown

  /** Some disciplined run of the process ends in t. */
  ghost predicate Reached(session: bool, acts: seq<Action>, t: State) {
    Runs(Start(session), acts) && DisciplinedRun(Start(session), acts) && Run(Start(session), acts) == t
  }

  ghost predicate CarefullyReached(session: bool, acts: seq<Action>, t: State) {
    Runs(Start(session), acts) && CarefulRun(Start(session), acts) && Run(Start(session), acts) == t
  }

  /** Only the daemon sweeps, and every outside signal went through the channel. */
  predicate Ordinary(s: State) {
    (s.sh.session || s.sweep.NotSwept?) && s.sh.others <= s.sh.pending + s.sh.received
  }

  ghost predicate Sound(s: State) {
    OneOwner(s.calls) && TableExact(s) && Accounted(s) && Ordinary(s)
  }

  lemma StepOrdinary(s: State, a: Action)
    requires Ordinary(s) && Enabled(s, a)
    ensures Ordinary(Next(s, a))
  {
    if a.Advance? {
      SignalsStay(s.sh, s.calls[a.id], a.ok);
    }
  }

  lemma StartSound(session: bool)
    ensures Sound(Start(session))
  {
    var calls := Start(session).calls;
    assert Live(calls) == {} && Orphans(calls) == {};
    assert Ids(calls, InCreate) == {} && Ids(calls, FailedCreate) == {};
    assert Ids(calls, BetweenDecrementAndRemoval) == {} && Ids(calls, InSetup) == {};
  }

  lemma {:induction false} RunSound(s: State, acts: seq<Action>)
    requires Sound(s) && Runs(s, acts) && DisciplinedRun(s, acts)
    ensures Sound(Run(s, acts))
    decreases |acts|
  {
    if acts != [] {
      StepOneOwner(s, acts[0]);
      StepTable(s, acts[0]);
      StepAccounted(s, acts[0]);
      StepOrdinary(s, acts[0]);
      RunSound(Next(s, acts[0]), acts[1..]);
    }
  }

  lemma ReachedAccounted(session: bool, acts: seq<Action>, t: State)
    requires Reached(session, acts, t)
    ensures Accounted(t)
  {
    StartSound(session);
    RunSound(Start(session), acts);
  }

  /** Exact accounting in every reachable state, the daemon's sweep included: the table holds the
      counted nodes, the failed creates, and what is in flight between registering and counting,
      between decrementing and removing, and in a setup; the 32-bit counter is the counted nodes less
      the orphaned closes and the sweep's own, wrapped. */
  lemma ExactAccounting(session: bool, acts: seq<Action>, t: State)
    requires Reached(session, acts, t)
    ensures |t.sh.table| == |Live(t.calls)| - |Orphans(t.calls)|
                            + Count(t.calls, FailedCreate) + Count(t.calls, InCreate)
                            + Count(t.calls, BetweenDecrementAndRemoval) + Count(t.calls, InSetup)
    ensures t.sh.nc == Wrap32(|Live(t.calls)| - |Orphans(t.calls)| - |SweptOff(t.sweep)|)
  {
    ReachedAccounted(session, acts, t);
  }

  /** Within the counter's width, nc is the number of nodes counted and not closed by the host exactly
      when no close has decremented it for a node that was never counted and no sweep has at all. */
  lemma CounterIsLiveIff(session: bool, acts: seq<Action>, t: State)
    requires Reached(session, acts, t)
    requires |Live(t.calls)| < TWO_31 && |Orphans(t.calls)| + |SweptOff(t.sweep)| < TWO_31
    ensures t.sh.nc == |Live(t.calls)| <==> Orphans(t.calls) == {} && SweptOff(t.sweep) == []
  {
    ReachedAccounted(session, acts, t);
    EmptyIff(Live(t.calls), Orphans(t.calls), SweptOff(t.sweep), t.sh.nc);
  }

  lemma EmptyIff(live: set<Guid>, orphans: set<Guid>, swept: seq<Guid>, nc: int)
    requires |live| < TWO_31 && |orphans| + |swept| < TWO_31 && nc == Wrap32(|live| - |orphans| - |swept|)
    ensures nc == |live| <==> orphans == {} && swept == []
  {}

  ghost predicate NoTrace(t: State) {
    forall i <- t.calls :: t.calls[i].Setup? && Returned(t.calls[i]) ==>
      var g := t.calls[i].guid; g !in t.sh.table && g !in Live(t.calls) && g !in Orphans(t.calls)
  }

  /** A finished setup leaves no trace: its guid is out of the table and never moved the counter. */
  lemma SetupLeavesNoTrace(session: bool, acts: seq<Action>, t: State)
    requires Reached(session, acts, t)
    ensures NoTrace(t)
  {
    StartSound(session);
    RunNoTrace(Start(session), acts);
  }

  lemma RunNoTrace(s: State, acts: seq<Action>)
    requires Sound(s) && Runs(s, acts) && DisciplinedRun(s, acts)
    ensures NoTrace(Run(s, acts))
  {
    RunSound(s, acts);
    SoundNoTrace(Run(s, acts));
  }

  lemma SoundNoTrace(t: State)
    requires OneOwner(t.calls) && TableExact(t)
    ensures NoTrace(t)
  {
    forall i <- t.calls | t.calls[i].Setup? && Returned(t.calls[i])
      ensures var g := t.calls[i].guid; g !in t.sh.table && g !in Live(t.calls) && g !in Orphans(t.calls)
    {
      UnownedAbsent(t, i);
    }
  }

  lemma UnownedAbsent(t: State, id: CallId)
    requires OneOwner(t.calls) && TableExact(t)
    requires id in t.calls && t.calls[id].Setup? && !Registering(t.calls[id])
    ensures var g := t.calls[id].guid; g !in t.sh.table && g !in Live(t.calls) && g !in Orphans(t.calls)
  {
    var c := t.calls[id];
    Alone(t.calls, id);
    SomeUpdate(t.calls, id, c, Registering, c.guid);
    LiveAt(t.calls, c.guid);
  }

  // ----- Careful hosts -----

  /** Every close belongs to a node that was counted, and no create lost its handler. */
  ghost predicate ClosesCounted(calls: map<CallId, Call>) {
    && (forall i <- calls :: calls[i].Close? ==> Some(calls, CountedCreate, calls[i].guid))
    && (forall i <- calls :: calls[i].Create? ==> !calls[i].create.CreatePanicked?)
  }

  lemma NoOrphans(calls: map<CallId, Call>)
    requires ClosesCounted(calls)
    ensures Orphans(calls) == {}
  {}

  lemma CountedStays(s: State, a: Action, g: Guid)
    requires Enabled(s, a)
    ensures Some(s.calls, CountedCreate, g) ==> Some(Next(s, a).calls, CountedCreate, g)
  {
    match a
    case Advance(id, ok) =>
      var c' := After(s.sh, s.calls[id], ok);
      CounterEffect(s.sh, s.calls[id], ok);
      AfterSame(s.sh, s.calls[id], ok);
      SomeUpdate(s.calls, id, c', CountedCreate, g);
    case Arrive(id, c) => SomeUpdate(s.calls, id, c, CountedCreate, g);
    case _ =>
  }

  lemma NoPanic(s: State, id: CallId, ok: bool)
    requires OneOwner(s.calls) && TableExact(s) && ClosesCounted(s.calls) && Enabled(s, Advance(id, ok))
    ensures var c' := After(s.sh, s.calls[id], ok); c'.Create? ==> !c'.create.CreatePanicked?
  {
    var c := s.calls[id];
    if c.Create? && c.create.Registered? {
      Alone(s.calls, id);
      SomeUpdate(s.calls, id, c, CountedCreate, c.guid);
      assert !Some(s.calls, PastRemoval, c.guid);
      assert Some(s.calls, Registering, c.guid);
    }
  }

  lemma StepClosesCounted(s: State, a: Action)
    requires OneOwner(s.calls) && TableExact(s) && ClosesCounted(s.calls) && Enabled(s, a) && Careful(s, a)
    ensures ClosesCounted(Next(s, a).calls)
  {
    var t := Next(s, a);
    if a.Advance? {
      NoPanic(s, a.id, a.ok);
      AfterSame(s.sh, s.calls[a.id], a.ok);
    }
    forall i <- t.calls | t.calls[i].Close?
      ensures Some(t.calls, CountedCreate, t.calls[i].guid)
    {
      var g := t.calls[i].guid;
      CountedStays(s, a, g);
      if a.Arrive? && i == a.id {
        var k :| k in s.calls && s.calls[k] == Create(g, Counted);
        assert CountedCreate(s.calls[k]);
      }
    }
  }

  /** If a node was counted and none is live, a close has signalled or a closer is still on its way to
      reading the counter. */
  ghost predicate NotMissed(s: State) {
    !s.sh.session && Ids(s.calls, CountedCreate) != {} && Live(s.calls) == {} ==>
      s.sh.pending + s.sh.received > s.sh.others || Ids(s.calls, Unfinished) != {}
  }

  /** A closer that stops being unfinished while the counter is zero has signalled. */
  lemma FinishSignals(sh: Shared, c: Call, ok: bool)
    requires CanAdvance(sh, c) && Unfinished(c) && !Unfinished(After(sh, c, ok)) && sh.nc == 0
    ensures !sh.session ==> Effect(sh, c, ok).pending == sh.pending + 1
  {}

  lemma SignalsStay(sh: Shared, c: Call, ok: bool)
    requires CanAdvance(sh, c)
    ensures Effect(sh, c, ok).pending >= sh.pending && Effect(sh, c, ok).received == sh.received
    ensures Effect(sh, c, ok).session == sh.session && Effect(sh, c, ok).others == sh.others
  {}

  lemma SameIds(calls: map<CallId, Call>, id: CallId, c: Call, p: Call -> bool)
    requires p(c) == (id in calls && p(calls[id]))
    ensures Ids(calls[id := c], p) == Ids(calls, p)
  {}

  lemma AdvanceNotMissed(s: State, id: CallId, ok: bool)
    requires OneOwner(s.calls) && Counting(s) && Orphans(s.calls) == {}
    requires NotMissed(s) && Enabled(s, Advance(id, ok))
    ensures NotMissed(Next(s, Advance(id, ok)))
  {
    var c := s.calls[id];
    var c' := After(s.sh, c, ok);
    CounterEffect(s.sh, c, ok);
    AfterSame(s.sh, c, ok);
    SignalsStay(s.sh, c, ok);
    if Increments(c) {
      IncrementMoves(s.calls, id, c');
    } else if Unfinished(c') {
      assert id in Ids(s.calls[id := c'], Unfinished);
    } else {
      OtherwiseStill(s.calls, id, c');
      SameIds(s.calls, id, c', CountedCreate);
      if !Unfinished(c) {
        SameIds(s.calls, id, c', Unfinished);
      } else if Live(s.calls) == {} && !s.sh.session {
        NothingLive(s);
        FinishSignals(s.sh, c, ok);
      }
    }
  }

  /** Outside session mode the counter is the balance of the RPCs. */
  ghost predicate Counting(s: State) {
    Ordinary(s) && s.sh.nc == Wrap32(CounterValue(s))
  }

  lemma NothingLive(s: State)
    requires Counting(s) && !s.sh.session && Orphans(s.calls) == {} && Live(s.calls) == {}
    ensures s.sh.nc == 0
  {}

  lemma StepNotMissed(s: State, a: Action)
    requires Sound(s) && ClosesCounted(s.calls) && NotMissed(s) && Enabled(s, a) && Careful(s, a)
    ensures NotMissed(Next(s, a))
  {
    match a
    case Advance(id, ok) =>
      NoOrphans(s.calls);
      AdvanceNotMissed(s, id, ok);
    case Arrive(id, c) =>
      ArriveBalance(s, id, c);
      SameIds(s.calls, id, c, CountedCreate);
      SameIds(s.calls, id, c, Unfinished);
    case _ =>
  }

  ghost predicate Kept(s: State) {
    Sound(s) && ClosesCounted(s.calls) && NotMissed(s)
  }

  lemma OneStepKept(s: State, a: Action)
    requires Kept(s) && Enabled(s, a) && Careful(s, a)
    ensures Kept(Next(s, a))
  {
    StepOneOwner(s, a);
    StepTable(s, a);
    StepAccounted(s, a);
    StepOrdinary(s, a);
    StepClosesCounted(s, a);
    StepNotMissed(s, a);
  }

  lemma {:induction false} RunKept(s: State, acts: seq<Action>)
    requires Kept(s) && Runs(s, acts) && CarefulRun(s, acts)
    ensures Kept(Run(s, acts))
    decreases |acts|
  {
    if acts != [] {
      OneStepKept(s, acts[0]);
      RunKept(Next(s, acts[0]), acts[1..]);
    }
  }

  lemma StartKept(session: bool)
    ensures Kept(Start(session))
  {
    StartSound(session);
    assert Ids(Start(session).calls, CountedCreate) == {};
  }

  lemma CarefulFacts(session: bool, acts: seq<Action>, t: State)
    requires CarefullyReached(session, acts, t)
    ensures Accounted(t) && Ordinary(t) && Orphans(t.calls) == {} && NotMissed(t)
    ensures t.sh.session == session
    ensures forall i <- t.calls :: t.calls[i].Create? ==> !t.calls[i].create.CreatePanicked?
  {
    StartKept(session);
    RunKept(Start(session), acts);
    RunSession(Start(session), acts);
    NoOrphans(t.calls);
  }

  /** Under a careful host the counter is the number of live nodes less what a sweep took off, which
      is nothing outside session mode; so it is never negative in a plugin, and negative in a daemon
      exactly when the sweep took off more nodes than are live. OnCreate's unchecked use of the
      looked-up handler is always safe. */
  lemma CounterIsLive(session: bool, acts: seq<Action>, t: State)
    requires CarefullyReached(session, acts, t)
    ensures t.sh.nc == Wrap32(|Live(t.calls)| - |SweptOff(t.sweep)|)
    ensures !session ==> SweptOff(t.sweep) == []
    ensures |t.sh.table| < TWO_31 && |SweptOff(t.sweep)| < TWO_31 ==>
              && t.sh.nc == |Live(t.calls)| - |SweptOff(t.sweep)|
              && (t.sh.nc < 0 <==> |Live(t.calls)| < |SweptOff(t.sweep)|)
    ensures forall i <- t.calls :: t.calls[i].Create? ==> !t.calls[i].create.CreatePanicked?
  {
    CarefulFacts(session, acts, t);
  }

  /** Never missed: outside session mode, once every call has returned with no node live, some close has
      signalled done, provided some node was ever counted. */
  lemma ShutdownNotMissed(acts: seq<Action>, t: State)
    requires CarefullyReached(false, acts, t)
    requires forall i <- t.calls :: Returned(t.calls[i])
    requires exists i <- t.calls :: CountedCreate(t.calls[i])
    requires Live(t.calls) == {}
    ensures t.sh.pending + t.sh.received > t.sh.others
  {
    CarefulFacts(false, acts, t);
    var i :| i in t.calls && CountedCreate(t.calls[i]);
    assert i in Ids(t.calls, CountedCreate);
    assert forall j <- t.calls :: !Unfinished(t.calls[j]);
  }

  lemma {:induction false} RunSession(s: State, acts: seq<Action>)
    requires Runs(s, acts)
    ensures Run(s, acts).sh.session == s.sh.session
    decreases |acts|
  {
    if acts != [] {
      RunSession(Next(s, acts[0]), acts[1..]);
    }
  }

  /** Never early: a close decides to signal exactly when, outside session mode, no node is live at
      the moment it reads the counter. */
  lemma ShutdownNotEarly(session: bool, acts: seq<Action>, t: State, id: CallId)
    requires CarefullyReached(session, acts, t) && |t.sh.table| < TWO_31
    requires id in t.calls && t.calls[id].Close? && t.calls[id].close.Removed?
    ensures After(t.sh, t.calls[id], true).close.Signalling? <==> !session && Live(t.calls) == {}
  {
    CarefulFacts(session, acts, t);
  }

  lemma BalancedIff(live: nat, orphans: nat)
    requires live < TWO_31 && orphans < TWO_31
    ensures Wrap32(live - orphans) == 0 <==> live == orphans
  {}

  lemma DecidesIff(sh: Shared, c: Call)
    requires c.Close? && c.close.Removed?
    ensures After(sh, c, true).close.Signalling? <==> !sh.session && sh.nc == 0
  {}

  /** The exact decision for any disciplined host: outside session mode a close that reads the counter
      signals exactly when as many nodes are live as closes hit a node that was never counted. */
  lemma SignalsIff(session: bool, acts: seq<Action>, t: State, id: CallId)
    requires Reached(session, acts, t) && |Live(t.calls)| < TWO_31 && |Orphans(t.calls)| < TWO_31
    requires id in t.calls && t.calls[id].Close? && t.calls[id].close.Removed?
    ensures After(t.sh, t.calls[id], true).close.Signalling? <==> !session && |Live(t.calls)| == |Orphans(t.calls)|
  {
    ReachedCounting(session, acts, t);
    DecidesIff(t.sh, t.calls[id]);
    BalancedIff(|Live(t.calls)|, |Orphans(t.calls)|);
  }

  lemma ReachedCounting(session: bool, acts: seq<Action>, t: State)
    requires Reached(session, acts, t)
    ensures t.sh.session == session
    ensures !session ==> t.sh.nc == Wrap32(|Live(t.calls)| - |Orphans(t.calls)|)
  {
    ReachedAccounted(session, acts, t);
    RunSession(Start(session), acts);
    RunOrdinary(Start(session), acts);
  }

  lemma {:induction false} RunOrdinary(s: State, acts: seq<Action>)
    requires Ordinary(s) && Runs(s, acts)
    ensures Ordinary(Run(s, acts))
    decreases |acts|
  {
    if acts != [] {
      StepOrdinary(s, acts[0]);
      RunOrdinary(Next(s, acts[0]), acts[1..]);
    }
  }

  /** In session mode OnClose never signals done, whatever the host does. */
  lemma {:induction false} SessionNeverSignals(s: State, acts: seq<Action>)
    requires Runs(s, acts) && s.sh.session && s.sh.pending == 0 && s.sh.received == 0
    requires forall i <- s.calls :: s.calls[i].Close? ==> !s.calls[i].close.Signalling?
    ensures var t := Run(s, acts);
            && t.sh.pending == 0 && t.sh.received == 0
            && (forall i <- t.calls :: t.calls[i].Close? ==> !t.calls[i].close.Signalling?)
    decreases |acts|
  {
    if acts != [] {
      SessionNeverSignals(Next(s, acts[0]), acts[1..]);
    }
  }

  predicate NoIncrement(s: State, acts: seq<Action>)
    requires Runs(s, acts)
    decreases |acts|
  {
    acts == [] ||
    (!(acts[0].Advance? && Increments(s.calls[acts[0].id])) && NoIncrement(Next(s, acts[0]), acts[1..]))
  }

  /** Between reading zero and sending, the process stays without live nodes as long as no create is
      counted in between. */
  lemma {:induction false} QuietWindow(s: State, acts: seq<Action>)
    requires OneOwner(s.calls) && Live(s.calls) == {}
    requires Runs(s, acts) && DisciplinedRun(s, acts) && NoIncrement(s, acts)
    ensures Live(Run(s, acts).calls) == {}
    decreases |acts|
  {
    if acts != [] {
      var a := acts[0];
      StepOneOwner(s, a);
      match a {
        case Advance(id, ok) =>
          CounterEffect(s.sh, s.calls[id], ok);
          AfterSame(s.sh, s.calls[id], ok);
          if Decrements(s.calls[id]) {
            DecrementMoves(s.calls, id, After(s.sh, s.calls[id], ok));
          } else {
            OtherwiseStill(s.calls, id, After(s.sh, s.calls[id], ok));
          }
        case Arrive(id, c) => ArriveBalance(s, id, c);
        case _ =>
      }
      QuietWindow(Next(s, a), acts[1..]);
    }
  }

  /** Creates counted, and closes that decremented the counter, along a run. */
  function Tally(s: State, acts: seq<Action>, p: Call -> bool): nat
    requires Runs(s, acts)
    decreases |acts|
  {
    if acts == [] then 0
    else One(acts[0].Advance? && p(s.calls[acts[0].id])) + Tally(Next(s, acts[0]), acts[1..], p)
  }

  lemma LiveStep(s: State, a: Action)
    requires OneOwner(s.calls) && TableExact(s) && ClosesCounted(s.calls) && Enabled(s, a) && Careful(s, a)
    ensures |Live(Next(s, a).calls)| ==
            |Live(s.calls)| + One(a.Advance? && Increments(s.calls[a.id])) - One(a.Advance? && Decrements(s.calls[a.id]))
  {
    StepClosesCounted(s, a);
    NoOrphans(s.calls);
    NoOrphans(Next(s, a).calls);
    match a
    case Advance(id, ok) => BalanceMoves(s, id, ok);
    case Arrive(id, c) => ArriveBalance(s, id, c);
    case _ =>
  }

  /** Conservation: over any stretch of a run the live nodes change by the creates counted in it less
      the closes that decremented in it. */
  lemma {:induction false} LiveConserved(s: State, acts: seq<Action>)
    requires Kept(s) && Runs(s, acts) && CarefulRun(s, acts)
    ensures |Live(Run(s, acts).calls)| == |Live(s.calls)| + Tally(s, acts, Increments) - Tally(s, acts, Decrements)
    decreases |acts|
  {
    if acts != [] {
      LiveStep(s, acts[0]);
      OneStepKept(s, acts[0]);
      LiveConserved(Next(s, acts[0]), acts[1..]);
    }
  }

  // ----- A node whose handler is gone -----

  /** No create or setup registers a handler for the guid. */
  predicate NeverRegisters(s: State, acts: seq<Action>, g: Guid)
    requires Runs(s, acts)
    decreases |acts|
  {
    acts == [] || (!RegistersNow(s, acts[0], g) && NeverRegisters(Next(s, acts[0]), acts[1..], g))
  }

  predicate RegistersNow(s: State, a: Action, g: Guid)
    requires Enabled(s, a)
  {
    a.Advance? && g !in s.sh.table && g in Effect(s.sh, s.calls[a.id], a.ok).table
  }

  /** The guid is not registered, and neither a close nor the sweep holds its handler. */
  ghost predicate Stranded(s: State, g: Guid) {
    && g !in s.sh.table
    && !Some(s.calls, Decrements, g)
    && (s.sweep.Holding? ==> s.sweep.guid != g)
  }

  lemma StrandedAdvance(s: State, id: CallId, ok: bool, g: Guid)
    requires Stranded(s, g) && Enabled(s, Advance(id, ok)) && !RegistersNow(s, Advance(id, ok), g)
    ensures Stranded(Next(s, Advance(id, ok)), g)
    ensures g in Live(s.calls) ==> g in Live(Next(s, Advance(id, ok)).calls)
  {
    var c, c' := s.calls[id], After(s.sh, s.calls[id], ok);
    AfterSame(s.sh, c, ok);
    CounterEffect(s.sh, c, ok);
    StepSome(s.calls, id, c', Decrements, g);
    BothAt(s.calls, id, c', g);
  }

  lemma StrandedStep(s: State, a: Action, g: Guid)
    requires Stranded(s, g) && Enabled(s, a) && !RegistersNow(s, a, g)
    ensures Stranded(Next(s, a), g)
    ensures g in Live(s.calls) ==> g in Live(Next(s, a).calls)
    ensures g in SweptOff(Next(s, a).sweep) ==> g in SweptOff(s.sweep)
  {
    match a
    case Advance(id, ok) => StrandedAdvance(s, id, ok, g);
    case Arrive(id, c) =>
      SomeUpdate(s.calls, id, c, Decrements, g);
      ArriveBalance(s, id, c);
    case _ =>
  }

  /** Once a counted node's handler is gone and no close holds it, nothing takes the node off the counter in
      any continuation that does not register the guid again: it stays live, and no sweep counts it. */
  lemma {:induction false} StrandedForGood(s: State, acts: seq<Action>, g: Guid)
    requires Stranded(s, g) && Runs(s, acts) && NeverRegisters(s, acts, g)
    ensures g in Live(s.calls) ==> g in Live(Run(s, acts).calls)
    ensures g in SweptOff(Run(s, acts).sweep) ==> g in SweptOff(s.sweep)
    decreases |acts|
  {
    if acts != [] {
      StrandedStep(s, acts[0], g);
      StrandedForGood(Next(s, acts[0]), acts[1..], g);
    }
  }

  /** That is what a setup does to a running node whose guid it reuses: when it ends, in any state in which
      no close and no sweep holds the handler, the node stays live in every continuation without a new
      registration. */
  lemma SetupStrandsNode(s: State, id: CallId, ok: bool, acts: seq<Action>)
    requires id in s.calls && s.calls[id].Setup? && s.calls[id].setup.SettingUp? && s.calls[id].guid in Live(s.calls)
    requires !Some(s.calls, Decrements, s.calls[id].guid)
    requires s.sweep.Holding? ==> s.sweep.guid != s.calls[id].guid
    requires Runs(Next(s, Advance(id, ok)), acts) && NeverRegisters(Next(s, Advance(id, ok)), acts, s.calls[id].guid)
    ensures s.calls[id].guid in Live(Run(Next(s, Advance(id, ok)), acts).calls)
  {
    var g := s.calls[id].guid;
    var c' := After(s.sh, s.calls[id], ok);
    StepSome(s.calls, id, c', Decrements, g);
    OtherwiseStill(s.calls, id, c');
    StrandedForGood(Next(s, Advance(id, ok)), acts, g);
  }
}

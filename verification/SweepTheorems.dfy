/** The daemon's inactivity sweep beside the RPCs, in every interleaving: whom it closes, what it does to
    the counter, and when a handler is closed twice. */
module SweepTheorems {
  import opened Lifecycle
  import opened Shutdown
  import opened ShutdownTheorems

  // ----- The sweep closes each guid at most once -----

  predicate Once(sw: Sweep) {
    NoRepeats(SweepRan(sw) + ToDo(sw))
  }

  lemma StepOnce(s: State, a: Action)
    requires Once(s.sweep) && Enabled(s, a)
    ensures Once(Next(s, a).sweep)
  {
    match a
    case SweepBegin(order) => assert [] + order == order;
    case SweepNext => NextOnce(s.sweep, s.sh.table);
    case _ =>
  }

  lemma NextOnce(sw: Sweep, table: set<Guid>)
    requires Once(sw) && SweepCanMove(sw)
    ensures Once(SweepAfter(sw, table))
  {
    var all := SweepRan(sw) + ToDo(sw);
    if sw.Looking? {
      var g, rest := sw.todo[0], sw.todo[1..];
      assert all == sw.done + [g] + rest;
      Without(sw.done, g, rest);
    }
  }

  lemma Without(xs: seq<Guid>, g: Guid, ys: seq<Guid>)
    requires NoRepeats(xs + [g] + ys)
    ensures NoRepeats(xs + ys)
  {
    var all, some := xs + [g] + ys, xs + ys;
    forall i, j | 0 <= i < j < |some|
      ensures some[i] != some[j]
    {
      var i', j' := if i < |xs| then i else i + 1, if j < |xs| then j else j + 1;
      assert all[i'] == some[i] && all[j'] == some[j];
    }
  }

  /** What the sweep has run stays run, and what it has passed over is never run. */
  lemma StepSwept(s: State, a: Action, g: Guid)
    requires Enabled(s, a)
    ensures g in SweepRan(s.sweep) ==> g in SweepRan(Next(s, a).sweep)
    ensures !s.sweep.NotSwept? && g !in SweepRan(s.sweep) && g !in ToDo(s.sweep) ==>
              var sw := Next(s, a).sweep; !sw.NotSwept? && g !in SweepRan(sw) && g !in ToDo(sw)
  {}

  lemma {:induction false} RunSwept(s: State, acts: seq<Action>, g: Guid)
    requires Runs(s, acts)
    ensures g in SweepRan(s.sweep) ==> g in SweepRan(Run(s, acts).sweep)
    ensures !s.sweep.NotSwept? && g !in SweepRan(s.sweep) && g !in ToDo(s.sweep) ==> g !in SweepRan(Run(s, acts).sweep)
    decreases |acts|
  {
    if acts != [] {
      StepSwept(s, acts[0], g);
      RunSwept(Next(s, acts[0]), acts[1..], g);
    }
  }

  // ----- Every listed guid is accounted for -----

  predicate IsSetup(c: Call) { c.Setup? }

  /** A listed guid is still registered, or a close removed it, or it was a setup's. */
  ghost predicate Explained(s: State) {
    forall g <- ToDo(s.sweep) :: g in s.sh.table || Some(s.calls, PastRemoval, g) || Some(s.calls, IsSetup, g)
  }

  lemma Leaves(s: State, id: CallId, ok: bool, g: Guid)
    requires Enabled(s, Advance(id, ok)) && g in s.sh.table && g !in Effect(s.sh, s.calls[id], ok).table
    ensures var c' := After(s.sh, s.calls[id], ok); c'.guid == g && (PastRemoval(c') || IsSetup(c'))
  {}

  lemma StaysExplained(s: State, id: CallId, ok: bool, g: Guid)
    requires Enabled(s, Advance(id, ok))
    requires g in s.sh.table || Some(s.calls, PastRemoval, g) || Some(s.calls, IsSetup, g)
    ensures var t := Next(s, Advance(id, ok));
            g in t.sh.table || Some(t.calls, PastRemoval, g) || Some(t.calls, IsSetup, g)
  {
    var c, c' := s.calls[id], After(s.sh, s.calls[id], ok);
    AfterSame(s.sh, c, ok);
    TableEffect(s.sh, c, ok);
    StepSome(s.calls, id, c', PastRemoval, g);
    StepSome(s.calls, id, c', IsSetup, g);
    if g in s.sh.table && g !in Effect(s.sh, c, ok).table {
      Leaves(s, id, ok, g);
    }
  }

  lemma StepExplained(s: State, a: Action)
    requires Explained(s) && Enabled(s, a)
    ensures Explained(Next(s, a))
  {
    var t := Next(s, a);
    forall g <- ToDo(t.sweep)
      ensures g in t.sh.table || Some(t.calls, PastRemoval, g) || Some(t.calls, IsSetup, g)
    {
      match a
      case Advance(id, ok) => StaysExplained(s, id, ok, g);
      case Arrive(id, c) =>
        SomeUpdate(s.calls, id, c, PastRemoval, g);
        SomeUpdate(s.calls, id, c, IsSetup, g);
      case SweepBegin(order) => assert g in SetOf(order);
      case SweepNext => assert g in ToDo(s.sweep);
      case _ =>
    }
  }

  ghost predicate Sweepable(s: State) {
    OneOwner(s.calls) && TableExact(s) && Once(s.sweep) && Explained(s)
  }

  lemma {:induction false} RunSweepable(s: State, acts: seq<Action>)
    requires Sweepable(s) && Runs(s, acts) && DisciplinedRun(s, acts)
    ensures Sweepable(Run(s, acts))
    decreases |acts|
  {
    if acts != [] {
      StepOneOwner(s, acts[0]);
      StepTable(s, acts[0]);
      StepOnce(s, acts[0]);
      StepExplained(s, acts[0]);
      RunSweepable(Next(s, acts[0]), acts[1..]);
    }
  }

  lemma ReachedSweepable(session: bool, acts: seq<Action>, t: State)
    requires Reached(session, acts, t)
    ensures Sweepable(t)
  {
    StartSound(session);
    RunSweepable(Start(session), acts);
  }

  // ----- What the sweep does -----

  /** In every interleaving the sweep runs a handler's OnClose, and takes it off the counter, at most
      once per guid. */
  lemma SweepAtMostOnce(session: bool, acts: seq<Action>, t: State)
    requires Reached(session, acts, t)
    ensures NoRepeats(SweepRan(t.sweep)) && SweptOff(t.sweep) <= SweepRan(t.sweep)
  {
    ReachedSweepable(session, acts, t);
    var ran, all := SweepRan(t.sweep), SweepRan(t.sweep) + ToDo(t.sweep);
    forall i, j | 0 <= i < j < |ran|
      ensures ran[i] != ran[j]
    {
      assert all[i] == ran[i] && all[j] == ran[j];
    }
  }

  predicate SetupGone(c: Call) { c.Setup? && !InSetup(c) }

  /** At its turn for a guid the sweep closes its handler exactly when no close has removed it and it was
      not a setup's that is over; a failed create's handler and a running setup's are closed as well. */
  lemma SweepFindsIff(session: bool, acts: seq<Action>, s: State)
    requires Reached(session, acts, s) && s.sweep.Looking? && s.sweep.todo != []
    ensures var g := s.sweep.todo[0];
            SweepAfter(s.sweep, s.sh.table).Holding? <==> !Some(s.calls, PastRemoval, g) && !Some(s.calls, SetupGone, g)
  {
    var g := s.sweep.todo[0];
    ReachedSweepable(session, acts, s);
    assert g in ToDo(s.sweep);
    if Some(s.calls, IsSetup, g) {
      var i :| i in s.calls && IsSetup(s.calls[i]) && s.calls[i].guid == g;
      Alone(s.calls, i);
      SomeUpdate(s.calls, i, s.calls[i], Registering, g);
      SomeUpdate(s.calls, i, s.calls[i], PastRemoval, g);
    }
  }

  function SweepTally(s: State, acts: seq<Action>): nat
    requires Runs(s, acts)
    decreases |acts|
  {
    if acts == [] then 0
    else One(acts[0].SweepNext? && s.sweep.Holding?) + SweepTally(Next(s, acts[0]), acts[1..])
  }

  /** Over any stretch of any run the counter moves by exactly the creates counted, less the closes that
      decremented, less the sweep's own decrements, wrapped. */
  lemma {:induction false} CounterConserved(s: State, acts: seq<Action>, n: int)
    requires Runs(s, acts) && s.sh.nc == Wrap32(n)
    ensures Run(s, acts).sh.nc ==
            Wrap32(n + Tally(s, acts, Increments) - Tally(s, acts, Decrements) - SweepTally(s, acts))
    ensures |SweptOff(Run(s, acts).sweep)| == |SweptOff(s.sweep)| + SweepTally(s, acts)
    decreases |acts|
  {
    if acts != [] {
      var a := acts[0];
      Wrap32Add(n, 1);
      Wrap32Add(n, -1);
      if a.Advance? {
        CounterEffect(s.sh, s.calls[a.id], a.ok);
      }
      CounterConserved(Next(s, a), acts[1..], n + StepDelta(s, a));
    }
  }

  function StepDelta(s: State, a: Action): int
    requires Enabled(s, a)
  {
    match a
    case Advance(id, _) => One(Increments(s.calls[id])) - One(Decrements(s.calls[id]))
    case SweepNext => if s.sweep.Holding? then -1 else 0
    case _ => 0
  }

  // ----- When a handler is closed twice -----

  /** A close that found the handler, and so has run its OnClose or is running it. */
  predicate RanClose(c: Call) { HoldsHandler(c) || PastRemoval(c) }

  /** The handler's OnClose was run by the sweep and by a close. */
  ghost predicate ClosedTwice(t: State, g: Guid) {
    g in SweepRan(t.sweep) && Some(t.calls, RanClose, g)
  }

  /** A close of the guid that found the handler by `t`, although it had not removed it by `s`. */
  ghost predicate OverlapsOrFollows(s: State, t: State, g: Guid) {
    exists id <- t.calls :: t.calls[id].guid == g && RanClose(t.calls[id]) && !(id in s.calls && PastRemoval(s.calls[id]))
  }

  lemma {:induction false} CallsPersist(s: State, acts: seq<Action>, id: CallId)
    requires Runs(s, acts) && id in s.calls
    ensures var t := Run(s, acts);
            id in t.calls && SameKind(s.calls[id], t.calls[id])
    decreases |acts|
  {
    if acts != [] {
      if acts[0].Advance? && acts[0].id == id {
        AfterSame(s.sh, s.calls[id], acts[0].ok);
      }
      CallsPersist(Next(s, acts[0]), acts[1..], id);
    }
  }

  /** From the sweep's turn for a guid on, it has run the handler's OnClose exactly if it found it then. */
  lemma TurnDecides(s: State, after: seq<Action>)
    requires Once(s.sweep) && s.sweep.Looking? && s.sweep.todo != [] && Runs(Next(s, SweepNext), after)
    ensures var g := s.sweep.todo[0]; g in SweepRan(Run(Next(s, SweepNext), after).sweep) <==> g in s.sh.table
  {
    var g := s.sweep.todo[0];
    var s1 := Next(s, SweepNext);
    RunSwept(s1, after, g);
    if g in s.sh.table {
      assert g in SweepRan(s1.sweep);
    } else {
      var all := s.sweep.done + s.sweep.todo;
      assert all[|s.sweep.done|] == g;
      assert forall i :: 0 <= i < |s.sweep.done| ==> all[i] == s.sweep.done[i];
      assert forall i :: 0 < i < |s.sweep.todo| ==> all[|s.sweep.done| + i] == s.sweep.todo[i];
    }
  }

  /** A close that is not past removal at the sweep's turn leaves the node's handler in the table. */
  lemma StillThere(s: State, after: seq<Action>, id: CallId)
    requires Sweepable(s) && s.sweep.Looking? && s.sweep.todo != [] && Runs(s, after)
    requires var t := Run(s, after);
             && OneOwner(t.calls) && id in t.calls && t.calls[id].Close? && t.calls[id].guid == s.sweep.todo[0]
    requires !(id in s.calls && PastRemoval(s.calls[id]))
    ensures s.sweep.todo[0] in s.sh.table
  {
    var g := s.sweep.todo[0];
    assert g in ToDo(s.sweep);
    if Some(s.calls, PastRemoval, g) {
      var j :| j in s.calls && PastRemoval(s.calls[j]) && s.calls[j].guid == g;
      CallsPersist(s, after, j);
    }
    if Some(s.calls, IsSetup, g) {
      var j :| j in s.calls && IsSetup(s.calls[j]) && s.calls[j].guid == g;
      CallsPersist(s, after, j);
    }
  }

  /** In every interleaving a handler's OnClose has run twice exactly when a close of that guid overlaps
      the sweep's turn for it or follows it: the close finds the handler, and had not removed it when the
      sweep looked. */
  lemma ClosedTwiceIff(before: seq<Action>, s: State, after: seq<Action>)
    requires Reached(true, before, s) && s.sweep.Looking? && s.sweep.todo != []
    requires Runs(s, [SweepNext] + after) && DisciplinedRun(s, [SweepNext] + after)
    ensures var t, g := Run(s, [SweepNext] + after), s.sweep.todo[0];
            ClosedTwice(t, g) <==> OverlapsOrFollows(s, t, g)
  {
    var acts, t, g := [SweepNext] + after, Run(s, [SweepNext] + after), s.sweep.todo[0];
    assert acts[1..] == after;
    ReachedSweepable(true, before, s);
    RunSweepable(s, acts);
    TurnDecides(s, after);
    if ClosedTwice(t, g) {
      var id :| id in t.calls && RanClose(t.calls[id]) && t.calls[id].guid == g;
      assert !Some(s.calls, PastRemoval, g);
      if id in s.calls {
        CallsPersist(s, acts, id);
      }
    }
    if OverlapsOrFollows(s, t, g) {
      var id :| id in t.calls && t.calls[id].guid == g && RanClose(t.calls[id]) && !(id in s.calls && PastRemoval(s.calls[id]));
      StillThere(s, acts, id);
    }
  }
}

/** What every interleaving of the lifecycle protocol keeps: exact accounting of the handler table
    against the counter, and a shutdown signal that is neither early nor missed. */
module Shutdown {
  import opened Lifecycle

  // ----- Where a call stands -----

  predicate InCreate(c: Call) { c.Create? && (c.create.Registered? || c.create.Created?) }

  predicate FailedCreate(c: Call) { c.Create? && (c.create.CreateFailed? || c.create.CreatePanicked?) }

  predicate CountedCreate(c: Call) { c.Create? && c.create.Counted? }

  predicate InSetup(c: Call) { c.Setup? && (c.setup.SetupRegistered? || c.setup.SettingUp?) }

  predicate Registering(c: Call) {
    InCreate(c) || CountedCreate(c) || InSetup(c) || (c.Create? && c.create.CreateFailed?)
  }

  predicate EverRegistered(c: Call) { c.Create? && !c.create.CreateWaiting? && !c.create.CreateRefused? }

  predicate HoldsHandler(c: Call) { c.Close? && (c.close.Closing? || c.close.Decremented?) }

  predicate BetweenDecrementAndRemoval(c: Call) { c.Close? && c.close.Decremented? }

  predicate PastRemoval(c: Call) { c.Close? && (c.close.Removed? || c.close.Signalling? || c.close.Closed?) }

  predicate PastDecrement(c: Call) { BetweenDecrementAndRemoval(c) || PastRemoval(c) }

  predicate Unfinished(c: Call) { c.Close? && (c.close.Decremented? || c.close.Removed? || c.close.Signalling?) }

  predicate Some(calls: map<CallId, Call>, p: Call -> bool, g: Guid) {
    exists i <- calls :: p(calls[i]) && calls[i].guid == g
  }

  function Ids(calls: map<CallId, Call>, p: Call -> bool): set<CallId> {
    set i <- calls | p(calls[i])
  }

  function Count(calls: map<CallId, Call>, p: Call -> bool): nat {
    |Ids(calls, p)|
  }

  function One(b: bool): nat { if b then 1 else 0 }

  lemma SetWithout(before: set<CallId>, after: set<CallId>, id: CallId)
    requires before - {id} == after - {id}
    ensures |after| == |before| - One(id in before) + One(id in after)
  {
    assert before == (before - {id}) + (if id in before then {id} else {});
    assert after == (after - {id}) + (if id in after then {id} else {});
  }

  /** Replacing one entry moves a count by what the entry contributed before and after. */
  lemma CountUpdate(calls: map<CallId, Call>, id: CallId, c: Call, p: Call -> bool)
    ensures Count(calls[id := c], p) ==
            Count(calls, p) - One(id in calls && p(calls[id])) + One(p(c))
  {
    var before, after := Ids(calls, p), Ids(calls[id := c], p);
    assert forall i :: i != id ==> (i in before <==> i in after);
    assert before - {id} == after - {id};
    SetWithout(before, after, id);
  }

  // ----- Invariants -----

  /** One owner and at most one close per guid, and no close of a setup's guid. */
  ghost predicate OneOwner(calls: map<CallId, Call>) {
    && (forall i <- calls, j <- calls :: Owns(calls[i], calls[j].guid) && Owns(calls[j], calls[j].guid) ==> i == j)
    && (forall i <- calls, j <- calls :: calls[i].Close? && calls[j].Close? && calls[i].guid == calls[j].guid ==> i == j)
    && (forall i <- calls, j <- calls :: calls[i].Setup? && calls[j].Close? ==> calls[i].guid != calls[j].guid)
  }

  /** A guid is in the table exactly when its owner registered a handler that no close removed. */
  ghost predicate TableExact(s: State) {
    && (forall g :: g in s.sh.table <==> Some(s.calls, Registering, g) && !Some(s.calls, PastRemoval, g))
    && (forall i <- s.calls :: HoldsHandler(s.calls[i]) ==> s.calls[i].guid in s.sh.table)
    && (forall i <- s.calls :: HoldsHandler(s.calls[i]) || PastRemoval(s.calls[i]) ==>
          Some(s.calls, EverRegistered, s.calls[i].guid))
  }

  /** A step of a call keeps its kind and its guid. */
  lemma AfterSame(sh: Shared, c: Call, ok: bool)
    requires CanAdvance(sh, c)
    ensures SameKind(c, After(sh, c, ok))
  {}

  predicate SameKind(c: Call, c': Call) {
    && c'.guid == c.guid
    && c'.Create? == c.Create? && c'.Close? == c.Close? && c'.Setup? == c.Setup?
  }

  lemma SameKindOneOwner(calls: map<CallId, Call>, id: CallId, c': Call)
    requires OneOwner(calls) && id in calls && SameKind(calls[id], c')
    ensures OneOwner(calls[id := c'])
  {
    assert forall i <- calls[id := c'] :: i in calls && SameKind(calls[i], calls[id := c'][i]);
  }

  lemma StepOneOwner(s: State, a: Action)
    requires OneOwner(s.calls) && Enabled(s, a) && Disciplined(s, a)
    ensures OneOwner(Next(s, a).calls)
  {
    match a
    case Advance(id, ok) =>
      AfterSame(s.sh, s.calls[id], ok);
      SameKindOneOwner(s.calls, id, After(s.sh, s.calls[id], ok));
    case Arrive(id, c) => assert forall i <- s.calls[id := c] :: i in s.calls || i == id;
    case _ =>
  }

  lemma SomeUpdate(calls: map<CallId, Call>, id: CallId, c: Call, p: Call -> bool, g: Guid)
    ensures Some(calls[id := c], p, g) <==> (p(c) && c.guid == g) || Some(calls - {id}, p, g)
    ensures id in calls ==> (Some(calls, p, g) <==> (p(calls[id]) && calls[id].guid == g) || Some(calls - {id}, p, g))
    ensures id !in calls ==> calls - {id} == calls
  {
    var calls', rest := calls[id := c], calls - {id};
    assert forall i <- rest :: i in calls' && calls'[i] == rest[i] && i in calls && calls[i] == rest[i];
    assert forall i <- calls' :: i != id ==> i in rest && rest[i] == calls'[i];
    assert forall i <- calls :: i != id ==> i in rest && rest[i] == calls[i];
    assert id in calls' && calls'[id] == c;
  }

  /** The other calls on a guid: no second owner beside an owner, no second close beside a close. */
  lemma Alone(calls: map<CallId, Call>, id: CallId)
    requires OneOwner(calls) && id in calls
    ensures var c := calls[id];
            && (c.Create? || c.Setup? ==> !Some(calls - {id}, Registering, c.guid))
            && (c.Create? ==> !Some(calls - {id}, EverRegistered, c.guid))
            && (c.Close? || c.Setup? ==> !Some(calls - {id}, PastRemoval, c.guid))
            && (c.Create? ==> !Some(calls - {id}, CountedCreate, c.guid))
            && (c.Close? ==> !Some(calls - {id}, PastDecrement, c.guid))
  {}

  /** What a step does to the table, in terms of where its call stands before and after. */
  lemma TableEffect(sh: Shared, c: Call, ok: bool)
    requires CanAdvance(sh, c)
    ensures var t, c' := Effect(sh, c, ok).table, After(sh, c, ok);
            && (Registering(c') && !Registering(c) ==> t == sh.table + {c.guid} && !c.Close?)
            && (PastRemoval(c') && !PastRemoval(c) ==> t == sh.table - {c.guid} && HoldsHandler(c))
            && (c.Setup? && Registering(c) && !Registering(c') ==> c.guid !in t && t == sh.table - {c.guid})
            && (c.Create? && Registering(c) && !Registering(c') ==> c.guid !in sh.table && t == sh.table)
            && (Registering(c') == Registering(c) && PastRemoval(c') == PastRemoval(c) ==> t == sh.table)
            && (PastRemoval(c) ==> PastRemoval(c'))
            && (Registering(c') && !Registering(c) ==> !EverRegistered(c))
            && (EverRegistered(c) ==> EverRegistered(c'))
            && (c.Create? && Registering(c) ==> EverRegistered(c))
            && (HoldsHandler(c') && !HoldsHandler(c) ==> c.guid in sh.table && c.Close?)
            && (PastRemoval(c') && !PastRemoval(c) ==> HoldsHandler(c))
  {}

  /** No close got past its lookup before the owner registered. */
  lemma NoEarlyClose(s: State, id: CallId)
    requires OneOwner(s.calls) && TableExact(s) && id in s.calls
    requires var c := s.calls[id]; (c.Create? || c.Setup?) && !EverRegistered(c)
    ensures !Some(s.calls, PastRemoval, s.calls[id].guid)
  {
    Alone(s.calls, id);
    SomeUpdate(s.calls, id, s.calls[id], EverRegistered, s.calls[id].guid);
  }

  lemma StepTableAt(s: State, id: CallId, ok: bool, g: Guid)
    requires OneOwner(s.calls) && TableExact(s) && Enabled(s, Advance(id, ok))
    ensures var t := Next(s, Advance(id, ok));
            g in t.sh.table <==> Some(t.calls, Registering, g) && !Some(t.calls, PastRemoval, g)
  {
    var c := s.calls[id];
    var c' := After(s.sh, c, ok);
    Alone(s.calls, id);
    AfterSame(s.sh, c, ok);
    TableEffect(s.sh, c, ok);
    if (c.Create? || c.Setup?) && !EverRegistered(c) {
      NoEarlyClose(s, id);
    }
    StepSome(s.calls, id, c', Registering, g);
    StepSome(s.calls, id, c', PastRemoval, g);
  }

  lemma StepSome(calls: map<CallId, Call>, id: CallId, c: Call, p: Call -> bool, g: Guid)
    requires id in calls && c.guid == calls[id].guid
    ensures g != c.guid ==> Some(calls[id := c], p, g) == Some(calls, p, g)
    ensures p(c) == p(calls[id]) ==> Some(calls[id := c], p, g) == Some(calls, p, g)
    ensures g == c.guid && p(c) ==> Some(calls[id := c], p, g)
    ensures g == c.guid && !p(c) ==> Some(calls[id := c], p, g) == Some(calls - {id}, p, g)
    ensures g == c.guid && p(calls[id]) ==> Some(calls, p, g)
    ensures g == c.guid && !p(calls[id]) ==> Some(calls, p, g) == Some(calls - {id}, p, g)
  {
    SomeUpdate(calls, id, c, p, g);
  }

  lemma StepTable(s: State, a: Action)
    requires OneOwner(s.calls) && TableExact(s) && Enabled(s, a) && Disciplined(s, a)
    ensures TableExact(Next(s, a))
  {
    var t := Next(s, a);
    forall g
      ensures g in t.sh.table <==> Some(t.calls, Registering, g) && !Some(t.calls, PastRemoval, g)
    {
      match a
      case Advance(id, ok) => StepTableAt(s, id, ok, g);
      case Arrive(id, c) =>
        SomeUpdate(s.calls, id, c, Registering, g);
        SomeUpdate(s.calls, id, c, PastRemoval, g);
      case _ =>
    }
    match a
    case Advance(id, ok) =>
      StepHolds(s, id, ok);
      StepEver(s, id, ok);
    case Arrive(id, c) =>
      forall g
        ensures Some(s.calls, EverRegistered, g) ==> Some(t.calls, EverRegistered, g)
      {
        SomeUpdate(s.calls, id, c, EverRegistered, g);
      }
    case _ =>
  }

  lemma StepEver(s: State, id: CallId, ok: bool)
    requires OneOwner(s.calls) && TableExact(s) && Enabled(s, Advance(id, ok))
    ensures var t := Next(s, Advance(id, ok));
            forall i <- t.calls :: HoldsHandler(t.calls[i]) || PastRemoval(t.calls[i]) ==>
              Some(t.calls, EverRegistered, t.calls[i].guid)
  {
    var c := s.calls[id];
    var c' := After(s.sh, c, ok);
    AfterSame(s.sh, c, ok);
    TableEffect(s.sh, c, ok);
    var t := Next(s, Advance(id, ok));
    forall i <- t.calls | HoldsHandler(t.calls[i]) || PastRemoval(t.calls[i])
      ensures Some(t.calls, EverRegistered, t.calls[i].guid)
    {
      assert Some(s.calls, EverRegistered, s.calls[i].guid) by {
        if i == id && !HoldsHandler(c) && !PastRemoval(c) {
          FoundOwner(s, c.guid);
        }
      }
      StepSome(s.calls, id, c', EverRegistered, s.calls[i].guid);
    }
  }

  /** A guid in the table that no setup uses was registered by a create. */
  lemma FoundOwner(s: State, g: Guid)
    requires OneOwner(s.calls) && TableExact(s) && g in s.sh.table
    requires exists i <- s.calls :: s.calls[i].Close? && s.calls[i].guid == g
    ensures Some(s.calls, EverRegistered, g)
  {
    var k :| k in s.calls && Registering(s.calls[k]) && s.calls[k].guid == g;
    assert EverRegistered(s.calls[k]);
  }

  /** Only a close or a setup takes a guid out of the table, and only its own. */
  lemma TableShrinks(sh: Shared, c: Call, ok: bool, g: Guid)
    requires CanAdvance(sh, c) && g in sh.table
    ensures g in Effect(sh, c, ok).table || (g == c.guid && (c.Close? || c.Setup?))
  {}

  lemma HolderKept(sh: Shared, c: Call, ok: bool)
    requires CanAdvance(sh, c) && (HoldsHandler(c) ==> c.guid in sh.table)
    ensures HoldsHandler(After(sh, c, ok)) ==> c.guid in Effect(sh, c, ok).table
  {}

  lemma StepHolds(s: State, id: CallId, ok: bool)
    requires OneOwner(s.calls) && TableExact(s) && Enabled(s, Advance(id, ok))
    ensures var t := Next(s, Advance(id, ok));
            forall i <- t.calls :: HoldsHandler(t.calls[i]) ==> t.calls[i].guid in t.sh.table
  {
    var t := Next(s, Advance(id, ok));
    AfterSame(s.sh, s.calls[id], ok);
    forall i <- t.calls | HoldsHandler(t.calls[i])
      ensures t.calls[i].guid in t.sh.table
    {
      if i == id {
        HolderKept(s.sh, s.calls[id], ok);
      } else {
        TableShrinks(s.sh, s.calls[id], ok, s.calls[i].guid);
      }
    }
  }

  // ----- Live nodes and the counter -----

  /** Nodes whose create was counted and whose close has not decremented the counter. */
  function Live(calls: map<CallId, Call>): set<Guid> {
    set i <- calls | CountedCreate(calls[i]) && !Some(calls, PastDecrement, calls[i].guid) :: calls[i].guid
  }

  /** Closed guids whose create was never counted, or not yet. */
  function Orphans(calls: map<CallId, Call>): set<Guid> {
    set i <- calls | PastDecrement(calls[i]) && !Some(calls, CountedCreate, calls[i].guid) :: calls[i].guid
  }

  function Balance(calls: map<CallId, Call>): int {
    |Live(calls)| - |Orphans(calls)|
  }

  lemma LiveAt(calls: map<CallId, Call>, g: Guid)
    ensures g in Live(calls) <==> Some(calls, CountedCreate, g) && !Some(calls, PastDecrement, g)
    ensures g in Orphans(calls) <==> Some(calls, PastDecrement, g) && !Some(calls, CountedCreate, g)
  {}

  /** Increments and decrements, the only steps that move the balance. */
  predicate Increments(c: Call) { c.Create? && c.create.Created? }

  predicate Decrements(c: Call) { c.Close? && c.close.Closing? }

  lemma CounterEffect(sh: Shared, c: Call, ok: bool)
    requires CanAdvance(sh, c)
    ensures var c' := After(sh, c, ok);
            && Effect(sh, c, ok).nc == (if Increments(c) then AddInt32(sh.nc, 1) else
                                        if Decrements(c) then AddInt32(sh.nc, -1) else sh.nc)
            && CountedCreate(c') == (CountedCreate(c) || Increments(c))
            && PastDecrement(c') == (PastDecrement(c) || Decrements(c))
            && !(CountedCreate(c) && Increments(c)) && !(PastDecrement(c) && Decrements(c))
  {}

  /** A call becoming counted adds its guid to the live nodes, or takes it off the orphans. */
  lemma IncrementMoves(calls: map<CallId, Call>, id: CallId, c': Call)
    requires OneOwner(calls) && id in calls && calls[id].Create? && c'.Create? && c'.guid == calls[id].guid
    requires !CountedCreate(calls[id]) && CountedCreate(c')
    ensures c'.guid !in Live(calls)
    ensures Live(calls[id := c']) == Live(calls) + (if c'.guid in Orphans(calls) then {} else {c'.guid})
    ensures Orphans(calls[id := c']) == Orphans(calls) - {c'.guid}
  {
    Alone(calls, id);
    forall g { BothAt(calls, id, c', g); }
  }

  /** A close decrementing takes its guid off the live nodes, or makes it an orphan. */
  lemma DecrementMoves(calls: map<CallId, Call>, id: CallId, c': Call)
    requires OneOwner(calls) && id in calls && calls[id].Close? && c'.Close? && c'.guid == calls[id].guid
    requires !PastDecrement(calls[id]) && PastDecrement(c')
    ensures c'.guid !in Orphans(calls)
    ensures Orphans(calls[id := c']) == Orphans(calls) + (if c'.guid in Live(calls) then {} else {c'.guid})
    ensures Live(calls[id := c']) == Live(calls) - {c'.guid}
  {
    Alone(calls, id);
    forall g { BothAt(calls, id, c', g); }
  }

  lemma OtherwiseStill(calls: map<CallId, Call>, id: CallId, c': Call)
    requires id in calls && c'.guid == calls[id].guid
    requires CountedCreate(calls[id]) == CountedCreate(c') && PastDecrement(calls[id]) == PastDecrement(c')
    ensures Live(calls[id := c']) == Live(calls) && Orphans(calls[id := c']) == Orphans(calls)
  {
    forall g { BothAt(calls, id, c', g); }
  }

  lemma IncrementBalance(calls: map<CallId, Call>, id: CallId, c': Call)
    requires OneOwner(calls) && id in calls && calls[id].Create? && c'.Create? && c'.guid == calls[id].guid
    requires !CountedCreate(calls[id]) && CountedCreate(c')
    ensures Balance(calls[id := c']) == Balance(calls) + 1
  {
    IncrementMoves(calls, id, c');
  }

  lemma DecrementBalance(calls: map<CallId, Call>, id: CallId, c': Call)
    requires OneOwner(calls) && id in calls && calls[id].Close? && c'.Close? && c'.guid == calls[id].guid
    requires !PastDecrement(calls[id]) && PastDecrement(c')
    ensures Balance(calls[id := c']) == Balance(calls) - 1
  {
    DecrementMoves(calls, id, c');
  }

  lemma BalanceMoves(s: State, id: CallId, ok: bool)
    requires OneOwner(s.calls) && Enabled(s, Advance(id, ok))
    ensures Balance(Next(s, Advance(id, ok)).calls) ==
            Balance(s.calls) + One(Increments(s.calls[id])) - One(Decrements(s.calls[id]))
  {
    var c' := After(s.sh, s.calls[id], ok);
    CounterEffect(s.sh, s.calls[id], ok);
    AfterSame(s.sh, s.calls[id], ok);
    if Increments(s.calls[id]) {
      IncrementBalance(s.calls, id, c');
    } else if Decrements(s.calls[id]) {
      DecrementBalance(s.calls, id, c');
    } else {
      OtherwiseStill(s.calls, id, c');
    }
  }

  lemma BothAt(calls: map<CallId, Call>, id: CallId, c: Call, g: Guid)
    requires id in calls && c.guid == calls[id].guid
    ensures g in Live(calls) <==> Some(calls, CountedCreate, g) && !Some(calls, PastDecrement, g)
    ensures g in Orphans(calls) <==> Some(calls, PastDecrement, g) && !Some(calls, CountedCreate, g)
    ensures var t := calls[id := c];
            && (g in Live(t) <==> Some(t, CountedCreate, g) && !Some(t, PastDecrement, g))
            && (g in Orphans(t) <==> Some(t, PastDecrement, g) && !Some(t, CountedCreate, g))
    ensures g != c.guid ==>
              && Some(calls[id := c], CountedCreate, g) == Some(calls, CountedCreate, g)
              && Some(calls[id := c], PastDecrement, g) == Some(calls, PastDecrement, g)
    ensures g == c.guid ==>
              && Some(calls, CountedCreate, g) == (CountedCreate(calls[id]) || Some(calls - {id}, CountedCreate, g))
              && Some(calls[id := c], CountedCreate, g) == (CountedCreate(c) || Some(calls - {id}, CountedCreate, g))
              && Some(calls, PastDecrement, g) == (PastDecrement(calls[id]) || Some(calls - {id}, PastDecrement, g))
              && Some(calls[id := c], PastDecrement, g) == (PastDecrement(c) || Some(calls - {id}, PastDecrement, g))
  {
    LiveAt(calls, g);
    LiveAt(calls[id := c], g);
    SomeUpdate(calls, id, c, CountedCreate, g);
    SomeUpdate(calls, id, c, PastDecrement, g);
  }

  // ----- Exact accounting -----

  function InFlight(calls: map<CallId, Call>): nat {
    Count(calls, InCreate) + Count(calls, FailedCreate) +
    Count(calls, BetweenDecrementAndRemoval) + Count(calls, InSetup)
  }

  /** What the 32-bit counter counts: the balance of the RPCs less what the sweep took off. */
  function CounterValue(s: State): int {
    Balance(s.calls) - |SweptOff(s.sweep)|
  }

  ghost predicate Accounted(s: State) {
    && s.sh.nc == Wrap32(CounterValue(s))
    && |s.sh.table| == Balance(s.calls) + InFlight(s.calls)
  }

  function Weight(c: Call): nat {
    One(InCreate(c)) + One(FailedCreate(c)) + One(BetweenDecrementAndRemoval(c)) + One(InSetup(c))
  }

  lemma InFlightUpdate(calls: map<CallId, Call>, id: CallId, c: Call)
    ensures InFlight(calls[id := c]) ==
            InFlight(calls) - (if id in calls then Weight(calls[id]) else 0) + Weight(c)
  {
    CountUpdate(calls, id, c, InCreate);
    CountUpdate(calls, id, c, FailedCreate);
    CountUpdate(calls, id, c, BetweenDecrementAndRemoval);
    CountUpdate(calls, id, c, InSetup);
  }

  /** Where a call's guid must be for its next step to change the table by exactly one. */
  predicate InPlace(sh: Shared, c: Call) {
    && (HoldsHandler(c) || InSetup(c) ==> c.guid in sh.table)
    && ((c.Create? && c.create.CreateWaiting?) || (c.Setup? && c.setup.SetupWaiting?) ==> c.guid !in sh.table)
  }

  /** The table gains an unused guid or loses a registered one, in step with the call's weight and
      with the counter. */
  lemma WeightEffect(sh: Shared, c: Call, ok: bool)
    requires CanAdvance(sh, c) && InPlace(sh, c)
    ensures |Effect(sh, c, ok).table| - |sh.table| ==
            Weight(After(sh, c, ok)) - Weight(c) + One(Increments(c)) - One(Decrements(c))
  {
    match c
    case Create(g, pc) => WeightCreate(sh, g, pc, ok);
    case Close(g, pc) => WeightClose(sh, g, pc, ok);
    case Setup(g, pc) => WeightSetup(sh, g, pc, ok);
    case Message(g, pc) =>
  }

  lemma WeightCreate(sh: Shared, g: Guid, pc: CreatePc, ok: bool)
    requires CanAdvance(sh, Create(g, pc)) && InPlace(sh, Create(g, pc))
    ensures var c := Create(g, pc);
            |Effect(sh, c, ok).table| - |sh.table| == Weight(After(sh, c, ok)) - Weight(c) + One(pc.Created?)
  {}

  lemma WeightClose(sh: Shared, g: Guid, pc: ClosePc, ok: bool)
    requires CanAdvance(sh, Close(g, pc)) && InPlace(sh, Close(g, pc))
    ensures var c := Close(g, pc);
            |Effect(sh, c, ok).table| - |sh.table| == Weight(After(sh, c, ok)) - Weight(c) - One(pc.Closing?)
  {}

  lemma WeightSetup(sh: Shared, g: Guid, pc: SetupPc, ok: bool)
    requires CanAdvance(sh, Setup(g, pc)) && InPlace(sh, Setup(g, pc))
    ensures var c := Setup(g, pc);
            |Effect(sh, c, ok).table| - |sh.table| == Weight(After(sh, c, ok)) - Weight(c)
  {}

  lemma CallInPlace(s: State, id: CallId)
    requires OneOwner(s.calls) && TableExact(s) && id in s.calls
    ensures InPlace(s.sh, s.calls[id])
  {
    var c := s.calls[id];
    Alone(s.calls, id);
    SomeUpdate(s.calls, id, c, Registering, c.guid);
    SomeUpdate(s.calls, id, c, PastRemoval, c.guid);
  }

  lemma StepAccounted(s: State, a: Action)
    requires OneOwner(s.calls) && TableExact(s) && Accounted(s) && Enabled(s, a) && Disciplined(s, a)
    ensures Accounted(Next(s, a))
  {
    match a
    case Advance(id, ok) => AdvanceAccounted(s, id, ok);
    case Arrive(id, c) => ArriveAccounted(s, id, c);
    case _ => OtherAccounted(s, a);
  }

  lemma OtherAccounted(s: State, a: Action)
    requires Accounted(s) && Enabled(s, a) && !a.Advance? && !a.Arrive?
    ensures Accounted(Next(s, a))
  {
    if a.SweepNext? {
      SweepAccounted(s);
    }
  }

  lemma SweepAccounted(s: State)
    requires Accounted(s) && Enabled(s, SweepNext)
    ensures Accounted(Next(s, SweepNext))
  {
    Wrap32Add(CounterValue(s), -1);
  }

  lemma ArriveAccounted(s: State, id: CallId, c: Call)
    requires Accounted(s) && Enabled(s, Arrive(id, c))
    ensures Accounted(Next(s, Arrive(id, c)))
  {
    InFlightUpdate(s.calls, id, c);
    ArriveBalance(s, id, c);
  }

  lemma CounterTracks(s: State, id: CallId, ok: bool)
    requires OneOwner(s.calls) && s.sh.nc == Wrap32(CounterValue(s)) && Enabled(s, Advance(id, ok))
    ensures Effect(s.sh, s.calls[id], ok).nc == Wrap32(CounterValue(Next(s, Advance(id, ok))))
  {
    BalanceMoves(s, id, ok);
    CounterEffect(s.sh, s.calls[id], ok);
    Wrap32Add(CounterValue(s), 1);
    Wrap32Add(CounterValue(s), -1);
  }

  lemma AdvanceAccounted(s: State, id: CallId, ok: bool)
    requires OneOwner(s.calls) && TableExact(s) && Accounted(s) && Enabled(s, Advance(id, ok))
    ensures Accounted(Next(s, Advance(id, ok)))
  {
    InFlightUpdate(s.calls, id, After(s.sh, s.calls[id], ok));
    CallInPlace(s, id);
    WeightEffect(s.sh, s.calls[id], ok);
    BalanceMoves(s, id, ok);
    CounterTracks(s, id, ok);
  }

  lemma ArriveBalance(s: State, id: CallId, c: Call)
    requires Enabled(s, Arrive(id, c))
    ensures Live(s.calls[id := c]) == Live(s.calls) && Orphans(s.calls[id := c]) == Orphans(s.calls)
  {
    forall g
      ensures g in Live(s.calls[id := c]) <==> g in Live(s.calls)
      ensures g in Orphans(s.calls[id := c]) <==> g in Orphans(s.calls)
    {
      LiveAt(s.calls, g);
      LiveAt(s.calls[id := c], g);
      SomeUpdate(s.calls, id, c, CountedCreate, g);
      SomeUpdate(s.calls, id, c, PastDecrement, g);
    }
  }
}

/** Runs in which one call moves alone: what each RPC does when nothing interferes, as steps of the
    lifecycle protocol. */
module SoloCalls {
  import opened Lifecycle

  lemma {:induction false} RunConcat(s: State, xs: seq<Action>, ys: seq<Action>)
    requires Runs(s, xs) && Runs(Run(s, xs), ys)
    ensures Runs(s, xs + ys) && Run(s, xs + ys) == Run(Run(s, xs), ys)
    ensures DisciplinedRun(s, xs) && DisciplinedRun(Run(s, xs), ys) ==> DisciplinedRun(s, xs + ys)
    ensures CarefulRun(s, xs) && CarefulRun(Run(s, xs), ys) ==> CarefulRun(s, xs + ys)
    decreases |xs|
  {
    if xs == [] {
      assert xs + ys == ys;
    } else {
      assert (xs + ys)[1..] == xs[1..] + ys;
      RunConcat(Next(s, xs[0]), xs[1..], ys);
    }
  }

  lemma Cons(s: State, a: Action, rest: seq<Action>)
    requires Enabled(s, a) && Runs(Next(s, a), rest)
    ensures Runs(s, [a] + rest) && Run(s, [a] + rest) == Run(Next(s, a), rest)
    ensures Disciplined(s, a) && DisciplinedRun(Next(s, a), rest) ==> DisciplinedRun(s, [a] + rest)
    ensures Careful(s, a) && CarefulRun(Next(s, a), rest) ==> CarefulRun(s, [a] + rest)
  {
    assert ([a] + rest)[1..] == rest;
  }

  /** One call taken from its arrival through the given outcomes, nothing else moving. */
  predicate CanSolo(sh: Shared, c: Call, oks: seq<bool>)
    decreases |oks|
  {
    oks == [] || (CanAdvance(sh, c) && CanSolo(Effect(sh, c, oks[0]), After(sh, c, oks[0]), oks[1..]))
  }

  function Solo(sh: Shared, c: Call, oks: seq<bool>): (Shared, Call)
    requires CanSolo(sh, c, oks)
    decreases |oks|
  {
    if oks == [] then (sh, c) else Solo(Effect(sh, c, oks[0]), After(sh, c, oks[0]), oks[1..])
  }

  function Advances(id: CallId, oks: seq<bool>): seq<Action>
    decreases |oks|
  {
    if oks == [] then [] else [Advance(id, oks[0])] + Advances(id, oks[1..])
  }

  lemma {:induction false} AdvancesRun(s: State, id: CallId, oks: seq<bool>)
    requires id in s.calls && CanSolo(s.sh, s.calls[id], oks)
    ensures Runs(s, Advances(id, oks))
    ensures var (sh, c) := Solo(s.sh, s.calls[id], oks);
            Run(s, Advances(id, oks)) == s.(sh := sh, calls := s.calls[id := c])
    ensures DisciplinedRun(s, Advances(id, oks)) && CarefulRun(s, Advances(id, oks))
    decreases |oks|
  {
    if oks == [] {
      assert s.calls[id := s.calls[id]] == s.calls;
    } else {
      var a := Advance(id, oks[0]);
      var t := Next(s, a);
      AdvancesRun(t, id, oks[1..]);
      Cons(s, a, Advances(id, oks[1..]));
      var c := Solo(s.sh, s.calls[id], oks).1;
      assert t.calls[id := c] == s.calls[id := c];
    }
  }

  /** The whole of one call, from its arrival. */
  function SoloCall(id: CallId, c: Call, oks: seq<bool>): seq<Action> {
    [Arrive(id, c)] + Advances(id, oks)
  }

  lemma CallRun(s: State, id: CallId, c: Call, oks: seq<bool>)
    requires id !in s.calls && Initial(c) && CanSolo(s.sh, c, oks)
    ensures Runs(s, SoloCall(id, c, oks))
    ensures var (sh, c') := Solo(s.sh, c, oks);
            Run(s, SoloCall(id, c, oks)) == s.(sh := sh, calls := s.calls[id := c'])
    ensures Disciplined(s, Arrive(id, c)) ==> DisciplinedRun(s, SoloCall(id, c, oks))
    ensures Careful(s, Arrive(id, c)) ==> CarefulRun(s, SoloCall(id, c, oks))
  {
    var t := Next(s, Arrive(id, c));
    AdvancesRun(t, id, oks);
    Cons(s, Arrive(id, c), Advances(id, oks));
    var c' := Solo(s.sh, c, oks).1;
    assert t.calls[id := c'] == s.calls[id := c'];
  }

  /** What a create run alone does to the shared state. */
  function CreateEffect(sh: Shared, g: Guid, ok: bool): Shared {
    sh.(table := sh.table + {g}, nc := if ok then AddInt32(sh.nc, 1) else sh.nc)
  }

  lemma CreateSolo(sh: Shared, g: Guid, ok: bool)
    requires sh.init.Ready?
    ensures var oks := if ok then [true, true, true] else [true, false];
            && CanSolo(sh, Create(g, CreateWaiting), oks)
            && Solo(sh, Create(g, CreateWaiting), oks) ==
               (CreateEffect(sh, g, ok), Create(g, if ok then Counted else CreateFailed))
  {
    var c := Create(g, CreateWaiting);
    var sh1 := sh.(table := sh.table + {g});
    if ok {
      assert CanSolo(sh1, Create(g, Created), [true]);
      assert [true, true, true][1..] == [true, true] && [true, true][1..] == [true];
      assert CanSolo(sh1, Create(g, Registered), [true, true]);
    } else {
      assert [true, false][1..] == [false];
      assert CanSolo(sh1, Create(g, Registered), [false]);
    }
  }

  /** What a close of a registered node does, up to and including its reading of the counter. */
  function CloseEffect(sh: Shared, g: Guid): Shared {
    sh.(table := sh.table - {g}, nc := AddInt32(sh.nc, -1))
  }

  lemma CloseSolo(sh: Shared, g: Guid)
    requires g in sh.table
    ensures var oks, sh' := [true, true, true, true], CloseEffect(sh, g);
            && CanSolo(sh, Close(g, CloseArrived), oks)
            && Solo(sh, Close(g, CloseArrived), oks) ==
               (sh', Close(g, if sh'.nc == 0 && !sh.session then Signalling else Closed))
  {
    var sh1 := sh.(nc := AddInt32(sh.nc, -1));
    var sh2 := CloseEffect(sh, g);
    assert [true, true, true, true][1..] == [true, true, true];
    assert [true, true, true][1..] == [true, true];
    assert [true, true][1..] == [true];
    assert CanSolo(sh2, Close(g, Removed), [true]);
    assert CanSolo(sh1, Close(g, Decremented), [true, true]);
    assert CanSolo(sh, Close(g, Closing), [true, true, true]);
  }

  function SetupSoloOutcomes(): seq<bool> { [true, true, true] }

  lemma SetupSolo(sh: Shared, g: Guid)
    requires sh.init.Ready?
    ensures var oks := SetupSoloOutcomes();
            && CanSolo(sh, Setup(g, SetupWaiting), oks)
            && Solo(sh, Setup(g, SetupWaiting), oks) == (sh.(table := sh.table - {g}), Setup(g, SetupReturned))
  {
    var sh1 := sh.(table := sh.table + {g});
    assert sh1.table - {g} == sh.table - {g};
    assert [true, true, true][1..] == [true, true] && [true, true][1..] == [true];
    assert CanSolo(sh1, Setup(g, SettingUp), [true]);
    assert CanSolo(sh1, Setup(g, SetupRegistered), [true, true]);
  }

  /** A message reaches the node exactly when its handler is registered at the lookup, whatever moves
      beside it. */
  lemma MessageFindsIff(s: State, id: CallId, ok: bool)
    requires id in s.calls && s.calls[id].Message? && s.calls[id].message.MessageArrived?
    ensures Enabled(s, Advance(id, ok))
    ensures var t, g := Next(s, Advance(id, ok)), s.calls[id].guid;
            && t.sh == s.sh
            && t.calls[id] == Message(g, if g in s.sh.table then Handling else MessageNoHandler)
  {}

  /** A message alone is handled under the capabilities that stand, or refused, and changes nothing. */
  lemma MessageSolo(sh: Shared, g: Guid)
    ensures g in sh.table ==>
              && CanSolo(sh, Message(g, MessageArrived), [true, true])
              && Solo(sh, Message(g, MessageArrived), [true, true]) == (sh, Message(g, Delivered(sh.caps)))
    ensures g !in sh.table ==>
              && CanSolo(sh, Message(g, MessageArrived), [true])
              && Solo(sh, Message(g, MessageArrived), [true]) == (sh, Message(g, MessageNoHandler))
  {
    assert [true, true][1..] == [true] && [true][1..] == [];
    assert CanSolo(sh, Message(g, Handling), [true]);
  }

  /** A create or setup without a working factory, and a close without a handler, change nothing. */
  lemma RefusedSolo(sh: Shared, g: Guid)
    requires sh.init.Ready?
    ensures CanSolo(sh, Create(g, CreateWaiting), [false])
    ensures Solo(sh, Create(g, CreateWaiting), [false]) == (sh, Create(g, CreateRefused))
    ensures CanSolo(sh, Setup(g, SetupWaiting), [false])
    ensures Solo(sh, Setup(g, SetupWaiting), [false]) == (sh, Setup(g, SetupRefused))
    ensures g !in sh.table ==>
              && CanSolo(sh, Close(g, CloseArrived), [true])
              && Solo(sh, Close(g, CloseArrived), [true]) == (sh, Close(g, CloseNoHandler))
  {
    assert [true][1..] == [] && [false][1..] == [];
  }

  // ----- The sweep alone -----

  function Nexts(n: nat): seq<Action> {
    if n == 0 then [] else [SweepNext] + Nexts(n - 1)
  }

  /** A whole sweep: the snapshot, then two steps a guid. */
  function SweepMoves(order: seq<Guid>): seq<Action> {
    [SweepBegin(order)] + Nexts(2 * |order|)
  }

  lemma {:induction false} NextsSweep(s: State, todo: seq<Guid>, done: seq<Guid>, n: int)
    requires s.sweep == Looking(todo, done) && s.sh.nc == Wrap32(n) && forall g <- todo :: g in s.sh.table
    ensures Runs(s, Nexts(2 * |todo|))
    ensures Run(s, Nexts(2 * |todo|)) ==
            s.(sh := s.sh.(nc := Wrap32(n - |todo|)), sweep := Looking([], done + todo))
    decreases |todo|
  {
    if todo == [] {
      assert done + todo == done;
    } else {
      var g, rest := todo[0], todo[1..];
      assert g in todo && forall h <- rest :: h in todo;
      var s1 := Next(s, SweepNext);
      var s2 := Next(s1, SweepNext);
      Wrap32Add(n, -1);
      NextsSweep(s2, rest, done + [g], n - 1);
      Cons(s1, SweepNext, Nexts(2 * |rest|));
      Cons(s, SweepNext, Nexts(2 * |rest| + 1));
      assert done + [g] + rest == done + todo;
    }
  }

  /** A sweep no RPC interferes with closes every registered handler once and takes each off the counter,
      leaving the table alone. */
  lemma SweepSolo(s: State, order: seq<Guid>, n: int)
    requires s.sh.session && s.sweep.NotSwept? && Lists(order, s.sh.table) && s.sh.nc == Wrap32(n)
    ensures Runs(s, SweepMoves(order))
    ensures Run(s, SweepMoves(order)) ==
            s.(sh := s.sh.(nc := Wrap32(n - |order|)), sweep := Looking([], order))
  {
    forall g <- order
      ensures g in s.sh.table
    {
      assert g in SetOf(order);
    }
    NextsSweep(Next(s, SweepBegin(order)), order, [], n);
    Cons(s, SweepBegin(order), Nexts(2 * |order|));
    assert [] + order == order;
  }
}

/** Session mode: commands sent one after another to a daemon, the client-side list of node guids,
    closing the session, and the inactivity timer. */
module Session {
  import opened Lifecycle
  import opened SoloCalls
  import opened Server

  /** One CLI command sent to a session: whether its name is known, the fresh guid made for it, and
      the configuration it carries. */
  datatype Command = Command(known: bool, nodeId: string, config: Config)

  /** What client and daemon hold between commands. `meta` says that the metadata file can be read. */
  datatype World = World(sh: Shared, factories: set<string>, meta: bool, nodes: seq<Guid>, closed: seq<Guid>)

  predicate Registers(factories: set<string>, cmd: Command) {
    cmd.known && cmd.nodeId in factories && cmd.config.valid
  }

  predicate Succeeds(factories: set<string>, cmd: Command) {
    Registers(factories, cmd) && cmd.config.handler.createOk
  }

  function RunCommand(w: World, cmd: Command): World {
    if !Registers(w.factories, cmd) || (w.meta && cmd.config.guid in w.nodes) then w
    else
      var ok := Succeeds(w.factories, cmd);
      w.(sh := CreateEffect(w.sh, cmd.config.guid, ok),
         nodes := if ok && w.meta then w.nodes + [cmd.config.guid] else w.nodes)
  }

  function RunCommands(w: World, cmds: seq<Command>): World
    decreases |cmds|
  {
    if cmds == [] then w else RunCommands(RunCommand(w, cmds[0]), cmds[1..])
  }

  function CloseNode(w: World, g: Guid): World {
    if g !in w.sh.table then w
    else w.(sh := CloseEffect(w.sh, g), closed := w.closed + [g])
  }

  function CloseNodes(w: World, guids: seq<Guid>): World
    decreases |guids|
  {
    if guids == [] then w else CloseNodes(CloseNode(w, guids[0]), guids[1..])
  }

  function CloseSession(w: World): World {
    if w.meta then CloseNodes(w, w.nodes) else w
  }

  // ----- The code, over a daemon object and the metadata list -----

  class SessionClient {
    const server: GRPCServer
    var haveMeta: bool
    var nodes: seq<Guid>

    predicate Valid()
      reads this, server
    {
      server.Valid() && server.sessionMode && server.init.Ready?
    }

    function Abs(): World
      reads this, server
    {
      World(server.Abs(), server.factories, haveMeta, nodes, server.closed)
    }

    constructor (server: GRPCServer, haveMeta: bool)
      ensures this.server == server && this.haveMeta == haveMeta && nodes == []
    {
      this.server := server;
      this.haveMeta := haveMeta;
      nodes := [];
    }

    method RunSessionClient(cmd: Command) returns (sent: bool)
      requires Valid()
      modifies this, server
      ensures Valid() && Abs() == RunCommand(old(Abs()), cmd)
    {
      if !cmd.known {
        return false;
      }
      var nodeExists := false;
      if haveMeta {
        var i := 0;
        while i < |nodes|
          invariant 0 <= i <= |nodes|
          invariant !nodeExists && cmd.config.guid !in nodes[..i]
        {
          if nodes[i] == cmd.config.guid {
            nodeExists := true;
            break;
          }
          i := i + 1;
        }
        assert nodes[..|nodes|] == nodes;
      }
      if !nodeExists {
        assert CanSolo(server.Abs(), Create(cmd.config.guid, CreateWaiting), [false]);
        CreateSolo(server.Abs(), cmd.config.guid, cmd.config.handler.createOk);
        var r := server.OnCreate(cmd.nodeId, cmd.config);
        if !r.Ok? {
          return false;
        }
        if haveMeta {
          nodes := nodes + [cmd.config.guid];
        }
      }
      return true;
    }

    method Close() returns (warnings: seq<Guid>)
      requires Valid()
      modifies server
      ensures Valid() && Abs() == CloseSession(old(Abs()))
    {
      warnings := [];
      if !haveMeta {
        return;
      }
      var i := 0;
      while i < |nodes|
        invariant 0 <= i <= |nodes| && Valid()
        invariant CloseNodes(Abs(), nodes[i..]) == CloseNodes(old(Abs()), nodes)
      {
        ghost var before := Abs();
        if nodes[i] in server.handlers {
          CloseSolo(server.Abs(), nodes[i]);
        }
        var r := server.OnClose(nodes[i]);
        assert Abs() == CloseNode(before, nodes[i]);
        assert nodes[i..][1..] == nodes[i + 1..];
        if !r.Ok? {
          warnings := warnings + [nodes[i]];
        }
        i := i + 1;
      }
    }
  }

  // ----- Client and daemon agree -----

  function Succeeded(factories: set<string>, cmds: seq<Command>): seq<Guid> {
    if cmds == [] then []
    else (if Succeeds(factories, cmds[0]) then [cmds[0].config.guid] else []) + Succeeded(factories, cmds[1..])
  }

  /** Guids whose create failed after registration. */
  function Failed(factories: set<string>, cmds: seq<Command>): set<Guid> {
    set c <- cmds | Registers(factories, c) && !Succeeds(factories, c) :: c.config.guid
  }

  predicate FreshGuids(cmds: seq<Command>, used: set<Guid>) {
    && (forall c <- cmds :: c.config.guid !in used)
    && (forall i, j :: 0 <= i < j < |cmds| ==> cmds[i].config.guid != cmds[j].config.guid)
  }

  ghost predicate Agree(w: World, failed: set<Guid>) {
    && w.meta && w.sh.session && w.sh.pending + w.sh.received == 0
    && (forall i, j :: 0 <= i < j < |w.nodes| ==> w.nodes[i] != w.nodes[j])
    && SetOf(w.nodes) !! failed
    && w.sh.table == SetOf(w.nodes) + failed
    && w.sh.nc == Wrap32(|w.nodes|)
  }

  lemma CommandAgrees(w: World, cmd: Command, failed: set<Guid>)
    requires Agree(w, failed) && cmd.config.guid !in w.sh.table
    ensures var w' := RunCommand(w, cmd);
            && w'.nodes == w.nodes + Succeeded(w.factories, [cmd])
            && Agree(w', failed + Failed(w.factories, [cmd]))
            && w'.closed == w.closed && w'.factories == w.factories
            && w'.sh.table <= w.sh.table + {cmd.config.guid}
  {
    var g := cmd.config.guid;
    assert g !in SetOf(w.nodes);
    assert SetOf(w.nodes + [g]) == SetOf(w.nodes) + {g};
    FailedOne(w.factories, cmd);
    Wrap32Add(|w.nodes|, 1);
  }

  lemma FailedOne(factories: set<string>, cmd: Command)
    ensures Failed(factories, [cmd]) ==
            if Registers(factories, cmd) && !Succeeds(factories, cmd) then {cmd.config.guid} else {}
  {
    assert cmd in [cmd];
  }

  lemma FailedSplit(factories: set<string>, cmds: seq<Command>)
    requires cmds != []
    ensures Failed(factories, cmds) == Failed(factories, [cmds[0]]) + Failed(factories, cmds[1..])
  {
    FailedOne(factories, cmds[0]);
    assert forall c <- cmds :: c == cmds[0] || c in cmds[1..];
    assert cmds[0] in cmds && forall c <- cmds[1..] :: c in cmds;
  }

  lemma FreshRest(cmds: seq<Command>, used: set<Guid>, used': set<Guid>)
    requires cmds != [] && FreshGuids(cmds, used)
    ensures cmds[0].config.guid !in used
    ensures used' <= used + {cmds[0].config.guid} ==> FreshGuids(cmds[1..], used')
  {
    assert cmds[0] in cmds;
    forall c <- cmds[1..]
      ensures c.config.guid !in used && c.config.guid != cmds[0].config.guid
    {
      var i :| 0 <= i < |cmds[1..]| && cmds[1..][i] == c;
      assert cmds[i + 1] == c && c in cmds;
    }
  }

  lemma SplitFailed(factories: set<string>, cmds: seq<Command>, failed: set<Guid>)
    requires cmds != []
    ensures failed + Failed(factories, [cmds[0]]) + Failed(factories, cmds[1..]) == failed + Failed(factories, cmds)
  {
    FailedSplit(factories, cmds);
    UnionAssoc(failed, Failed(factories, [cmds[0]]), Failed(factories, cmds[1..]));
  }

  lemma UnionAssoc(a: set<Guid>, b: set<Guid>, c: set<Guid>)
    ensures a + b + c == a + (b + c)
  {}

  lemma SplitSucceeded(factories: set<string>, cmds: seq<Command>, nodes: seq<Guid>)
    requires cmds != []
    ensures nodes + Succeeded(factories, [cmds[0]]) + Succeeded(factories, cmds[1..]) == nodes + Succeeded(factories, cmds)
  {
    var first, rest := Succeeded(factories, [cmds[0]]), Succeeded(factories, cmds[1..]);
    SucceededOne(factories, cmds[0]);
    assert nodes + first + rest == nodes + (first + rest);
  }

  lemma SucceededOne(factories: set<string>, cmd: Command)
    ensures Succeeded(factories, [cmd]) == if Succeeds(factories, cmd) then [cmd.config.guid] else []
  {
    assert [cmd][1..] == [];
  }

  lemma {:induction false} CommandsAgree(w: World, cmds: seq<Command>, failed: set<Guid>)
    requires Agree(w, failed) && FreshGuids(cmds, w.sh.table)
    ensures var w' := RunCommands(w, cmds);
            && w'.nodes == w.nodes + Succeeded(w.factories, cmds)
            && w'.closed == w.closed && w'.factories == w.factories
            && Agree(w', failed + Failed(w.factories, cmds))
    decreases |cmds|
  {
    if cmds == [] {
      assert failed + Failed(w.factories, cmds) == failed;
    } else {
      var w1 := RunCommand(w, cmds[0]);
      FreshRest(cmds, w.sh.table, w1.sh.table);
      CommandAgrees(w, cmds[0], failed);
      CommandsAgree(w1, cmds[1..], failed + Failed(w.factories, [cmds[0]]));
      SplitFailed(w.factories, cmds, failed);
      SplitSucceeded(w.factories, cmds, w.nodes);
    }
  }

  /** Taking the first of a duplicate-free list off a set that holds the list and something else. */
  lemma DrainOne(nodes: seq<Guid>, k: nat, table: set<Guid>, failed: set<Guid>)
    requires k < |nodes| && SetOf(nodes) !! failed && table == SetOf(nodes[k..]) + failed
    requires forall i, j :: 0 <= i < j < |nodes| ==> nodes[i] != nodes[j]
    ensures nodes[k] in table && table - {nodes[k]} == SetOf(nodes[k + 1..]) + failed
  {
    var g := nodes[k];
    assert g in SetOf(nodes) && nodes[k..] == [g] + nodes[k + 1..];
    assert SetOf(nodes[k..]) == {g} + SetOf(nodes[k + 1..]);
  }

  lemma {:induction false} CloseDrains(w: World, k: nat, failed: set<Guid>)
    requires k <= |w.nodes| && SetOf(w.nodes) !! failed
    requires forall i, j :: 0 <= i < j < |w.nodes| ==> w.nodes[i] != w.nodes[j]
    requires w.sh.table == SetOf(w.nodes[k..]) + failed && w.sh.nc == Wrap32(|w.nodes| - k)
    ensures CloseNodes(w, w.nodes[k..]) ==
            w.(sh := w.sh.(table := failed, nc := 0), closed := w.closed + w.nodes[k..])
    decreases |w.nodes| - k
  {
    if k == |w.nodes| {
      assert w.sh.table == failed;
      assert w.closed + w.nodes[k..] == w.closed;
    } else {
      var g := w.nodes[k];
      assert w.nodes[k..][1..] == w.nodes[k + 1..];
      DrainOne(w.nodes, k, w.sh.table, failed);
      Wrap32Add(|w.nodes| - k, -1);
      CloseDrains(CloseNode(w, g), k + 1, failed);
      assert w.closed + [g] + w.nodes[k + 1..] == w.closed + w.nodes[k..];
    }
  }

  lemma {:induction false} CloseNothing(w: World, guids: seq<Guid>)
    requires forall g <- guids :: g !in w.sh.table
    ensures CloseNodes(w, guids) == w
    decreases |guids|
  {
    if guids != [] {
      CloseNothing(w, guids[1..]);
    }
  }

  function Fresh(factories: set<string>): World {
    World(Start(true).sh, factories, true, [], [])
  }

  /** For any commands with fresh guids, the metadata list is the guids whose create succeeded, in
      order; closing the session closes exactly those, once each and in order, brings nc to zero and
      leaves the handlers of failed creates; closing it again changes nothing. The daemon is never
      told to stop: done stays silent throughout. */
  lemma ClientAndDaemonAgree(factories: set<string>, cmds: seq<Command>)
    requires FreshGuids(cmds, {})
    ensures var w := RunCommands(Fresh(factories), cmds);
            && w.nodes == Succeeded(factories, cmds)
            && w.sh.table == SetOf(w.nodes) + Failed(factories, cmds)
            && w.sh.nc == Wrap32(|w.nodes|)
            && var w1 := CloseSession(w);
            && w1.closed == w.nodes
            && w1.sh == w.sh.(table := Failed(factories, cmds), nc := 0)
            && w1.sh.pending + w1.sh.received == 0
            && CloseSession(w1) == w1
  {
    var w0 := Fresh(factories);
    assert SetOf(w0.nodes) == {};
    CommandsAgree(w0, cmds, {});
    var w := RunCommands(w0, cmds);
    var failed := Failed(factories, cmds);
    assert {} + failed == failed;
    assert w.nodes[0..] == w.nodes;
    CloseDrains(w, 0, failed);
    var w1 := CloseSession(w);
    forall g <- w1.nodes
      ensures g !in w1.sh.table
    {
      assert g in SetOf(w.nodes);
    }
    CloseNothing(w1, w1.nodes);
  }

  /** When the metadata file cannot be read, commands still create their nodes but none is recorded, so
      closing the session closes nothing. */
  lemma {:induction false} Unrecorded(w: World, cmds: seq<Command>)
    requires !w.meta
    ensures var w' := RunCommands(w, cmds);
            && w'.nodes == w.nodes && w'.closed == w.closed && CloseSession(w') == w'
            && w'.factories == w.factories && w.sh.table <= w'.sh.table
            && forall c <- cmds :: Registers(w.factories, c) ==> c.config.guid in w'.sh.table
    decreases |cmds|
  {
    if cmds != [] {
      Unrecorded(RunCommand(w, cmds[0]), cmds[1..]);
      assert forall c <- cmds :: c == cmds[0] || c in cmds[1..];
    }
  }

  // ----- The inactivity timer -----

  /** `last` is the arrival of the last RPC; the timer fires at `deadline`. The goroutine that waits for
      it wakes with the firing and starts its sweep some time later. */
  datatype Timer = Timer(now: nat, last: nat, deadline: nat, fired: bool, swept: bool)

  datatype Tick = Pass(d: nat) | Rpc | Fire | Sweep

  predicate CanTick(t: Timer, e: Tick) {
    && (e.Fire? ==> !t.fired && t.now >= t.deadline)
    && (e.Sweep? ==> t.fired && !t.swept)
  }

  function Ticked(t: Timer, timeout: nat, e: Tick): Timer {
    match e
    case Pass(d) => t.(now := t.now + d)
    case Rpc => t.(last := t.now, deadline := t.now + timeout)
    case Fire => t.(fired := true)
    case Sweep => t.(swept := true)
  }

  predicate TickRun(t: Timer, timeout: nat, es: seq<Tick>)
    decreases |es|
  {
    es == [] || (CanTick(t, es[0]) && TickRun(Ticked(t, timeout, es[0]), timeout, es[1..]))
  }

  function AfterTicks(t: Timer, timeout: nat, es: seq<Tick>): Timer
    decreases |es|
  {
    if es == [] then t else AfterTicks(Ticked(t, timeout, es[0]), timeout, es[1..])
  }

  function IdleAfter(idle: nat, e: Tick): nat {
    match e case Pass(d) => idle + d case Rpc => 0 case _ => idle
  }

  /** Elapsed time since the last RPC, read off the events themselves. */
  function Idle(idle: nat, es: seq<Tick>): nat
    decreases |es|
  {
    if es == [] then idle
    else Idle(IdleAfter(idle, es[0]), es[1..])
  }

  lemma {:induction false} IdleTracks(t: Timer, timeout: nat, es: seq<Tick>)
    requires TickRun(t, timeout, es) && t.last <= t.now && t.deadline == t.last + timeout
    ensures var u := AfterTicks(t, timeout, es);
            && u.last <= u.now && u.deadline == u.last + timeout && u.now - u.last == Idle(t.now - t.last, es)
            && (u.fired <==> t.fired || Fire in es) && (u.swept <==> t.swept || Sweep in es)
    decreases |es|
  {
    if es != [] {
      IdleTracks(Ticked(t, timeout, es[0]), timeout, es[1..]);
    }
  }

  function NewTimer(timeout: nat): Timer { Timer(0, 0, timeout, false, false) }

  /** In every timed run the timer can fire exactly when it has not fired yet and the events since the
      last RPC add up to the whole timeout; the sweep can start exactly once, after that. */
  lemma FiresAfterFullTimeout(timeout: nat, es: seq<Tick>)
    requires TickRun(NewTimer(timeout), timeout, es)
    ensures var t := AfterTicks(NewTimer(timeout), timeout, es);
            && (CanTick(t, Fire) <==> Fire !in es && Idle(0, es) >= timeout)
            && (CanTick(t, Sweep) <==> Fire in es && Sweep !in es)
  {
    IdleTracks(NewTimer(timeout), timeout, es);
  }

  lemma {:induction false} TickAt(t: Timer, timeout: nat, es: seq<Tick>, j: nat)
    requires TickRun(t, timeout, es) && j < |es|
    ensures TickRun(t, timeout, es[..j]) && CanTick(AfterTicks(t, timeout, es[..j]), es[j])
    decreases |es|
  {
    if j > 0 {
      assert es[..j][1..] == es[1..][..j - 1];
      TickAt(Ticked(t, timeout, es[0]), timeout, es[1..], j - 1);
    }
  }

  lemma {:induction false} IdleConcat(idle: nat, xs: seq<Tick>, ys: seq<Tick>)
    ensures Idle(idle, xs + ys) == Idle(Idle(idle, xs), ys)
    decreases |xs|
  {
    if xs == [] {
      assert xs + ys == ys;
    } else {
      assert (xs + ys)[1..] == xs[1..] + ys;
      IdleConcat(IdleAfter(idle, xs[0]), xs[1..], ys);
    }
  }

  /** Idle time only grows until an RPC, which makes what came before irrelevant. */
  lemma {:induction false} IdleFrom(idle: nat, ys: seq<Tick>)
    ensures if Rpc in ys then Idle(idle, ys) == Idle(0, ys) else Idle(idle, ys) >= idle
    decreases |ys|
  {
    if ys != [] {
      assert ys[0] in ys && forall y <- ys :: y == ys[0] || y in ys[1..];
      IdleFrom(IdleAfter(idle, ys[0]), ys[1..]);
      IdleFrom(IdleAfter(0, ys[0]), ys[1..]);
    }
  }

  /** Every sweep follows a firing at which the full timeout had passed since the last RPC. When it
      starts, the full timeout has passed as well exactly if no RPC came in between or a whole timeout
      has passed again since the last one that did. */
  lemma SweepAfterFullTimeout(timeout: nat, es: seq<Tick>, j: nat) returns (i: nat)
    requires TickRun(NewTimer(timeout), timeout, es) && j < |es| && es[j] == Sweep
    ensures i < j && es[i] == Fire && Idle(0, es[..i]) >= timeout
    ensures Idle(0, es[..j]) >= timeout <==> Rpc !in es[i..j] || Idle(0, es[i..j]) >= timeout
  {
    var t := NewTimer(timeout);
    TickAt(t, timeout, es, j);
    IdleTracks(t, timeout, es[..j]);
    i :| 0 <= i < |es[..j]| && es[..j][i] == Fire;
    TickAt(t, timeout, es, i);
    IdleTracks(t, timeout, es[..i]);
    assert es[..i] + es[i..j] == es[..j];
    IdleConcat(0, es[..i], es[i..j]);
    IdleFrom(Idle(0, es[..i]), es[i..j]);
  }

  /** An RPC between the firing and the sweep does not stop the sweep: it starts with no idle time at
      all, whatever the timeout. */
  lemma SweepRacesRpc(timeout: nat) returns (es: seq<Tick>)
    ensures TickRun(NewTimer(timeout), timeout, es + [Sweep])
    ensures Idle(0, es) == 0
  {
    es := [Pass(timeout), Fire, Rpc];
    var t1 := Ticked(NewTimer(timeout), timeout, Pass(timeout));
    var t2 := Ticked(t1, timeout, Fire);
    assert es[1..] == [Fire, Rpc] && es[1..][1..] == [Rpc] && [Rpc][1..] == [];
    assert (es + [Sweep])[1..] == [Fire, Rpc, Sweep] && [Fire, Rpc, Sweep][1..] == [Rpc, Sweep];
    assert [Rpc, Sweep][1..] == [Sweep];
    assert TickRun(t2, timeout, [Rpc, Sweep]) by {
      assert TickRun(Ticked(t2, timeout, Rpc), timeout, [Sweep]);
    }
    assert TickRun(t1, timeout, [Fire, Rpc, Sweep]);
    assert Idle(timeout, [Fire, Rpc]) == Idle(timeout, [Rpc]) == Idle(0, []);
  }
}

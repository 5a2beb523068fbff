/** The daemon's RPC methods run one at a time, over the fields they update: the handler table, the
    counter, and the done channel. Each method is tied to the lifecycle protocol: it does what the
    protocol's steps do when its call moves alone. */
module Server {
  import opened Float64
  import opened Lifecycle
  import opened SoloCalls
  import opened Wrappers

  /** A node's own callbacks, reduced to their outcomes. */
  datatype NodeHandler = NodeHandler(createOk: bool, closeOk: bool, supportsSetup: bool, setupOk: bool)

  /** The node configuration an RPC carries; `valid` says that the factory can decode it. */
  datatype Config = Config(guid: Guid, valid: bool, handler: NodeHandler)

  /** Blocked: the call waits on a channel and does not return. */
  datatype Reply = Blocked | Error | Ok

  function CreateOutcomes(registers: bool, createOk: bool): seq<bool> {
    if !registers then [false] else if !createOk then [true, false] else [true, true, true]
  }

  lemma InitRun(s: State, robotMask: Option<nat>)
    requires s.sh.init.NotStarted?
    ensures var fetched := if robotMask.None? then [] else [InitCaps(Round(robotMask.value))];
            var acts := [InitBegin] + fetched + [InitDone];
            && Runs(s, acts)
            && Run(s, acts) == s.(sh := s.sh.(init := Ready, caps := if robotMask.None? then s.sh.caps else Round(robotMask.value)))
  {
    var s1 := Next(s, InitBegin);
    if robotMask.None? {
      Cons(s1, InitDone, []);
      Cons(s, InitBegin, [InitDone] + []);
      assert [InitBegin] + [] + [InitDone] == [InitBegin] + ([InitDone] + []);
    } else {
      var a := InitCaps(Round(robotMask.value));
      Cons(Next(s1, a), InitDone, []);
      Cons(s1, a, [InitDone] + []);
      Cons(s, InitBegin, [a] + ([InitDone] + []));
      assert [InitBegin] + [a] + [InitDone] == [InitBegin] + ([a] + ([InitDone] + []));
    }
  }

  class GRPCServer {
    var handlers: map<Guid, NodeHandler>
    var nc: int
    var pending: nat
    var received: nat
    var others: nat
    var sessionMode: bool
    var init: InitPhase
    var caps: nat
    var factories: set<string>
    /** The guids whose handler's OnClose ran, in order. */
    var closed: seq<Guid>

    predicate Valid()
      reads this
    {
      -TWO_31 <= nc < TWO_31 && pending <= 1
    }

    function Abs(): Shared
      reads this
    {
      Shared(sessionMode, init, caps, handlers.Keys, nc, pending, received, others)
    }

    /** RunSessionDaemon: initReady is closed at once and session mode is on. */
    constructor Daemon(factories: set<string>)
      ensures Valid() && Abs() == Start(true).sh
      ensures this.factories == factories && closed == []
    {
      this.factories := factories;
      handlers, nc, pending, received, others := map[], 0, 0, 0, 0;
      sessionMode, init, caps, closed := true, Ready, 0, [];
    }

    /** A plugin process before Init: initReady is not closed, so creates and setups block. */
    constructor Plugin(factories: set<string>)
      ensures Valid() && Abs() == Start(false).sh
      ensures this.factories == factories && closed == []
    {
      this.factories := factories;
      handlers, nc, pending, received, others := map[], 0, 0, 0, 0;
      sessionMode, init, caps, closed := false, NotStarted, 0, [];
    }

    /** Init with its fetching goroutine run to the end. The robot's mask, if it sends one, arrives as
        a float64. */
    method Init(robotMask: Option<nat>)
      requires Valid() && init.NotStarted?
      modifies this`init, this`caps
      ensures Valid()
      ensures var s, fetched := State(old(Abs()), map[], NotSwept), if robotMask.None? then [] else [InitCaps(Round(robotMask.value))];
              var acts := [InitBegin] + fetched + [InitDone];
              Runs(s, acts) && Run(s, acts).sh == Abs()
      ensures robotMask.Some? && robotMask.value < TWO_53 ==> caps == robotMask.value
    {
      InitRun(State(Abs(), map[], NotSwept), robotMask);
      init := Fetching;
      if robotMask.Some? {
        caps := Round(robotMask.value);
        if robotMask.value < TWO_53 {
          SmallExact(robotMask.value);
        }
      }
      init := Ready;
    }

    method OnCreate(name: string, config: Config) returns (r: Reply)
      requires Valid()
      modifies this
      ensures Valid() && closed == old(closed) && factories == old(factories)
      ensures r.Blocked? <==> !old(init).Ready?
      ensures r.Blocked? ==> Abs() == old(Abs())
      ensures !r.Blocked? ==>
                var c, oks := Create(config.guid, CreateWaiting),
                              CreateOutcomes(name in factories && config.valid, config.handler.createOk);
                && CanSolo(old(Abs()), c, oks)
                && Solo(old(Abs()), c, oks).0 == Abs()
                && (r.Ok? <==> Solo(old(Abs()), c, oks).1 == Create(config.guid, Counted))
    {
      if !init.Ready? {
        return Blocked;
      }
      if name !in factories || !config.valid {
        return Error;
      }
      handlers := handlers[config.guid := config.handler];
      CreateSolo(old(Abs()), config.guid, config.handler.createOk);
      if !handlers[config.guid].createOk {
        return Error;
      }
      nc := AddInt32(nc, 1);
      return Ok;
    }

    method OnClose(guid: Guid) returns (r: Reply)
      requires Valid()
      modifies this
      ensures Valid() && factories == old(factories) && sessionMode == old(sessionMode)
      ensures guid !in old(handlers) ==> r == Error && Abs() == old(Abs()) && closed == old(closed)
      ensures guid in old(handlers) ==>
                && closed == old(closed) + [guid]
                && handlers == old(handlers) - {guid}
                && (r.Ok? ==> old(handlers)[guid].closeOk) && (r.Error? ==> !old(handlers)[guid].closeOk)
                && var oks := [true, true, true, true];
                && CanSolo(old(Abs()), Close(guid, CloseArrived), oks)
                && var (sh, c) := Solo(old(Abs()), Close(guid, CloseArrived), oks);
                && (c.close.Signalling? && CanAdvance(sh, c) ==> Abs() == Effect(sh, c, true))
                && (!(c.close.Signalling? && CanAdvance(sh, c)) ==> Abs() == sh)
                && (r.Blocked? <==> c.close.Signalling? && !CanAdvance(sh, c))
    {
      if guid !in handlers {
        return Error;
      }
      CloseSolo(old(Abs()), guid);
      var err := !handlers[guid].closeOk;
      closed := closed + [guid];
      nc := AddInt32(nc, -1);
      handlers := handlers - {guid};
      assert handlers.Keys == old(handlers).Keys - {guid};
      if nc == 0 && !sessionMode {
        if pending > 0 {
          return Blocked;
        }
        pending := pending + 1;
      }
      return if err then Error else Ok;
    }

    method OnSetup(name: string, config: Config) returns (r: Reply)
      requires Valid()
      modifies this
      ensures Valid() && closed == old(closed) && nc == old(nc)
      ensures r.Blocked? <==> !old(init).Ready?
      ensures name !in factories || !config.valid || r.Blocked? ==> Abs() == old(Abs()) && !r.Ok?
      ensures name in factories && config.valid && !r.Blocked? ==>
                && handlers == old(handlers) - {config.guid}
                && CanSolo(old(Abs()), Setup(config.guid, SetupWaiting), SetupSoloOutcomes())
                && Solo(old(Abs()), Setup(config.guid, SetupWaiting), SetupSoloOutcomes()).0 == Abs()
                && (r.Ok? <==> config.handler.supportsSetup && config.handler.setupOk)
      ensures factories == old(factories)
      ensures config.guid !in old(handlers) ==> handlers == old(handlers)
    {
      if !init.Ready? {
        return Blocked;
      }
      if name !in factories || !config.valid {
        return Error;
      }
      SetupSolo(old(Abs()), config.guid);
      handlers := handlers[config.guid := config.handler];
      var handler := handlers[config.guid];
      handlers := handlers - {config.guid};
      assert handlers.Keys == old(handlers).Keys - {config.guid};
      if !handler.supportsSetup || !handler.setupOk {
        return Error;
      }
      return Ok;
    }

    /** The registered guids, in whatever order the map yields them. */
    method ListNodeHandlerGuids() returns (guids: seq<Guid>)
      ensures forall g :: g in guids <==> g in handlers
      ensures forall i, j :: 0 <= i < j < |guids| ==> guids[i] != guids[j]
      ensures |guids| == |handlers|
    {
      guids := [];
      var left := handlers.Keys;
      while left != {}
        invariant left <= handlers.Keys
        invariant forall g :: g in guids <==> g in handlers && g !in left
        invariant forall i, j :: 0 <= i < j < |guids| ==> guids[i] != guids[j]
        invariant |guids| + |left| == |handlers|
        decreases |left|
      {
        var g :| g in left;
        guids, left := guids + [g], left - {g};
      }
    }

    /** The inactivity sweep with no RPC in flight does the protocol's sweep steps: every registered
        handler is closed exactly once, nc drops by their number, the table is left alone. */
    method CloseAllSessionNodes()
      requires Valid() && sessionMode
      modifies this`nc, this`closed
      ensures Valid()
      ensures exists order :: Lists(order, handlers.Keys) && closed == old(closed) + order &&
                              SweepLeads(old(Abs()), order, Abs())
      ensures nc == Wrap32(old(nc) - |handlers|)
      ensures |closed| == |old(closed)| + |handlers| && closed[..|old(closed)|] == old(closed)
      ensures multiset(closed[|old(closed)|..]) == multiset(handlers.Keys)
    {
      var guids := ListNodeHandlerGuids();
      for i := 0 to |guids|
        invariant nc == Wrap32(old(nc) - i)
        invariant closed == old(closed) + guids[..i]
      {
        if guids[i] in handlers {
          closed := closed + [guids[i]];
          Wrap32Add(old(nc) - i, -1);
          nc := AddInt32(nc, -1);
        }
      }
      assert guids[..|guids|] == guids;
      DistinctMultiset(guids, handlers.Keys);
      assert Lists(guids, handlers.Keys);
      SweepReaches(old(Abs()), guids);
    }
  }

  /** The sweep steps in this order lead from one shared state to the other. */
  ghost predicate SweepLeads(before: Shared, order: seq<Guid>, after: Shared) {
    var s := State(before, map[], NotSwept);
    && Runs(s, SweepMoves(order))
    && Run(s, SweepMoves(order)) == State(after, map[], Looking([], order))
  }

  lemma SweepReaches(before: Shared, order: seq<Guid>)
    requires before.session && Lists(order, before.table) && -TWO_31 <= before.nc < TWO_31
    ensures SweepLeads(before, order, before.(nc := Wrap32(before.nc - |order|)))
  {
    SweepSolo(State(before, map[], NotSwept), order, before.nc);
  }

  lemma {:induction false} DistinctMultiset(guids: seq<Guid>, s: set<Guid>)
    requires forall g :: g in guids <==> g in s
    requires forall i, j :: 0 <= i < j < |guids| ==> guids[i] != guids[j]
    ensures multiset(guids) == multiset(s)
  {
    forall g
      ensures multiset(guids)[g] <= 1
    {
      OnceAtMost(guids, g);
    }
    assert forall g :: multiset(guids)[g] == multiset(s)[g];
  }

  lemma {:induction false} OnceAtMost(guids: seq<Guid>, g: Guid)
    requires forall i, j :: 0 <= i < j < |guids| ==> guids[i] != guids[j]
    ensures multiset(guids)[g] <= 1
  {
    if guids != [] {
      var last := |guids| - 1;
      assert guids == guids[..last] + [guids[last]];
      OnceAtMost(guids[..last], g);
      assert guids[last] !in guids[..last];
    }
  }
}

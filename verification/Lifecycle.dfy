/** The node lifecycle protocol of the plugin process: `OnCreate`, `OnMessage`, `OnClose` and
    `OnSetup` run concurrently over a handler table, the 32-bit counter `nc`, the `initReady`
    gate and the one-slot channel `done`. In session mode the inactivity sweep runs beside them.

    Every RPC is a sequence of atomic steps; a step touches the shared state at most once, so code
    that only computes locally (a node's own callbacks) is folded into the step beside it and
    contributes the boolean outcome `ok`. */
module Lifecycle {

  type Guid = string
  type CallId = nat

  datatype InitPhase = NotStarted | Fetching | Ready

  datatype CreatePc =
    | CreateWaiting   // blocked on initReady, or about to run the factory
    | Registered      // the factory added the handler
    | Created         // the handler's OnCreate succeeded, nc not yet incremented
    | Counted         // nc incremented, OnCreate returned without error
    | CreateRefused   // no factory, or the factory failed before registering
    | CreateFailed    // the handler's OnCreate failed; its handler stays in the table
    | CreatePanicked  // the handler vanished before it was looked up

  datatype ClosePc =
    | CloseArrived
    | Closing         // handler found, its OnClose running
    | Decremented
    | Removed
    | Signalling      // the counter was read as zero; sending on done
    | Closed
    | CloseNoHandler

  datatype SetupPc = SetupWaiting | SetupRegistered | SettingUp | SetupReturned | SetupRefused

  datatype MessagePc = MessageArrived | Handling | Delivered(seen: nat) | MessageNoHandler

  datatype Call =
    | Create(guid: Guid, create: CreatePc)
    | Close(guid: Guid, close: ClosePc)
    | Setup(guid: Guid, setup: SetupPc)
    | Message(guid: Guid, message: MessagePc)

  /** What all RPC goroutines share. `pending` is the number of values buffered in `done`
      (capacity one), `received` the number taken from it, and `others` how many of all these were
      sent by an operating-system signal or a lost connection. */
  datatype Shared = Shared(
    session: bool, init: InitPhase, caps: nat,
    table: set<Guid>, nc: int, pending: nat, received: nat, others: nat)

  /** The daemon's inactivity sweep over a snapshot of the registered guids. `done` lists the guids it
      has closed and taken off the counter; while it holds a handler, that handler's OnClose runs. */
  datatype Sweep =
    | NotSwept
    | Looking(todo: seq<Guid>, done: seq<Guid>)
    | Holding(guid: Guid, todo: seq<Guid>, done: seq<Guid>)

  datatype State = State(sh: Shared, calls: map<CallId, Call>, sweep: Sweep)

  datatype Action =
    | InitBegin
    | InitCaps(bits: nat)
    | InitDone
    | Arrive(id: CallId, call: Call)
    | Advance(id: CallId, ok: bool)
    | SweepBegin(order: seq<Guid>)
    | SweepNext
    | OtherSend
    | Receive

  // ----- 32-bit counter arithmetic -----

  const TWO_31: int := 0x8000_0000
  const TWO_32: int := 0x1_0000_0000

  function Wrap32(n: int): int {
    (n + TWO_31) % TWO_32 - TWO_31
  }

  function AddInt32(x: int, d: int): int {
    Wrap32(x + d)
  }

  lemma Wrap32Add(n: int, d: int)
    ensures AddInt32(Wrap32(n), d) == Wrap32(n + d)
  {
    var q := (n + TWO_31) / TWO_32;
    assert Wrap32(n) + d + TWO_31 == n + d + TWO_31 - q * TWO_32;
  }

  // ----- One step of one call -----

  predicate Initial(c: Call) {
    match c
    case Create(_, pc) => pc.CreateWaiting?
    case Close(_, pc) => pc.CloseArrived?
    case Setup(_, pc) => pc.SetupWaiting?
    case Message(_, pc) => pc.MessageArrived?
  }

  predicate Returned(c: Call) {
    match c
    case Create(_, pc) => pc.Counted? || pc.CreateRefused? || pc.CreateFailed? || pc.CreatePanicked?
    case Close(_, pc) => pc.Closed? || pc.CloseNoHandler?
    case Setup(_, pc) => pc.SetupReturned? || pc.SetupRefused?
    case Message(_, pc) => pc.Delivered? || pc.MessageNoHandler?
  }

  /** A call that has not returned can move unless it waits for initReady or for room in done. */
  predicate CanAdvance(sh: Shared, c: Call) {
    && !Returned(c)
    && ((c.Create? && c.create.CreateWaiting?) || (c.Setup? && c.setup.SetupWaiting?) ==> sh.init.Ready?)
    && (c.Close? && c.close.Signalling? ==> sh.pending == 0)
  }

  function Effect(sh: Shared, c: Call, ok: bool): Shared
    requires CanAdvance(sh, c)
  {
    match c
    case Create(g, CreateWaiting) => if ok then sh.(table := sh.table + {g}) else sh
    case Create(g, Created) => sh.(nc := AddInt32(sh.nc, 1))
    case Close(g, Closing) => sh.(nc := AddInt32(sh.nc, -1))
    case Close(g, Decremented) => sh.(table := sh.table - {g})
    case Close(g, Signalling) => sh.(pending := sh.pending + 1)
    case Setup(g, SetupWaiting) => if ok then sh.(table := sh.table + {g}) else sh
    case Setup(g, SettingUp) => sh.(table := sh.table - {g})
    case _ => sh
  }

  function After(sh: Shared, c: Call, ok: bool): Call
    requires CanAdvance(sh, c)
  {
    match c
    case Create(g, CreateWaiting) => Create(g, if ok then Registered else CreateRefused)
    case Create(g, Registered) =>
      Create(g, if g !in sh.table then CreatePanicked else if ok then Created else CreateFailed)
    case Create(g, _) => Create(g, Counted)
    case Close(g, CloseArrived) => Close(g, if g in sh.table then Closing else CloseNoHandler)
    case Close(g, Closing) => Close(g, Decremented)
    case Close(g, Decremented) => Close(g, Removed)
    case Close(g, Removed) => Close(g, if sh.nc == 0 && !sh.session then Signalling else Closed)
    case Close(g, _) => Close(g, Closed)
    case Setup(g, SetupWaiting) => Setup(g, if ok then SetupRegistered else SetupRefused)
    case Setup(g, SetupRegistered) => Setup(g, if g in sh.table then SettingUp else SetupRefused)
    case Setup(g, _) => Setup(g, SetupReturned)
    case Message(g, MessageArrived) => Message(g, if g in sh.table then Handling else MessageNoHandler)
    case Message(g, _) => Message(g, Delivered(sh.caps))
  }

  // ----- One step of the sweep -----

  predicate NoRepeats(s: seq<Guid>) {
    forall i, j :: 0 <= i < j < |s| ==> s[i] != s[j]
  }

  function SetOf(s: seq<Guid>): set<Guid> { set g <- s }

  /** The registered guids, each once, in whatever order the map yields them. */
  predicate Lists(order: seq<Guid>, table: set<Guid>) {
    NoRepeats(order) && SetOf(order) == table
  }

  predicate SweepCanMove(sw: Sweep) {
    sw.Holding? || (sw.Looking? && sw.todo != [])
  }

  /** A guid whose handler is gone is skipped; the sweep never removes a handler. */
  function SweepAfter(sw: Sweep, table: set<Guid>): Sweep
    requires SweepCanMove(sw)
  {
    match sw
    case Looking(todo, done) =>
      if todo[0] in table then Holding(todo[0], todo[1..], done) else Looking(todo[1..], done)
    case Holding(g, todo, done) => Looking(todo, done + [g])
  }

  /** The guids the sweep has taken off the counter. */
  function SweptOff(sw: Sweep): seq<Guid> {
    if sw.NotSwept? then [] else sw.done
  }

  /** The guids whose handler's OnClose the sweep has run. */
  function SweepRan(sw: Sweep): seq<Guid> {
    match sw
    case NotSwept => []
    case Looking(_, done) => done
    case Holding(g, _, done) => done + [g]
  }

  function ToDo(sw: Sweep): seq<Guid> {
    if sw.NotSwept? then [] else sw.todo
  }

  // ----- Steps of the whole process -----

  predicate Enabled(s: State, a: Action) {
    match a
    case InitBegin => s.sh.init == NotStarted
    case InitCaps(_) => s.sh.init == Fetching
    case InitDone => s.sh.init == Fetching
    case Arrive(id, c) => id !in s.calls && Initial(c)
    case Advance(id, _) => id in s.calls && CanAdvance(s.sh, s.calls[id])
    case SweepBegin(order) => s.sh.session && s.sweep.NotSwept? && Lists(order, s.sh.table)
    case SweepNext => SweepCanMove(s.sweep)
    case OtherSend => !s.sh.session && s.sh.pending == 0
    case Receive => s.sh.pending > 0
  }

  function Next(s: State, a: Action): State
    requires Enabled(s, a)
  {
    match a
    case InitBegin => s.(sh := s.sh.(init := Fetching))
    case InitCaps(bits) => s.(sh := s.sh.(caps := bits))
    case InitDone => s.(sh := s.sh.(init := Ready))
    case Arrive(id, c) => s.(calls := s.calls[id := c])
    case Advance(id, ok) =>
      s.(sh := Effect(s.sh, s.calls[id], ok), calls := s.calls[id := After(s.sh, s.calls[id], ok)])
    case SweepBegin(order) => s.(sweep := Looking(order, []))
    case SweepNext =>
      s.(sh := if s.sweep.Holding? then s.sh.(nc := AddInt32(s.sh.nc, -1)) else s.sh,
         sweep := SweepAfter(s.sweep, s.sh.table))
    case OtherSend => s.(sh := s.sh.(pending := s.sh.pending + 1, others := s.sh.others + 1))
    case Receive => s.(sh := s.sh.(pending := s.sh.pending - 1, received := s.sh.received + 1))
  }

  // ----- Runs -----

  /** The process as it starts: a plugin waits for Init, a session daemon closes initReady itself. */
  function Start(session: bool): State {
    State(Shared(session, if session then Ready else NotStarted, 0, {}, 0, 0, 0, 0), map[], NotSwept)
  }

  predicate Runs(s: State, acts: seq<Action>)
    decreases |acts|
  {
    acts == [] || (Enabled(s, acts[0]) && Runs(Next(s, acts[0]), acts[1..]))
  }

  function Run(s: State, acts: seq<Action>): State
    requires Runs(s, acts)
    decreases |acts|
  {
    if acts == [] then s else Run(Next(s, acts[0]), acts[1..])
  }

  // ----- What the host promises -----

  predicate Owns(c: Call, g: Guid) {
    (c.Create? || c.Setup?) && c.guid == g
  }

  /** A node or setup guid is used for one create or one setup, and a node is closed at most once.
      The close may come at any time, even for a node whose create failed or is still running. */
  predicate Disciplined(s: State, a: Action) {
    a.Arrive? ==>
      match a.call
      case Create(g, _) => forall i <- s.calls :: !Owns(s.calls[i], g)
      case Setup(g, _) => forall i <- s.calls :: s.calls[i].guid == g ==> s.calls[i].Message?
      case Close(g, _) =>
        forall i <- s.calls :: s.calls[i].guid == g ==> !s.calls[i].Close? && !s.calls[i].Setup?
      case Message(_, _) => true
  }

  /** A close is only sent for a node whose create returned without error. */
  predicate Careful(s: State, a: Action) {
    && Disciplined(s, a)
    && (a.Arrive? && a.call.Close? ==>
          exists i <- s.calls :: s.calls[i] == Create(a.call.guid, Counted))
  }

  predicate DisciplinedRun(s: State, acts: seq<Action>)
    requires Runs(s, acts)
    decreases |acts|
  {
    acts == [] || (Disciplined(s, acts[0]) && DisciplinedRun(Next(s, acts[0]), acts[1..]))
  }

  predicate CarefulRun(s: State, acts: seq<Action>)
    requires Runs(s, acts)
    decreases |acts|
  {
    acts == [] || (Careful(s, acts[0]) && CarefulRun(Next(s, acts[0]), acts[1..]))
  }
}

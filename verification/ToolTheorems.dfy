/** Where a tool request's message goes and what its replies carry, for every handler. */
module ToolTheorems {
  import opened MessageContext
  import opened ToolProtocol
  import opened ToolReplies
  import opened Wrappers

  // ----- Whether the message flows on -----

  /** What a context is to the flow: a tool request, another document, or nothing to pass on. */
  datatype Shape = Request | Document | Nothing

  function ShapeOf(d: Data): Shape {
    if IsToolRequest(d) then Request else if d.Doc? then Document else Nothing
  }

  function Reshaped(sh: Shape, op: Op): Shape {
    match op
    case Set(k, v) =>
      if k == TYPE then if v == Str("tool_request") then Request else Document
      else if sh.Request? then Request else Document
    case Respond(_, _, _) => if sh.Request? then Nothing else sh
    case SetRaw(raw) => ShapeOf(raw)
  }

  function ShapeAfter(sh: Shape, ops: seq<Op>): Shape
    decreases |ops|
  {
    if ops == [] then sh else ShapeAfter(Reshaped(sh, ops[0]), ops[1..])
  }

  lemma {:induction false} HandlerShape(w: World, ops: seq<Op>)
    ensures ShapeOf(DoAll(w, ops).data) == ShapeAfter(ShapeOf(w.data), ops)
    decreases |ops|
  {
    if ops != [] {
      assert ShapeOf(Do(w, ops[0]).data) == Reshaped(ShapeOf(w.data), ops[0]);
      HandlerShape(Do(w, ops[0]), ops[1..]);
    }
  }

  /** For every handler: a tool request goes no further exactly when the handler does not leave behind a
      document that is no request. What is still a request is answered and cleared by the wrapper. */
  lemma FlowStopsIff(node: Node, w: World, ops: seq<Op>, err: Option<string>)
    requires node.hasTool && IsToolRequest(w.data)
    ensures OutMessage(Intercept(node, w, ops, err).0.data).None? <==> !ShapeAfter(Request, ops).Document?
  {
    HandlerShape(w, ops);
  }

  /** The handler leaves the marker alone: it does not set it, and every document it puts in place as a
      whole still carries it. */
  predicate KeepsMarker(ops: seq<Op>) {
    forall op <- ops :: !IsWrite(op, {TYPE}) && (op.SetRaw? ==> IsToolRequest(op.raw))
  }

  /** A reply of the handler's own with no whole document put in place after it. */
  predicate ReplyStands(ops: seq<Op>, i: nat) {
    i < |ops| && ops[i].Respond? && forall k :: i < k < |ops| ==> !ops[k].SetRaw?
  }

  predicate WritesAfterReply(ops: seq<Op>) {
    exists i: nat, j: nat :: i < j < |ops| && ReplyStands(ops, i) && ops[j].Set?
  }

  lemma {:induction false} ShapeSnoc(sh: Shape, ops: seq<Op>, op: Op)
    ensures ShapeAfter(sh, ops + [op]) == Reshaped(ShapeAfter(sh, ops), op)
    decreases |ops|
  {
    if ops == [] {
      assert [] + [op] == [op];
    } else {
      assert (ops + [op])[1..] == ops[1..] + [op];
      ShapeSnoc(Reshaped(sh, ops[0]), ops[1..], op);
    }
  }

  lemma StandsSnoc(ops: seq<Op>, op: Op, i: nat)
    ensures i < |ops| ==> (ReplyStands(ops + [op], i) <==> ReplyStands(ops, i) && !op.SetRaw?)
    ensures ReplyStands(ops + [op], |ops|) <==> op.Respond?
  {
    var all := ops + [op];
    assert all[|ops|] == op && forall k :: 0 <= k < |ops| ==> all[k] == ops[k];
  }

  predicate SomeReplyStands(ops: seq<Op>) {
    exists i: nat :: i < |ops| && ReplyStands(ops, i)
  }

  lemma SomeSnoc(ops: seq<Op>, op: Op)
    ensures SomeReplyStands(ops + [op]) <==> op.Respond? || (SomeReplyStands(ops) && !op.SetRaw?)
  {
    StandsSnoc(ops, op, |ops|);
    if SomeReplyStands(ops) {
      var i: nat :| i < |ops| && ReplyStands(ops, i);
      StandsSnoc(ops, op, i);
    }
    if i: nat :| i <= |ops| && ReplyStands(ops + [op], i) {
      StandsSnoc(ops, op, i);
    }
  }

  lemma WritesSnoc(ops: seq<Op>, op: Op)
    ensures WritesAfterReply(ops + [op]) <==>
            !op.SetRaw? && (WritesAfterReply(ops) || (op.Set? && SomeReplyStands(ops)))
  {
    var all := ops + [op];
    if WritesAfterReply(all) {
      var i: nat, j: nat :| i < j < |all| && ReplyStands(all, i) && all[j].Set?;
      StandsSnoc(ops, op, i);
    }
    if !op.SetRaw? && WritesAfterReply(ops) {
      var i: nat, j: nat :| i < j < |ops| && ReplyStands(ops, i) && ops[j].Set?;
      StandsSnoc(ops, op, i);
      assert all[j].Set?;
    }
    if op.Set? && SomeReplyStands(ops) {
      var i: nat :| i < |ops| && ReplyStands(ops, i);
      StandsSnoc(ops, op, i);
      assert all[|ops|].Set?;
    }
  }

  lemma {:induction false} KeptShape(ops: seq<Op>)
    requires KeepsMarker(ops)
    ensures ShapeAfter(Request, ops).Request? <==> !SomeReplyStands(ops)
    ensures ShapeAfter(Request, ops).Document? <==> WritesAfterReply(ops)
    decreases |ops|
  {
    if ops != [] {
      var rest, op := ops[..|ops| - 1], ops[|ops| - 1];
      assert ops == rest + [op];
      assert op in ops && forall o <- rest :: o in ops;
      assert !IsWrite(op, {TYPE});
      KeptShape(rest);
      ShapeSnoc(Request, rest, op);
      SomeSnoc(rest, op);
      WritesSnoc(rest, op);
    }
  }

  /** In particular, for a handler that leaves the marker alone, edits of the whole document included, the
      request stops flowing unless it writes to its context after a reply of its own and puts no whole
      document in place after that reply. */
  lemma FlowStopsUnlessWrittenIff(node: Node, w: World, ops: seq<Op>, err: Option<string>)
    requires node.hasTool && IsToolRequest(w.data) && KeepsMarker(ops)
    ensures OutMessage(Intercept(node, w, ops, err).0.data).None? <==> !WritesAfterReply(ops)
  {
    FlowStopsIff(node, w, ops, err);
    KeptShape(ops);
  }

  // ----- What the message carries -----

  /** A document goes out as it stands, unless packing it succeeds; nothing else goes out. */
  lemma WireCarries(d: Data, packing: Option<Pack>)
    ensures !d.Doc? ==> OnTheWire(OutMessage(d), packing) == None
    ensures d.Doc? && (packing.None? || packing.value(d.fields).None?) ==>
              OnTheWire(OutMessage(d), packing) == Some(d.fields)
    ensures d.Doc? && packing.Some? && packing.value(d.fields).Some? ==>
              OnTheWire(OutMessage(d), packing) == packing.value(d.fields)
  {}

  /** What one key holds after the handler's operations. */
  function Written(v: Json, ops: seq<Op>, k: string): Json
    decreases |ops|
  {
    if ops == [] then v
    else
      Written(match ops[0]
              case Set(key, value) => if key == k then value else v
              case SetRaw(raw) => GetKey(raw, k)
              case Respond(_, _, _) => v,
              ops[1..], k)
  }

  lemma {:induction false} HandlerWrites(w: World, ops: seq<Op>, k: string)
    requires !IsToolRequest(w.data) && NeverMarks(ops)
    ensures GetKey(DoAll(w, ops).data, k) == Written(GetKey(w.data, k), ops, k)
    decreases |ops|
  {
    if ops != [] {
      assert ops[0] in ops && forall op <- ops[1..] :: op in ops;
      if ops[0].Set? {
        GetAfterSet(w.data, ops[0].key, ops[0].value, k);
        GetAfterSet(w.data, ops[0].key, ops[0].value, TYPE);
      }
      HandlerWrites(Do(w, ops[0]), ops[1..], k);
    }
  }

  /** A message that is no tool request leaves, unpacked, with every key of the input as the handler's
      writes left it; it leaves exactly when a document is left. */
  lemma MessageCarries(node: Node, w: World, ops: seq<Op>, err: Option<string>, k: string)
    requires !IsToolRequest(w.data) && NeverMarks(ops)
    ensures var out := OnTheWire(OutMessage(Intercept(node, w, ops, err).0.data), None);
            && (out.Some? <==> ShapeAfter(ShapeOf(w.data), ops).Document?)
            && (out.Some? ==> GetKey(Doc(out.value), k) == Written(GetKey(w.data, k), ops, k))
  {
    var done := DoAll(w, ops);
    HandlerWrites(w, ops, k);
    HandlerWrites(w, ops, TYPE);
    HandlerShape(w, ops);
    NeverMarked(w, ops);
    WireCarries(done.data, None);
  }

  lemma {:induction false} NeverMarked(w: World, ops: seq<Op>)
    requires !IsToolRequest(w.data) && NeverMarks(ops)
    ensures !IsToolRequest(DoAll(w, ops).data)
    decreases |ops|
  {
    if ops != [] {
      assert ops[0] in ops && forall op <- ops[1..] :: op in ops;
      NeverMarked(Do(w, ops[0]), ops[1..]);
    }
  }

  /** The collected outputs, key by key: the non-empty output names that have a value, or a bare status. */
  lemma OutputsMeaning(names: seq<string>, d: Data)
    ensures var any := exists n :: n in names && n != "" && GetKey(d, n) != Null;
            && (any ==> forall k ::
                  && (k in Outputs(names, d) <==> k in names && k != "" && GetKey(d, k) != Null)
                  && (k in Outputs(names, d) ==> Outputs(names, d)[k] == GetKey(d, k)))
            && (!any ==> Outputs(names, d) == map["status" := Str("completed")])
  {
    var found := map n | n in names && n != "" && GetKey(d, n) != Null :: GetKey(d, n);
    if n :| n in names && n != "" && GetKey(d, n) != Null {
      assert n in found;
    }
  }

  // ----- What a reply carries -----

  /** The values of the request that a reply repeats. */
  const REPEATED: set<string> := {"id", "session_id", "query", CALLER}

  predicate SameOn(keys: set<string>, d: Data, d': Data) {
    forall k <- keys :: GetKey(d, k) == GetKey(d', k)
  }

  /** The handler leaves these keys as the request has them, also in documents put in place as a whole. */
  predicate KeepsKeys(request: Data, ops: seq<Op>, keys: set<string>) {
    forall op <- ops :: !IsWrite(op, keys) && (op.SetRaw? ==> SameOn(keys, request, op.raw))
  }

  /** The marker is not set on the empty context that a reply leaves behind. */
  predicate SetsMarker(op: Op) {
    op.Set? && op.key == TYPE && op.value == Str("tool_request")
  }

  predicate NeverSetsMarker(ops: seq<Op>) {
    forall op <- ops :: !SetsMarker(op)
  }

  predicate NeverSetsMarkerAfterReply(ops: seq<Op>) {
    forall i, j :: 0 <= i < j < |ops| && ops[i].Respond? ==> !SetsMarker(ops[j])
  }

  lemma SetsMarkerTail(ops: seq<Op>)
    requires ops != [] && NeverSetsMarkerAfterReply(ops)
    ensures NeverSetsMarkerAfterReply(ops[1..]) && (ops[0].Respond? ==> NeverSetsMarker(ops[1..]))
  {
    forall i, j | 0 <= i < j < |ops[1..]| && ops[1..][i].Respond?
      ensures !SetsMarker(ops[1..][j])
    {
      assert ops[i + 1].Respond?;
    }
    if ops[0].Respond? {
      assert forall j :: 0 <= j < |ops[1..]| ==> ops[1..][j] == ops[j + 1];
    }
  }

  /** A reply that repeats the request's values. */
  predicate Repeats(request: Data, e: Emission) {
    && GetKey(e.data, TYPE) == Str("tool_response")
    && GetKey(e.data, CALLER) == GetKey(request, CALLER)
    && GetKey(e.data, "id") == GetKey(request, "id")
    && GetKey(e.data, "session_id") == GetKey(request, "session_id")
    && GetKey(e.data, "query") == GetKey(request, "query")
  }

  /** The reply's fields, key by key. */
  lemma ReplyField(d: Data, status: string, data: Option<map<string, Json>>, error: string, k: string)
    ensures GetKey(Doc(ReplyFields(d, status, data, error)), k) ==
            if data.Some? && k == DATA then Obj(data.value)
            else if error != "" && k == ERROR then Str(error)
            else if k == STATUS then Str(status)
            else if k == CALLER then GetKey(d, CALLER)
            else if k == TYPE then Str("tool_response")
            else if k == "id" || k == "session_id" || k == "query" then GetKey(d, k)
            else Null
  {}

  lemma KeysDistinct()
    ensures |TYPE| == 16 && |CALLER| == 18 && |AGENT| == 17 && |STATUS| == 15 && |ERROR| == 14 && |DATA| == 13
    ensures |"id"| == 2 && |"session_id"| == 10 && |"query"| == 5
  {}

  lemma ReplyIdentity(d: Data, status: string, data: Option<map<string, Json>>, error: string)
    ensures var r := Doc(ReplyFields(d, status, data, error));
            && GetKey(r, TYPE) == Str("tool_response")
            && GetKey(r, CALLER) == GetKey(d, CALLER)
            && GetKey(r, "id") == GetKey(d, "id")
            && GetKey(r, "session_id") == GetKey(d, "session_id")
            && GetKey(r, "query") == GetKey(d, "query")
  {
    KeysDistinct();
    ReplyField(d, status, data, error, TYPE);
    ReplyField(d, status, data, error, CALLER);
    ReplyField(d, status, data, error, "id");
    ReplyField(d, status, data, error, "session_id");
    ReplyField(d, status, data, error, "query");
  }

  lemma ReplyOutcome(d: Data, status: string, data: Option<map<string, Json>>, error: string)
    ensures var r := Doc(ReplyFields(d, status, data, error));
            && GetKey(r, STATUS) == Str(status)
            && GetKey(r, ERROR) == (if error != "" then Str(error) else Null)
            && GetKey(r, DATA) == (if data.Some? then Obj(data.value) else Null)
  {
    KeysDistinct();
    ReplyField(d, status, data, error, STATUS);
    ReplyField(d, status, data, error, ERROR);
    ReplyField(d, status, data, error, DATA);
  }

  /** Every emission from `from` on repeats the request, and goes to its agent if that key is kept. */
  predicate AllRepeat(request: Data, sent: seq<Emission>, from: nat, keys: set<string>) {
    forall n :: from <= n < |sent| ==>
      Repeats(request, sent[n]) && (AGENT in keys ==> Agent(request) == Some(sent[n].agent))
  }

  lemma ReplyRepeats(request: Data, w: World, status: string, data: Option<map<string, Json>>, error: string, keys: set<string>)
    requires REPEATED <= keys && (IsToolRequest(w.data) ==> SameOn(keys, request, w.data))
    ensures var t := Reply(w, status, data, error);
            w.sent <= t.sent && AllRepeat(request, t.sent, |w.sent|, keys) && !IsToolRequest(t.data)
  {
    if IsToolRequest(w.data) {
      assert CALLER in REPEATED && "id" in REPEATED && "session_id" in REPEATED && "query" in REPEATED;
      ReplyIdentity(w.data, status, data, error);
    }
  }

  lemma AllRepeatMore(request: Data, xs: seq<Emission>, ys: seq<Emission>, from: nat, keys: set<string>)
    requires xs <= ys && from <= |xs| && AllRepeat(request, xs, from, keys) && AllRepeat(request, ys, |xs|, keys)
    ensures AllRepeat(request, ys, from, keys)
  {
    assert forall n :: 0 <= n < |xs| ==> ys[n] == xs[n];
  }

  /** The context is no request, or agrees with the one that came. */
  predicate Loyal(request: Data, d: Data, keys: set<string>, ops: seq<Op>) {
    SameOn(keys, request, d) || (!IsToolRequest(d) && NeverSetsMarker(ops))
  }

  lemma LoyalStep(request: Data, w: World, ops: seq<Op>, keys: set<string>)
    requires ops != [] && Loyal(request, w.data, keys, ops) && REPEATED <= keys
    requires KeepsKeys(request, ops, keys) && NeverSetsMarkerAfterReply(ops)
    ensures var t := Do(w, ops[0]);
            w.sent <= t.sent && AllRepeat(request, t.sent, |w.sent|, keys) && Loyal(request, t.data, keys, ops[1..])
  {
    assert ops[0] in ops && forall op <- ops[1..] :: op in ops;
    assert !IsWrite(ops[0], keys);
    SetsMarkerTail(ops);
    match ops[0]
    case Respond(status, data, error) => ReplyRepeats(request, w, status, data, error, keys);
    case Set(k, v) => assert !SameOn(keys, request, w.data) ==> !SetsMarker(ops[0]);
    case SetRaw(raw) =>
  }

  lemma {:induction false} HandlerRepeats(request: Data, w: World, ops: seq<Op>, keys: set<string>)
    requires Loyal(request, w.data, keys, ops) && REPEATED <= keys
    requires KeepsKeys(request, ops, keys) && NeverSetsMarkerAfterReply(ops)
    ensures var t := DoAll(w, ops);
            && w.sent <= t.sent && AllRepeat(request, t.sent, |w.sent|, keys)
            && (IsToolRequest(t.data) ==> SameOn(keys, request, t.data))
    decreases |ops|
  {
    if ops != [] {
      var w1 := Do(w, ops[0]);
      LoyalStep(request, w, ops, keys);
      assert forall op <- ops[1..] :: op in ops;
      SetsMarkerTail(ops);
      HandlerRepeats(request, w1, ops[1..], keys);
      AllRepeatMore(request, w1.sent, DoAll(w, ops).sent, |w.sent|, keys);
    }
  }

  lemma Intercepted(node: Node, request: Data, w: World, ops: seq<Op>, err: Option<string>, keys: set<string>)
    requires REPEATED <= keys && node.hasTool && IsToolRequest(w.data)
    requires var done := DoAll(w, ops).data; IsToolRequest(done) ==> SameOn(keys, request, done)
    ensures var done, t := DoAll(w, ops), Intercept(node, w, ops, err).0;
            done.sent <= t.sent && AllRepeat(request, t.sent, |done.sent|, keys)
  {
    var done := DoAll(w, ops);
    if err.Some? {
      ReplyRepeats(request, done, "error", None, err.value, keys);
    } else {
      ReplyRepeats(request, done, "success", Some(Outputs(node.outputs, done.data)), "", keys);
    }
  }

  /** Every reply, however many leave, repeats the request's id, session, query and caller, if the handler
      keeps these keys and does not set the marker on the emptied context after a reply. It goes to the
      asking agent if that key is kept as well; a handler may redirect it. */
  lemma EveryReplyRepeats(node: Node, w: World, ops: seq<Op>, err: Option<string>, keys: set<string>)
    requires node.hasTool && IsToolRequest(w.data) && REPEATED <= keys
    requires KeepsKeys(w.data, ops, keys) && NeverSetsMarkerAfterReply(ops)
    ensures var t := Intercept(node, w, ops, err).0;
            w.sent <= t.sent && AllRepeat(w.data, t.sent, |w.sent|, keys)
  {
    HandlerRepeats(w.data, w, ops, keys);
    Intercepted(node, w.data, w, ops, err, keys);
    AllRepeatMore(w.data, DoAll(w, ops).sent, Intercept(node, w, ops, err).0.sent, |w.sent|, keys);
  }

  /** What a handler must leave alone for its one reply to answer the request. */
  const IDENTITY: set<string> := REPEATED + {TYPE, AGENT}

  /** If all of these are kept, also in documents put in place as a whole, a reply to the asking agent does
      leave, and it is the only one unless a whole request is put in place after a reply. */
  lemma ReplyCorrelates(node: Node, w: World, ops: seq<Op>, err: Option<string>)
    requires node.hasTool && RoutingOf(w.data).Armed() && KeepsKeys(w.data, ops, IDENTITY)
    ensures var t := Intercept(node, w, ops, err).0;
            && |t.sent| > |w.sent| && w.sent <= t.sent && AllRepeat(w.data, t.sent, |w.sent|, IDENTITY)
            && (NeverRestores(ops) ==> |t.sent| == |w.sent| + 1)
  {
    KeepsIdentity(w.data, ops);
    EveryReplyRepeats(node, w, ops, err, IDENTITY);
    StaysArmed(RoutingOf(w.data), ops);
    ReplyCount(node, w, ops, err);
    if NeverRestores(ops) {
      assert !DiscardsRequest(ops) by {
        assert forall i :: 0 <= i < |ops| ==> ops[i] in ops;
      }
      ExactlyOneReplyIff(node, w, ops, err);
    }
  }

  lemma KeepsIdentity(request: Data, ops: seq<Op>)
    requires KeepsKeys(request, ops, IDENTITY) && RoutingOf(request).Armed()
    ensures NeverWrites(ops, {TYPE, AGENT}) && NeverSetsMarkerAfterReply(ops)
    ensures forall op <- ops :: op.SetRaw? ==> RoutingOf(op.raw) == RoutingOf(request)
  {
    assert TYPE in IDENTITY && AGENT in IDENTITY;
    forall op <- ops
      ensures !IsWrite(op, {TYPE, AGENT}) && !SetsMarker(op)
      ensures op.SetRaw? ==> RoutingOf(op.raw) == RoutingOf(request)
    {
      assert !IsWrite(op, IDENTITY);
    }
    assert forall i :: 0 <= i < |ops| ==> ops[i] in ops;
  }

  lemma {:induction false} StaysArmed(r: Routing, ops: seq<Op>)
    requires r.Armed() && NeverWrites(ops, {TYPE, AGENT})
    requires forall op <- ops :: op.SetRaw? ==> RoutingOf(op.raw).Armed()
    ensures Sends(r, ops, true) >= 1
    decreases |ops|
  {
    if ops != [] {
      assert ops[0] in ops && forall op <- ops[1..] :: op in ops;
      assert !IsWrite(ops[0], {TYPE, AGENT});
      if !ops[0].Respond? {
        StaysArmed(Rerouted(r, ops[0]), ops[1..]);
      }
    }
  }

  lemma {:induction false} SilentHandler(w: World, ops: seq<Op>)
    requires forall op <- ops :: !op.Respond?
    ensures DoAll(w, ops).sent == w.sent
    decreases |ops|
  {
    if ops != [] {
      assert ops[0] in ops && forall op <- ops[1..] :: op in ops;
      SilentHandler(Do(w, ops[0]), ops[1..]);
    }
  }

  /** A handler that tries no reply of its own and returns a request that names an agent, whatever it wrote:
      its outcome decides the default reply. Status is "error" exactly when it failed, with its text if it
      has one, else the collected outputs are sent; and the error is reported to the agent, not to the
      flow. */
  lemma DefaultReplyStatus(node: Node, w: World, ops: seq<Op>, err: Option<string>)
    requires node.hasTool && IsToolRequest(w.data) && forall op <- ops :: !op.Respond?
    requires RoutingAfter(RoutingOf(w.data), ops).Armed()
    ensures var (t, result) := Intercept(node, w, ops, err);
            && result == None && t.data == NilBytes && |t.sent| == |w.sent| + 1
            && var reply := t.sent[|w.sent|].data;
            && (GetKey(reply, STATUS) == Str("error") <==> err.Some?)
            && (GetKey(reply, STATUS) == Str("success") <==> err.None?)
            && (GetKey(reply, ERROR) == if err.Some? && err.value != "" then Str(err.value) else Null)
            && (GetKey(reply, DATA) == if err.Some? then Null else Obj(Outputs(node.outputs, DoAll(w, ops).data)))
  {
    HandlerSends(w, ops);
    SilentHandler(w, ops);
    var done := DoAll(w, ops);
    assert "error" != "success";
    if err.Some? {
      ReplyOutcome(done.data, "error", None, err.value);
    } else {
      ReplyOutcome(done.data, "success", Some(Outputs(node.outputs, done.data)), "");
    }
  }

  // ----- Where the guarantee stops -----

  /** A node that is not marked with a field named Tool gets no default reply: a toolkit handler that
      does not reply itself leaves the agent waiting, and its message flows on. */
  lemma {:induction false} ToolkitSilent(node: Node, w: World, ops: seq<Op>, err: Option<string>)
    requires !node.hasTool && w.data.Doc? && forall op <- ops :: op.SetRaw? ==> op.raw.Doc?
    requires forall op <- ops :: !op.Respond?
    ensures var (t, result) := Intercept(node, w, ops, err);
            t.sent == w.sent && OutMessage(t.data).Some? && result == err
    decreases |ops|
  {
    if ops != [] {
      assert ops[0] in ops;
      assert forall op <- ops[1..] :: op in ops;
      ToolkitSilent(node, Do(w, ops[0]), ops[1..], err);
    }
  }
}

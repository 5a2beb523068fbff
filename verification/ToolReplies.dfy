/** How many replies a tool request gets, for every handler: the number is fixed by the handler's
    operations and two facts about the request, whether it is marked and whether it names an agent. */
module ToolReplies {
  import opened MessageContext
  import opened ToolProtocol
  import opened Wrappers

  // ----- What decides a reply -----

  datatype Routing = Routing(marked: bool, named: bool) {
    /** A reply can leave. */
    predicate Armed() { marked && named }
  }

  const UNROUTED: Routing := Routing(false, false)

  function RoutingOf(d: Data): Routing {
    Routing(IsToolRequest(d), Agent(d).Some?)
  }

  function Rerouted(r: Routing, op: Op): Routing {
    match op
    case Set(k, v) =>
      if k == TYPE then r.(marked := v == Str("tool_request"))
      else if k == AGENT then r.(named := v.Str? && v.s != "")
      else r
    case Respond(_, _, _) => if r.marked then UNROUTED else r
    case SetRaw(raw) => RoutingOf(raw)
  }

  function RoutingAfter(r: Routing, ops: seq<Op>): Routing
    decreases |ops|
  {
    if ops == [] then r else RoutingAfter(Rerouted(r, ops[0]), ops[1..])
  }

  /** The replies of a handler, and of the wrapper after it if `atReturn`: one for every try that finds
      the context armed. */
  function Sends(r: Routing, ops: seq<Op>, atReturn: bool): nat
    decreases |ops|
  {
    if ops == [] then if atReturn && r.Armed() then 1 else 0
    else (if ops[0].Respond? && r.Armed() then 1 else 0) + Sends(Rerouted(r, ops[0]), ops[1..], atReturn)
  }

  lemma RoutingStep(w: World, op: Op)
    ensures RoutingOf(Do(w, op).data) == Rerouted(RoutingOf(w.data), op)
    ensures |Do(w, op).sent| == |w.sent| + (if op.Respond? && RoutingOf(w.data).Armed() then 1 else 0)
  {
    assert |TYPE| == 16 && |AGENT| == 17;
  }

  lemma {:induction false} HandlerSends(w: World, ops: seq<Op>)
    ensures RoutingOf(DoAll(w, ops).data) == RoutingAfter(RoutingOf(w.data), ops)
    ensures |DoAll(w, ops).sent| == |w.sent| + Sends(RoutingOf(w.data), ops, false)
    decreases |ops|
  {
    if ops != [] {
      RoutingStep(w, ops[0]);
      HandlerSends(Do(w, ops[0]), ops[1..]);
    }
  }

  lemma {:induction false} SendsAtReturn(r: Routing, ops: seq<Op>)
    ensures Sends(r, ops, true) == Sends(r, ops, false) + (if RoutingAfter(r, ops).Armed() then 1 else 0)
    decreases |ops|
  {
    if ops != [] {
      SendsAtReturn(Rerouted(r, ops[0]), ops[1..]);
    }
  }

  lemma ReturnReply(node: Node, w: World, ops: seq<Op>, err: Option<string>)
    ensures var done := DoAll(w, ops);
            |Intercept(node, w, ops, err).0.sent| ==
            |done.sent| + (if node.hasTool && IsToolRequest(w.data) && RoutingOf(done.data).Armed() then 1 else 0)
  {}

  /** The exact number of replies, for every handler and every message. */
  lemma ReplyCount(node: Node, w: World, ops: seq<Op>, err: Option<string>)
    ensures |Intercept(node, w, ops, err).0.sent| ==
            |w.sent| + Sends(RoutingOf(w.data), ops, node.hasTool && IsToolRequest(w.data))
  {
    HandlerSends(w, ops);
    ReturnReply(node, w, ops, err);
    SendsAtReturn(RoutingOf(w.data), ops);
  }

  // ----- At most one reply -----

  predicate Tries(ops: seq<Op>, atReturn: bool, i: nat)
    requires i <= |ops|
  {
    if i < |ops| then ops[i].Respond? else atReturn
  }

  predicate RepliesAt(r: Routing, ops: seq<Op>, atReturn: bool, i: nat)
    requires i <= |ops|
  {
    Tries(ops, atReturn, i) && RoutingAfter(r, ops[..i]).Armed()
  }

  /** A reply leaves at `i`, and what the handler does from there on, starting from nothing, arms the
      context again before the try at `j`. */
  predicate RestoredBetween(r: Routing, ops: seq<Op>, atReturn: bool, i: nat, j: nat)
    requires i < j <= |ops|
  {
    RepliesAt(r, ops, atReturn, i) && Tries(ops, atReturn, j) && RoutingAfter(UNROUTED, ops[i + 1..j]).Armed()
  }

  predicate NeverRestored(r: Routing, ops: seq<Op>, atReturn: bool) {
    forall i: nat, j: nat :: i < j <= |ops| ==> !RestoredBetween(r, ops, atReturn, i, j)
  }

  lemma {:induction false} SendsConcat(r: Routing, xs: seq<Op>, ys: seq<Op>, atReturn: bool)
    ensures RoutingAfter(r, xs + ys) == RoutingAfter(RoutingAfter(r, xs), ys)
    ensures Sends(r, xs + ys, atReturn) == Sends(r, xs, false) + Sends(RoutingAfter(r, xs), ys, atReturn)
    decreases |xs|
  {
    if xs == [] {
      assert xs + ys == ys;
    } else {
      assert (xs + ys)[1..] == xs[1..] + ys;
      SendsConcat(Rerouted(r, xs[0]), xs[1..], ys, atReturn);
    }
  }

  /** A reply at `i` shows in the count, and what comes after it starts from nothing. */
  lemma CountFrom(r: Routing, ops: seq<Op>, atReturn: bool, i: nat)
    requires i <= |ops| && RepliesAt(r, ops, atReturn, i)
    ensures Sends(r, ops, atReturn) >= if i < |ops| then 1 + Sends(UNROUTED, ops[i + 1..], atReturn) else 1
  {
    assert ops == ops[..i] + ops[i..];
    SendsConcat(r, ops[..i], ops[i..], atReturn);
    if i < |ops| {
      assert ops[i..][1..] == ops[i + 1..];
    }
  }

  lemma {:induction false} SomeReply(r: Routing, ops: seq<Op>, atReturn: bool) returns (i: nat)
    requires Sends(r, ops, atReturn) > 0
    ensures i <= |ops| && RepliesAt(r, ops, atReturn, i)
    decreases |ops|
  {
    i := 0;
    if !(Tries(ops, atReturn, 0) && r.Armed()) {
      i := SomeReply(Rerouted(r, ops[0]), ops[1..], atReturn);
      assert ops[..i + 1][1..] == ops[1..][..i];
      i := i + 1;
    }
  }

  lemma {:induction false} TwoReplies(r: Routing, ops: seq<Op>, atReturn: bool) returns (i: nat, j: nat)
    requires Sends(r, ops, atReturn) > 1
    ensures i < j <= |ops| && RestoredBetween(r, ops, atReturn, i, j)
    decreases |ops|
  {
    if ops[0].Respond? && r.Armed() {
      j := SomeReply(UNROUTED, ops[1..], atReturn);
      assert ops[1..][..j] == ops[1..j + 1];
      i, j := 0, j + 1;
    } else {
      i, j := TwoReplies(Rerouted(r, ops[0]), ops[1..], atReturn);
      assert ops[..i + 1][1..] == ops[1..][..i] && ops[1..][i + 1..j] == ops[i + 2..j + 1];
      i, j := i + 1, j + 1;
    }
  }

  lemma RestoredCounts(r: Routing, ops: seq<Op>, atReturn: bool, i: nat, j: nat)
    requires i < j <= |ops| && RestoredBetween(r, ops, atReturn, i, j)
    ensures Sends(r, ops, atReturn) > 1
  {
    CountFrom(r, ops, atReturn, i);
    assert ops[i + 1..][..j - i - 1] == ops[i + 1..j];
    CountFrom(UNROUTED, ops[i + 1..], atReturn, j - i - 1);
  }

  /** At most one reply exactly when the handler never arms the context again between a reply and the
      next try, which is read off its operations and the request's two routing facts; a message that is
      no tool request passes through unchanged. */
  lemma AtMostOneReplyIff(node: Node, w: World, ops: seq<Op>, err: Option<string>)
    ensures |Intercept(node, w, ops, err).0.sent| <= |w.sent| + 1 <==>
            NeverRestored(RoutingOf(w.data), ops, node.hasTool && IsToolRequest(w.data))
    ensures !node.hasTool || !IsToolRequest(w.data) ==> Intercept(node, w, ops, err) == (DoAll(w, ops), err)
  {
    var r, atReturn := RoutingOf(w.data), node.hasTool && IsToolRequest(w.data);
    ReplyCount(node, w, ops, err);
    if Sends(r, ops, atReturn) > 1 {
      var i, j := TwoReplies(r, ops, atReturn);
    } else if !NeverRestored(r, ops, atReturn) {
      var i: nat, j: nat :| i < j <= |ops| && RestoredBetween(r, ops, atReturn, i, j);
      RestoredCounts(r, ops, atReturn, i, j);
    }
  }

  /** The operation puts the request marker into the context. */
  predicate Marks(op: Op) {
    match op
    case Set(k, v) => k == TYPE && v == Str("tool_request")
    case SetRaw(raw) => IsToolRequest(raw)
    case Respond(_, _, _) => false
  }

  predicate NeverMarks(ops: seq<Op>) {
    forall op <- ops :: !Marks(op)
  }

  predicate NeverMarksAfterReply(ops: seq<Op>) {
    forall i, j :: 0 <= i < j < |ops| && ops[i].Respond? ==> !Marks(ops[j])
  }

  lemma MarksTail(ops: seq<Op>)
    requires ops != [] && NeverMarksAfterReply(ops)
    ensures NeverMarksAfterReply(ops[1..]) && (ops[0].Respond? ==> NeverMarks(ops[1..]))
  {
    forall i, j | 0 <= i < j < |ops[1..]| && ops[1..][i].Respond?
      ensures !Marks(ops[1..][j])
    {
      assert ops[i + 1].Respond?;
    }
    if ops[0].Respond? {
      assert forall j :: 0 <= j < |ops[1..]| ==> ops[1..][j] == ops[j + 1];
    }
  }

  lemma {:induction false} Unmarked(r: Routing, ops: seq<Op>, atReturn: bool)
    requires !r.marked && NeverMarks(ops)
    ensures Sends(r, ops, atReturn) == 0
    decreases |ops|
  {
    if ops != [] {
      assert ops[0] in ops && forall op <- ops[1..] :: op in ops;
      Unmarked(Rerouted(r, ops[0]), ops[1..], atReturn);
    }
  }

  /** Where the first reply is tried: the handler's own first, or its return. */
  function FirstTry(ops: seq<Op>): (i: nat)
    ensures i <= |ops| && (i < |ops| ==> ops[i].Respond?)
    ensures forall j :: 0 <= j < i ==> !ops[j].Respond?
  {
    if ops == [] || ops[0].Respond? then 0 else 1 + FirstTry(ops[1..])
  }

  lemma {:induction false} FirstTrySends(r: Routing, ops: seq<Op>, atReturn: bool)
    requires NeverMarksAfterReply(ops)
    ensures var i := FirstTry(ops);
            Sends(r, ops, atReturn) == if Tries(ops, atReturn, i) && RoutingAfter(r, ops[..i]).Armed() then 1 else 0
    decreases |ops|
  {
    if ops != [] {
      MarksTail(ops);
      if ops[0].Respond? {
        Unmarked(Rerouted(r, ops[0]), ops[1..], atReturn);
      } else {
        var i := FirstTry(ops[1..]);
        assert ops[..i + 1][1..] == ops[1..][..i];
        FirstTrySends(Rerouted(r, ops[0]), ops[1..], atReturn);
      }
    }
  }

  /** A handler that does not put the request marker back after a reply of its own replies at most once,
      whatever else it writes: exactly once if its first try finds the context armed, else never. */
  lemma AtMostOneReply(node: Node, w: World, ops: seq<Op>, err: Option<string>)
    requires NeverMarksAfterReply(ops)
    ensures |Intercept(node, w, ops, err).0.sent| <= |w.sent| + 1
    ensures var i, atReturn := FirstTry(ops), node.hasTool && IsToolRequest(w.data);
            |Intercept(node, w, ops, err).0.sent| == |w.sent| + 1 <==>
            Tries(ops, atReturn, i) && RoutingAfter(RoutingOf(w.data), ops[..i]).Armed()
  {
    ReplyCount(node, w, ops, err);
    FirstTrySends(RoutingOf(w.data), ops, node.hasTool && IsToolRequest(w.data));
  }

  // ----- More than one reply -----

  predicate IsWrite(op: Op, keys: set<string>) {
    op.Set? && op.key in keys
  }

  predicate NeverWrites(ops: seq<Op>, keys: set<string>) {
    forall op <- ops :: !IsWrite(op, keys)
  }

  /** The handler neither sets a routing key nor overwrites the raw context. */
  predicate LeavesRouting(ops: seq<Op>) {
    NeverWrites(ops, {TYPE, AGENT}) && forall op <- ops :: !op.SetRaw?
  }

  lemma LeavesTail(ops: seq<Op>)
    requires ops != [] && LeavesRouting(ops)
    ensures LeavesRouting(ops[1..]) && !IsWrite(ops[0], {TYPE, AGENT}) && !ops[0].SetRaw?
  {
    assert ops[0] in ops && forall op <- ops[1..] :: op in ops;
  }

  lemma {:induction false} ArmedReplies(r: Routing, ops: seq<Op>)
    requires r.Armed() && LeavesRouting(ops)
    ensures Sends(r, ops, true) >= 1
    ensures Sends(r, ops, false) >= 1 || RoutingAfter(r, ops) == r
    ensures RoutingAfter(r, ops) == r || RoutingAfter(r, ops) == UNROUTED
    decreases |ops|
  {
    if ops != [] {
      LeavesTail(ops);
      if ops[0].Respond? {
        StaysUnrouted(ops[1..]);
      } else {
        ArmedReplies(r, ops[1..]);
      }
    }
  }

  lemma {:induction false} StaysUnrouted(ops: seq<Op>)
    requires LeavesRouting(ops)
    ensures RoutingAfter(UNROUTED, ops) == UNROUTED
    decreases |ops|
  {
    if ops != [] {
      LeavesTail(ops);
      StaysUnrouted(ops[1..]);
    }
  }

  /** Every handler that leaves the routing alone up to a reply, then puts marker and agent back, and
      leaves them alone again to its return, makes a second reply: its own or the wrapper's. */
  lemma RearmingRepliesAgain(node: Node, w: World, before: seq<Op>, reply: Op, restore: seq<Op>, after: seq<Op>, err: Option<string>)
    requires node.hasTool && RoutingOf(w.data).Armed() && LeavesRouting(before) && reply.Respond?
    requires RoutingAfter(UNROUTED, restore).Armed() && LeavesRouting(after)
    ensures |Intercept(node, w, before + [reply] + restore + after, err).0.sent| >= |w.sent| + 2
  {
    var r := RoutingOf(w.data);
    var r1 := RoutingAfter(r, before);
    ArmedReplies(r, before);
    assert [reply][1..] == [];
    SendsConcat(r, before, [reply], false);
    SendsConcat(r, before + [reply], restore, false);
    SendsConcat(r, before + [reply] + restore, after, true);
    ArmedReplies(RoutingAfter(UNROUTED, restore), after);
    ReplyCount(node, w, before + [reply] + restore + after, err);
  }

  // ----- Exactly one reply -----

  predicate Armed(d: Data) { RoutingOf(d).Armed() }

  predicate ArmedRaw(op: Op) { op.SetRaw? && Armed(op.raw) }

  predicate UnarmedRaw(op: Op) { op.SetRaw? && !Armed(op.raw) }

  predicate NoArmedRaw(ops: seq<Op>) {
    forall op <- ops :: !ArmedRaw(op)
  }

  /** No document that is a whole request is put in place after a reply of the handler's own. */
  predicate NeverRestores(ops: seq<Op>) {
    forall i, j :: 0 <= i < j < |ops| && ops[i].Respond? ==> !ArmedRaw(ops[j])
  }

  /** Before any reply of its own the handler overwrites the request with something that is none, and
      never puts one back. */
  predicate DiscardsRequest(ops: seq<Op>) {
    exists i :: 0 <= i < |ops| && UnarmedRaw(ops[i]) && (forall j :: 0 <= j < i ==> !ops[j].Respond?) && NoArmedRaw(ops[i + 1..])
  }

  lemma DiscardsTail(ops: seq<Op>)
    requires ops != []
    ensures DiscardsRequest(ops) <==>
            !ops[0].Respond? && ((UnarmedRaw(ops[0]) && NoArmedRaw(ops[1..])) || DiscardsRequest(ops[1..]))
  {
    if DiscardsRequest(ops) {
      var i :| 0 <= i < |ops| && UnarmedRaw(ops[i]) && (forall j :: 0 <= j < i ==> !ops[j].Respond?) && NoArmedRaw(ops[i + 1..]);
      if i > 0 {
        assert ops[1..][i..] == ops[i + 1..] && ops[1..][i - 1] == ops[i];
        assert forall j :: 0 <= j < i - 1 ==> ops[1..][j] == ops[j + 1];
      }
    }
    if !ops[0].Respond? && DiscardsRequest(ops[1..]) {
      var i :| 0 <= i < |ops[1..]| && UnarmedRaw(ops[1..][i]) && (forall j :: 0 <= j < i ==> !ops[1..][j].Respond?) && NoArmedRaw(ops[1..][i + 1..]);
      assert ops[1..][i + 1..] == ops[i + 2..];
      assert forall j :: 0 < j <= i ==> ops[j] == ops[1..][j - 1];
      assert UnarmedRaw(ops[i + 1]);
    }
  }

  /** Whether the context is armed when the first reply is tried, from whether it is now. */
  function ArmedAtTry(armed: bool, ops: seq<Op>): bool
    decreases |ops|
  {
    if ops == [] || ops[0].Respond? then armed
    else ArmedAtTry(if ops[0].SetRaw? then Armed(ops[0].raw) else armed, ops[1..])
  }

  lemma RestoresTail(ops: seq<Op>)
    requires ops != [] && NeverRestores(ops)
    ensures NeverRestores(ops[1..]) && (ops[0].Respond? ==> NoArmedRaw(ops[1..]))
  {
    forall i, j | 0 <= i < j < |ops[1..]| && ops[1..][i].Respond?
      ensures !ArmedRaw(ops[1..][j])
    {
      assert ops[i + 1].Respond?;
    }
    if ops[0].Respond? {
      assert forall j :: 0 <= j < |ops[1..]| ==> ops[1..][j] == ops[j + 1];
    }
  }

  lemma {:induction false} ArmedAtTryIff(ops: seq<Op>)
    requires NeverRestores(ops)
    ensures ArmedAtTry(true, ops) <==> !DiscardsRequest(ops)
    ensures ArmedAtTry(false, ops) <==> !DiscardsRequest(ops) && !NoArmedRaw(ops)
    decreases |ops|
  {
    if ops != [] {
      RestoresTail(ops);
      DiscardsTail(ops);
      ArmedAtTryIff(ops[1..]);
      assert NoArmedRaw(ops) <==> !ArmedRaw(ops[0]) && NoArmedRaw(ops[1..]) by {
        assert ops[0] in ops && forall op <- ops[1..] :: op in ops;
        assert forall op <- ops :: op == ops[0] || op in ops[1..];
      }
    }
  }

  /** What one operation does to an armed or unarmed context when the routing keys are left alone. */
  lemma ArmedStep(w: World, op: Op)
    requires !IsWrite(op, {TYPE, AGENT})
    ensures op.Set? ==> Armed(Do(w, op).data) == Armed(w.data) && Do(w, op).sent == w.sent
    ensures op.Respond? ==> !Armed(Do(w, op).data) && |Do(w, op).sent| == |w.sent| + (if Armed(w.data) then 1 else 0)
    ensures op.SetRaw? ==> Armed(Do(w, op).data) == Armed(op.raw) && Do(w, op).sent == w.sent
  {}

  lemma {:induction false} StaysUnarmed(w: World, ops: seq<Op>)
    requires !Armed(w.data) && NeverWrites(ops, {TYPE, AGENT}) && NoArmedRaw(ops)
    ensures !Armed(DoAll(w, ops).data) && |DoAll(w, ops).sent| == |w.sent|
    decreases |ops|
  {
    if ops != [] {
      assert ops[0] in ops && forall op <- ops[1..] :: op in ops;
      assert !IsWrite(ops[0], {TYPE, AGENT}) && !ArmedRaw(ops[0]);
      ArmedStep(w, ops[0]);
      StaysUnarmed(Do(w, ops[0]), ops[1..]);
    }
  }

  lemma {:induction false} HandlerOutcome(w: World, ops: seq<Op>)
    requires NeverWrites(ops, {TYPE, AGENT}) && NeverRestores(ops)
    ensures var t := DoAll(w, ops);
            |t.sent| + (if Armed(t.data) then 1 else 0) == |w.sent| + (if ArmedAtTry(Armed(w.data), ops) then 1 else 0)
    decreases |ops|
  {
    if ops != [] {
      assert ops[0] in ops && forall op <- ops[1..] :: op in ops;
      assert !IsWrite(ops[0], {TYPE, AGENT});
      RestoresTail(ops);
      ArmedStep(w, ops[0]);
      if ops[0].Respond? {
        StaysUnarmed(Do(w, ops[0]), ops[1..]);
      } else {
        HandlerOutcome(Do(w, ops[0]), ops[1..]);
      }
    }
  }

  /** A tool node that sets neither routing key and puts no request back after its own reply replies
      exactly once, in success, failure, or after any number of replies of its own, unless it discards
      the request before replying: then never. */
  lemma ExactlyOneReplyIff(node: Node, w: World, ops: seq<Op>, err: Option<string>)
    requires node.hasTool && Armed(w.data)
    requires NeverWrites(ops, {TYPE, AGENT}) && NeverRestores(ops)
    ensures |Intercept(node, w, ops, err).0.sent| == |w.sent| + (if DiscardsRequest(ops) then 0 else 1)
  {
    HandlerOutcome(w, ops);
    ReturnReply(node, w, ops, err);
    ArmedAtTryIff(ops);
  }
}

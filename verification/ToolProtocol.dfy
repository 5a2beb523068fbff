/** The tool request/response protocol: a wrapper runs a node's own message handler and must reply to
    the asking agent once. The only record that a reply was sent is that the context became nil.

    A handler is modelled by what one execution of it does to its context: a sequence of writes,
    replies and raw overwrites, ending in an optional error. A claim about every sequence is a claim
    about every handler that terminates. */
module ToolProtocol {
  import opened MessageContext
  import opened Wrappers

  const TYPE: string := "__message_type__"
  const CALLER: string := "__tool_caller_id__"
  const AGENT: string := "__agent_node_id__"
  const STATUS: string := "__tool_status__"
  const ERROR: string := "__tool_error__"
  const DATA: string := "__tool_data__"

  datatype Emission = Emission(agent: string, data: Data)

  /** A write that fails leaves no data, as a raw overwrite with nil does. */
  datatype Op =
    | Set(key: string, value: Json)
    | Respond(status: string, data: Option<map<string, Json>>, error: string)
    | SetRaw(raw: Data)

  /** `hasTool` says that the node struct has a field named Tool; `outputs` are the spec names of its
      OutVariable fields. */
  datatype Node = Node(hasTool: bool, outputs: seq<string>)

  datatype World = World(data: Data, sent: seq<Emission>)

  predicate IsToolRequest(d: Data) {
    GetKey(d, TYPE) == Str("tool_request")
  }

  /** The agent a reply goes to: only a non-empty string names one. */
  function Agent(d: Data): Option<string> {
    match GetKey(d, AGENT)
    case Str(a) => if a != "" then Some(a) else None
    case _ => None
  }

  function Copied(d: Data, key: string): map<string, Json> {
    if GetKey(d, key) == Null then map[] else map[key := GetKey(d, key)]
  }

  function ReplyFields(d: Data, status: string, data: Option<map<string, Json>>, error: string): map<string, Json> {
    var copied := Copied(d, "id") + Copied(d, "session_id") + Copied(d, "query");
    var marked := copied[TYPE := Str("tool_response")][CALLER := GetKey(d, CALLER)][STATUS := Str(status)];
    var explained := if error == "" then marked else marked[ERROR := Str(error)];
    if data.None? then explained else explained[DATA := Obj(data.value)]
  }

  function Reply(w: World, status: string, data: Option<map<string, Json>>, error: string): World {
    if !IsToolRequest(w.data) then w
    else
      World(NilBytes,
            match Agent(w.data)
            case Some(agent) => w.sent + [Emission(agent, Doc(ReplyFields(w.data, status, data, error)))]
            case None => w.sent)
  }

  function Do(w: World, op: Op): World {
    match op
    case Set(k, v) => w.(data := SetKey(w.data, k, v))
    case Respond(status, data, error) => Reply(w, status, data, error)
    case SetRaw(raw) => w.(data := raw)
  }

  function DoAll(w: World, ops: seq<Op>): World
    decreases |ops|
  {
    if ops == [] then w else DoAll(Do(w, ops[0]), ops[1..])
  }

  /** The output variables the handler left in the context, or a bare status. */
  function Outputs(names: seq<string>, d: Data): map<string, Json> {
    var found := map n | n in names && n != "" && GetKey(d, n) != Null :: GetKey(d, n);
    if found == map[] then map["status" := Str("completed")] else found
  }

  function Intercept(node: Node, w: World, ops: seq<Op>, err: Option<string>): (World, Option<string>) {
    var done := DoAll(w, ops);
    if !node.hasTool || !IsToolRequest(w.data) || done.data == NilBytes then (done, err)
    else if err.Some? then (Reply(done, "error", None, err.value), None)
    else (Reply(done, "success", Some(Outputs(node.outputs, done.data)), ""), None)
  }

  /** What GRPCServer.OnMessage puts on the wire after the handler. */
  function OutMessage(d: Data): Option<map<string, Json>> {
    if d.Doc? then Some(d.fields) else None
  }

  /** Packing a message into the blob store, if both sides have the capability; it may fail. */
  type Pack = map<string, Json> -> Option<map<string, Json>>

  function OnTheWire(m: Option<map<string, Json>>, packing: Option<Pack>): Option<map<string, Json>> {
    if m.Some? && packing.Some? && packing.value(m.value).Some? then packing.value(m.value) else m
  }

  // ----- The code -----

  class RuntimeHelper {
    var sent: seq<Emission>

    constructor ()
      ensures sent == []
    {
      sent := [];
    }

    method EmitInput(agent: string, data: Data)
      modifies this
      ensures sent == old(sent) + [Emission(agent, data)]
    {
      sent := sent + [Emission(agent, data)];
    }
  }

  method CopyField(from: Context, to: Context, key: string)
    requires from != to && to.data.Doc?
    modifies to
    ensures to.data == Doc(old(to.data.fields) + Copied(from.data, key))
  {
    var v := from.Get(key);
    if v != Null {
      to.Set(key, v);
    }
  }

  method BuildResponse(ctx: Context, status: string, data: Option<map<string, Json>>, error: string)
    returns (response: Context)
    ensures fresh(response)
    ensures response.data == Doc(ReplyFields(ctx.data, status, data, error))
  {
    response := new Context(Doc(map[]));
    CopyField(ctx, response, "id");
    CopyField(ctx, response, "session_id");
    CopyField(ctx, response, "query");
    assert response.data.fields == Copied(ctx.data, "id") + Copied(ctx.data, "session_id") + Copied(ctx.data, "query");
    response.Set(TYPE, Str("tool_response"));
    response.Set(CALLER, ctx.Get(CALLER));
    response.Set(STATUS, Str(status));
    if error != "" {
      response.Set(ERROR, Str(error));
    }
    if data.Some? {
      response.Set(DATA, Obj(data.value));
    }
  }

  method ToolResponse(ctx: Context, client: RuntimeHelper, status: string, data: Option<map<string, Json>>, error: string)
    modifies ctx, client
    ensures World(ctx.data, client.sent) == Reply(World(old(ctx.data), old(client.sent)), status, data, error)
  {
    if !IsToolRequest(ctx.data) {
      return;
    }
    var agent := ctx.Get(AGENT);
    var response := BuildResponse(ctx, status, data, error);
    if agent.Str? && agent.s != "" {
      client.EmitInput(agent.s, response.GetRaw());
    }
    ctx.SetRaw(NilBytes);
  }

  class ToolInterceptor {
    const node: Node

    constructor (node: Node)
      ensures this.node == node
    {
      this.node := node;
    }

    /** The wrapped node's own handler. */
    method Handle(ctx: Context, client: RuntimeHelper, ops: seq<Op>)
      modifies ctx, client
      ensures World(ctx.data, client.sent) == DoAll(World(old(ctx.data), old(client.sent)), ops)
    {
      var i := 0;
      while i < |ops|
        invariant 0 <= i <= |ops|
        invariant DoAll(World(ctx.data, client.sent), ops[i..]) == DoAll(World(old(ctx.data), old(client.sent)), ops)
      {
        assert ops[i..][1..] == ops[i + 1..];
        match ops[i] {
          case Set(k, v) => ctx.Set(k, v);
          case Respond(status, data, error) => ToolResponse(ctx, client, status, data, error);
          case SetRaw(raw) => ctx.SetRaw(raw);
        }
        i := i + 1;
      }
    }

    method CollectOutputVariables(ctx: Context) returns (output: map<string, Json>)
      ensures output == Outputs(node.outputs, ctx.data)
    {
      output := map[];
      for i := 0 to |node.outputs|
        invariant output == map n | n in node.outputs[..i] && n != "" && GetKey(ctx.data, n) != Null :: GetKey(ctx.data, n)
      {
        var name := node.outputs[i];
        assert node.outputs[..i + 1] == node.outputs[..i] + [name];
        if name != "" {
          var value := ctx.Get(name);
          if value != Null {
            output := output[name := value];
          }
        }
      }
      assert node.outputs[..|node.outputs|] == node.outputs;
      if |output| == 0 {
        output := output["status" := Str("completed")];
      }
    }

    method OnMessage(ctx: Context, client: RuntimeHelper, ops: seq<Op>, err: Option<string>)
      returns (result: Option<string>)
      modifies ctx, client
      ensures (World(ctx.data, client.sent), result) ==
              Intercept(node, World(old(ctx.data), old(client.sent)), ops, err)
    {
      var intercepted := node.hasTool && IsToolRequest(ctx.data);
      Handle(ctx, client, ops);
      if !intercepted {
        return err;
      }
      var raw := ctx.GetRaw();
      if raw != NilBytes {
        if err.Some? {
          ToolResponse(ctx, client, "error", None, err.value);
          return None;
        }
        var output := CollectOutputVariables(ctx);
        ToolResponse(ctx, client, "success", Some(output), "");
        return None;
      }
      return err;
    }

    /** GRPCServer.OnMessage around the interceptor, once the handler is found: a message that does not
        decompress is refused, an error may be forgiven, and only a context that still holds bytes is
        passed on, packed where both sides can and packing succeeds. */
    method Deliver(client: RuntimeHelper, input: Option<Data>, ops: seq<Op>, err: Option<string>,
                   continueOnError: bool, packing: Option<Pack>)
      returns (out: Option<map<string, Json>>, result: Option<string>)
      modifies client
      ensures input.None? ==> out.None? && result.Some? && client.sent == old(client.sent)
      ensures input.Some? ==>
                var (w, e) := Intercept(node, World(input.value, old(client.sent)), ops, err);
                && client.sent == w.sent && out == OnTheWire(OutMessage(w.data), packing)
                && result == if continueOnError then None else e
    {
      out := None;
      if input.None? {
        return None, Some("decompression failed");
      }
      var ctx := new Context(input.value);
      result := OnMessage(ctx, client, ops, err);
      if result.Some? && continueOnError {
        result := None;
      }
      if !ctx.IsEmpty() {
        var msg := ctx.data.fields;
        if packing.Some? {
          var packed := packing.value(msg);
          if packed.Some? {
            msg := packed.value;
          }
        }
        out := Some(msg);
      }
    }
  }
}

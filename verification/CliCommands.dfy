/** The command list: what the listing shows of every node type, and which type a command runs. */
module CliCommands {
  import opened CliRouting
  import opened GoStrings
  import opened NodeTypes
  import opened Wrappers

  /** A registered node type: the tags of its Tool field, if it has one, and of its Node field. */
  datatype NodeType = NodeType(tool: Option<map<string, string>>, node: map<string, string>, fields: seq<Field>)

  datatype Param = Param(name: string, typ: string, required: bool, description: string, default: string, choices: seq<string>)

  datatype Output = Output(name: string, typ: string)

  datatype Info = Info(name: string, description: string, nodeID: string, parameters: seq<Param>, outputs: seq<Output>)

  datatype Command = Command(nodeType: NodeType, nodeID: string, toolName: string, description: string)

  function Value(tag: map<string, string>, key: string): string {
    if key in tag then tag[key] else ""
  }

  /** The empty name for a type that is no command. */
  function ToolName(t: NodeType): string {
    if t.tool.Some? then Value(t.tool.value, "name") else ""
  }

  // ----- What the listing shows -----

  function TypeOf(f: Field): string {
    if f.Get("type") == "" then "string" else f.Get("type")
  }

  function Described(f: Field, flag: string, required: bool): Param {
    Param(flag, TypeOf(f), required, f.Get("description"), f.Get("value"),
          if f.IsEnum() then Split(f.Get("enum"), '|') else [])
  }

  function ParamOf(cases: Cases, f: Field): Option<Param> {
    if f.kind.OutVar? || !Takes(f) then None
    else
      var flag := cases.kebab(Label(f));
      if f.IsVar() && flag == "" then None
      else Some(Described(f, flag, f.kind.InVar? && !f.Has("optional")))
  }

  function Params(cases: Cases, fields: seq<Field>): seq<Param>
    decreases |fields|
  {
    if fields == [] then []
    else
      Params(cases, fields[..|fields| - 1]) +
      match ParamOf(cases, fields[|fields| - 1]) case None => [] case Some(p) => [p]
  }

  function Outputs(fields: seq<Field>): seq<Output>
    decreases |fields|
  {
    if fields == [] then []
    else
      var f := fields[|fields| - 1];
      Outputs(fields[..|fields| - 1]) +
      if f.kind.OutVar? && f.Get("name") != "" then [Output(f.Get("name"), TypeOf(f))] else []
  }

  function InfoOf(cases: Cases, t: NodeType): Info {
    Info(ToolName(t), if t.tool.Some? then Value(t.tool.value, "description") else "", Value(t.node, "id"),
         Params(cases, t.fields), Outputs(t.fields))
  }

  function Infos(cases: Cases, types: seq<NodeType>): seq<Info>
    decreases |types|
  {
    if types == [] then []
    else
      Infos(cases, types[..|types| - 1]) +
      if ToolName(types[|types| - 1]) == "" then [] else [InfoOf(cases, types[|types| - 1])]
  }

  method Describe(f: Field, flagName: string, required: bool) returns (param: Param)
    ensures param == Described(f, flagName, required)
  {
    var varType := f.Get("type");
    if varType == "" {
      varType := "string";
    }
    param := Param(flagName, varType, required, f.Get("description"), f.Get("value"), []);
    if f.Get("enum") != "" {
      param := param.(choices := Split(f.Get("enum"), '|'));
    }
  }

  method DescribeField(cases: Cases, f: Field) returns (param: Option<Param>)
    requires !f.kind.OutVar?
    ensures param == ParamOf(cases, f)
  {
    if f.kind.InVar? || f.kind.OptVar? {
      var flagName := "";
      if f.Get("name") != "" {
        flagName := cases.kebab(f.Get("name"));
      } else if f.Get("title") != "" {
        flagName := cases.kebab(f.Get("title"));
      }
      if flagName == "" {
        return None;
      }
      var p := Describe(f, flagName, f.kind.InVar? && !f.Has("optional"));
      return Some(p);
    }
    if !f.IsEnum() {
      return None;
    }
    var p := Describe(f, cases.kebab(if f.Get("title") != "" then f.Get("title") else f.name), false);
    return Some(p);
  }

  method DescribeFields(cases: Cases, fields: seq<Field>) returns (params: seq<Param>, outputs: seq<Output>)
    ensures params == Params(cases, fields) && outputs == Outputs(fields)
  {
    params, outputs := [], [];
    for i := 0 to |fields|
      invariant params == Params(cases, fields[..i]) && outputs == Outputs(fields[..i])
    {
      var f := fields[i];
      assert fields[..i + 1][..i] == fields[..i];
      if f.kind.OutVar? {
        if f.Get("name") != "" {
          outputs := outputs + [Output(f.Get("name"), TypeOf(f))];
        }
      } else {
        var param := DescribeField(cases, f);
        if param.Some? {
          params := params + [param.value];
        }
      }
    }
    assert fields[..|fields|] == fields;
  }

  method GatherCommands(cases: Cases, types: seq<NodeType>) returns (commands: seq<Info>)
    ensures commands == Infos(cases, types)
  {
    commands := [];
    for i := 0 to |types|
      invariant commands == Infos(cases, types[..i])
    {
      var t := types[i];
      assert types[..i + 1][..i] == types[..i];
      if t.tool.None? {
        continue;
      }
      var toolName := Value(t.tool.value, "name");
      if toolName == "" {
        continue;
      }
      var params, outputs := DescribeFields(cases, t.fields);
      commands := commands + [Info(toolName, Value(t.tool.value, "description"), Value(t.node, "id"), params, outputs)];
    }
    assert types[..|types|] == types;
  }

  /** The detail view shows the first command of that name. */
  function Detail(infos: seq<Info>, name: string): Option<Info>
    decreases |infos|
  {
    if infos == [] then None
    else if infos[0].name == name then Some(infos[0])
    else Detail(infos[1..], name)
  }

  method ListCommandDetail(cases: Cases, types: seq<NodeType>, name: string) returns (cmd: Option<Info>)
    ensures cmd == Detail(Infos(cases, types), name)
  {
    var commands := GatherCommands(cases, types);
    var i := 0;
    while i < |commands|
      invariant 0 <= i <= |commands| && Detail(commands[i..], name) == Detail(commands, name)
    {
      if commands[i].name == name {
        return Some(commands[i]);
      }
      assert commands[i..][1..] == commands[i + 1..];
      i := i + 1;
    }
    return None;
  }

  // ----- What a command runs -----

  function CommandOf(t: NodeType): Command {
    Command(t, Value(t.node, "id"), ToolName(t), if t.tool.Some? then Value(t.tool.value, "description") else "")
  }

  function CommandMap(types: seq<NodeType>): map<string, Command>
    decreases |types|
  {
    if types == [] then map[]
    else
      var before, t := CommandMap(types[..|types| - 1]), types[|types| - 1];
      if ToolName(t) == "" then before else before[ToolName(t) := CommandOf(t)]
  }

  method BuildCommandMap(types: seq<NodeType>) returns (commands: map<string, Command>)
    ensures commands == CommandMap(types)
  {
    commands := map[];
    for i := 0 to |types|
      invariant commands == CommandMap(types[..i])
    {
      var t := types[i];
      assert types[..i + 1][..i] == types[..i];
      if t.tool.None? {
        continue;
      }
      var toolName := Value(t.tool.value, "name");
      if toolName == "" {
        continue;
      }
      commands := commands[toolName := Command(t, Value(t.node, "id"), toolName, Value(t.tool.value, "description"))];
    }
    assert types[..|types|] == types;
  }

  // ----- Listing and routing agree -----

  predicate Shows(cases: Cases, f: Field, flag: string) {
    !f.kind.OutVar? && FlagOf(cases, f) == Some(flag) && (f.IsVar() ==> flag != "")
  }

  predicate Lists(params: seq<Param>, flag: string) {
    exists p :: p in params && p.name == flag
  }

  lemma ListsConcat(xs: seq<Param>, ys: seq<Param>, flag: string)
    ensures Lists(xs + ys, flag) <==> Lists(xs, flag) || Lists(ys, flag)
  {
    if Lists(xs, flag) {
      var p :| p in xs && p.name == flag;
      assert p in xs + ys;
    }
    if Lists(ys, flag) {
      var p :| p in ys && p.name == flag;
      assert p in xs + ys;
    }
  }

  lemma ParamShows(cases: Cases, f: Field, flag: string)
    ensures Lists(match ParamOf(cases, f) case None => [] case Some(p) => [p], flag) <==> Shows(cases, f, flag)
  {
    if ParamOf(cases, f).Some? {
      assert ParamOf(cases, f).value in [ParamOf(cases, f).value];
    }
  }

  /** The parameters listed are exactly the non-empty flags of fields that are not outputs; an
      enumeration's flag is listed even when it is empty. */
  lemma {:induction false} ListedIff(cases: Cases, fields: seq<Field>, flag: string)
    ensures Lists(Params(cases, fields), flag) <==> exists f :: f in fields && Shows(cases, f, flag)
    decreases |fields|
  {
    if fields != [] {
      var rest, f := fields[..|fields| - 1], fields[|fields| - 1];
      ListedIff(cases, rest, flag);
      ParamShows(cases, f, flag);
      ListsConcat(Params(cases, rest), match ParamOf(cases, f) case None => [] case Some(p) => [p], flag);
      assert forall g :: g in fields <==> g in rest || g == f;
    }
  }

  /** Every listed parameter is a flag the command accepts. */
  lemma ListedAreRouted(cases: Cases, fields: seq<Field>, p: Param)
    requires p in Params(cases, fields)
    ensures p.name in FlagMap(cases, fields)
  {
    ListedIff(cases, fields, p.name);
    FlagMapMeaning(cases, fields, p.name);
    assert Lists(Params(cases, fields), p.name);
  }

  /** An accepted flag is missing from the listing exactly when only outputs take it, or it is empty
      and no enumeration takes it. */
  lemma UnlistedIff(cases: Cases, fields: seq<Field>, flag: string)
    requires flag in FlagMap(cases, fields)
    ensures !Lists(Params(cases, fields), flag) <==>
            (forall f <- fields :: FlagOf(cases, f) == Some(flag) ==> f.kind.OutVar? || (f.IsVar() && flag == ""))
  {
    ListedIff(cases, fields, flag);
  }

  // ----- Listing and dispatch agree -----

  function Names(infos: seq<Info>): set<string> {
    set i <- infos :: i.name
  }

  /** The names listed are the names that can be run. */
  lemma {:induction false} NamesAgree(cases: Cases, types: seq<NodeType>)
    ensures Names(Infos(cases, types)) == CommandMap(types).Keys
    decreases |types|
  {
    if types != [] {
      var last := |types| - 1;
      NamesAgree(cases, types[..last]);
      NamesGrow(Infos(cases, types[..last]), InfoOf(cases, types[last]));
    }
  }

  lemma NamesGrow(infos: seq<Info>, info: Info)
    ensures Names(infos + [info]) == Names(infos) + {info.name}
  {
    forall n | n in Names(infos) + {info.name}
      ensures n in Names(infos + [info])
    {
      if n in Names(infos) {
        var i :| i in infos && i.name == n;
        assert i in infos + [info];
      } else {
        assert info in infos + [info];
      }
    }
  }

  predicate DistinctTools(types: seq<NodeType>) {
    forall i, j :: 0 <= i < j < |types| && ToolName(types[i]) != "" ==> ToolName(types[i]) != ToolName(types[j])
  }

  /** The type whose details are shown is the first of its name, the one that runs is the last. */
  predicate FirstNamed(types: seq<NodeType>, name: string, i: nat) {
    i < |types| && ToolName(types[i]) == name && forall j :: 0 <= j < i ==> ToolName(types[j]) != name
  }

  predicate LastNamed(types: seq<NodeType>, name: string, i: nat) {
    i < |types| && ToolName(types[i]) == name && forall j :: i < j < |types| ==> ToolName(types[j]) != name
  }

  lemma {:induction false} DetailSnoc(infos: seq<Info>, info: Info, name: string)
    ensures Detail(infos + [info], name) ==
            if Detail(infos, name).Some? then Detail(infos, name)
            else if info.name == name then Some(info) else None
    decreases |infos|
  {
    if infos == [] {
      assert infos + [info] == [info];
    } else {
      assert (infos + [info])[1..] == infos[1..] + [info];
      DetailSnoc(infos[1..], info, name);
    }
  }

  lemma DetailStep(cases: Cases, types: seq<NodeType>, name: string)
    requires types != [] && name != ""
    ensures var before, t := Detail(Infos(cases, types[..|types| - 1]), name), types[|types| - 1];
            Detail(Infos(cases, types), name) ==
            if before.Some? then before else if ToolName(t) == name then Some(InfoOf(cases, t)) else None
  {
    var infos := Infos(cases, types[..|types| - 1]);
    DetailSnoc(infos, InfoOf(cases, types[|types| - 1]), name);
    assert infos + [] == infos;
  }

  predicate Unnamed(types: seq<NodeType>, name: string) {
    forall j :: 0 <= j < |types| ==> ToolName(types[j]) != name
  }

  /** Leaving out the last type: the first of the name stays first, unless it was the last. */
  lemma FirstInPrefix(types: seq<NodeType>, name: string, i: nat)
    requires FirstNamed(types, name, i)
    ensures var last := |types| - 1;
            if i < last then FirstNamed(types[..last], name, i) && types[..last][i] == types[i]
            else i == last && Unnamed(types[..last], name)
  {
  }

  lemma {:induction false} DetailIsFirst(cases: Cases, types: seq<NodeType>, name: string, i: nat)
    requires name != "" && FirstNamed(types, name, i)
    ensures Detail(Infos(cases, types), name) == Some(InfoOf(cases, types[i]))
    decreases |types|
  {
    var last := |types| - 1;
    FirstInPrefix(types, name, i);
    if i < last {
      DetailIsFirst(cases, types[..last], name, i);
    } else {
      NoDetail(cases, types[..last], name);
    }
    DetailStep(cases, types, name);
  }

  lemma {:induction false} NoDetail(cases: Cases, types: seq<NodeType>, name: string)
    requires name != "" && Unnamed(types, name)
    ensures Detail(Infos(cases, types), name) == None
    decreases |types|
  {
    if types != [] {
      NoDetail(cases, types[..|types| - 1], name);
      DetailStep(cases, types, name);
    }
  }

  lemma {:induction false} RunsLast(types: seq<NodeType>, name: string, i: nat)
    requires name != "" && LastNamed(types, name, i)
    ensures name in CommandMap(types) && CommandMap(types)[name] == CommandOf(types[i])
    decreases |types|
  {
    var last := |types| - 1;
    if i < last {
      assert LastNamed(types[..last], name, i);
      RunsLast(types[..last], name, i);
    }
  }

  /** The details shown for a name are those of the type that runs. */
  predicate DetailRuns(cases: Cases, types: seq<NodeType>, name: string)
    requires name in CommandMap(types)
  {
    Detail(Infos(cases, types), name) == Some(InfoOf(cases, CommandMap(types)[name].nodeType))
  }

  lemma {:induction false} NameExists(types: seq<NodeType>, name: string) returns (first: nat, last: nat)
    requires name in CommandMap(types)
    ensures FirstNamed(types, name, first) && LastNamed(types, name, last) && name != "" && first <= last
    decreases |types|
  {
    var n := |types| - 1;
    var rest := types[..n];
    if name in CommandMap(rest) {
      first, last := NameExists(rest, name);
      assert rest[first] == types[first] && rest[last] == types[last];
      if ToolName(types[n]) == name {
        last := n;
      }
    } else {
      forall j | 0 <= j < n
        ensures ToolName(types[j]) != name
      {
        if ToolName(types[j]) == name {
          HasName(rest, name, j);
        }
      }
      first, last := n, n;
    }
  }

  lemma {:induction false} HasName(types: seq<NodeType>, name: string, i: nat)
    requires i < |types| && ToolName(types[i]) == name && name != ""
    ensures name in CommandMap(types)
    decreases |types|
  {
    if i < |types| - 1 {
      HasName(types[..|types| - 1], name, i);
    }
  }

  /** When types of one name differ in what is listed of them, listing and dispatch agree on every
      command exactly when no two types share a tool name. */
  lemma DetailAgreesIff(cases: Cases, types: seq<NodeType>)
    requires forall i, j :: 0 <= i < j < |types| && ToolName(types[i]) == ToolName(types[j]) != "" ==>
                              InfoOf(cases, types[i]) != InfoOf(cases, types[j])
    ensures (forall name <- CommandMap(types) :: DetailRuns(cases, types, name)) <==> DistinctTools(types)
  {
    forall name <- CommandMap(types)
      ensures DetailRuns(cases, types, name) <==>
              exists i: nat :: FirstNamed(types, name, i) && LastNamed(types, name, i)
    {
      var first, last := NameExists(types, name);
      DetailIsFirst(cases, types, name, first);
      RunsLast(types, name, last);
    }
    if DistinctTools(types) {
      forall name <- CommandMap(types)
        ensures DetailRuns(cases, types, name)
      {
        var first, last := NameExists(types, name);
        assert FirstNamed(types, name, first) && LastNamed(types, name, first);
      }
    } else {
      var i, j :| 0 <= i < j < |types| && ToolName(types[i]) != "" && ToolName(types[i]) == ToolName(types[j]);
      HasName(types, ToolName(types[i]), i);
    }
  }

  // ----- What the listing says -----

  /** A parameter as its field's tags have it. */
  lemma ParamByTags(cases: Cases, f: Field)
    requires ParamOf(cases, f).Some?
    ensures var p := ParamOf(cases, f).value;
            && FlagOf(cases, f) == Some(p.name)
            && (p.required <==> f.kind.InVar? && "optional" !in f.spec)
            && (if "type" in f.spec && f.spec["type"] != "" then p.typ == f.spec["type"] else p.typ == "string")
            && (if "description" in f.spec then p.description == f.spec["description"] else p.description == "")
            && (if "value" in f.spec then p.default == f.spec["value"] else p.default == "")
            && (if "enum" in f.spec && f.spec["enum"] != "" then Join(p.choices, '|') == f.spec["enum"] else p.choices == [])
  {
    if f.IsEnum() {
      JoinSplit(f.Get("enum"), '|');
    }
  }

  /** An output is listed exactly for a named output variable. */
  lemma {:induction false} OutputsIff(fields: seq<Field>, o: Output)
    ensures o in Outputs(fields) <==>
            exists f :: f in fields && f.kind.OutVar? && o.name != "" && f.Get("name") == o.name
                        && o.typ == if f.Get("type") != "" then f.Get("type") else "string"
    decreases |fields|
  {
    if fields != [] {
      var last := |fields| - 1;
      OutputsIff(fields[..last], o);
      assert forall f :: f in fields <==> f in fields[..last] || f == fields[last];
    }
  }

  /** The command that runs and the entry that is shown take name and description from the tool tag and the
      id from the node tag. */
  lemma CommandByTags(cases: Cases, t: NodeType, name: string)
    requires t.tool.Some? && "name" in t.tool.value && t.tool.value["name"] == name
    ensures CommandOf(t).nodeType == t && CommandOf(t).toolName == name && InfoOf(cases, t).name == name
    ensures "id" in t.node ==> CommandOf(t).nodeID == InfoOf(cases, t).nodeID == t.node["id"]
    ensures "description" in t.tool.value ==>
              CommandOf(t).description == InfoOf(cases, t).description == t.tool.value["description"]
    ensures InfoOf(cases, t).parameters == Params(cases, t.fields) && InfoOf(cases, t).outputs == Outputs(t.fields)
  {}
}

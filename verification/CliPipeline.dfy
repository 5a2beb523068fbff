/** One command-line call end to end: arguments become flags, flags become message data and a node
    configuration, and the node's variables read them. */
module CliPipeline {
  import opened CliRouting
  import opened Flags
  import opened GoStrings
  import opened InVariables
  import opened MessageContext
  import opened NodeTypes
  import opened Wrappers

  /** Flags the command line keeps for itself. */
  const GLOBALS: set<string> :=
    {"vault-id", "item-id", "vault", "item", "session", "session-id", "session-close", "session-timeout"}

  lemma GlobalFlags(flag: string)
    ensures flag in GLOBALS <==>
            || flag == "vault-id" || flag == "item-id" || flag == "vault" || flag == "item"
            || flag == "session" || flag == "session-id" || flag == "session-close" || flag == "session-timeout"
  {}

  method StripGlobals(given: map<string, string>) returns (flags: map<string, string>)
    ensures flags == given - GLOBALS
  {
    flags := given - {"vault-id"} - {"item-id"} - {"vault"} - {"item"};
    flags := flags - {"session"} - {"session-id"} - {"session-close"} - {"session-timeout"};
  }

  // ----- The node's configuration -----

  function Inject(f: Field, config: map<string, Config>): map<string, Config> {
    if f.IsVar() && f.Low() !in config && ScopeOf(f) == "Message" && f.Get("name") != ""
    then config[f.Low() := Var("Message", f.Get("name"))] else config
  }

  function Injected(fields: seq<Field>, config: map<string, Config>): map<string, Config>
    decreases |fields|
  {
    if fields == [] then config else Inject(fields[|fields| - 1], Injected(fields[..|fields| - 1], config))
  }

  method InjectVariableConfig(fields: seq<Field>, before: map<string, Config>) returns (config: map<string, Config>)
    ensures config == Injected(fields, before)
  {
    config := before;
    for i := 0 to |fields|
      invariant config == Injected(fields[..i], before)
    {
      var f := fields[i];
      assert fields[..i + 1][..i] == fields[..i];
      if !f.IsVar() {
        continue;
      }
      var specName, scope := f.Get("name"), f.Get("scope");
      if scope == "" {
        scope := "Custom";
      }
      if f.Low() in config {
        continue;
      }
      if scope == "Message" && specName != "" {
        config := config[f.Low() := Var("Message", specName)];
      }
    }
    assert fields[..|fields|] == fields;
  }

  method ApplyPatches(before: map<string, Config>, patches: map<string, Config>) returns (config: map<string, Config>)
    ensures config == before + patches
  {
    config := before;
    var left := patches.Keys;
    while left != {}
      invariant left <= patches.Keys
      invariant config.Keys == before.Keys + (patches.Keys - left)
      invariant forall k <- config :: config[k] == if k in patches && k !in left then patches[k] else before[k]
      decreases |left|
    {
      var k :| k in left;
      config := config[k := patches[k]];
      left := left - {k};
    }
  }

  /** What is run, and the vault item given or found for it, empty if there is none. */
  datatype Invocation = Invocation(command: string, vaultId: string, itemId: string) {
    predicate HasItem() { vaultId != "" && itemId != "" }
  }

  function Credentials(fields: seq<Field>, inv: Invocation, config: map<string, Config>): map<string, Config>
    decreases |fields|
  {
    if fields == [] then config
    else
      var before, f := Credentials(fields[..|fields| - 1], inv, config), fields[|fields| - 1];
      if f.kind.Credential? then before[f.Low() := Vault(inv.vaultId, inv.itemId)] else before
  }

  method InjectCredentialConfig(fields: seq<Field>, inv: Invocation, before: map<string, Config>)
    returns (config: map<string, Config>)
    ensures config == Credentials(fields, inv, before)
  {
    config := before;
    for i := 0 to |fields|
      invariant config == Credentials(fields[..i], inv, before)
    {
      assert fields[..i + 1][..i] == fields[..i];
      if !fields[i].kind.Credential? {
        continue;
      }
      config := config[fields[i].Low() := Vault(inv.vaultId, inv.itemId)];
    }
    assert fields[..|fields|] == fields;
  }

  function Base(command: string): map<string, Config> {
    map["guid" := Text("cli-node"), "name" := Text(command)]
  }

  /** The configuration before the flags patch it. */
  function Unpatched(fields: seq<Field>, inv: Invocation): map<string, Config> {
    var injected := Injected(fields, Base(inv.command));
    if inv.HasItem() then Credentials(fields, inv, injected) else injected
  }

  function Configured(fields: seq<Field>, inv: Invocation, split: Parts): map<string, Config> {
    Unpatched(fields, inv) + split.patches
  }

  /** The part of a run that prepares the node: its configuration and the message it will get. */
  method Prepare(cases: Cases, fields: seq<Field>, inv: Invocation, given: map<string, string>)
    returns (config: map<string, Config>, msgData: map<string, string>)
    ensures exists split :: RoutedSomehow(cases, FlagMap(cases, fields), given - GLOBALS, split) &&
                            config == Configured(fields, inv, split) && msgData == split.msgData
  {
    var flags := StripGlobals(given);
    config := InjectVariableConfig(fields, Base(inv.command));
    if inv.vaultId != "" && inv.itemId != "" {
      config := InjectCredentialConfig(fields, inv, config);
    }
    var split := BuildCLIContext(cases, fields, flags);
    config := ApplyPatches(config, split.patches);
    msgData := split.msgData;
  }

  // ----- What a variable reads -----

  function MessageOf(msgData: map<string, string>): Data {
    Doc(map k <- msgData :: Str(msgData[k]))
  }

  /** Decoding the configuration into a variable field; a plain string there is a decoding error. */
  function VariableOf(config: map<string, Config>, f: Field): Option<Variable> {
    if f.Low() !in config then Some(Variable("", Null))
    else
      match config[f.Low()]
      case Var(scope, name) => Some(Variable(scope, Str(name)))
      case Vault(vaultId, itemId) => Some(Variable("Custom", Obj(map["vaultId" := Str(vaultId), "itemId" := Str(itemId)])))
      case Text(_) => None
  }

  /** What the field's Get finds; None when the configuration does not decode. */
  function Read(fields: seq<Field>, inv: Invocation, split: Parts, f: Field): Option<Fetched> {
    match VariableOf(Configured(fields, inv, split), f)
    case None => None
    case Some(v) => Some(Fetch(v, MessageOf(split.msgData)))
  }

  predicate WellNamed(fields: seq<Field>) {
    DistinctNames(fields) && forall f <- fields :: f.Low() != "guid" && f.Low() != "name"
  }

  /** A named variable of Message scope, the only kind that reads the message. */
  predicate ByMessage(f: Field) {
    f.Get("name") != "" && ScopeOf(f) == "Message"
  }

  lemma {:induction false} InjectedAt(fields: seq<Field>, base: map<string, Config>, i: nat)
    requires DistinctNames(fields) && i < |fields| && fields[i].IsVar() && fields[i].Low() !in base
    ensures var c, low := Injected(fields, base), fields[i].Low();
            if ByMessage(fields[i]) then low in c && c[low] == Var("Message", fields[i].Get("name")) else low !in c
    decreases |fields|
  {
    var last := |fields| - 1;
    if i < last {
      assert fields[..last][i] == fields[i];
      InjectedAt(fields[..last], base, i);
      assert fields[last].Low() != fields[i].Low();
    } else {
      InjectedOther(fields[..last], base, fields[i].Low());
    }
  }

  lemma {:induction false} InjectedOther(fields: seq<Field>, base: map<string, Config>, low: string)
    requires low !in base && forall f <- fields :: f.Low() != low
    ensures low !in Injected(fields, base)
    decreases |fields|
  {
    if fields != [] {
      InjectedOther(fields[..|fields| - 1], base, low);
    }
  }

  lemma {:induction false} CredentialsOther(fields: seq<Field>, inv: Invocation, config: map<string, Config>, low: string)
    requires forall f <- fields :: f.kind.Credential? ==> f.Low() != low
    ensures var c := Credentials(fields, inv, config); (low in c <==> low in config) && (low in c ==> c[low] == config[low])
    decreases |fields|
  {
    if fields != [] {
      assert fields[|fields| - 1] in fields && forall f <- fields[..|fields| - 1] :: f in fields;
      CredentialsOther(fields[..|fields| - 1], inv, config, low);
    }
  }

  /** No credential shares a variable's place. */
  lemma CredentialsElsewhere(fields: seq<Field>, inv: Invocation, config: map<string, Config>, i: nat)
    requires DistinctNames(fields) && i < |fields| && fields[i].IsVar()
    ensures var c, low := Credentials(fields, inv, config), fields[i].Low();
            (low in c <==> low in config) && (low in c ==> c[low] == config[low])
  {
    forall f <- fields | f.kind.Credential?
      ensures f.Low() != fields[i].Low()
    {
      var j :| 0 <= j < |fields| && fields[j] == f;
    }
    CredentialsOther(fields, inv, config, fields[i].Low());
  }

  /** Before the flags patch it, a credential field is configured with the vault item exactly when one was
      given. */
  lemma CredentialGivenIff(fields: seq<Field>, inv: Invocation, i: nat)
    requires WellNamed(fields) && i < |fields| && fields[i].kind.Credential?
    ensures var c, low := Unpatched(fields, inv), fields[i].Low();
            && (low in c <==> inv.vaultId != "" && inv.itemId != "")
            && (low in c ==> c[low] == Vault(inv.vaultId, inv.itemId))
  {
    assert fields[i] in fields;
    if inv.HasItem() {
      CredentialAt(fields, inv, Injected(fields, Base(inv.command)), i);
    } else {
      InjectedAway(fields, Base(inv.command), i);
    }
  }

  lemma {:induction false} CredentialAt(fields: seq<Field>, inv: Invocation, config: map<string, Config>, i: nat)
    requires i < |fields| && fields[i].kind.Credential?
    ensures var c, low := Credentials(fields, inv, config), fields[i].Low();
            low in c && c[low] == Vault(inv.vaultId, inv.itemId)
    decreases |fields|
  {
    var last := |fields| - 1;
    if i < last {
      assert fields[..last][i] == fields[i];
      CredentialAt(fields[..last], inv, config, i);
    }
  }

  lemma {:induction false} InjectedAway(fields: seq<Field>, base: map<string, Config>, i: nat)
    requires DistinctNames(fields) && i < |fields| && !fields[i].IsVar() && fields[i].Low() !in base
    ensures fields[i].Low() !in Injected(fields, base)
    decreases |fields|
  {
    var last := |fields| - 1;
    if i < last {
      assert fields[..last][i] == fields[i] && fields[last].Low() != fields[i].Low();
      InjectedAway(fields[..last], base, i);
    } else {
      InjectedOther(fields[..last], base, fields[i].Low());
    }
  }

  /** Only a field's own flag goes to its configuration. */
  lemma ConfigSlotOwner(cases: Cases, fields: seq<Field>, flag: string, i: nat)
    requires DistinctNames(fields) && i < |fields|
    requires SlotOf(cases, FlagMap(cases, fields), flag) == InConfig(fields[i].Low())
    ensures FlagOf(cases, fields[i]) == Some(flag)
    ensures flag in FlagMap(cases, fields) && FlagMap(cases, fields)[flag] == EntryOf(fields[i])
  {
    var j := FlagOwner(cases, fields, flag);
    assert fields[j].Low() == fields[i].Low();
  }

  /** Whether a variable's scope is one the command line serves. */
  predicate Reaches(f: Field) {
    EntryOf(f).scope == "Message" || EntryOf(f).scope == "Custom"
  }

  /** What has arrived for a variable: at its message key, or in its configuration. */
  function Arrived(split: Parts, f: Field): Fetched {
    match At(split, if ByMessage(f) then InMessage(f.Get("name")) else InConfig(f.Low()))
    case Some(Text(value)) => Got(Str(value))
    case Some(Var(_, value)) => Got(Str(value))
    case _ => Zero
  }

  /** Of the patches, a variable can only be hit by its own flag, and only if it is not read from the
      message. */
  lemma PatchOf(cases: Cases, fields: seq<Field>, flags: map<string, string>, order: seq<string>, i: nat)
    requires DistinctNames(fields) && i < |fields| && fields[i].IsVar() && IsOrder(order, flags.Keys)
    ensures var f, patches := fields[i], Routed(cases, FlagMap(cases, fields), flags, order).patches;
            f.Low() in patches ==> !ByMessage(f) && Reaches(f) && patches[f.Low()].Var? && patches[f.Low()].scope == "Custom"
  {
    var f, fm := fields[i], FlagMap(cases, fields);
    LastWins(cases, fm, flags, order, InConfig(f.Low()));
    var last := LastTo(cases, fm, order, InConfig(f.Low()));
    if last.Some? {
      ConfigSlotOwner(cases, fields, last.value, i);
    }
  }

  lemma ReadParts(fields: seq<Field>, inv: Invocation, split: Parts, f: Field)
    requires var config, low := Unpatched(fields, inv), f.Low();
             if ByMessage(f) then low in config && config[low] == Var("Message", f.Get("name")) else low !in config
    requires f.Low() in split.patches ==>
               !ByMessage(f) && split.patches[f.Low()].Var? && split.patches[f.Low()].scope == "Custom"
    ensures Read(fields, inv, split, f) == Some(Arrived(split, f))
  {
  }

  /** Whatever the flags and their order, a variable reads what arrived at its one slot. */
  lemma ReadsWhatArrived(cases: Cases, fields: seq<Field>, inv: Invocation, flags: map<string, string>,
                         order: seq<string>, i: nat)
    requires WellNamed(fields) && i < |fields| && fields[i].IsVar() && IsOrder(order, flags.Keys)
    ensures var split := Routed(cases, FlagMap(cases, fields), flags, order);
            Read(fields, inv, split, fields[i]) == Some(Arrived(split, fields[i]))
  {
    assert fields[i] in fields;
    InjectedAt(fields, Base(inv.command), i);
    CredentialsElsewhere(fields, inv, Injected(fields, Base(inv.command)), i);
    PatchOf(cases, fields, flags, order, i);
    ReadParts(fields, inv, Routed(cases, FlagMap(cases, fields), flags, order), fields[i]);
  }

  // ----- Which flags reach their variable -----

  /** With consistent flags, a flag that names a variable is what the variable reads exactly when the
      variable's scope is Message or Custom. In every other scope, AI included, the value is lost and
      the variable reads its zero value. */
  lemma DeliveredIff(cases: Cases, fields: seq<Field>, inv: Invocation, flags: map<string, string>,
                     order: seq<string>, i: nat, flag: string)
    requires WellNamed(fields) && DistinctFlags(cases, fields) && i < |fields| && fields[i].IsVar()
    requires FlagOf(cases, fields[i]) == Some(flag) && flag in flags
    requires Consistent(cases, FlagMap(cases, fields), flags) && IsOrder(order, flags.Keys)
    ensures var split := Routed(cases, FlagMap(cases, fields), flags, order);
            Read(fields, inv, split, fields[i]) == Some(if Reaches(fields[i]) then Got(Str(flags[flag])) else Zero)
  {
    var f, fm := fields[i], FlagMap(cases, fields);
    var split := Routed(cases, fm, flags, order);
    ReadsWhatArrived(cases, fields, inv, flags, order, i);
    OwnEntry(cases, fields, i, flag);
    if Reaches(f) {
      ConsistentSlot(cases, fm, flags, order, flag);
    } else {
      PatchOf(cases, fields, flags, order, i);
    }
  }

  /** Which variables that is: those without a name, and those whose scope tag is absent, empty, Custom or
      Message. */
  lemma ReachesByTags(f: Field)
    requires f.IsVar()
    ensures Reaches(f) <==> f.Get("name") == "" || f.Get("scope") == "" || f.Get("scope") == "Custom" || f.Get("scope") == "Message"
  {
    assert |"Message"| == 7 && |"Custom"| == 6;
  }

  /** An enumeration option is configured with the value given for its flag. */
  lemma OptionConfigured(cases: Cases, fields: seq<Field>, inv: Invocation, flags: map<string, string>,
                         order: seq<string>, i: nat, flag: string)
    requires DistinctNames(fields) && DistinctFlags(cases, fields) && i < |fields|
    requires !fields[i].IsVar() && fields[i].IsEnum() && FlagOf(cases, fields[i]) == Some(flag) && flag in flags
    requires Consistent(cases, FlagMap(cases, fields), flags) && IsOrder(order, flags.Keys)
    ensures var config := Configured(fields, inv, Routed(cases, FlagMap(cases, fields), flags, order));
            fields[i].Low() in config && config[fields[i].Low()] == Text(flags[flag])
  {
    OwnEntry(cases, fields, i, flag);
    ConsistentSlot(cases, FlagMap(cases, fields), flags, order, flag);
  }

  /** Every run's configuration names the node, unless a field of that lowered name is patched. */
  lemma NodeIdentity(cases: Cases, fields: seq<Field>, inv: Invocation, flags: map<string, string>, order: seq<string>)
    requires WellNamed(fields) && IsOrder(order, flags.Keys)
    ensures var config := Configured(fields, inv, Routed(cases, FlagMap(cases, fields), flags, order));
            && "guid" in config && config["guid"] == Text("cli-node")
            && "name" in config && config["name"] == Text(inv.command)
  {
    IdentityKept(cases, fields, inv, flags, order, "guid");
    IdentityKept(cases, fields, inv, flags, order, "name");
    assert |"guid"| == 4 && "guid"[0] == 'g' && "name"[0] == 'n';
  }

  lemma IdentityKept(cases: Cases, fields: seq<Field>, inv: Invocation, flags: map<string, string>, order: seq<string>, k: string)
    requires IsOrder(order, flags.Keys) && k in Base(inv.command) && forall f <- fields :: f.Low() != k
    ensures var config := Configured(fields, inv, Routed(cases, FlagMap(cases, fields), flags, order));
            k in config && config[k] == Base(inv.command)[k]
  {
    InjectedKeeps(fields, Base(inv.command), k);
    CredentialsOther(fields, inv, Injected(fields, Base(inv.command)), k);
    LastWins(cases, FlagMap(cases, fields), flags, order, InConfig(k));
    var last := LastTo(cases, FlagMap(cases, fields), order, InConfig(k));
    if last.Some? {
      SlotNeedsField(cases, fields, last.value, k);
    }
  }

  lemma SlotNeedsField(cases: Cases, fields: seq<Field>, flag: string, k: string)
    requires SlotOf(cases, FlagMap(cases, fields), flag) == InConfig(k)
    ensures exists f <- fields :: f.Low() == k
  {
    var j := FlagOwner(cases, fields, flag);
    assert fields[j] in fields;
  }

  lemma {:induction false} InjectedKeeps(fields: seq<Field>, base: map<string, Config>, k: string)
    requires k in base
    ensures k in Injected(fields, base) && Injected(fields, base)[k] == base[k]
    decreases |fields|
  {
    if fields != [] {
      InjectedKeeps(fields[..|fields| - 1], base, k);
    }
  }

  lemma OwnEntry(cases: Cases, fields: seq<Field>, i: nat, flag: string)
    requires DistinctFlags(cases, fields) && i < |fields| && FlagOf(cases, fields[i]) == Some(flag)
    ensures flag in FlagMap(cases, fields) && FlagMap(cases, fields)[flag] == EntryOf(fields[i])
  {
    FlagMapMeaning(cases, fields, flag);
    var j := OwnerOf(cases, fields, flag).value;
    assert Takes(fields[i]) && Takes(fields[j]);
  }

  /** An unknown flag that falls back to the key of a message variable makes the outcome depend on the
      iteration order as soon as the two values differ. */
  lemma FallbackCollides(cases: Cases, fields: seq<Field>, flags: map<string, string>, i: nat, flag: string, other: string)
    requires DistinctFlags(cases, fields) && i < |fields| && fields[i].IsVar() && ByMessage(fields[i])
    requires FlagOf(cases, fields[i]) == Some(flag) && other !in FlagMap(cases, fields)
    requires cases.camel(Underscored(other)) == fields[i].Get("name")
    requires flag in flags && other in flags && flags[flag] != flags[other]
    ensures !OrderIrrelevant(cases, FlagMap(cases, fields), flags)
  {
    var fm := FlagMap(cases, fields);
    OwnEntry(cases, fields, i, flag);
    OrderIrrelevantIff(cases, fm, flags);
    assert SlotOf(cases, fm, flag) == SlotOf(cases, fm, other);
  }

  // ----- From the arguments to a slice -----

  ghost predicate Lawful(json: JsonList) {
    forall xs :: json.decode(json.encode(xs)) == Some(xs) && HasPrefix(json.encode(xs), "[") && Trimmed(json.encode(xs))
  }

  ghost predicate Decodes(el: Elements<string>, json: JsonList) {
    OfStrings(el) && forall s :: el.list(s) == json.decode(s)
  }

  /** A flag given two or more times makes a string slice of exactly the given values, in order; given
      once, the variable reads that one value. */
  lemma RepeatedFlagsRead(cases: Cases, json: JsonList, el: Elements<string>, fields: seq<Field>, inv: Invocation,
                          args: seq<string>, order: seq<string>, i: nat, flag: string)
    requires Lawful(json) && Decodes(el, json)
    requires WellNamed(fields) && DistinctFlags(cases, fields) && i < |fields| && fields[i].IsVar()
    requires FlagOf(cases, fields[i]) == Some(flag) && flag !in GLOBALS && Reaches(fields[i])
    requires Pairs(args).Some? && ValuesOf(Pairs(args).value, flag) != []
    requires var flags := Grouped(json, Pairs(args).value) - GLOBALS;
             Consistent(cases, FlagMap(cases, fields), flags) && IsOrder(order, flags.Keys)
    ensures var values := ValuesOf(Pairs(args).value, flag);
            var split := Routed(cases, FlagMap(cases, fields), Grouped(json, Pairs(args).value) - GLOBALS, order);
            var read := Read(fields, inv, split, fields[i]);
            && read.Some? && read.value.Got?
            && (|values| >= 2 ==> SliceOf(el, read.value.val) == Some(values))
            && (|values| == 1 ==> read.value.val == Str(values[0]))
  {
    var values := ValuesOf(Pairs(args).value, flag);
    var flags := Grouped(json, Pairs(args).value) - GLOBALS;
    assert flag in KeysOf(Pairs(args).value);
    DeliveredIff(cases, fields, inv, flags, order, i, flag);
    if |values| >= 2 {
      TrimmedStays(json.encode(values));
    }
  }
}

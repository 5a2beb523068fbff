/** Where a command-line flag goes: node fields give a flag map, and the flags of one call are split
    into message data and config patches in whatever order Go's map iteration yields them. */
module CliRouting {
  import opened NodeTypes
  import opened Wrappers

  /** strcase's two conversions. */
  datatype Cases = Cases(kebab: string -> string, camel: string -> string)

  datatype FlagEntry = FlagEntry(specName: string, fieldName: string, scope: string, isOption: bool)

  // ----- Which flag a field takes -----

  function ScopeOf(f: Field): string {
    if f.Get("scope") == "" then "Custom" else f.Get("scope")
  }

  /** A variable without name and title takes no flag, nor does a plain field without choices. */
  predicate Takes(f: Field) {
    if f.IsVar() then f.Get("name") != "" || f.Get("title") != "" else f.IsEnum()
  }

  function Label(f: Field): string {
    if f.IsVar() && f.Get("name") != "" then f.Get("name")
    else if f.IsVar() || f.Get("title") != "" then f.Get("title")
    else f.name
  }

  function FlagOf(cases: Cases, f: Field): Option<string> {
    if Takes(f) then Some(cases.kebab(Label(f))) else None
  }

  function EntryOf(f: Field): FlagEntry {
    if !f.IsVar() then FlagEntry("", f.Low(), "", true)
    else if f.Get("name") != "" then FlagEntry(f.Get("name"), f.Low(), ScopeOf(f), false)
    else FlagEntry("", f.Low(), "Custom", false)
  }

  function FlagMap(cases: Cases, fields: seq<Field>): map<string, FlagEntry>
    decreases |fields|
  {
    if fields == [] then map[]
    else
      var before, f := FlagMap(cases, fields[..|fields| - 1]), fields[|fields| - 1];
      match FlagOf(cases, f)
      case None => before
      case Some(flag) => before[flag := EntryOf(f)]
  }

  method BuildFlagMap(cases: Cases, fields: seq<Field>) returns (mapping: map<string, FlagEntry>)
    ensures mapping == FlagMap(cases, fields)
  {
    mapping := map[];
    for i := 0 to |fields|
      invariant mapping == FlagMap(cases, fields[..i])
    {
      var f := fields[i];
      assert fields[..i + 1][..i] == fields[..i];
      if f.IsVar() {
        var specName := f.Get("name");
        var scope := f.Get("scope");
        if scope == "" {
          scope := "Custom";
        }
        if specName != "" {
          mapping := mapping[cases.kebab(specName) := FlagEntry(specName, f.Low(), scope, false)];
        } else {
          var title := f.Get("title");
          if title == "" {
            continue;
          }
          mapping := mapping[cases.kebab(title) := FlagEntry("", f.Low(), "Custom", false)];
        }
      } else if f.Get("enum") != "" {
        var title := f.Get("title");
        if title == "" {
          title := f.name;
        }
        mapping := mapping[cases.kebab(title) := FlagEntry("", f.Low(), "", true)];
      }
    }
    assert fields[..|fields|] == fields;
  }

  /** The field a flag belongs to: the last one that takes it. */
  function OwnerOf(cases: Cases, fields: seq<Field>, flag: string): (r: Option<nat>)
    ensures r.Some? ==> r.value < |fields| && FlagOf(cases, fields[r.value]) == Some(flag)
    ensures r.Some? ==> forall j :: r.value < j < |fields| ==> FlagOf(cases, fields[j]) != Some(flag)
    ensures r.None? ==> forall j :: 0 <= j < |fields| ==> FlagOf(cases, fields[j]) != Some(flag)
    decreases |fields|
  {
    if fields == [] then None
    else if FlagOf(cases, fields[|fields| - 1]) == Some(flag) then Some(|fields| - 1)
    else OwnerOf(cases, fields[..|fields| - 1], flag)
  }

  /** The flag map holds exactly the flags that have an owner, each with its owner's entry. */
  lemma {:induction false} FlagMapMeaning(cases: Cases, fields: seq<Field>, flag: string)
    ensures var fm, owner := FlagMap(cases, fields), OwnerOf(cases, fields, flag);
            && (flag in fm <==> owner.Some?)
            && (flag in fm ==> fm[flag] == EntryOf(fields[owner.value]))
    decreases |fields|
  {
    if fields != [] {
      FlagMapMeaning(cases, fields[..|fields| - 1], flag);
    }
  }

  predicate DistinctFlags(cases: Cases, fields: seq<Field>) {
    forall i, j :: 0 <= i < j < |fields| && Takes(fields[i]) && Takes(fields[j]) ==>
                     FlagOf(cases, fields[i]) != FlagOf(cases, fields[j])
  }

  // ----- Where a flag's value goes -----

  datatype Slot = InMessage(key: string) | InConfig(field: string)

  datatype Config = Text(text: string) | Var(scope: string, name: string) | Vault(vaultId: string, itemId: string)

  function Underscored(s: string): string {
    seq(|s|, i requires 0 <= i < |s| => if s[i] == '-' then '_' else s[i])
  }

  /** An unknown flag falls back to a message key. */
  function SlotOf(cases: Cases, fm: map<string, FlagEntry>, flag: string): Slot {
    if flag !in fm then InMessage(cases.camel(Underscored(flag)))
    else if fm[flag].isOption || fm[flag].scope == "Custom" then InConfig(fm[flag].fieldName)
    else InMessage(fm[flag].specName)
  }

  function DataOf(fm: map<string, FlagEntry>, flag: string, value: string): Config {
    if flag in fm && !fm[flag].isOption && fm[flag].scope == "Custom" then Var("Custom", value) else Text(value)
  }

  /** Every flag once, in some order. */
  ghost predicate IsOrder(order: seq<string>, keys: set<string>) {
    && (forall x :: x in order <==> x in keys)
    && (forall i, j :: 0 <= i < j < |order| ==> order[i] != order[j])
  }

  predicate Given(flags: map<string, string>, order: seq<string>) {
    forall x <- order :: x in flags
  }

  /** The two maps a call's flags are split into. */
  datatype Parts = Parts(msgData: map<string, string>, patches: map<string, Config>)

  function Store(s: Parts, slot: Slot, data: Config): Parts
    requires slot.InMessage? ==> data.Text?
  {
    match slot
    case InMessage(key) => s.(msgData := s.msgData[key := data.text])
    case InConfig(field) => s.(patches := s.patches[field := data])
  }

  function At(s: Parts, slot: Slot): Option<Config> {
    match slot
    case InMessage(key) => if key in s.msgData then Some(Text(s.msgData[key])) else None
    case InConfig(field) => if field in s.patches then Some(s.patches[field]) else None
  }

  /** What the flags, taken in this order, leave behind. */
  function Routed(cases: Cases, fm: map<string, FlagEntry>, flags: map<string, string>, order: seq<string>): Parts
    requires Given(flags, order)
    decreases |order|
  {
    if order == [] then Parts(map[], map[])
    else
      var flag := order[|order| - 1];
      Store(Routed(cases, fm, flags, order[..|order| - 1]), SlotOf(cases, fm, flag), DataOf(fm, flag, flags[flag]))
  }

  /** The outcome of some iteration order. */
  ghost predicate RoutedSomehow(cases: Cases, fm: map<string, FlagEntry>, flags: map<string, string>, split: Parts) {
    exists order :: IsOrder(order, flags.Keys) && split == Routed(cases, fm, flags, order)
  }

  method RouteFlag(cases: Cases, flagMap: map<string, FlagEntry>, flagName: string, value: string, before: Parts)
    returns (after: Parts)
    ensures after == Store(before, SlotOf(cases, flagMap, flagName), DataOf(flagMap, flagName, value))
  {
    var msgData, patches := before.msgData, before.patches;
    if flagName !in flagMap {
      msgData := msgData[cases.camel(Underscored(flagName)) := value];
      return Parts(msgData, patches);
    }
    var entry := flagMap[flagName];
    if entry.isOption {
      patches := patches[entry.fieldName := Text(value)];
    } else if entry.scope == "Custom" {
      patches := patches[entry.fieldName := Var("Custom", value)];
    } else {
      msgData := msgData[entry.specName := value];
    }
    return Parts(msgData, patches);
  }

  lemma OrderGrows(order: seq<string>, keys: set<string>, left: set<string>, flag: string)
    requires left <= keys && IsOrder(order, keys - left) && flag in left
    ensures IsOrder(order + [flag], keys - (left - {flag}))
  {
  }

  method BuildCLIContext(cases: Cases, fields: seq<Field>, flags: map<string, string>)
    returns (split: Parts)
    ensures RoutedSomehow(cases, FlagMap(cases, fields), flags, split)
  {
    split := Parts(map[], map[]);
    ghost var order: seq<string> := [];
    var flagMap := BuildFlagMap(cases, fields);
    var left := flags.Keys;
    while left != {}
      invariant left <= flags.Keys && IsOrder(order, flags.Keys - left)
      invariant split == Routed(cases, flagMap, flags, order)
      decreases |left|
    {
      var flagName :| flagName in left;
      OrderGrows(order, flags.Keys, left, flagName);
      split := RouteFlag(cases, flagMap, flagName, flags[flagName], split);
      assert (order + [flagName])[..|order|] == order;
      left, order := left - {flagName}, order + [flagName];
    }
  }

  // ----- When the iteration order does not matter -----

  /** The last flag of the order that goes to the slot. */
  function LastTo(cases: Cases, fm: map<string, FlagEntry>, order: seq<string>, slot: Slot): (r: Option<string>)
    ensures r.Some? ==> r.value in order && SlotOf(cases, fm, r.value) == slot
    ensures r.None? ==> forall x <- order :: SlotOf(cases, fm, x) != slot
    decreases |order|
  {
    if order == [] then None
    else if SlotOf(cases, fm, order[|order| - 1]) == slot then Some(order[|order| - 1])
    else LastTo(cases, fm, order[..|order| - 1], slot)
  }

  /** A slot ends up with what the last flag going there carries. */
  lemma {:induction false} LastWins(cases: Cases, fm: map<string, FlagEntry>, flags: map<string, string>, order: seq<string>, slot: Slot)
    requires Given(flags, order)
    ensures At(Routed(cases, fm, flags, order), slot) ==
            match LastTo(cases, fm, order, slot)
            case None => None
            case Some(flag) => Some(DataOf(fm, flag, flags[flag]))
    decreases |order|
  {
    if order != [] {
      LastWins(cases, fm, flags, order[..|order| - 1], slot);
    }
  }

  /** Flags that go to the same slot carry the same thing there. */
  predicate Consistent(cases: Cases, fm: map<string, FlagEntry>, flags: map<string, string>) {
    forall f, g :: f in flags && g in flags && SlotOf(cases, fm, f) == SlotOf(cases, fm, g) ==>
                     DataOf(fm, f, flags[f]) == DataOf(fm, g, flags[g])
  }

  ghost predicate OrderIrrelevant(cases: Cases, fm: map<string, FlagEntry>, flags: map<string, string>) {
    forall a, b :: IsOrder(a, flags.Keys) && IsOrder(b, flags.Keys) ==>
                     Routed(cases, fm, flags, a) == Routed(cases, fm, flags, b)
  }

  /** With consistent flags each slot holds what any flag going there carries, in every order. */
  lemma ConsistentSlot(cases: Cases, fm: map<string, FlagEntry>, flags: map<string, string>, order: seq<string>, flag: string)
    requires IsOrder(order, flags.Keys) && Consistent(cases, fm, flags) && flag in flags
    ensures At(Routed(cases, fm, flags, order), SlotOf(cases, fm, flag)) == Some(DataOf(fm, flag, flags[flag]))
  {
    LastWins(cases, fm, flags, order, SlotOf(cases, fm, flag));
  }

  lemma ConsistentSuffices(cases: Cases, fm: map<string, FlagEntry>, flags: map<string, string>, a: seq<string>, b: seq<string>)
    requires Consistent(cases, fm, flags) && IsOrder(a, flags.Keys) && IsOrder(b, flags.Keys)
    ensures Routed(cases, fm, flags, a) == Routed(cases, fm, flags, b)
  {
    var ra, rb := Routed(cases, fm, flags, a), Routed(cases, fm, flags, b);
    forall slot
      ensures At(ra, slot) == At(rb, slot)
    {
      LastWins(cases, fm, flags, a, slot);
      LastWins(cases, fm, flags, b, slot);
    }
    SameSlots(ra, rb);
  }

  lemma SameSlots(a: Parts, b: Parts)
    requires forall slot :: At(a, slot) == At(b, slot)
    ensures a == b
  {
    forall k
      ensures k in a.msgData <==> k in b.msgData
      ensures k in a.msgData ==> a.msgData[k] == b.msgData[k]
    {
      assert At(a, InMessage(k)) == At(b, InMessage(k));
    }
    forall k
      ensures k in a.patches <==> k in b.patches
      ensures k in a.patches ==> a.patches[k] == b.patches[k]
    {
      assert At(a, InConfig(k)) == At(b, InConfig(k));
    }
  }

  lemma {:induction false} OrderExists(keys: set<string>) returns (order: seq<string>)
    ensures IsOrder(order, keys)
    decreases |keys|
  {
    if keys == {} {
      order := [];
    } else {
      var k :| k in keys;
      var rest := OrderExists(keys - {k});
      order := rest + [k];
    }
  }

  /** An order that ends with the given flag. */
  lemma OrderEndingWith(keys: set<string>, last: string) returns (order: seq<string>)
    requires last in keys
    ensures IsOrder(order, keys) && order != [] && order[|order| - 1] == last
  {
    var rest := OrderExists(keys - {last});
    order := rest + [last];
  }

  /** The random iteration order of the flags is invisible exactly when no two flags put different
      things in the same place. */
  lemma OrderIrrelevantIff(cases: Cases, fm: map<string, FlagEntry>, flags: map<string, string>)
    ensures OrderIrrelevant(cases, fm, flags) <==> Consistent(cases, fm, flags)
  {
    if Consistent(cases, fm, flags) {
      forall a, b | IsOrder(a, flags.Keys) && IsOrder(b, flags.Keys)
        ensures Routed(cases, fm, flags, a) == Routed(cases, fm, flags, b)
      {
        ConsistentSuffices(cases, fm, flags, a, b);
      }
    }
    if OrderIrrelevant(cases, fm, flags) {
      forall f, g | f in flags && g in flags && SlotOf(cases, fm, f) == SlotOf(cases, fm, g)
        ensures DataOf(fm, f, flags[f]) == DataOf(fm, g, flags[g])
      {
        var a := OrderEndingWith(flags.Keys, f);
        var b := OrderEndingWith(flags.Keys, g);
        assert At(Routed(cases, fm, flags, a), SlotOf(cases, fm, f)) == Some(DataOf(fm, f, flags[f]));
        assert At(Routed(cases, fm, flags, b), SlotOf(cases, fm, g)) == Some(DataOf(fm, g, flags[g]));
      }
    }
  }

  /** Flags the node itself declares never collide; only a fallback flag can. */
  lemma KnownFlagsConsistent(cases: Cases, fields: seq<Field>, flags: map<string, string>)
    requires DistinctFlags(cases, fields) && DistinctNames(fields)
    requires flags.Keys <= FlagMap(cases, fields).Keys
    ensures Consistent(cases, FlagMap(cases, fields), flags)
  {
    var fm := FlagMap(cases, fields);
    forall f, g | f in flags && g in flags && SlotOf(cases, fm, f) == SlotOf(cases, fm, g)
      ensures f == g
    {
      var i := FlagOwner(cases, fields, f);
      var j := FlagOwner(cases, fields, g);
      assert fields[i].Low() == fields[j].Low() || Label(fields[i]) == Label(fields[j]) by {
        SameSlotSameField(cases, fields[i], fields[j], f, g, fm);
      }
    }
  }

  lemma SameSlotSameField(cases: Cases, x: Field, y: Field, f: string, g: string, fm: map<string, FlagEntry>)
    requires f in fm && fm[f] == EntryOf(x) && g in fm && fm[g] == EntryOf(y)
    requires SlotOf(cases, fm, f) == SlotOf(cases, fm, g)
    ensures x.Low() == y.Low() || Label(x) == Label(y)
  {
  }

  lemma FlagOwner(cases: Cases, fields: seq<Field>, flag: string) returns (i: nat)
    requires flag in FlagMap(cases, fields)
    ensures i < |fields| && FlagOf(cases, fields[i]) == Some(flag) && FlagMap(cases, fields)[flag] == EntryOf(fields[i])
  {
    FlagMapMeaning(cases, fields, flag);
    i := OwnerOf(cases, fields, flag).value;
  }

  // ----- Flags and slots, read off the tags -----

  /** A named variable is called by its name, an unnamed one by its title, an enumeration by its title or
      its field name; nothing else takes a flag. */
  lemma FlagByTags(cases: Cases, f: Field)
    ensures f.IsVar() && "name" in f.spec && f.spec["name"] != "" ==> FlagOf(cases, f) == Some(cases.kebab(f.spec["name"]))
    ensures f.IsVar() && f.Get("name") == "" && "title" in f.spec && f.spec["title"] != "" ==>
              FlagOf(cases, f) == Some(cases.kebab(f.spec["title"]))
    ensures f.IsVar() && f.Get("name") == "" && f.Get("title") == "" ==> FlagOf(cases, f) == None
    ensures !f.IsVar() && "enum" in f.spec && f.spec["enum"] != "" ==>
              FlagOf(cases, f) == Some(cases.kebab(if f.Get("title") != "" then f.spec["title"] else f.name))
    ensures !f.IsVar() && f.Get("enum") == "" ==> FlagOf(cases, f) == None
  {}

  /** A flag no field takes becomes a message key: dashes are made underscores, and the rest is strcase's. */
  lemma UnknownFlagKey(cases: Cases, fields: seq<Field>, flags: map<string, string>, order: seq<string>, flag: string, snake: string)
    requires IsOrder(order, flags.Keys) && Consistent(cases, FlagMap(cases, fields), flags) && flag in flags
    requires forall f <- fields :: FlagOf(cases, f) != Some(flag)
    requires |snake| == |flag| && forall i :: 0 <= i < |flag| ==> snake[i] == if flag[i] == '-' then '_' else flag[i]
    ensures var split := Routed(cases, FlagMap(cases, fields), flags, order);
            cases.camel(snake) in split.msgData && split.msgData[cases.camel(snake)] == flags[flag]
  {
    FlagMapMeaning(cases, fields, flag);
    ConsistentSlot(cases, FlagMap(cases, fields), flags, order, flag);
    assert Underscored(flag) == snake;
  }

  /** Where the value given for a field's own flag goes: an unnamed variable, or a named one whose scope is
      absent, empty or Custom, is configured with it; any other named variable finds it in the message under
      its name; an option field is configured with the bare text. */
  lemma SlotByTags(cases: Cases, fields: seq<Field>, flags: map<string, string>, order: seq<string>, i: nat, flag: string)
    requires DistinctFlags(cases, fields) && i < |fields| && FlagOf(cases, fields[i]) == Some(flag) && flag in flags
    requires IsOrder(order, flags.Keys) && Consistent(cases, FlagMap(cases, fields), flags)
    ensures var split, f := Routed(cases, FlagMap(cases, fields), flags, order), fields[i];
            var custom := "scope" !in f.spec || f.spec["scope"] == "" || f.spec["scope"] == "Custom";
            && (f.IsVar() && (f.Get("name") == "" || custom) ==>
                  f.Low() in split.patches && split.patches[f.Low()] == Var("Custom", flags[flag]))
            && (f.IsVar() && f.Get("name") != "" && !custom ==>
                  f.spec["name"] in split.msgData && split.msgData[f.spec["name"]] == flags[flag])
            && (!f.IsVar() ==> f.Low() in split.patches && split.patches[f.Low()] == Text(flags[flag]))
  {
    FlagMapMeaning(cases, fields, flag);
    var j := OwnerOf(cases, fields, flag).value;
    assert Takes(fields[i]) && Takes(fields[j]);
    ConsistentSlot(cases, FlagMap(cases, fields), flags, order, flag);
  }
}

/** What a node's input variable reads: where the value comes from, and how a string becomes a slice. */
module InVariables {
  import opened GoStrings
  import opened MessageContext
  import opened Wrappers

  /** Scope and name as the node's configuration sets them; a missing configuration leaves "" and Null. */
  datatype Variable = Variable(scope: string, name: Json)

  /** `Zero` is the type's zero value; `AskRobot` is the call to the robot's own variable store. */
  datatype Fetched = Zero | Got(val: Json) | AskRobot(scope: string, name: string) | Panicked

  /** A context lookup; AI scope falls back to the parameters of a tool request. */
  function LookUp(scope: string, name: string, d: Data): Json {
    var top := GetKey(d, name);
    if top.Null? && scope == "AI" && GetKey(d, "__message_type__") == Str("tool_request") then
      match GetKey(d, "__parameters__")
      case Obj(params) => if name in params then params[name] else Null
      case _ => Null
    else top
  }

  /** Where Get finds the value it then converts to the variable's type. */
  function Fetch(v: Variable, d: Data): Fetched {
    if v.name.Null? then Zero
    else if v.scope == "Custom" then Got(v.name)
    else if !v.name.Str? then Panicked
    else if v.scope == "Message" || v.scope == "AI" then
      var val := LookUp(v.scope, v.name.s, d);
      if val.Null? then Zero else Got(val)
    else AskRobot(v.scope, v.name.s)
  }

  // ----- Slices -----

  /** JSON decoding into the slice type: of a whole array, of one element, and of a value that is not
      a string. A string element is taken as it stands. */
  datatype Elements<T> = Elements(
    list: string -> Option<seq<T>>, one: string -> Option<T>, convert: Json -> Option<seq<T>>)

  /** Every piece, trimmed and read as one element; one failure fails the whole. */
  function Each<T>(el: Elements<T>, parts: seq<string>): Option<seq<T>>
    decreases |parts|
  {
    if parts == [] then Some([])
    else
      match Each(el, parts[..|parts| - 1])
      case None => None
      case Some(xs) =>
        match el.one(TrimSpace(parts[|parts| - 1]))
        case None => None
        case Some(x) => Some(xs + [x])
  }

  /** A string is first tried as a JSON array, then read as comma-separated elements. */
  function SliceOf<T>(el: Elements<T>, val: Json): Option<seq<T>> {
    if !val.Str? then el.convert(val)
    else
      var s := TrimSpace(val.s);
      if HasPrefix(s, "[") && el.list(s).Some? then el.list(s) else Each(el, Split(s, ','))
  }

  lemma {:induction false} FailureStays<T>(el: Elements<T>, parts: seq<string>, i: nat)
    requires i <= |parts| && Each(el, parts[..i]).None?
    ensures Each(el, parts).None?
    decreases |parts|
  {
    if i == |parts| {
      assert parts[..i] == parts;
    } else {
      assert parts[..|parts| - 1][..i] == parts[..i];
      FailureStays(el, parts[..|parts| - 1], i);
    }
  }

  method GetSlice<T>(el: Elements<T>, val: Json) returns (r: Option<seq<T>>)
    ensures r == SliceOf(el, val)
  {
    if !val.Str? {
      return el.convert(val);
    }
    var s := TrimSpace(val.s);
    if HasPrefix(s, "[") {
      var t := el.list(s);
      if t.Some? {
        return t;
      }
    }
    var parts := Split(s, ',');
    var slice: seq<T> := [];
    for i := 0 to |parts|
      invariant Each(el, parts[..i]) == Some(slice)
    {
      assert parts[..i + 1][..i] == parts[..i];
      var elem := el.one(TrimSpace(parts[i]));
      if elem.None? {
        FailureStays(el, parts, i + 1);
        return None;
      }
      slice := slice + [elem.value];
    }
    assert parts[..|parts|] == parts;
    return Some(slice);
  }

  // ----- String slices -----

  predicate Plain(p: string) {
    Trimmed(p) && ',' !in p
  }

  ghost predicate OfStrings(el: Elements<string>) {
    forall s :: el.one(s) == Some(s)
  }

  lemma {:induction false} EachString(el: Elements<string>, parts: seq<string>)
    requires OfStrings(el)
    ensures Each(el, parts).Some? && |Each(el, parts).value| == |parts|
    ensures forall i :: 0 <= i < |parts| ==> Each(el, parts).value[i] == TrimSpace(parts[i])
    decreases |parts|
  {
    if parts != [] {
      EachString(el, parts[..|parts| - 1]);
    }
  }

  lemma {:induction false} TrimLeftKeeps(s: string)
    ensures var t := TrimLeft(s); (t == [] || !IsSpace(t[0])) && forall c <- t :: c in s
    decreases |s|
  {
    if s != [] && IsSpace(s[0]) {
      TrimLeftKeeps(s[1..]);
    }
  }

  lemma {:induction false} TrimRightKeeps(s: string)
    ensures var t := TrimRight(s); (t == [] || !IsSpace(t[|t| - 1])) && t <= s
    decreases |s|
  {
    if s != [] && IsSpace(s[|s| - 1]) {
      TrimRightKeeps(s[..|s| - 1]);
    }
  }

  lemma TrimSpacePlain(s: string)
    requires ',' !in s
    ensures Plain(TrimSpace(s))
  {
    TrimLeftKeeps(s);
    TrimRightKeeps(TrimLeft(s));
  }

  lemma TrimmedStays(s: string)
    requires Trimmed(s)
    ensures TrimSpace(s) == s
  {
    TrimAround([], s, []);
    assert [] + s + [] == s;
  }

  lemma {:induction false} SplitClean(s: string, sep: char)
    ensures forall p <- Split(s, sep) :: sep !in p
    decreases |s|
  {
    var i := IndexOf(s, sep);
    if i < |s| {
      SplitClean(s[i + 1..], sep);
    }
  }

  lemma {:induction false} JoinTrimmed(list: seq<string>)
    requires list != [] && forall p <- list :: Trimmed(p)
    ensures Trimmed(Join(list, ','))
    decreases |list|
  {
    assert list[0] in list;
    if |list| > 1 {
      JoinTrimmed(list[1..]);
    }
  }

  /** What the comma-separated reading makes of each piece. */
  lemma {:induction false} PlainEach(el: Elements<string>, list: seq<string>)
    requires OfStrings(el) && forall p <- list :: Plain(p)
    ensures Each(el, list) == Some(list)
    decreases |list|
  {
    if list != [] {
      var rest, p := list[..|list| - 1], list[|list| - 1];
      assert p in list && forall q <- rest :: q in list;
      PlainEach(el, rest);
      TrimmedStays(p);
      assert list == rest + [p];
    }
  }

  lemma EachPlain(el: Elements<string>, s: string)
    requires OfStrings(el)
    ensures var r := Each(el, Split(s, ',')); r.Some? && forall p <- r.value :: Plain(p)
  {
    var parts := Split(s, ',');
    EachString(el, parts);
    SplitClean(s, ',');
    forall i | 0 <= i < |parts|
      ensures Plain(TrimSpace(parts[i]))
    {
      assert parts[i] in parts;
      TrimSpacePlain(parts[i]);
    }
  }

  /** A comma-joined list whose text is not taken for a JSON array reads back exactly when every
      element is trimmed and free of commas. */
  lemma JoinReadsIff(el: Elements<string>, list: seq<string>)
    requires OfStrings(el) && list != [] && !HasPrefix(TrimSpace(Join(list, ',')), "[")
    ensures SliceOf(el, Str(Join(list, ','))) == Some(list) <==> forall p <- list :: Plain(p)
  {
    if forall p <- list :: Plain(p) {
      JoinTrimmed(list);
      TrimmedStays(Join(list, ','));
      SplitJoin(list, ',');
      PlainEach(el, list);
    } else {
      EachPlain(el, TrimSpace(Join(list, ',')));
    }
  }

  /** In particular trimmed, comma-free elements read back unless the first opens a bracket. */
  lemma JoinReadsBack(el: Elements<string>, list: seq<string>)
    requires OfStrings(el) && list != [] && (forall p <- list :: Plain(p)) && !HasPrefix(list[0], "[")
    ensures SliceOf(el, Str(Join(list, ','))) == Some(list)
  {
    JoinTrimmed(list);
    TrimmedStays(Join(list, ','));
    JoinReadsIff(el, list);
  }

  // ----- Where each scope reads -----

  /** A Custom variable reads its name itself, a Message variable the message, an AI variable the message and
      then, for a tool request, its parameters; any other scope asks the robot. Nothing found is the zero
      value, and only Custom may hold a name that is not a string. */
  lemma ScopeReads(scope: string, name: string, d: Data, other: Json)
    ensures Fetch(Variable(scope, Null), d) == Zero
    ensures other != Null ==> Fetch(Variable("Custom", other), d) == Got(other)
    ensures scope != "Custom" && other != Null && !other.Str? ==> Fetch(Variable(scope, other), d) == Panicked
    ensures GetKey(d, name) != Null ==>
              && Fetch(Variable("Message", Str(name)), d) == Got(GetKey(d, name))
              && Fetch(Variable("AI", Str(name)), d) == Got(GetKey(d, name))
    ensures GetKey(d, name) == Null ==>
              && Fetch(Variable("Message", Str(name)), d) == Zero
              && var params := GetKey(d, "__parameters__");
                 Fetch(Variable("AI", Str(name)), d) ==
                 if GetKey(d, "__message_type__") == Str("tool_request") && params.Obj? && name in params.fields && params.fields[name] != Null
                 then Got(params.fields[name]) else Zero
    ensures scope != "Custom" && scope != "Message" && scope != "AI" ==>
              Fetch(Variable(scope, Str(name)), d) == AskRobot(scope, name)
  {
    assert |"Custom"| == 6 && |"Message"| == 7 && |"AI"| == 2;
  }

  /** Reading a list fails exactly when some trimmed piece does not decode, and else gives every piece's own
      value in order. */
  lemma {:induction false} EachIff<T>(el: Elements<T>, parts: seq<string>)
    ensures Each(el, parts).None? <==> exists p :: p in parts && el.one(TrimSpace(p)).None?
    ensures Each(el, parts).Some? ==>
              var xs := Each(el, parts).value;
              |xs| == |parts| && forall i :: 0 <= i < |parts| ==> el.one(TrimSpace(parts[i])) == Some(xs[i])
    decreases |parts|
  {
    if parts != [] {
      var last := |parts| - 1;
      EachIff(el, parts[..last]);
      assert forall p :: p in parts <==> p in parts[..last] || p == parts[last];
    }
  }

  /** A value that is not a string goes through JSON; a text in brackets that is no JSON array is split at
      its commas like any other. */
  lemma SliceFallsBack<T>(el: Elements<T>, val: Json)
    ensures !val.Str? ==> SliceOf(el, val) == el.convert(val)
    ensures val.Str? && HasPrefix(TrimSpace(val.s), "[") && el.list(TrimSpace(val.s)).Some? ==>
              SliceOf(el, val) == el.list(TrimSpace(val.s))
    ensures val.Str? && (!HasPrefix(TrimSpace(val.s), "[") || el.list(TrimSpace(val.s)).None?) ==>
              SliceOf(el, val) == Each(el, Split(TrimSpace(val.s), ','))
  {}
}

/** The bridge between Go values and protobuf values: SetVariable sends `ToValue`, GetVariable reads
    back with `parseStruct`. */
module ValueBridge {
  import opened Float64
  import opened Wrappers

  datatype IntKind = Int | Int8 | Int16 | Int32 | Int64 | Uint | Uint8 | Uint16 | Uint32 | Uint64 | Uintptr

  datatype FloatKind = Float32 | Float64

  datatype Field = Field(name: string, value: Go)

  datatype Key = StringKey(s: string) | OtherKey(id: nat)

  /** A finite Go value. `named` marks a type declared by the program over a basic one; `Iface` is an
      element whose static type is an interface; `Other` stands for functions, channels and the like. */
  datatype Go =
    | Nil
    | BoolVal(b: bool, named: bool)
    | IntVal(kind: IntKind, n: int, named: bool)
    | FloatVal(width: FloatKind, r: real, named: bool)
    | StringVal(s: string, named: bool)
    | ErrorVal(text: string, underlying: Go)
    | Ptr(target: Option<Go>)
    | List(items: seq<Go>)
    | Struct(fields: seq<Field>)
    | Map(entries: map<Key, Go>)
    | Iface(inner: Go)
    | Other(id: nat)

  /** A protobuf Value; Absent is a nil pointer or a Value with no kind set. */
  datatype Value =
    | Absent
    | BoolValue(b: bool)
    | NumberValue(r: real)
    | StringValue(s: string)
    | NullValue
    | ListValue(values: seq<Value>)
    | StructValue(fields: map<string, Value>)

  /** What convert returns: nil, a scalar, NullValue's enum constant, []interface{} or
      map[string]interface{}. */
  datatype Out =
    | OutNil
    | OutBool(b: bool)
    | OutNumber(r: real)
    | OutString(s: string)
    | OutNull
    | OutList(items: seq<Out>)
    | OutMap(entries: map<string, Out>)

  /** fmt.Sprint. */
  type Show = Go -> string

  /** An integer as a float64. */
  function AsFloat(n: int): real {
    if n >= 0 then Round(n) as real else -(Round(-n) as real)
  }

  /** Only the first byte is looked at, and only ASCII capitals count. */
  predicate Exported(name: string) {
    name != "" && 'A' <= name[0] <= 'Z'
  }

  // ----- Meaning of the two conversions -----

  function Convert(v: Value): Out {
    match v
    case Absent => OutNil
    case BoolValue(b) => OutBool(b)
    case NumberValue(r) => OutNumber(r)
    case StringValue(s) => OutString(s)
    case NullValue => OutNull
    case ListValue(vs) => OutList(seq(|vs|, i requires 0 <= i < |vs| => Convert(vs[i])))
    case StructValue(m) => OutMap(map k | k in m :: Convert(m[k]))
  }

  function Fields(m: map<string, Value>): Value {
    if m == map[] then Absent else StructValue(m)
  }

  function StringKeys(entries: map<Key, Go>): (names: set<string>)
    ensures forall n :: n in names <==> StringKey(n) in entries
  {
    set k <- entries | k.StringKey? :: k.s
  }

  /** A Go map whose keys are these strings. */
  function Keyed(m: map<string, Go>): (entries: map<Key, Go>)
    ensures StringKeys(entries) == m.Keys
    ensures forall n <- m :: StringKey(n) in entries && entries[StringKey(n)] == m[n]
  {
    map n | n in m :: StringKey(n) := m[n]
  }

  function ExportedNames(fields: seq<Field>): set<string> {
    set f <- fields | Exported(f.name) :: f.name
  }

  function Reflect(show: Show, v: Go): Value
    decreases v
  {
    match v
    case BoolVal(b, _) => BoolValue(b)
    case IntVal(_, n, _) => NumberValue(AsFloat(n))
    case FloatVal(_, r, _) => NumberValue(r)
    case StringVal(s, _) => StringValue(show(v))
    case ErrorVal(_, underlying) => Reflect(show, underlying)
    case Ptr(target) => if target.None? then Absent else Reflect(show, target.value)
    case List(items) =>
      if items == [] then Absent
      else ListValue(seq(|items|, i requires 0 <= i < |items| => Reflect(show, items[i])))
    case Struct(fields) => Fields(ReflectFields(show, fields))
    case Map(entries) => Fields(map n | n in StringKeys(entries) :: Reflect(show, entries[StringKey(n)]))
    case Nil => StringValue(show(v))
    case Iface(_) => StringValue(show(v))
    case Other(_) => StringValue(show(v))
  }

  function ReflectFields(show: Show, fields: seq<Field>): map<string, Value>
    decreases fields
  {
    if fields == [] then map[]
    else
      var last := fields[|fields| - 1];
      var rest := ReflectFields(show, fields[..|fields| - 1]);
      if Exported(last.name) then rest[last.name := Reflect(show, last.value)] else rest
  }

  /** The type switch at the top; everything it does not name goes to reflection. */
  function ToValue(show: Show, v: Go): Value {
    match v
    case Nil => Absent
    case BoolVal(b, false) => BoolValue(b)
    case IntVal(kind, n, false) =>
      if kind.Int16? || kind.Uint16? || kind.Uintptr? then Reflect(show, v) else NumberValue(AsFloat(n))
    case FloatVal(_, r, false) => NumberValue(r)
    case StringVal(s, false) => StringValue(s)
    case ErrorVal(text, _) => StringValue(text)
    case _ => Reflect(show, v)
  }

  // ----- The code -----

  method ConvertValue(v: Value) returns (o: Out)
    ensures o == Convert(v)
    decreases v, 1
  {
    match v {
      case BoolValue(b) => return OutBool(b);
      case ListValue(_) => o := ConvertList(v);
      case NullValue => return OutNull;
      case NumberValue(r) => return OutNumber(r);
      case StringValue(s) => return OutString(s);
      case StructValue(_) => o := ConvertStruct(v);
      case Absent => return OutNil;
    }
  }

  method ConvertList(v: Value) returns (o: Out)
    requires v.ListValue?
    ensures o == Convert(v)
    decreases v, 0
  {
    var arr: seq<Out> := [];
    var i := 0;
    while i < |v.values|
      invariant 0 <= i <= |v.values| && |arr| == i
      invariant forall k :: 0 <= k < i ==> arr[k] == Convert(v.values[k])
    {
      var item := ConvertValue(v.values[i]);
      arr := arr + [item];
      i := i + 1;
    }
    return OutList(arr);
  }

  method ConvertStruct(v: Value) returns (o: Out)
    requires v.StructValue?
    ensures o == Convert(v)
    decreases v, 0
  {
    var stMap: map<string, Out> := map[];
    var left := v.fields.Keys;
    while left != {}
      invariant left <= v.fields.Keys
      invariant stMap == map k | k in v.fields && k !in left :: Convert(v.fields[k])
      decreases |left|
    {
      var key :| key in left;
      var item := ConvertValue(v.fields[key]);
      stMap := stMap[key := item];
      left := left - {key};
    }
    return OutMap(stMap);
  }

  method ReflectValue(show: Show, v: Go) returns (r: Value)
    ensures r == Reflect(show, v)
    decreases v, 1
  {
    match v {
      case BoolVal(b, _) => return BoolValue(b);
      case IntVal(_, n, _) => return NumberValue(AsFloat(n));
      case FloatVal(_, x, _) => return NumberValue(x);
      case ErrorVal(_, underlying) => r := ReflectValue(show, underlying);
      case Ptr(target) =>
        if target.None? {
          return Absent;
        }
        r := ReflectValue(show, target.value);
      case List(_) => r := ReflectList(show, v);
      case Struct(_) => r := ReflectStruct(show, v);
      case Map(_) => r := ReflectMap(show, v);
      case _ => return StringValue(show(v));
    }
  }

  method ReflectList(show: Show, v: Go) returns (r: Value)
    requires v.List?
    ensures r == Reflect(show, v)
    decreases v, 0
  {
    if |v.items| == 0 {
      return Absent;
    }
    var values: seq<Value> := [];
    var i := 0;
    while i < |v.items|
      invariant 0 <= i <= |v.items| && |values| == i
      invariant forall k :: 0 <= k < i ==> values[k] == Reflect(show, v.items[k])
    {
      var item := ReflectValue(show, v.items[i]);
      values := values + [item];
      i := i + 1;
    }
    return ListValue(values);
  }

  method ReflectStruct(show: Show, v: Go) returns (r: Value)
    requires v.Struct?
    ensures r == Reflect(show, v)
    decreases v, 0
  {
    var m: map<string, Value> := map[];
    var i := 0;
    while i < |v.fields|
      invariant 0 <= i <= |v.fields|
      invariant m == ReflectFields(show, v.fields[..i])
    {
      assert v.fields[..i + 1][..i] == v.fields[..i];
      if Exported(v.fields[i].name) {
        var item := ReflectValue(show, v.fields[i].value);
        m := m[v.fields[i].name := item];
      }
      i := i + 1;
    }
    assert v.fields[..|v.fields|] == v.fields;
    return if |m| == 0 then Absent else StructValue(m);
  }

  method ReflectMap(show: Show, v: Go) returns (r: Value)
    requires v.Map?
    ensures r == Reflect(show, v)
    decreases v, 0
  {
    var m: map<string, Value> := map[];
    var left := v.entries.Keys;
    while left != {}
      invariant left <= v.entries.Keys
      invariant forall n :: n in m <==> StringKey(n) in v.entries && StringKey(n) !in left
      invariant forall n <- m :: m[n] == Reflect(show, v.entries[StringKey(n)])
      decreases |left|
    {
      var key :| key in left;
      if key.StringKey? {
        var item := ReflectValue(show, v.entries[key]);
        m := m[key.s := item];
      }
      left := left - {key};
    }
    EntriesMeaning(show, v.entries, m);
    return if |m| == 0 then Absent else StructValue(m);
  }

  /** The fields sent for a map, key by key. */
  lemma EntriesMeaning(show: Show, entries: map<Key, Go>, m: map<string, Value>)
    requires forall n :: n in m <==> StringKey(n) in entries
    requires forall n <- m :: m[n] == Reflect(show, entries[StringKey(n)])
    ensures Reflect(show, Map(entries)) == Fields(m)
  {
    assert m == map n | n in StringKeys(entries) :: Reflect(show, entries[StringKey(n)]);
  }

  // ----- What survives one trip -----

  /** fmt.Sprint prints a plain string as itself, also behind an interface. */
  ghost predicate PrintsStrings(show: Show) {
    forall s {:trigger StringVal(s, false)} ::
      show(StringVal(s, false)) == s && show(Iface(StringVal(s, false))) == s
  }

  /** On every bool, number and string the type switch and reflection agree. */
  lemma FastPathAgrees(show: Show, v: Go)
    requires PrintsStrings(show)
    requires v.BoolVal? || v.IntVal? || v.FloatVal? || v.StringVal?
    ensures ToValue(show, v) == Reflect(show, v)
  {}

  /** The value a variable set to `v` is read back as, described on the Go value alone: numbers become
      float64, pointers are followed, structs keep their exported fields and maps their string keys,
      what is empty becomes nil, and whatever hides behind an interface becomes its printed text. */
  function Normal(show: Show, v: Go): Out
    decreases v
  {
    match v
    case BoolVal(b, _) => OutBool(b)
    case IntVal(_, n, _) => OutNumber(AsFloat(n))
    case FloatVal(_, r, _) => OutNumber(r)
    case ErrorVal(_, underlying) => Normal(show, underlying)
    case Ptr(None) => OutNil
    case Ptr(Some(t)) => Normal(show, t)
    case List(items) =>
      if items == [] then OutNil
      else OutList(seq(|items|, i requires 0 <= i < |items| => Normal(show, items[i])))
    case Struct(fields) =>
      if ExportedNames(fields) == {} then OutNil
      else OutMap(map n | n in ExportedNames(fields) :: Normal(show, fields[LastField(fields, n)].value))
    case Map(entries) =>
      if StringKeys(entries) == {} then OutNil
      else OutMap(map n | n in StringKeys(entries) :: Normal(show, entries[StringKey(n)]))
    case _ => OutString(show(v))
  }

  function LastField(fields: seq<Field>, name: string): (i: nat)
    requires exists f <- fields :: f.name == name
    ensures i < |fields| && fields[i].name == name
    ensures forall j :: i < j < |fields| ==> fields[j].name != name
  {
    var last := |fields| - 1;
    if fields[last].name == name then last
    else
      assert fields == fields[..last] + [fields[last]];
      LastField(fields[..last], name)
  }

  lemma {:induction false} FieldsMeaning(show: Show, fields: seq<Field>)
    ensures ReflectFields(show, fields).Keys == ExportedNames(fields)
    ensures forall n <- ReflectFields(show, fields) ::
              (exists f <- fields :: f.name == n) &&
              ReflectFields(show, fields)[n] == Reflect(show, fields[LastField(fields, n)].value)
    decreases |fields|
  {
    if fields != [] {
      var last := |fields| - 1;
      FieldsMeaning(show, fields[..last]);
      assert fields == fields[..last] + [fields[last]];
    }
  }

  /** What is read back after reflection is the normal form. */
  lemma {:induction false} ReflectNormal(show: Show, v: Go)
    ensures Convert(Reflect(show, v)) == Normal(show, v)
    decreases v
  {
    match v
    case ErrorVal(_, underlying) => ReflectNormal(show, underlying);
    case Ptr(Some(t)) => ReflectNormal(show, t);
    case List(items) => forall i | 0 <= i < |items| { ReflectNormal(show, items[i]); }
    case Struct(fields) => forall i | 0 <= i < |fields| { ReflectNormal(show, fields[i].value); }
      NormalStruct(show, fields);
    case Map(entries) => forall k | k in entries { ReflectNormal(show, entries[k]); }
      NormalMap(show, entries);
    case _ =>
  }

  lemma ConvertFields(m: map<string, Value>, o: map<string, Out>)
    requires m.Keys == o.Keys && forall n <- m :: Convert(m[n]) == o[n]
    ensures Convert(Fields(m)) == if o.Keys == {} then OutNil else OutMap(o)
  {
    assert m == map[] <==> m.Keys == {};
    assert (map k | k in m :: Convert(m[k])) == o;
  }

  lemma NormalStruct(show: Show, fields: seq<Field>)
    requires forall i :: 0 <= i < |fields| ==> Convert(Reflect(show, fields[i].value)) == Normal(show, fields[i].value)
    ensures Convert(Reflect(show, Struct(fields))) == Normal(show, Struct(fields))
  {
    FieldsMeaning(show, fields);
    if ExportedNames(fields) != {} {
      ConvertFields(ReflectFields(show, fields), Normal(show, Struct(fields)).entries);
    }
  }

  /** A map is read back entry by entry. */
  lemma MapTrip(show: Show, go: map<Key, Go>, o: map<string, Out>)
    requires StringKeys(go) == o.Keys
    requires forall n <- o :: Convert(Reflect(show, go[StringKey(n)])) == o[n]
    ensures Convert(Reflect(show, Map(go))) == if o.Keys == {} then OutNil else OutMap(o)
  {
    ConvertFields(map n | n in StringKeys(go) :: Reflect(show, go[StringKey(n)]), o);
  }

  lemma ListTrip(show: Show, go: seq<Go>, o: seq<Out>)
    requires |go| == |o| > 0 && forall i :: 0 <= i < |go| ==> Convert(Reflect(show, go[i])) == o[i]
    ensures Convert(Reflect(show, List(go))) == OutList(o)
  {}

  lemma NormalMap(show: Show, entries: map<Key, Go>)
    requires forall k <- entries :: Convert(Reflect(show, entries[k])) == Normal(show, entries[k])
    ensures Convert(Reflect(show, Map(entries))) == Normal(show, Map(entries))
  {
    if StringKeys(entries) == {} {
      MapTrip(show, entries, map[]);
    } else {
      MapTrip(show, entries, Normal(show, Map(entries)).entries);
    }
  }

  // ----- Sending and reading a variable -----

  /** SetVariable wraps the value in a struct under "value"; parseStruct takes it out again. */
  function ParseStruct(fields: map<string, Value>): Out {
    Convert(if "value" in fields then fields["value"] else Absent)
  }

  function Trip(show: Show, v: Go): Out {
    ParseStruct(map["value" := ToValue(show, v)])
  }

  /** A variable set to any finite value is read back as its normal form; only a nil and an error at
      the very top are treated specially. */
  lemma TripIsNormal(show: Show, v: Go)
    requires PrintsStrings(show)
    ensures Trip(show, v) == if v.Nil? then OutNil else if v.ErrorVal? then OutString(v.text) else Normal(show, v)
  {
    ReflectNormal(show, v);
  }

  /** Non-empty concrete trees of booleans, float64s and strings. */
  predicate Plain(o: Out) {
    match o
    case OutBool(_) => true
    case OutNumber(_) => true
    case OutString(_) => true
    case OutList(items) => items != [] && forall i <- items :: Plain(i)
    case OutMap(entries) => entries.Keys != {} && forall k <- entries :: Plain(entries[k])
    case _ => false
  }

  /** The same tree as a Go value with concrete element types. */
  function Concrete(o: Out): Go
    requires Plain(o)
  {
    match o
    case OutBool(b) => BoolVal(b, false)
    case OutNumber(r) => FloatVal(Float64, r, false)
    case OutString(s) => StringVal(s, false)
    case OutList(items) => List(seq(|items|, i requires 0 <= i < |items| => Concrete(items[i])))
    case OutMap(entries) => Map(Keyed(map n | n in entries :: Concrete(entries[n])))
  }

  lemma {:induction false} ConcreteSurvives(show: Show, o: Out)
    requires Plain(o) && PrintsStrings(show)
    ensures Convert(Reflect(show, Concrete(o))) == o
    decreases o
  {
    match o
    case OutList(items) =>
      forall i | 0 <= i < |items|
        ensures Convert(Reflect(show, Concrete(items[i]))) == items[i]
      {
        ConcreteSurvives(show, items[i]);
      }
    case OutMap(entries) =>
      forall k | k in entries
        ensures Convert(Reflect(show, Concrete(entries[k]))) == entries[k]
      {
        ConcreteSurvives(show, entries[k]);
      }
      ConcreteMap(show, entries);
    case _ =>
  }

  lemma ConcreteMap(show: Show, entries: map<string, Out>)
    requires Plain(OutMap(entries))
    requires forall k <- entries :: Convert(Reflect(show, Concrete(entries[k]))) == entries[k]
    ensures Convert(Reflect(show, Concrete(OutMap(entries)))) == OutMap(entries)
  {
    var go := Concrete(OutMap(entries)).entries;
    assert forall n <- entries :: StringKey(n) in go && go[StringKey(n)] == Concrete(entries[n]);
    MapTrip(show, go, entries);
  }

  /** A non-empty concrete tree of booleans, float64s and strings survives the trip unchanged. */
  lemma PlainSurvives(show: Show, o: Out)
    requires Plain(o) && PrintsStrings(show)
    ensures Trip(show, Concrete(o)) == o
  {
    ConcreteSurvives(show, o);
    TripIsNormal(show, Concrete(o));
    ReflectNormal(show, Concrete(o));
  }

  /** What GetVariable returned, as the Go value a program now holds: elements of []interface{} and
      map[string]interface{} have interface type. */
  function Received(o: Out): Go {
    match o
    case OutNil => Nil
    case OutBool(b) => BoolVal(b, false)
    case OutNumber(r) => FloatVal(Float64, r, false)
    case OutString(s) => StringVal(s, false)
    case OutNull => IntVal(Int32, 0, true)
    case OutList(items) => List(seq(|items|, i requires 0 <= i < |items| => Iface(Received(items[i]))))
    case OutMap(entries) => Map(Keyed(map n | n in entries :: Iface(Received(entries[n]))))
  }

  /** Nil, a scalar, or a non-empty list or map that holds nothing but strings. */
  predicate Resendable(o: Out) {
    match o
    case OutNull => false
    case OutList(items) => items != [] && forall i <- items :: i.OutString?
    case OutMap(entries) => entries.Keys != {} && forall k <- entries :: entries[k].OutString?
    case _ => true
  }

  lemma ResentList(show: Show, items: seq<Out>)
    requires PrintsStrings(show)
    ensures Convert(Reflect(show, Received(OutList(items)))) == OutList(items) <==> Resendable(OutList(items))
  {
    if items != [] {
      var go := seq(|items|, i requires 0 <= i < |items| => Iface(Received(items[i])));
      var printed := seq(|items|, i requires 0 <= i < |items| => OutString(show(Iface(Received(items[i])))));
      assert Received(OutList(items)) == List(go);
      ListTrip(show, go, printed);
      assert forall i :: 0 <= i < |items| ==> items[i] in items && (printed[i] == items[i] <==> items[i].OutString?);
    }
  }

  /** What an element of a received container is resent as. */
  function Printed(show: Show, entries: map<string, Out>): map<string, Out> {
    map n | n in entries :: OutString(show(Iface(Received(entries[n]))))
  }

  lemma PrintedSame(show: Show, entries: map<string, Out>)
    requires PrintsStrings(show)
    ensures Printed(show, entries) == entries <==> forall k <- entries :: entries[k].OutString?
  {
    var printed := Printed(show, entries);
    forall n <- entries
      ensures printed[n] == entries[n] <==> entries[n].OutString?
    {
      if entries[n].OutString? {
        assert Received(entries[n]) == StringVal(entries[n].s, false);
      }
    }
  }

  lemma IfacePrinted(show: Show, v: Go)
    ensures Convert(Reflect(show, Iface(v))) == OutString(show(Iface(v)))
  {}

  lemma ResentEntries(show: Show, entries: map<string, Out>)
    ensures Convert(Reflect(show, Received(OutMap(entries)))) ==
            if entries.Keys == {} then OutNil else OutMap(Printed(show, entries))
  {
    var go := Received(OutMap(entries)).entries;
    forall n <- entries
      ensures Convert(Reflect(show, go[StringKey(n)])) == OutString(show(Iface(Received(entries[n]))))
    {
      assert go[StringKey(n)] == Iface(Received(entries[n]));
      IfacePrinted(show, Received(entries[n]));
    }
    MapTrip(show, go, Printed(show, entries));
  }

  lemma ResentMap(show: Show, entries: map<string, Out>)
    requires PrintsStrings(show)
    ensures Convert(Reflect(show, Received(OutMap(entries)))) == OutMap(entries) <==> Resendable(OutMap(entries))
  {
    ResentEntries(show, entries);
    PrintedSame(show, entries);
  }

  /** Writing back what was just read preserves it exactly when it is nil, a scalar, or a non-empty
      list or map of strings; everything else held in a container turns into printed text. */
  lemma ResendPreservesIff(show: Show, o: Out)
    requires PrintsStrings(show)
    ensures Trip(show, Received(o)) == o <==> Resendable(o)
  {
    match o
    case OutList(items) =>
      ResentList(show, items);
    case OutMap(entries) =>
      ResentMap(show, entries);
    case _ =>
  }

  // ----- Numbers, pointers, structs and keys, said on their own -----

  function Magnitude(n: int): nat { if n < 0 then -n else n }

  lemma SignedReal(a: nat, m: nat)
    ensures a as real == m as real <==> a == m
    ensures -(a as real) == (-(m as int)) as real <==> a == m
  {}

  lemma AsFloatParts(n: int)
    ensures AsFloat(n) == if n < 0 then -(Round(Magnitude(n)) as real) else Round(Magnitude(n)) as real
  {}

  lemma AsFloatExactIff(n: int)
    ensures AsFloat(n) == n as real <==> Representable(Magnitude(n))
  {
    ExactIff(Magnitude(n));
    AsFloatParts(n);
    var rounded := Round(Magnitude(n));
    SignedReal(rounded, Magnitude(n));
  }

  lemma AsFloatOdd(n: int)
    ensures AsFloat(-n) == -AsFloat(n)
  {
    AsFloatParts(n);
    AsFloatParts(-n);
    assert Magnitude(-n) == Magnitude(n);
    if n == 0 {
      SmallExact(0);
    }
  }

  /** An integer of any kind is read back as itself exactly when its magnitude fits a 53-bit significand;
      otherwise as the nearest such number of the same sign. A float is always read back as itself. */
  lemma NumberTripIff(show: Show, kind: IntKind, n: int, named: bool, width: FloatKind, r: real)
    requires PrintsStrings(show)
    ensures var back := Trip(show, IntVal(kind, n, named));
            && (back == OutNumber(n as real) <==> Representable(Magnitude(n)))
            && (n >= 0 ==> back == OutNumber(Round(n) as real))
            && (n < 0 ==> back == OutNumber(-(Round(-n) as real)))
    ensures Trip(show, FloatVal(width, r, named)) == OutNumber(r)
  {
    TripIsNormal(show, IntVal(kind, n, named));
    TripIsNormal(show, FloatVal(width, r, named));
    AsFloatExactIff(n);
    AsFloatParts(n);
  }

  lemma TripOf(show: Show, v: Go)
    ensures Trip(show, v) == Convert(ToValue(show, v))
  {}

  /** A pointer is read back as what it points to, a nil pointer as nil. */
  lemma PointerTrip(show: Show, t: Go)
    ensures Trip(show, Ptr(None)) == OutNil
    ensures Trip(show, Ptr(Some(t))) == Convert(Reflect(show, t))
  {
    TripOf(show, Ptr(None));
    TripOf(show, Ptr(Some(t)));
  }

  /** Booleans of any type are read back as they are; an error inside another value as its underlying value;
      whatever has no counterpart, or hides behind an interface, as its printed text. */
  lemma LeafTrip(show: Show, b: bool, named: bool, text: string, underlying: Go, id: nat, inner: Go)
    ensures Trip(show, BoolVal(b, named)) == OutBool(b)
    ensures Trip(show, Ptr(Some(ErrorVal(text, underlying)))) == Convert(Reflect(show, underlying))
    ensures Trip(show, Other(id)) == OutString(show(Other(id)))
    ensures Trip(show, Ptr(Some(Iface(inner)))) == OutString(show(Iface(inner)))
  {
    TripOf(show, BoolVal(b, named));
    PointerTrip(show, ErrorVal(text, underlying));
    TripOf(show, Other(id));
    PointerTrip(show, Iface(inner));
  }

  /** A struct is read back as a map of exactly its fields whose name starts with an ASCII capital, each
      with its own value, or as nil if it has none. */
  lemma StructTrip(show: Show, fields: seq<Field>, i: nat)
    requires i < |fields| && forall j, k :: 0 <= j < k < |fields| ==> fields[j].name != fields[k].name
    ensures var out := Trip(show, Struct(fields)); var name := fields[i].name;
            if name != "" && 'A' <= name[0] <= 'Z'
            then out.OutMap? && name in out.entries && out.entries[name] == Convert(Reflect(show, fields[i].value))
            else out.OutMap? ==> name !in out.entries
    ensures var out := Trip(show, Struct(fields));
            out.OutMap? || (out == OutNil && forall f <- fields :: f.name == "" || !('A' <= f.name[0] <= 'Z'))
  {
    FieldsMeaning(show, fields);
    if ExportedNames(fields) == {} {
      NoneExported(fields);
    }
    assert fields[i] in fields;
    if Exported(fields[i].name) {
      assert fields[i].name in ExportedNames(fields);
      assert LastField(fields, fields[i].name) == i;
    }
  }

  lemma NoneExported(fields: seq<Field>)
    requires ExportedNames(fields) == {}
    ensures forall f <- fields :: !Exported(f.name)
  {
    forall f <- fields
      ensures !Exported(f.name)
    {
      assert Exported(f.name) ==> f.name in ExportedNames(fields);
    }
  }

  /** A Go map is read back with exactly its string keys, each with its own value, or as nil if it has
      none. */
  lemma KeysTrip(show: Show, entries: map<Key, Go>, k: string)
    ensures var out := Trip(show, Map(entries));
            && (StringKey(k) in entries ==>
                  out.OutMap? && k in out.entries && out.entries[k] == Convert(Reflect(show, entries[StringKey(k)])))
            && (StringKey(k) !in entries && out.OutMap? ==> k !in out.entries)
            && (out.OutMap? || out == OutNil)
  {
    var m := map n | n in StringKeys(entries) :: Reflect(show, entries[StringKey(n)]);
    assert Reflect(show, Map(entries)) == Fields(m);
    assert k in m <==> StringKey(k) in entries;
  }

  /** Receiving loses nothing: different protobuf values are received as different values. */
  lemma {:induction false} ConvertInjective(a: Value, b: Value)
    ensures Convert(a) == Convert(b) <==> a == b
    decreases a
  {
    match (a, b)
    case (ListValue(xs), ListValue(ys)) =>
      if Convert(a) == Convert(b) {
        assert |Convert(a).items| == |xs| && |Convert(b).items| == |ys|;
        forall i | 0 <= i < |xs|
          ensures xs[i] == ys[i]
        {
          assert Convert(a).items[i] == Convert(b).items[i];
          ConvertInjective(xs[i], ys[i]);
        }
        assert xs == ys;
      }
    case (StructValue(m), StructValue(n)) =>
      if Convert(a) == Convert(b) {
        assert Convert(a).entries.Keys == m.Keys && Convert(b).entries.Keys == n.Keys;
        forall k | k in m
          ensures m[k] == n[k]
        {
          assert Convert(a).entries[k] == Convert(b).entries[k];
          ConvertInjective(m[k], n[k]);
        }
        assert m == n;
      }
    case _ =>
  }
}

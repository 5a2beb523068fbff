/** The spec generator's field loop: each struct field of a node goes to the input, output or options
    section, and every section keeps three parallel views (schema, form data, UI schema). */
module SpecSections {
  import opened NodeTypes
  import opened Wrappers

  /** The tools the generator borrows: base64 decoding and the typing of a default value. */
  datatype Env = Env(decode: string -> Option<string>, parseValue: (Field, string) -> string)

  datatype Shape = ArrayShape | MultiShape | VariableShape | CredentialShape | EnumShape | PlainShape

  datatype SProperty = SProperty(title: string, shape: Shape)

  datatype Form =
    | VarData(scope: string, name: string)
    | EmptyList
    | VaultPlaceholder
    | Text(text: string)

  type Ui = map<string, string>

  datatype Section = Section(
    props: map<string, SProperty>, order: seq<string>, form: map<string, Form>, ui: map<string, Ui>)

  datatype Sections = Sections(input: Section, output: Section, options: Section)

  // ----- What a field becomes -----

  datatype Place = Input | Output | Options | PlainOption | Nowhere

  function PlaceOf(f: Field): Place {
    if f.kind.InVar? || f.Has("input") then Input
    else if f.kind.OutVar? || f.Has("output") then Output
    else if f.kind.OptVar? || f.kind.Credential? || f.IsEnum() then Options
    else if f.Has("option") then PlainOption
    else Nowhere
  }

  function ShapeOf(f: Field): Shape {
    if f.Has("arrayFields") then ArrayShape
    else if f.kind.OptVar? && f.IsEnum() then MultiShape
    else if f.IsVar() then VariableShape
    else if f.kind.Credential? then CredentialShape
    else if f.IsEnum() then EnumShape
    else PlainShape
  }

  function PropertyOf(f: Field): SProperty {
    SProperty(if f.Has("title") then f.Get("title") else f.name, ShapeOf(f))
  }

  /** Scope and name of the form data of a variable. */
  function ScopedName(env: Env, f: Field): (string, string) {
    if f.IsVar() && !f.Has("scope") then ("Custom", "")
    else
      var raw := f.Get("name");
      (f.Get("scope"),
       if f.Has("name") then
         if "b64:" <= raw then
           match env.decode(raw[4..]) case Some(d) => d case None => raw
         else raw
       else if f.IsVar() && f.Get("scope") == "Message" then f.Low()
       else "")
  }

  function FormOf(env: Env, f: Field): Form {
    var (scope, n) := ScopedName(env, f);
    match PlaceOf(f)
    case Output => if f.IsVar() then VarData(scope, n) else Text(n)
    case PlainOption => if f.Has("arrayFields") then EmptyList else Text(env.parseValue(f, f.Get("value")))
    case _ =>
      if f.Has("format") then VarData(scope, n)
      else if f.Has("arrayFields") then EmptyList
      else if PlaceOf(f).Options? && f.kind.OptVar? && f.IsEnum() then EmptyList
      else if f.IsVar() then VarData(scope, n)
      else if PlaceOf(f).Options? && f.kind.Credential? then VaultPlaceholder
      else if PlaceOf(f).Options? && f.IsEnum() then Text(env.parseValue(f, f.Get("value")))
      else Text(n)
  }

  /** The widget family a field is given, if any. */
  function WidgetOf(f: Field): Option<string> {
    match PlaceOf(f)
    case Input =>
      if f.Has("format") then Some(f.Get("format"))
      else if f.Has("arrayFields") then Some("array")
      else if f.IsVar() then Some("variable")
      else if f.Has("description") then Some("input")
      else None
    case Output =>
      if f.IsVar() then Some("variable") else if f.Has("description") then Some("input") else None
    case Options =>
      if f.Has("format") then Some(f.Get("format"))
      else if f.Has("arrayFields") then Some("array")
      else if f.kind.OptVar? && f.IsEnum() then Some("multiSelectCheckbox")
      else if f.IsVar() then Some("variable")
      else if f.kind.Credential? then Some("vault")
      else if f.Has("description") then Some("input")
      else None
    case PlainOption =>
      if f.Has("description") then Some("input") else if f.Has("arrayFields") then Some("array") else None
    case Nowhere => None
  }

  /** The hidden flag reaches every place but the plain options. */
  predicate BecomesHidden(f: Field) {
    f.Has("hidden") && !PlaceOf(f).PlainOption? && !PlaceOf(f).Nowhere?
  }

  const FIELD: string := "ui:field"
  const WIDGET: string := "ui:widget"

  function SetUi(ui: map<string, Ui>, key: string, widget: Option<string>): map<string, Ui> {
    if widget.None? then ui else ui[key := map[FIELD := widget.value]]
  }

  function HideUi(ui: map<string, Ui>, key: string): map<string, Ui> {
    ui[key := (if key in ui then ui[key] else map[])[WIDGET := "hidden"]]
  }

  /** One field put in a section: all three views and the order gain the same name. */
  function Put(s: Section, low: string, prop: SProperty, data: Form, widget: Option<string>, hidden: bool): Section {
    var ui := SetUi(s.ui, low, widget);
    Section(s.props[low := prop], s.order + [low], s.form[low := data], if hidden then HideUi(ui, low) else ui)
  }

  function AddTo(env: Env, s: Section, f: Field): Section {
    Put(s, f.Low(), PropertyOf(f), FormOf(env, f), WidgetOf(f), BecomesHidden(f))
  }

  function AddField(env: Env, all: Sections, f: Field): Sections {
    match PlaceOf(f)
    case Input => all.(input := AddTo(env, all.input, f))
    case Output => all.(output := AddTo(env, all.output, f))
    case Options => all.(options := AddTo(env, all.options, f))
    case PlainOption => all.(options := AddTo(env, all.options, f))
    case Nowhere => all
  }

  const EMPTY: Section := Section(map[], [], map[], map[])

  function Generated(env: Env, fields: seq<Field>): Sections
    decreases |fields|
  {
    if fields == [] then Sections(EMPTY, EMPTY, EMPTY)
    else AddField(env, Generated(env, fields[..|fields| - 1]), fields[|fields| - 1])
  }

  // ----- The code -----

  class Property {
    var props: map<string, SProperty>
    var order: seq<string>
    var form: map<string, Form>
    var ui: map<string, Ui>

    constructor ()
      ensures Abs() == EMPTY
    {
      props, order, form, ui := map[], [], map[], map[];
    }

    function Abs(): Section
      reads this
    {
      Section(props, order, form, ui)
    }

    method MarkHidden(field: string)
      modifies this`ui
      ensures ui == HideUi(old(ui), field)
    {
      if field in ui {
        ui := ui[field := ui[field][WIDGET := "hidden"]];
        return;
      }
      ui := ui[field := map[WIDGET := "hidden"]];
    }

    method Declare(f: Field, sProp: SProperty)
      modifies this`props, this`order
      ensures props == old(props)[f.Low() := sProp] && order == old(order) + [f.Low()]
    {
      props := props[f.Low() := sProp];
      order := order + [f.Low()];
    }

    method SetField(key: string, field: string)
      modifies this`ui
      ensures ui == SetUi(old(ui), key, Some(field))
    {
      ui := ui[key := map[FIELD := field]];
    }

    /** Decides form data and widget of an input field; a widget set earlier is overwritten. */
    method DecideInput(env: Env, f: Field, scope: string, n: string)
      requires PlaceOf(f).Input? && (scope, n) == ScopedName(env, f)
      modifies this`form, this`ui
      ensures form == old(form)[f.Low() := FormOf(env, f)]
      ensures ui == SetUi(old(ui), f.Low(), WidgetOf(f))
    {
      var low := f.Low();
      if !f.IsVar() && f.Has("input") && f.Has("description") {
        SetField(low, "input");
      }
      if f.Has("format") {
        form := form[low := VarData(scope, n)];
        SetField(low, f.Get("format"));
      } else if f.Has("arrayFields") {
        SetField(low, "array");
        form := form[low := EmptyList];
      } else if f.IsVar() {
        form := form[low := VarData(scope, n)];
        SetField(low, "variable");
      } else {
        form := form[low := Text(n)];
      }
    }

    method AddInput(env: Env, f: Field, sProp: SProperty, scope: string, n: string)
      requires PlaceOf(f).Input? && sProp == PropertyOf(f) && (scope, n) == ScopedName(env, f)
      modifies this
      ensures Abs() == AddTo(env, old(Abs()), f)
    {
      var low := f.Low();
      Declare(f, sProp);
      DecideInput(env, f, scope, n);
      if f.Has("hidden") {
        MarkHidden(low);
      }
    }

    method AddOutput(env: Env, f: Field, sProp: SProperty, scope: string, n: string)
      requires PlaceOf(f).Output? && sProp == PropertyOf(f) && (scope, n) == ScopedName(env, f)
      modifies this
      ensures Abs() == AddTo(env, old(Abs()), f)
    {
      var low := f.Low();
      Declare(f, sProp);
      if !f.IsVar() && f.Has("output") && f.Has("description") {
        SetField(low, "input");
      }
      if f.IsVar() {
        form := form[low := VarData(scope, n)];
        SetField(low, "variable");
      } else {
        form := form[low := Text(n)];
      }
      if f.Has("hidden") {
        MarkHidden(low);
      }
    }

    /** The same for variables, credentials and enumerations among the options. */
    method DecideOption(env: Env, f: Field, scope: string, n: string)
      requires PlaceOf(f).Options? && (scope, n) == ScopedName(env, f)
      modifies this`form, this`ui
      ensures form == old(form)[f.Low() := FormOf(env, f)]
      ensures ui == SetUi(old(ui), f.Low(), WidgetOf(f))
    {
      var low := f.Low();
      if !f.IsVar() && !f.kind.Credential? && f.IsEnum() && f.Has("description") {
        SetField(low, "input");
      }
      if f.Has("format") {
        form := form[low := VarData(scope, n)];
        SetField(low, f.Get("format"));
      } else if f.Has("arrayFields") {
        SetField(low, "array");
        form := form[low := EmptyList];
      } else if f.IsVar() && f.IsEnum() && f.kind.OptVar? {
        SetField(low, "multiSelectCheckbox");
        form := form[low := EmptyList];
      } else if f.IsVar() {
        form := form[low := VarData(scope, n)];
        SetField(low, "variable");
      } else if f.kind.Credential? {
        SetField(low, "vault");
        form := form[low := VaultPlaceholder];
      } else {
        // A field among the options is a variable, a credential or an enumeration: no other kind is left.
        form := form[low := Text(env.parseValue(f, f.Get("value")))];
      }
    }

    method AddOption(env: Env, f: Field, sProp: SProperty, scope: string, n: string)
      requires PlaceOf(f).Options? && sProp == PropertyOf(f) && (scope, n) == ScopedName(env, f)
      modifies this
      ensures Abs() == AddTo(env, old(Abs()), f)
    {
      var low := f.Low();
      Declare(f, sProp);
      DecideOption(env, f, scope, n);
      if f.Has("hidden") {
        MarkHidden(low);
      }
    }

    method AddPlainOption(env: Env, f: Field, sProp: SProperty)
      requires PlaceOf(f).PlainOption? && sProp == PropertyOf(f)
      modifies this
      ensures Abs() == AddTo(env, old(Abs()), f)
    {
      var low := f.Low();
      if f.Has("description") {
        SetField(low, "input");
      } else if f.Has("arrayFields") {
        SetField(low, "array");
      }
      Declare(f, sProp);
      if f.Has("arrayFields") {
        form := form[low := EmptyList];
      } else {
        form := form[low := Text(env.parseValue(f, f.Get("value")))];
      }
    }
  }

  method ResolveName(env: Env, f: Field) returns (scope: string, n: string)
    ensures (scope, n) == ScopedName(env, f)
  {
    scope, n := f.Get("scope"), f.Get("name");
    if f.IsVar() && scope == "Message" && !f.Has("name") {
      n := f.Low();
    }
    if f.Has("name") {
      if "b64:" <= n {
        var decoded := env.decode(n[4..]);
        if decoded.Some? {
          n := decoded.value;
        }
      }
    }
    if f.IsVar() && !f.Has("scope") {
      scope, n := "Custom", "";
    }
  }

  method GenerateSections(env: Env, fields: seq<Field>)
    returns (input: Property, output: Property, options: Property)
    ensures Sections(input.Abs(), output.Abs(), options.Abs()) == Generated(env, fields)
  {
    input := new Property();
    output := new Property();
    options := new Property();
    for i := 0 to |fields|
      invariant fresh(input) && fresh(output) && fresh(options)
      invariant input != output && output != options && input != options
      invariant Sections(input.Abs(), output.Abs(), options.Abs()) == Generated(env, fields[..i])
    {
      var f := fields[i];
      assert fields[..i + 1][..i] == fields[..i];
      var sProp := PropertyOf(f);
      var scope, n := ResolveName(env, f);
      if f.kind.InVar? || f.Has("input") {
        input.AddInput(env, f, sProp, scope, n);
      } else if f.kind.OutVar? || f.Has("output") {
        output.AddOutput(env, f, sProp, scope, n);
      } else if f.kind.OptVar? || f.kind.Credential? || f.IsEnum() {
        options.AddOption(env, f, sProp, scope, n);
      } else if f.Has("option") {
        options.AddPlainOption(env, f, sProp);
      }
    }
    assert fields[..|fields|] == fields;
  }

  // ----- The three views stay consistent -----

  /** The section a place belongs to: plain options share the options section. */
  predicate In(f: Field, place: Place) {
    PlaceOf(f) == place || (place.Options? && PlaceOf(f).PlainOption?)
  }

  /** The lowered names of the fields of one section, in declaration order. */
  function Names(fields: seq<Field>, place: Place): seq<string>
    decreases |fields|
  {
    if fields == [] then []
    else Names(fields[..|fields| - 1], place) +
         (if In(fields[|fields| - 1], place) then [fields[|fields| - 1].Low()] else [])
  }

  function SectionOf(all: Sections, place: Place): Section {
    match place case Input => all.input case Output => all.output case _ => all.options
  }

  predicate IsSection(place: Place) { place.Input? || place.Output? || place.Options? }

  function SetOf(s: seq<string>): set<string> { set n <- s }

  predicate NoRepeats(s: seq<string>) {
    forall i, j :: 0 <= i < j < |s| ==> s[i] != s[j]
  }

  predicate Agrees(s: Section, names: seq<string>) {
    && s.order == names
    && s.props.Keys == s.form.Keys == SetOf(names)
    && s.ui.Keys <= SetOf(names)
  }

  lemma PutAgrees(s: Section, names: seq<string>, low: string, prop: SProperty, data: Form,
                  widget: Option<string>, hidden: bool)
    requires Agrees(s, names)
    ensures Agrees(Put(s, low, prop, data, widget, hidden), names + [low])
  {
    assert SetOf(names + [low]) == SetOf(names) + {low};
  }

  /** In every section the order lists its fields' names in declaration order, and schema and form
      data have exactly those names; the UI schema has no others. */
  lemma {:induction false} ViewsAgree(env: Env, fields: seq<Field>, place: Place)
    requires IsSection(place)
    ensures Agrees(SectionOf(Generated(env, fields), place), Names(fields, place))
    decreases |fields|
  {
    if fields != [] {
      var rest, f := fields[..|fields| - 1], fields[|fields| - 1];
      ViewsAgree(env, rest, place);
      AddFieldSection(env, Generated(env, rest), f, place);
      if In(f, place) {
        PutAgrees(SectionOf(Generated(env, rest), place), Names(rest, place), f.Low(), PropertyOf(f),
                  FormOf(env, f), WidgetOf(f), BecomesHidden(f));
      }
    }
  }

  lemma AddFieldSection(env: Env, all: Sections, f: Field, place: Place)
    requires IsSection(place)
    ensures SectionOf(AddField(env, all, f), place) ==
            if In(f, place) then AddTo(env, SectionOf(all, place), f) else SectionOf(all, place)
  {
  }

  lemma {:induction false} NamesComeFrom(fields: seq<Field>, place: Place, n: string)
    requires n in Names(fields, place)
    ensures exists i :: 0 <= i < |fields| && In(fields[i], place) && fields[i].Low() == n
    decreases |fields|
  {
    var last := |fields| - 1;
    if n in Names(fields[..last], place) {
      NamesComeFrom(fields[..last], place, n);
      var i :| 0 <= i < last && In(fields[..last][i], place) && fields[..last][i].Low() == n;
      assert In(fields[i], place);
    } else {
      assert In(fields[last], place);
    }
  }

  lemma {:induction false} NamesOnce(fields: seq<Field>, place: Place)
    requires DistinctNames(fields)
    ensures NoRepeats(Names(fields, place))
    decreases |fields|
  {
    if fields != [] {
      var last := |fields| - 1;
      NamesOnce(fields[..last], place);
      if fields[last].Low() in Names(fields[..last], place) {
        NamesComeFrom(fields[..last], place, fields[last].Low());
      }
    }
  }

  /** With distinct lowered names no order repeats a name and no field is in two sections. */
  lemma SectionsDisjoint(env: Env, fields: seq<Field>, p: Place, q: Place)
    requires DistinctNames(fields) && IsSection(p) && IsSection(q) && p != q
    ensures var all := Generated(env, fields);
            && NoRepeats(SectionOf(all, p).order)
            && SectionOf(all, p).props.Keys !! SectionOf(all, q).props.Keys
  {
    ViewsAgree(env, fields, p);
    ViewsAgree(env, fields, q);
    NamesOnce(fields, p);
    NamesApart(fields, p, q);
  }

  lemma NamesApart(fields: seq<Field>, p: Place, q: Place)
    requires DistinctNames(fields) && IsSection(p) && IsSection(q) && p != q
    ensures SetOf(Names(fields, p)) !! SetOf(Names(fields, q))
  {
    forall n | n in Names(fields, p)
      ensures n !in Names(fields, q)
    {
      if n in Names(fields, q) {
        NamesComeFrom(fields, p, n);
        NamesComeFrom(fields, q, n);
      }
    }
  }

  /** The UI entry of one name. */
  function UiOf(s: Section, low: string): Ui {
    if low in s.ui then s.ui[low] else map[]
  }

  /** The UI entry a field is given: its widget family, with the hidden widget merged in. */
  function Entry(widget: Option<string>, hidden: bool): Ui {
    var base: Ui := if widget.None? then map[] else map[FIELD := widget.value];
    if hidden then base[WIDGET := "hidden"] else base
  }

  /** What a section holds for one field. */
  ghost predicate Holds(s: Section, low: string, prop: SProperty, data: Form, ui: Ui) {
    low in s.props && s.props[low] == prop && low in s.form && s.form[low] == data && UiOf(s, low) == ui
  }

  lemma PutHolds(s: Section, low: string, prop: SProperty, data: Form, widget: Option<string>, hidden: bool)
    requires low !in s.ui
    ensures Holds(Put(s, low, prop, data, widget, hidden), low, prop, data, Entry(widget, hidden))
  {
  }

  lemma PutKeeps(s: Section, low: string, prop: SProperty, data: Form, widget: Option<string>, hidden: bool,
                 n: string, prop': SProperty, data': Form, ui': Ui)
    requires n != low && Holds(s, n, prop', data', ui')
    ensures Holds(Put(s, low, prop, data, widget, hidden), n, prop', data', ui')
  {
  }

  function Home(f: Field): Place {
    if PlaceOf(f).PlainOption? then Options else PlaceOf(f)
  }

  lemma AddKeeps(env: Env, all: Sections, g: Field, place: Place, n: string, prop: SProperty, data: Form, ui: Ui)
    requires IsSection(place) && n != g.Low() && Holds(SectionOf(all, place), n, prop, data, ui)
    ensures Holds(SectionOf(AddField(env, all, g), place), n, prop, data, ui)
  {
    AddFieldSection(env, all, g, place);
    PutKeeps(SectionOf(all, place), g.Low(), PropertyOf(g), FormOf(env, g), WidgetOf(g), BecomesHidden(g),
             n, prop, data, ui);
  }

  lemma AddHolds(env: Env, all: Sections, f: Field)
    requires !PlaceOf(f).Nowhere? && f.Low() !in SectionOf(all, Home(f)).ui
    ensures Holds(SectionOf(AddField(env, all, f), Home(f)), f.Low(), PropertyOf(f), FormOf(env, f),
                  Entry(WidgetOf(f), BecomesHidden(f)))
  {
    AddFieldSection(env, all, f, Home(f));
    PutHolds(SectionOf(all, Home(f)), f.Low(), PropertyOf(f), FormOf(env, f), WidgetOf(f), BecomesHidden(f));
  }

  /** Every placed field stands in its section with exactly its own schema, form data and UI entry,
      whatever the other fields are. */
  lemma {:induction false} FieldEntry(env: Env, fields: seq<Field>, i: nat)
    requires DistinctNames(fields) && i < |fields| && !PlaceOf(fields[i]).Nowhere?
    ensures var f := fields[i];
            Holds(SectionOf(Generated(env, fields), Home(f)), f.Low(), PropertyOf(f), FormOf(env, f),
                  Entry(WidgetOf(f), BecomesHidden(f)))
    decreases |fields|
  {
    var last := |fields| - 1;
    var rest, f := fields[..last], fields[i];
    if i < last {
      assert rest[i] == f && f.Low() != fields[last].Low();
      FieldEntry(env, rest, i);
      AddKeeps(env, Generated(env, rest), fields[last], Home(f),
               f.Low(), PropertyOf(f), FormOf(env, f), Entry(WidgetOf(f), BecomesHidden(f)));
    } else {
      FreshName(env, fields);
      AddHolds(env, Generated(env, rest), f);
    }
  }

  lemma FreshName(env: Env, fields: seq<Field>)
    requires DistinctNames(fields) && fields != []
    ensures var last := |fields| - 1; var before := Generated(env, fields[..last]);
            fields[last].Low() !in before.input.ui && fields[last].Low() !in before.output.ui &&
            fields[last].Low() !in before.options.ui
  {
    var last := |fields| - 1;
    var n, rest := fields[last].Low(), fields[..last];
    ViewsAgree(env, rest, Input);
    ViewsAgree(env, rest, Output);
    ViewsAgree(env, rest, Options);
    if n in Names(rest, Input) { NamesComeFrom(rest, Input, n); }
    if n in Names(rest, Output) { NamesComeFrom(rest, Output, n); }
    if n in Names(rest, Options) { NamesComeFrom(rest, Options, n); }
  }

  /** A placed field ends hidden exactly when it is flagged hidden and is not a plain option, and being
      hidden never changes the widget family it was given. */
  lemma HiddenIff(env: Env, fields: seq<Field>, i: nat)
    requires DistinctNames(fields) && i < |fields| && !PlaceOf(fields[i]).Nowhere?
    ensures var f := fields[i]; var ui := UiOf(SectionOf(Generated(env, fields), Home(f)), f.Low());
            && (WIDGET in ui && ui[WIDGET] == "hidden" <==> f.Has("hidden") && !PlaceOf(f).PlainOption?)
            && (FIELD in ui <==> WidgetOf(f).Some?)
            && (FIELD in ui ==> ui[FIELD] == WidgetOf(f).value)
  {
    FieldEntry(env, fields, i);
    assert |FIELD| == 8 && |WIDGET| == 9;
  }

  /** A list in the schema: array fields, or an option variable with choices. */
  predicate ListShape(shape: Shape) { shape.ArrayShape? || shape.MultiShape? }

  /** Form data starts as a list only where the schema says list, and then exactly unless the field is
      an output, has a format outside the plain options, or is an option variable with choices that was
      tagged as an input. */
  lemma ListDataIff(env: Env, fields: seq<Field>, i: nat)
    requires DistinctNames(fields) && i < |fields| && !PlaceOf(fields[i]).Nowhere?
    ensures var f := fields[i]; var s, low := SectionOf(Generated(env, fields), Home(f)), f.Low();
            && low in s.form && low in s.props
            && (s.form[low].EmptyList? <==>
                  && ListShape(s.props[low].shape) && !PlaceOf(f).Output?
                  && (f.Has("format") ==> PlaceOf(f).PlainOption?)
                  && (s.props[low].shape.MultiShape? ==> !PlaceOf(f).Input?))
  {
    FieldEntry(env, fields, i);
  }

  /** A variable with neither format, array fields nor choices has the same form data in whichever
      section it stands: Custom and empty without a scope, its own lowered name when it is read from
      the message and has no name, and otherwise the scope and name of its tag. */
  lemma VariableData(env: Env, fields: seq<Field>, i: nat)
    requires DistinctNames(fields) && i < |fields| && fields[i].IsVar()
    requires !fields[i].Has("format") && !fields[i].Has("arrayFields") && !fields[i].IsEnum()
    ensures var f := fields[i]; var s, low := SectionOf(Generated(env, fields), Home(f)), f.Low();
            && !PlaceOf(f).Nowhere? && low in s.form
            && FIELD in UiOf(s, low) && UiOf(s, low)[FIELD] == "variable"
            && (!f.Has("scope") ==> s.form[low] == VarData("Custom", ""))
            && (f.Get("scope") == "Message" && !f.Has("name") ==> s.form[low] == VarData("Message", low))
            && (f.Has("scope") && f.Has("name") && !("b64:" <= f.Get("name")) ==>
                  s.form[low] == VarData(f.Get("scope"), f.Get("name")))
  {
    VariableStands(env, fields, i);
    ScopedCases(env, fields[i]);
  }

  lemma ScopedCases(env: Env, f: Field)
    requires f.IsVar()
    ensures !f.Has("scope") ==> ScopedName(env, f) == ("Custom", "")
    ensures f.Get("scope") == "Message" && !f.Has("name") ==> ScopedName(env, f) == ("Message", f.Low())
    ensures f.Has("scope") && f.Has("name") && !("b64:" <= f.Get("name")) ==>
              ScopedName(env, f) == (f.Get("scope"), f.Get("name"))
  {
  }

  lemma VariableStands(env: Env, fields: seq<Field>, i: nat)
    requires DistinctNames(fields) && i < |fields| && fields[i].IsVar()
    requires !fields[i].Has("format") && !fields[i].Has("arrayFields") && !fields[i].IsEnum()
    ensures var f := fields[i]; var s, low := SectionOf(Generated(env, fields), Home(f)), f.Low();
            var (scope, name) := ScopedName(env, f);
            && !PlaceOf(f).Nowhere? && low in s.form && s.form[low] == VarData(scope, name)
            && FIELD in UiOf(s, low) && UiOf(s, low)[FIELD] == "variable"
  {
    PlainVariable(env, fields[i]);
    FieldEntry(env, fields, i);
    assert |FIELD| == 8 && |WIDGET| == 9;
  }

  lemma PlainVariable(env: Env, f: Field)
    requires f.IsVar() && !f.Has("format") && !f.Has("arrayFields") && !f.IsEnum()
    ensures !PlaceOf(f).Nowhere? && !PlaceOf(f).PlainOption? && WidgetOf(f) == Some("variable")
    ensures var (scope, name) := ScopedName(env, f); FormOf(env, f) == VarData(scope, name)
  {
  }

  // ----- Which section, said on kinds and tags -----

  predicate IsInput(f: Field) { f.kind.InVar? || "input" in f.spec }

  predicate IsOutput(f: Field) { !IsInput(f) && (f.kind.OutVar? || "output" in f.spec) }

  predicate IsOption(f: Field) {
    && !IsInput(f) && !IsOutput(f)
    && (f.kind.OptVar? || f.kind.Credential? || ("enum" in f.spec && f.spec["enum"] != "") || "option" in f.spec)
  }

  lemma {:induction false} NamesHave(fields: seq<Field>, place: Place, i: nat)
    requires i < |fields| && In(fields[i], place)
    ensures fields[i].Low() in Names(fields, place)
    decreases |fields|
  {
    var last := |fields| - 1;
    if i < last {
      assert fields[..last][i] == fields[i];
      NamesHave(fields[..last], place, i);
    }
  }

  lemma NamesOnly(fields: seq<Field>, place: Place, i: nat)
    requires DistinctNames(fields) && i < |fields| && !In(fields[i], place)
    ensures fields[i].Low() !in Names(fields, place)
  {
    if fields[i].Low() in Names(fields, place) {
      NamesComeFrom(fields, place, fields[i].Low());
    }
  }

  lemma InSection(env: Env, fields: seq<Field>, i: nat, place: Place)
    requires DistinctNames(fields) && i < |fields| && IsSection(place)
    ensures fields[i].Low() in SectionOf(Generated(env, fields), place).order <==> In(fields[i], place)
  {
    ViewsAgree(env, fields, place);
    if In(fields[i], place) {
      NamesHave(fields, place, i);
    } else {
      NamesOnly(fields, place, i);
    }
  }

  /** An input variable or a field tagged input is in the input section; else an output variable or one
      tagged output in the output section; else an option variable, credential, enumeration or one tagged
      option among the options; and every other field in none. */
  lemma SectionIff(env: Env, fields: seq<Field>, i: nat)
    requires DistinctNames(fields) && i < |fields|
    ensures var all, low := Generated(env, fields), fields[i].Low();
            && (low in all.input.order <==> IsInput(fields[i]))
            && (low in all.output.order <==> IsOutput(fields[i]))
            && (low in all.options.order <==> IsOption(fields[i]))
  {
    InSection(env, fields, i, Input);
    InSection(env, fields, i, Output);
    InSection(env, fields, i, Options);
  }

  /** Lowering changes the first letter only, and only an ASCII capital, to its small letter. */
  lemma LowFirst(text: string)
    ensures |LowerFirstLetter(text)| == |text|
    ensures text != "" ==>
              && LowerFirstLetter(text)[1..] == text[1..]
              && (!('A' <= text[0] <= 'Z') ==> LowerFirstLetter(text) == text)
              && ('A' <= text[0] <= 'Z' ==>
                    'a' <= LowerFirstLetter(text)[0] <= 'z' && LowerFirstLetter(text)[0] - 'a' == text[0] - 'A')
  {}

  // ----- What each kind of field gets -----

  /** A schema entry carries the title, or the field's own name, and a shape by kind and tags. */
  lemma SchemaByTags(env: Env, fields: seq<Field>, i: nat)
    requires DistinctNames(fields) && i < |fields| && !PlaceOf(fields[i]).Nowhere?
    ensures var f := fields[i]; var s := SectionOf(Generated(env, fields), Home(f));
            && f.Low() in s.props
            && var p := s.props[f.Low()];
            && p.title == (if "title" in f.spec then f.spec["title"] else f.name)
            && (p.shape.ArrayShape? <==> "arrayFields" in f.spec)
            && ("arrayFields" !in f.spec ==>
                  && (p.shape.MultiShape? <==> f.kind.OptVar? && f.Get("enum") != "")
                  && (p.shape.VariableShape? <==> f.kind.InVar? || f.kind.OutVar? || (f.kind.OptVar? && f.Get("enum") == ""))
                  && (p.shape.CredentialShape? <==> f.kind.Credential?)
                  && (p.shape.EnumShape? <==> f.kind.Basic? && f.Get("enum") != "")
                  && (p.shape.PlainShape? <==> f.kind.Basic? && f.Get("enum") == ""))
  {
    FieldEntry(env, fields, i);
  }

  /** The name a tag gives, base64 decoded where it says so and can be. */
  lemma NameByTag(env: Env, f: Field)
    requires f.IsVar() ==> f.Has("scope")
    ensures var n := ScopedName(env, f).1;
            && ("name" in f.spec && !("b64:" <= f.spec["name"]) ==> n == f.spec["name"])
            && ("name" in f.spec && "b64:" <= f.spec["name"] && env.decode(f.spec["name"][4..]).Some? ==>
                  n == env.decode(f.spec["name"][4..]).value)
            && ("name" in f.spec && "b64:" <= f.spec["name"] && env.decode(f.spec["name"][4..]).None? ==> n == f.spec["name"])
            && ("name" !in f.spec ==> n == if f.IsVar() && f.Get("scope") == "Message" then f.Low() else "")
  {}

  /** Form data and widget of the fields that are not plain variables, by kind and tags. */
  lemma FormByTags(env: Env, f: Field)
    requires !PlaceOf(f).Nowhere?
    ensures var formatted := "format" in f.spec && !IsOutput(f) && !PlaceOf(f).PlainOption?;
            var listed := "arrayFields" in f.spec && !IsOutput(f);
            var (scope, name) := ScopedName(env, f);
            && (formatted ==> FormOf(env, f) == VarData(scope, name) && WidgetOf(f) == Some(f.spec["format"]))
            && (!formatted && listed && !PlaceOf(f).PlainOption? ==> FormOf(env, f) == EmptyList && WidgetOf(f) == Some("array"))
            && (IsOutput(f) && f.IsVar() ==> FormOf(env, f) == VarData(scope, name) && WidgetOf(f) == Some("variable"))
            && (!formatted && !listed && !IsInput(f) && !IsOutput(f) && f.kind.Credential? ==>
                  FormOf(env, f) == VaultPlaceholder && WidgetOf(f) == Some("vault"))
            && (!formatted && !listed && !IsInput(f) && !IsOutput(f) && f.kind.OptVar? && f.IsEnum() ==>
                  FormOf(env, f) == EmptyList && WidgetOf(f) == Some("multiSelectCheckbox"))
            && (!formatted && !listed && !IsInput(f) && !IsOutput(f) && f.kind.Basic? ==>
                  FormOf(env, f) == Text(env.parseValue(f, f.Get("value"))))
            && (!f.IsVar() && !formatted && !listed && (IsInput(f) || IsOutput(f)) ==> FormOf(env, f) == Text(name))
            && (!f.IsVar() && !f.kind.Credential? && !formatted && !listed ==>
                  WidgetOf(f) == if "description" in f.spec then Some("input") else None)
            && (PlaceOf(f).PlainOption? ==>
                  && FormOf(env, f) == (if listed then EmptyList else Text(env.parseValue(f, f.Get("value"))))
                  && WidgetOf(f) == if "description" in f.spec then Some("input") else if listed then Some("array") else None)
  {}
}

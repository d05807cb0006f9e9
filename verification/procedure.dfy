/**
 * Registration of plug-in procedures (`pygimplib/procedure.py`): the
 * procedure registry keyed by normalised name, the registry of parameter
 * properties shared between procedures, and what creating a registered
 * procedure does with its stored data. The GIMP side (the `Gimp.Procedure`
 * object and its setters) is recorded as a sequence of calls.
 */
module Procedure {
  import opened Base
  import opened Text

  /** `procedure.__name__.replace('_', '-')`. */
  function ProcName(functionName: string): (r: string)
    ensures |r| == |functionName|
    ensures '_' !in r
    ensures forall i | 0 <= i < |r| :: r[i] == (if functionName[i] == '_' then '-' else functionName[i])
  {
    ReplaceChar(functionName, '_', '-')
  }

  /** One element of an argument list as passed to `register_procedure`. */
  datatype ParamSpec =
    | DictParam(dictName: Option<string>, attributes: nat) // a dict; `attributes` stands for its other keys
    | NameParam(name: string)                             // a string naming an earlier dict
    | OtherParam                                          // any other element type

  /** An argument list as passed: absent, a list-like iterable, a string, or something not iterable. */
  datatype ParamList = NoParams | ParamItems(items: seq<ParamSpec>) | ParamString(s: string) | NotIterable

  /** A parameter property: its normalised name and the attributes it was created with. */
  datatype Property = Property(name: string, attributes: nat)

  datatype RegError =
    | NotAList                  // TypeError: not a list-like iterable
    | MissingName               // ValueError: a dict without "name"
    | UnknownName(name: string) // ValueError: a string naming no registered property
    | BadElement                // TypeError: neither a dict nor a string
    | MissingData               // KeyError: the entry was left incomplete by a failed registration
    | BadMenuPath               // TypeError: a menu path that is neither a string nor iterable
    | BadDocumentation          // ValueError: documentation of other than 2 or 3 elements

  /** The names of a list of named things, in list order. */
  function Names<T>(xs: seq<T>, nameOf: T -> string): (r: seq<string>)
    ensures |r| == |xs|
    ensures forall i | 0 <= i < |xs| :: r[i] == nameOf(xs[i])
  {
    if xs == [] then [] else [nameOf(xs[0])] + Names(xs[1..], nameOf)
  }

  /** The names of a property registry, in insertion order. */
  function PropNames(props: seq<Property>): seq<string> {
    Names(props, (p: Property) => p.name)
  }

  /** The property registered under `name`, if any. */
  function FindProp(props: seq<Property>, name: string): (r: Option<Property>)
    ensures r.Some? <==> name in PropNames(props)
    ensures r.Some? ==> r.value in props && r.value.name == name
  {
    if props == [] then None
    else if props[0].name == name then Some(props[0])
    else FindProp(props[1..], name)
  }

  /** The property registry and the names processed so far, with the error that stopped parsing. */
  datatype ParseOutcome = ParseOutcome(props: seq<Property>, result: Result<Option<seq<string>>, RegError>)

  predicate IsPrefix<T(==)>(a: seq<T>, b: seq<T>) {
    |a| <= |b| && b[..|a|] == a
  }

  lemma PrefixTrans<T>(a: seq<T>, b: seq<T>, c: seq<T>)
    requires IsPrefix(a, b) && IsPrefix(b, c)
    ensures IsPrefix(a, c)
  {
    assert c[..|a|] == c[..|b|][..|a|];
  }

  /** `b` is `a` with properties appended whose names are normalised. */
  predicate Extends(a: seq<Property>, b: seq<Property>) {
    IsPrefix(a, b) && forall k | |a| <= k < |b| :: '_' !in b[k].name
  }

  lemma ExtendsTrans(a: seq<Property>, b: seq<Property>, c: seq<Property>)
    requires Extends(a, b) && Extends(b, c)
    ensures Extends(a, c)
  {
    assert c[..|a|] == c[..|b|][..|a|];
  }

  /** A dict's property is defined only when its name is new. */
  function DefineIfNew(props: seq<Property>, name: string, attributes: nat): (r: seq<Property>)
    requires '_' !in name
    ensures Extends(props, r)
    ensures FindProp(props, name).Some? ==> r == props
    ensures name in PropNames(r)
  {
    if FindProp(props, name).Some? then props
    else
      assert PropNames(props + [Property(name, attributes)])[|props|] == name;
      props + [Property(name, attributes)]
  }

  /**
   * The loop of `_parse_and_check_parameters` from `items`, with `names`
   * already processed. A dict defines its property only when the name is
   * new; a later dict or string with the same name reuses the first one. The
   * processed names keep the position of their first occurrence, and the
   * registry keeps what was added before an error.
   */
  function ParseItems(props: seq<Property>, items: seq<ParamSpec>, names: seq<string>): (r: ParseOutcome)
    ensures Extends(props, r.props)
    ensures r.result.Ok? ==> r.result.value.Some? && IsPrefix(names, r.result.value.value)
    decreases |items|
  {
    if items == [] then ParseOutcome(props, Ok(Some(names)))
    else
      match items[0]
      case OtherParam => ParseOutcome(props, Err(BadElement))
      case DictParam(None, _) => ParseOutcome(props, Err(MissingName))
      case DictParam(Some(raw), attributes) =>
        var name := ProcName(raw);
        var props' := DefineIfNew(props, name, attributes);
        var o := ParseItems(props', items[1..], AddName(names, name));
        ExtendsTrans(props, props', o.props);
        OutcomeKeepsPrefix(names, AddName(names, name), o);
        o
      case NameParam(raw) =>
        var name := ProcName(raw);
        if FindProp(props, name).None? then ParseOutcome(props, Err(UnknownName(name)))
        else
          var o := ParseItems(props, items[1..], AddName(names, name));
          OutcomeKeepsPrefix(names, AddName(names, name), o);
          o
  }

  lemma OutcomeKeepsPrefix(names: seq<string>, mid: seq<string>, o: ParseOutcome)
    requires IsPrefix(names, mid)
    requires o.result.Ok? ==> o.result.value.Some? && IsPrefix(mid, o.result.value.value)
    ensures o.result.Ok? ==> o.result.value.Some? && IsPrefix(names, o.result.value.value)
  {
    if o.result.Ok? {
      PrefixTrans(names, mid, o.result.value.value);
    }
  }

  /** Every processed name refers to a registered property. */
  lemma {:induction false} ProcessedNamesRegistered(props: seq<Property>, items: seq<ParamSpec>, names: seq<string>)
    requires forall n | n in names :: n in PropNames(props)
    ensures var r := ParseItems(props, items, names);
            r.result.Ok? ==> forall n | n in r.result.value.value :: n in PropNames(r.props)
    decreases |items|
  {
    if items != [] {
      match items[0]
      case OtherParam =>
      case DictParam(None, _) =>
      case DictParam(Some(raw), attributes) =>
        var name := ProcName(raw);
        var props' := DefineIfNew(props, name, attributes);
        PrefixKeepsNames(props, props');
        ProcessedNamesRegistered(props', items[1..], AddName(names, name));
      case NameParam(raw) =>
        if FindProp(props, ProcName(raw)).Some? {
          ProcessedNamesRegistered(props, items[1..], AddName(names, ProcName(raw)));
        }
    }
  }

  /** A list made only of dicts with names never fails. */
  lemma {:induction false} NamedDictsParse(props: seq<Property>, items: seq<ParamSpec>, names: seq<string>)
    requires forall i | 0 <= i < |items| :: items[i].DictParam? && items[i].dictName.Some?
    ensures ParseItems(props, items, names).result.Ok?
    decreases |items|
  {
    if items != [] {
      var raw := items[0].dictName.value;
      var name := ProcName(raw);
      var props' := DefineIfNew(props, name, items[0].attributes);
      assert forall i | 0 <= i < |items| - 1 :: items[1..][i] == items[i + 1];
      NamedDictsParse(props', items[1..], AddName(names, name));
    }
  }

  lemma PrefixKeepsNames(a: seq<Property>, b: seq<Property>)
    requires IsPrefix(a, b)
    ensures forall n | n in PropNames(a) :: n in PropNames(b)
  {
    forall n | n in PropNames(a)
      ensures n in PropNames(b)
    {
      var i :| 0 <= i < |a| && PropNames(a)[i] == n;
      assert b[i] == a[i];
    }
  }

  /** Assigning a key of a Python dict: a new key goes last, an existing one keeps its place. */
  function AddName(names: seq<string>, name: string): (r: seq<string>)
    ensures name in r && IsPrefix(names, r)
    ensures name in names ==> r == names
  {
    if name in names then names else names + [name]
  }

  /** `_parse_and_check_parameters`. */
  function ParseParameters(props: seq<Property>, params: ParamList): (r: ParseOutcome)
    ensures params.NoParams? ==> r == ParseOutcome(props, Ok(None))
    ensures params.ParamString? || params.NotIterable? ==> r == ParseOutcome(props, Err(NotAList))
    ensures IsPrefix(props, r.props)
  {
    match params
    case NoParams => ParseOutcome(props, Ok(None))
    case ParamString(_) => ParseOutcome(props, Err(NotAList))
    case NotIterable => ParseOutcome(props, Err(NotAList))
    case ParamItems(items) => ParseItems(props, items, [])
  }

  /** A dict with a new name defines its property, normalised, at the end of the registry. */
  lemma DefineNew(props: seq<Property>, raw: string, a: nat)
    requires FindProp(props, ProcName(raw)).None?
    ensures ParseParameters(props, ParamItems([DictParam(Some(raw), a)]))
            == ParseOutcome(props + [Property(ProcName(raw), a)], Ok(Some([ProcName(raw)])))
  {
    var name := ProcName(raw);
    assert [DictParam(Some(raw), a)][1..] == [];
    assert AddName([], name) == [name];
    assert ParseItems(props + [Property(name, a)], [], [name]) == ParseOutcome(props + [Property(name, a)], Ok(Some([name])));
  }

  /** A dict whose name is already registered leaves the first definition in place. */
  lemma RedefineKeepsFirst(props: seq<Property>, raw: string, a: nat)
    requires FindProp(props, ProcName(raw)).Some?
    ensures ParseParameters(props, ParamItems([DictParam(Some(raw), a)])) == ParseOutcome(props, Ok(Some([ProcName(raw)])))
  {
    var name := ProcName(raw);
    assert [DictParam(Some(raw), a)][1..] == [];
    assert AddName([], name) == [name];
    assert ParseItems(props, [], [name]) == ParseOutcome(props, Ok(Some([name])));
  }

  /** A string is accepted exactly when a dict defined its name before. */
  lemma NameReuses(props: seq<Property>, raw: string)
    ensures FindProp(props, ProcName(raw)).Some? ==>
              ParseParameters(props, ParamItems([NameParam(raw)])) == ParseOutcome(props, Ok(Some([ProcName(raw)])))
    ensures FindProp(props, ProcName(raw)).None? ==>
              ParseParameters(props, ParamItems([NameParam(raw)])) == ParseOutcome(props, Err(UnknownName(ProcName(raw))))
  {
    var name := ProcName(raw);
    assert [NameParam(raw)][1..] == [];
    assert AddName([], name) == [name];
    assert ParseItems(props, [], [name]) == ParseOutcome(props, Ok(Some([name])));
  }

  /**
   * First definition wins: after a dict defines a name, a second dict with
   * that name changes nothing, and the bare name is accepted.
   */
  lemma FirstDefinitionWins(props: seq<Property>, raw: string, a1: nat, a2: nat)
    requires FindProp(props, ProcName(raw)).None?
    ensures var first := ParseParameters(props, ParamItems([DictParam(Some(raw), a1)])).props;
            && FindProp(first, ProcName(raw)) == Some(Property(ProcName(raw), a1))
            && ParseParameters(first, ParamItems([DictParam(Some(raw), a2)])).props == first
            && ParseParameters(first, ParamItems([NameParam(raw)])).result.Ok?
  {
    var name := ProcName(raw);
    DefineNew(props, raw, a1);
    var first := props + [Property(name, a1)];
    FindAppended(props, Property(name, a1));
    RedefineKeepsFirst(first, raw, a2);
    NameReuses(first, raw);
  }

  lemma {:induction false} FindAppended(props: seq<Property>, p: Property)
    requires FindProp(props, p.name).None?
    ensures FindProp(props + [p], p.name) == Some(p)
  {
    if props != [] {
      assert (props + [p])[1..] == props[1..] + [p];
      FindAppended(props[1..], p);
    }
  }

  // ---------------------------------------------------------------------
  // The procedure registry

  /** A menu path as passed: absent, one string, a list of strings, or something else. */
  datatype MenuPath = NoMenuPath | PathString(path: string) | PathList(paths: seq<string>) | PathOther

  /** What `register_procedure` stores for a procedure. */
  datatype ProcData =
    | Incomplete   // a registration that raised part-way; `run_data` was never stored
    | Complete(
        arguments: Option<seq<string>>,
        returnValues: Option<seq<string>>,
        auxiliaryArguments: Option<seq<string>>,
        menuLabel: Option<string>,
        menuPath: MenuPath,
        imageTypes: Option<string>,
        documentation: Option<seq<string>>,
        attribution: Option<seq<string>>,
        argumentSync: Option<nat>,
        additionalInit: Option<nat>)

  datatype Entry = Entry(name: string, data: ProcData)

  /** `_PROCEDURE_NAMES_AND_DATA`, `_PLUGIN_PROPERTIES` and `_USE_LOCALE`. */
  datatype Registry = Registry(procedures: seq<Entry>, props: seq<Property>, useLocale: bool)

  /** The names of the registered procedures, in registration order. */
  function EntryNames(entries: seq<Entry>): seq<string> {
    Names(entries, (e: Entry) => e.name)
  }

  /** Python's `d[name] = data`: replaced in place when present, appended otherwise. */
  function Put(entries: seq<Entry>, name: string, data: ProcData): (r: seq<Entry>)
    ensures name in EntryNames(entries) ==> EntryNames(r) == EntryNames(entries)
    ensures name !in EntryNames(entries) ==> EntryNames(r) == EntryNames(entries) + [name]
    ensures Lookup(r, name) == Some(data)
    ensures forall n | n != name :: Lookup(r, n) == Lookup(entries, n)
  {
    if entries == [] then [Entry(name, data)]
    else if entries[0].name == name then [Entry(name, data)] + entries[1..]
    else [entries[0]] + Put(entries[1..], name, data)
  }

  /** The data stored under `name`, if any (the first entry with that name). */
  function Lookup(entries: seq<Entry>, name: string): (r: Option<ProcData>)
    ensures r.Some? <==> name in EntryNames(entries)
  {
    if entries == [] then None
    else if entries[0].name == name then Some(entries[0].data)
    else Lookup(entries[1..], name)
  }

  /** What a call to `register_procedure` passes. */
  datatype Registration = Registration(
    functionName: string,
    arguments: ParamList,
    returnValues: ParamList,
    auxiliaryArguments: ParamList,
    menuLabel: Option<string>,
    menuPath: MenuPath,
    imageTypes: Option<string>,
    documentation: Option<seq<string>>,
    attribution: Option<seq<string>>,
    argumentSync: Option<nat>,
    additionalInit: Option<nat>)

  /**
   * `register_procedure`: the entry is (re)set before the parameter lists
   * are parsed, so a registration that raises leaves its name registered
   * with incomplete data, and keeps the properties defined before the error.
   */
  function RegisterProcedure(reg: Registry, p: Registration): (r: (Registry, Option<RegError>))
    ensures EntryNames(r.0.procedures) == AddName(EntryNames(reg.procedures), ProcName(p.functionName))
    ensures forall n | n != ProcName(p.functionName) :: Lookup(r.0.procedures, n) == Lookup(reg.procedures, n)
    ensures IsPrefix(reg.props, r.0.props) && r.0.useLocale == reg.useLocale
    ensures r.1.None? <==> Lookup(r.0.procedures, ProcName(p.functionName)).value.Complete?
    ensures r.1.None? ==>
              var d := Lookup(r.0.procedures, ProcName(p.functionName)).value;
              && d.menuLabel == p.menuLabel && d.menuPath == p.menuPath && d.documentation == p.documentation
              && d.imageTypes == p.imageTypes && d.attribution == p.attribution
  {
    var name := ProcName(p.functionName);
    var pending := Put(reg.procedures, name, Incomplete);
    // Each list is parsed only when the ones before it succeeded.
    var a := ParseParameters(reg.props, p.arguments);
    var rv := if a.result.Err? then a else ParseParameters(a.props, p.returnValues);
    var aux := if rv.result.Err? then rv else ParseParameters(rv.props, p.auxiliaryArguments);
    PrefixTrans(reg.props, a.props, rv.props);
    PrefixTrans(reg.props, rv.props, aux.props);
    if aux.result.Err? then (Registry(pending, aux.props, reg.useLocale), Some(aux.result.error))
    else
      var data := Complete(a.result.value, rv.result.value, aux.result.value, p.menuLabel, p.menuPath,
                           p.imageTypes, p.documentation, p.attribution, p.argumentSync, p.additionalInit);
      (Registry(Put(pending, name, data), aux.props, reg.useLocale), None)
  }


  /** `_do_query_procedures`: the registered names in the order they were first registered. */
  function QueryProcedures(reg: Registry): (r: seq<string>)
    ensures forall n :: n in r <==> Lookup(reg.procedures, n).Some?
  {
    EntryNames(reg.procedures)
  }

  /** Registering a name again keeps its place in the query and replaces what is stored. */
  lemma ReregisterReplaces(reg: Registry, p: Registration, q: Registration)
    requires ProcName(p.functionName) == ProcName(q.functionName)
    ensures var r1 := RegisterProcedure(reg, p).0;
            var r2 := RegisterProcedure(r1, q).0;
            && QueryProcedures(r2) == QueryProcedures(r1)
            && (RegisterProcedure(r1, q).1.None? ==>
                  Lookup(r2.procedures, ProcName(q.functionName)).value.menuPath == q.menuPath)
  {
    var name := ProcName(p.functionName);
    var r1 := RegisterProcedure(reg, p).0;
    assert name in EntryNames(r1.procedures);
  }

  /** What creating a procedure does to the new `Gimp.Procedure`, in order. */
  datatype Call =
    | AddArgument(name: string)
    | AddReturnValue(name: string)
    | AddAuxArgument(name: string)
    | SetMenuLabel(menuLabel: string)
    | AddMenuPath(path: string)
    | SetImageTypes(types: string)
    | SetDocumentation(blurb: string, help: string, helpId: string)
    | SetAttribution(parts: seq<string>)
    | SetArgumentSync(sync: nat)
    | AdditionalInit(id: nat)

  /** Which parameter list a property is added from. */
  datatype ParamKind = ArgumentKind | ReturnValueKind | AuxArgumentKind

  function ParamCall(kind: ParamKind, name: string): Call {
    match kind
    case ArgumentKind => AddArgument(name)
    case ReturnValueKind => AddReturnValue(name)
    case AuxArgumentKind => AddAuxArgument(name)
  }

  /** One call per processed parameter name, in order; none when the list was absent. */
  function ParamCalls(names: Option<seq<string>>, kind: ParamKind): (r: seq<Call>)
    ensures names.None? ==> r == []
    ensures names.Some? ==> |r| == |names.value| && forall i | 0 <= i < |r| :: r[i] == ParamCall(kind, names.value[i])
  {
    if names.None? then [] else seq(|names.value|, i requires 0 <= i < |names.value| => ParamCall(kind, names.value[i]))
  }

  /** The menu-path calls: one for a string, one per entry of a list, an error otherwise. */
  function MenuPathCalls(m: MenuPath): (r: Result<seq<Call>, RegError>)
    ensures r.Err? <==> m.PathOther?
    ensures m.NoMenuPath? ==> r == Ok([])
    ensures m.PathString? ==> r == Ok([AddMenuPath(m.path)])
    ensures m.PathList? ==> r.Ok? && |r.value| == |m.paths| && forall i | 0 <= i < |m.paths| :: r.value[i] == AddMenuPath(m.paths[i])
  {
    match m
    case NoMenuPath => Ok([])
    case PathString(path) => Ok([AddMenuPath(path)])
    case PathList(paths) => Ok(seq(|paths|, i requires 0 <= i < |paths| => AddMenuPath(paths[i])))
    case PathOther => Err(BadMenuPath)
  }

  /** The documentation call: a pair gets the procedure name as help ID, a triple is used as is. */
  function DocumentationCall(name: string, doc: Option<seq<string>>): (r: Result<seq<Call>, RegError>)
    ensures r.Err? <==> doc.Some? && |doc.value| != 2 && |doc.value| != 3
    ensures doc.None? ==> r == Ok([])
    ensures doc.Some? && |doc.value| == 2 ==> r == Ok([SetDocumentation(doc.value[0], doc.value[1], name)])
    ensures doc.Some? && |doc.value| == 3 ==> r == Ok([SetDocumentation(doc.value[0], doc.value[1], doc.value[2])])
  {
    if doc.None? then Ok([])
    else if |doc.value| == 2 then Ok([SetDocumentation(doc.value[0], doc.value[1], name)])
    else if |doc.value| == 3 then Ok([SetDocumentation(doc.value[0], doc.value[1], doc.value[2])])
    else Err(BadDocumentation)
  }

  /** The calls made after the documentation. */
  function TailCalls(d: ProcData): seq<Call>
    requires d.Complete?
  {
    (if d.attribution.Some? then [SetAttribution(d.attribution.value)] else [])
    + (if d.argumentSync.Some? then [SetArgumentSync(d.argumentSync.value)] else [])
    + (if d.additionalInit.Some? then [AdditionalInit(d.additionalInit.value)] else [])
  }

  /**
   * `_do_create_procedure`: `None` for an unknown name; otherwise the calls
   * made on the new procedure. The menu path is checked before the
   * documentation, and either error ends the creation.
   */
  function CreateProcedure(reg: Registry, name: string): (r: Result<Option<seq<Call>>, RegError>)
    ensures Lookup(reg.procedures, name).None? <==> r == Ok(None)
    ensures r == Err(MissingData) <==> Lookup(reg.procedures, name) == Some(Incomplete)
    ensures Lookup(reg.procedures, name).Some? && Lookup(reg.procedures, name).value.Complete? ==>
              var d := Lookup(reg.procedures, name).value;
              && (r == Err(BadMenuPath) <==> d.menuPath.PathOther?)
              && (r == Err(BadDocumentation) <==> !d.menuPath.PathOther? && DocumentationCall(name, d.documentation).Err?)
              && (r.Ok? ==>
                    && r.value.Some?
                    && IsPrefix(ParamCalls(d.arguments, ArgumentKind), r.value.value)
                    && (forall c | c in MenuPathCalls(d.menuPath).value :: c in r.value.value)
                    && (forall c | c in DocumentationCall(name, d.documentation).value :: c in r.value.value))
  {
    match Lookup(reg.procedures, name)
    case None => Ok(None)
    case Some(Incomplete) => Err(MissingData)
    case Some(d) =>
      match MenuPathCalls(d.menuPath)
      case Err(e) => Err(e)
      case Ok(paths) =>
        match DocumentationCall(name, d.documentation)
        case Err(e) => Err(e)
        case Ok(doc) =>
          var args := ParamCalls(d.arguments, ArgumentKind);
          var afterArgs := ParamCalls(d.returnValues, ReturnValueKind) + ParamCalls(d.auxiliaryArguments, AuxArgumentKind)
                           + (if d.menuLabel.Some? then [SetMenuLabel(d.menuLabel.value)] else []);
          var middle := paths + (if d.imageTypes.Some? then [SetImageTypes(d.imageTypes.value)] else []);
          var calls := args + (afterArgs + (middle + (doc + TailCalls(d))));
          assert calls[..|args|] == args;
          assert forall c | c in paths :: c in middle;
          Ok(Some(calls))
  }

  /** A registration that fails leaves a name the plug-in reports but cannot create. */
  lemma FailedRegistrationIsQueriedButNotCreated(reg: Registry, p: Registration)
    requires RegisterProcedure(reg, p).1.Some?
    ensures var r := RegisterProcedure(reg, p).0;
            ProcName(p.functionName) in QueryProcedures(r)
            && CreateProcedure(r, ProcName(p.functionName)) == Err(MissingData)
  {
  }

  /** Python truthiness for the values `set_use_locale` is given. */
  datatype PyValue = PyNone | PyBool(b: bool) | PyInt(i: int) | PyStr(s: string)

  function Truthy(v: PyValue): bool {
    match v
    case PyNone => false
    case PyBool(b) => b
    case PyInt(i) => i != 0
    case PyStr(s) => s != ""
  }

  /** `set_use_locale`: the flag becomes `bool(enabled)`. */
  function SetUseLocale(reg: Registry, enabled: PyValue): (r: Registry)
    ensures r.useLocale <==> Truthy(enabled)
    ensures r.procedures == reg.procedures && r.props == reg.props
  {
    reg.(useLocale := Truthy(enabled))
  }

  /** The attributes of the plug-in class `_create_plugin_class` builds. */
  datatype PluginClass = PluginClass(propertyAttributes: seq<string>, definesSetI18n: bool)

  /** `_create_plugin_class`: one attribute per property, with '-' turned into '_', and `do_set_i18n` only without locale. */
  function CreatePluginClass(reg: Registry): (r: PluginClass)
    ensures r.definesSetI18n <==> !reg.useLocale
    ensures |r.propertyAttributes| == |reg.props|
    ensures forall i | 0 <= i < |reg.props| :: r.propertyAttributes[i] == ReplaceChar(reg.props[i].name, '-', '_')
  {
    PluginClass(seq(|reg.props|, i requires 0 <= i < |reg.props| => ReplaceChar(reg.props[i].name, '-', '_')),
                !reg.useLocale)
  }

  /** Enabling locale with any truthy value removes the `do_set_i18n` override; a falsy one installs it. */
  lemma LocaleDecidesI18n(reg: Registry, enabled: PyValue)
    ensures CreatePluginClass(SetUseLocale(reg, enabled)).definesSetI18n <==> !Truthy(enabled)
  {
  }
}

/**
 * Turning settings into PDB parameters and back
 * (`pygimplib.setting.pdbparams`) as its tests state it: `create_params`,
 * `iter_args` and `list_param_values`. Groups contribute their settings in
 * walk order.
 */
module PdbParams {
  import opened Base
  import opened Text
  import opened SettingGroup

  /** What `create_params` is given: a setting or group, or anything else (such as a list). */
  datatype ParamInput = Entry(node: Node) | NotASetting

  /** A PDB parameter: the one a setting registers, or the length parameter an array setting puts before its own. */
  datatype Param = Param(pdbType: PdbType, pdbName: string, description: string) | ArrayLength(arrayName: string)

  datatype ParamError = TypeError

  /** The name a setting registers under: its name with '_' replaced by '-'. */
  function PdbName(setting: Node): (r: string)
    ensures |r| == |setting.name| && '_' !in r
    ensures forall i | 0 <= i < |r| :: r[i] == (if setting.name[i] == '_' then '-' else setting.name[i])
  {
    ReplaceChar(setting.name, '_', '-')
  }

  /** The settings a setting or group stands for, in walk order. */
  function Flatten(node: Node): (r: seq<Node>)
    ensures forall k | 0 <= k < |r| :: r[k].Setting?
    ensures node.Setting? ==> r == [node]
  {
    if node.Setting? then [node] else Settings(node.children)
  }

  /** The settings of all inputs, or an error for the first input that is not a setting or group. */
  function FlattenInputs(inputs: seq<ParamInput>): (r: Result<seq<Node>, ParamError>)
    ensures r.Ok? <==> forall k | 0 <= k < |inputs| :: inputs[k].Entry?
    ensures r.Ok? ==> forall k | 0 <= k < |r.value| :: r.value[k].Setting?
  {
    if inputs == [] then Ok([])
    else if inputs[0].NotASetting? then Err(TypeError)
    else
      match FlattenInputs(inputs[1..])
      case Err(e) => Err(e)
      case Ok(rest) => Ok(Flatten(inputs[0].node) + rest)
  }

  /** The parameters one setting registers: none without a PDB type, a length parameter first for arrays. */
  function SettingParams(s: Node): (r: seq<Param>)
    requires s.Setting?
    ensures s.pdbType.None? ==> r == []
    ensures s.pdbType.Some? && !s.isArray ==> r == [Param(s.pdbType.value, PdbName(s), s.description)]
    ensures s.pdbType.Some? && s.isArray ==> r == [ArrayLength(PdbName(s)), Param(s.pdbType.value, PdbName(s), s.description)]
  {
    match s.pdbType
    case None => []
    case Some(t) =>
      var own := Param(t, PdbName(s), s.description);
      if s.isArray then [ArrayLength(PdbName(s)), own] else [own]
  }

  function ParamsOf(settings: seq<Node>): (r: seq<Param>)
    requires forall k | 0 <= k < |settings| :: settings[k].Setting?
  {
    if settings == [] then [] else SettingParams(settings[0]) + ParamsOf(settings[1..])
  }

  /** `create_params`. */
  function CreateParams(inputs: seq<ParamInput>): (r: Result<seq<Param>, ParamError>)
    ensures r.Err? <==> exists k | 0 <= k < |inputs| :: inputs[k].NotASetting?
    ensures r.Ok? ==> r.value == ParamsOf(FlattenInputs(inputs).value)
  {
    match FlattenInputs(inputs)
    case Err(e) => Err(e)
    case Ok(settings) => Ok(ParamsOf(settings))
  }

  /** The settings that can be registered, in order. */
  function Registrable(settings: seq<Node>): (r: seq<Node>)
    requires forall k | 0 <= k < |settings| :: settings[k].Setting?
    ensures forall k | 0 <= k < |r| :: r[k].Setting? && r[k].pdbType.Some? && r[k] in settings
  {
    if settings == [] then []
    else (if settings[0].pdbType.Some? then [settings[0]] else []) + Registrable(settings[1..])
  }

  /** The parameters other than array lengths. */
  function OwnParams(params: seq<Param>): (r: seq<Param>)
    ensures forall k | 0 <= k < |r| :: r[k].Param?
  {
    if params == [] then []
    else (if params[0].Param? then [params[0]] else []) + OwnParams(params[1..])
  }

  lemma OwnParamsAppend(a: seq<Param>, b: seq<Param>)
    ensures OwnParams(a + b) == OwnParams(a) + OwnParams(b)
  {
    if a == [] {
      assert a + b == b;
    } else {
      assert (a + b)[0] == a[0] && (a + b)[1..] == a[1..] + b;
      OwnParamsAppend(a[1..], b);
    }
  }

  /** The parameter each registrable setting contributes of its own. */
  function OwnParamsOf(settings: seq<Node>): (r: seq<Param>)
    requires forall k | 0 <= k < |settings| :: settings[k].Setting? && settings[k].pdbType.Some?
    ensures |r| == |settings|
    ensures forall k | 0 <= k < |r| ::
              r[k] == Param(settings[k].pdbType.value, PdbName(settings[k]), settings[k].description)
  {
    if settings == [] then []
    else [Param(settings[0].pdbType.value, PdbName(settings[0]), settings[0].description)] + OwnParamsOf(settings[1..])
  }

  /**
   * Apart from array lengths, the parameters are one per registrable setting,
   * in order, each with the setting's type, PDB name and description.
   */
  lemma {:induction false} ParamsFollowSettings(settings: seq<Node>)
    requires forall k | 0 <= k < |settings| :: settings[k].Setting?
    ensures OwnParams(ParamsOf(settings)) == OwnParamsOf(Registrable(settings))
  {
    if settings != [] {
      var s := settings[0];
      ParamsFollowSettings(settings[1..]);
      OwnParamsAppend(SettingParams(s), ParamsOf(settings[1..]));
      var head := if s.pdbType.Some? then [s] else [];
      assert Registrable(settings) == head + Registrable(settings[1..]);
      OwnParamsOfAppend(head, Registrable(settings[1..]));
      if s.pdbType.Some? && s.isArray {
        assert OwnParams(SettingParams(s)) == OwnParams([Param(s.pdbType.value, PdbName(s), s.description)]);
      }
    }
  }

  lemma OwnParamsOfAppend(a: seq<Node>, b: seq<Node>)
    requires forall k | 0 <= k < |a| :: a[k].Setting? && a[k].pdbType.Some?
    requires forall k | 0 <= k < |b| :: b[k].Setting? && b[k].pdbType.Some?
    ensures OwnParamsOf(a + b) == OwnParamsOf(a) + OwnParamsOf(b)
  {
    var ab := a + b;
    assert forall k | 0 <= k < |ab| :: ab[k].Setting? && ab[k].pdbType.Some?;
    var l, r := OwnParamsOf(ab), OwnParamsOf(a) + OwnParamsOf(b);
    assert |l| == |r|;
    forall k | 0 <= k < |l|
      ensures l[k] == r[k]
    {
      if k < |a| {
        assert ab[k] == a[k];
      } else {
        assert ab[k] == b[k - |a|];
      }
    }
  }

  /** Every array length parameter sits just before the parameter of the array it counts. */
  predicate LengthsPrecedeArrays(ps: seq<Param>) {
    forall k | 0 <= k < |ps| && ps[k].ArrayLength? ::
      k + 1 < |ps| && ps[k + 1].Param? && ps[k + 1].pdbName == ps[k].arrayName
  }

  lemma {:induction false} LengthBeforeArray(settings: seq<Node>)
    requires forall k | 0 <= k < |settings| :: settings[k].Setting?
    ensures LengthsPrecedeArrays(ParamsOf(settings))
  {
    if settings != [] {
      LengthBeforeArray(settings[1..]);
      var head := SettingParams(settings[0]);
      var rest := ParamsOf(settings[1..]);
      var ps := head + rest;
      assert ParamsOf(settings) == ps;
      forall k | 0 <= k < |ps| && ps[k].ArrayLength?
        ensures k + 1 < |ps| && ps[k + 1].Param? && ps[k + 1].pdbName == ps[k].arrayName
      {
        if k < |head| {
          assert k == 0 && ps[1] == head[1];
        } else {
          var j := k - |head|;
          assert ps[k] == rest[j];
          assert rest[j].ArrayLength?;
          assert j + 1 < |rest| && rest[j + 1].Param? && rest[j + 1].pdbName == rest[j].arrayName;
          assert ps[k + 1] == rest[j + 1];
        }
      }
    }
  }

  /**
   * `iter_args`: the arguments that go to the settings, one per setting in
   * order; for an array setting the length argument before it is consumed
   * and not passed on. Extra arguments or settings are ignored.
   */
  function IterArgs(args: seq<Value>, settings: seq<Node>): (r: seq<Value>)
    ensures |r| <= |args| && |r| <= |settings|
    decreases |settings|
  {
    if args == [] || settings == [] then []
    else if settings[0].Setting? && settings[0].isArray then
      if |args| >= 2 then [args[1]] + IterArgs(args[2..], settings[1..]) else []
    else [args[0]] + IterArgs(args[1..], settings[1..])
  }

  predicate NoArrays(settings: seq<Node>) {
    forall k | 0 <= k < |settings| :: !(settings[k].Setting? && settings[k].isArray)
  }

  /** Without array settings the arguments pass through, as many as there are settings. */
  lemma {:induction false} IterArgsWithoutArrays(args: seq<Value>, settings: seq<Node>)
    requires NoArrays(settings)
    ensures IterArgs(args, settings) == args[..Min(|args|, |settings|)]
    decreases |settings|
  {
    if args != [] && settings != [] {
      assert NoArrays(settings[1..]) by {
        forall k | 0 <= k < |settings[1..]|
          ensures !(settings[1..][k].Setting? && settings[1..][k].isArray)
        {
          assert settings[1..][k] == settings[k + 1];
        }
      }
      IterArgsWithoutArrays(args[1..], settings[1..]);
      assert args[..Min(|args|, |settings|)] == [args[0]] + args[1..][..Min(|args| - 1, |settings| - 1)];
    }
  }

  /** An array setting after the others: its length argument is skipped and its array passed. */
  lemma {:induction false} IterArgsSkipsLength(args: seq<Value>, settings: seq<Node>, len: Value, arr: Value, arraySetting: Node)
    requires NoArrays(settings) && |args| == |settings|
    requires arraySetting.Setting? && arraySetting.isArray
    ensures IterArgs(args + [len, arr], settings + [arraySetting]) == args + [arr]
    decreases |settings|
  {
    if settings == [] {
      assert args + [len, arr] == [len, arr];
      assert settings + [arraySetting] == [arraySetting];
      assert [len, arr][2..] == [];
    } else {
      assert (args + [len, arr])[1..] == args[1..] + [len, arr];
      assert (settings + [arraySetting])[1..] == settings[1..] + [arraySetting];
      assert (settings + [arraySetting])[0] == settings[0];
      assert NoArrays(settings[1..]) by {
        forall k | 0 <= k < |settings[1..]|
          ensures !(settings[1..][k].Setting? && settings[1..][k].isArray)
        {
          assert settings[1..][k] == settings[k + 1];
        }
      }
      IterArgsSkipsLength(args[1..], settings[1..], len, arr, arraySetting);
    }
  }

  function ValuesOf(settings: seq<Node>): (r: seq<Value>)
    requires forall k | 0 <= k < |settings| :: settings[k].Setting?
    ensures |r| == |settings|
    ensures forall k | 0 <= k < |r| :: r[k] == settings[k].value
  {
    if settings == [] then [] else [settings[0].value] + ValuesOf(settings[1..])
  }

  /** The settings whose values are listed: all of them, except a leading `run_mode`. */
  function ListedSettings(settings: seq<Node>): (r: seq<Node>)
    ensures settings != [] && settings[0].name == "run_mode" ==> r == settings[1..]
    ensures !(settings != [] && settings[0].name == "run_mode") ==> r == settings
  {
    if settings != [] && settings[0].name == "run_mode" then settings[1..] else settings
  }

  /**
   * `list_param_values`: the values of the settings of the given settings and
   * groups, in walk order, without the value of a leading `run_mode` setting.
   */
  function ListParamValues(nodes: seq<Node>): (r: seq<Value>)
    ensures var all := FlattenInputs(EntriesOf(nodes));
            && all.Ok?
            && var skip := if all.value != [] && all.value[0].name == "run_mode" then 1 else 0;
               && |r| == |all.value| - skip
               && forall k | 0 <= k < |r| :: r[k] == all.value[k + skip].value
  {
    EntriesAllSettings(nodes);
    var all := FlattenInputs(EntriesOf(nodes)).value;
    ValuesOf(ListedSettings(all))
  }

  /**
   * A `run_mode` setting passed before the settings is left out: the values
   * are those of the settings alone, one per walked setting.
   */
  lemma RunModeNotListed(runMode: Node, nodes: seq<Node>)
    requires runMode.Setting? && runMode.name == "run_mode"
    requires var all := FlattenInputs(EntriesOf(nodes)).value; !(all != [] && all[0].name == "run_mode")
    ensures ListParamValues([runMode] + nodes) == ListParamValues(nodes)
    ensures |ListParamValues([runMode] + nodes)| == |FlattenInputs(EntriesOf(nodes)).value|
  {
    assert EntriesOf([runMode] + nodes)[1..] == EntriesOf(nodes);
  }

  function EntriesOf(nodes: seq<Node>): (r: seq<ParamInput>)
    ensures |r| == |nodes|
    ensures forall k | 0 <= k < |r| :: r[k] == Entry(nodes[k])
  {
    if nodes == [] then [] else [Entry(nodes[0])] + EntriesOf(nodes[1..])
  }

  lemma EntriesAllSettings(nodes: seq<Node>)
    ensures FlattenInputs(EntriesOf(nodes)).Ok?
  {
  }

  /**
   * Listing the values of settings without arrays and feeding them back as
   * arguments gives every value back, in order.
   */
  lemma ListedValuesRoundTrip(nodes: seq<Node>)
    requires var all := ListedSettings(FlattenInputs(EntriesOf(nodes)).value); NoArrays(all)
    ensures var all := ListedSettings(FlattenInputs(EntriesOf(nodes)).value);
            IterArgs(ListParamValues(nodes), all) == ValuesOf(all)
  {
    var all := ListedSettings(FlattenInputs(EntriesOf(nodes)).value);
    IterArgsWithoutArrays(ValuesOf(all), all);
    assert ValuesOf(all)[..|all|] == ValuesOf(all);
  }
}

/**
 * The action plumbing of the layer exporter (`exportlayers.py`): how an
 * action setting becomes an invoker entry, how a constraint's arguments are
 * split into the exporter and the rule's own arguments, and the text of an
 * export error.
 */
module LayerActions {
  import opened Base
  import opened Text
  import opened Actions

  /** `_LAYER_EXPORTER_ARG_POSITION_IN_CONSTRAINTS`. */
  const ExporterArgPosition: nat := 1

  /** The parameters of the adapter a PDB procedure is wrapped in. */
  const PdbAdapterParams: seq<string> := ["image", "layer", "layer_exporter"]

  /**
   * How the function handed to the invoker is built from the action's
   * function: adapted when it is a PDB procedure, wrapped to replace
   * placeholders when it is not a constraint, turned into a rule adder with
   * the given subfilter when it is a constraint, and always gated by the
   * action's `enabled` setting.
   */
  datatype Wrapping = Wrapping(pdbAdapter: bool, placeholders: bool, constraintSubfilter: Option<Option<string>>)

  datatype Entry = Entry(call: Prepared, wrapping: Wrapping)

  /** `add_action_from_settings`: `Ok(None)` means nothing is added. */
  function AddActionFromSettings(pdb: string -> Option<PdbProcedure>, a: ActionSetting, tags: Option<seq<string>>,
                                 groups: Option<seq<string>>): (r: Result<Option<Entry>, ActionError>)
    ensures r.Err? <==> PrepareAction(pdb, a, tags, groups).Err?
    ensures r.Err? ==> r.error == PrepareAction(pdb, a, tags, groups).error
    ensures r.Ok? ==> (r.value.None? <==> PrepareAction(pdb, a, tags, groups).value.None?)
    ensures r.Ok? && r.value.Some? ==>
              var e := r.value.value;
              && e.call == PrepareAction(pdb, a, tags, groups).value.value
              && (e.wrapping.pdbAdapter <==> a.isPdbProcedure)
              && (e.wrapping.placeholders <==> "constraint" !in a.tags)
              && (e.wrapping.constraintSubfilter.Some? <==> "constraint" in a.tags)
              && ("constraint" in a.tags ==> e.wrapping.constraintSubfilter == Some(a.subfilter))
  {
    match PrepareAction(pdb, a, tags, groups)
    case Err(e) => Err(e)
    case Ok(None) => Ok(None)
    case Ok(Some(p)) =>
      var isConstraint := "constraint" in a.tags;
      Ok(Some(Entry(p, Wrapping(p.callable.Pdb?, !isConstraint, if isConstraint then Some(a.subfilter) else None))))
  }

  /**
   * The parameters reflection finds on the function a constraint wraps: the
   * PDB adapter's for a PDB procedure, the callable's own otherwise.
   */
  function RuleParams(a: ActionSetting): seq<string> {
    if a.isPdbProcedure then PdbAdapterParams else a.params
  }

  /** Python's `s[k]`, where a negative `k` counts from the end. */
  function PyIndex<T>(s: seq<T>, k: int): (r: Option<T>)
    ensures r.Some? <==> -|s| <= k < |s|
    ensures r.Some? ==> r.value == s[if k < 0 then |s| + k else k]
  {
    if 0 <= k < |s| then Some(s[k])
    else if -|s| <= k < 0 then Some(s[|s| + k])
    else None
  }

  /**
   * `_get_args_for_constraint_func`: the exporter and the rule's arguments.
   * When the rule declares `layer_exporter` at position `p`, the exporter is
   * `args[p - 1]` (the last argument when `p` is 0) and the arguments are
   * passed unchanged; otherwise the exporter is taken out of the arguments,
   * from position 1 when there is more than one argument and from position 0
   * otherwise.
   */
  function ExporterArgs(ruleParams: seq<string>, args: seq<Arg>): (r: Result<(Arg, seq<Arg>), ActionError>)
    ensures "layer_exporter" in ruleParams ==>
              var p := ParamIndex(ruleParams, "layer_exporter").value;
              && (r.Ok? <==> (p == 0 && args != []) || (p >= 1 && p - 1 < |args|))
              && (r.Ok? ==> r.value.1 == args && r.value.0 == (if p == 0 then args[|args| - 1] else args[p - 1]))
    ensures "layer_exporter" !in ruleParams ==>
              && (r.Err? <==> args == [])
              && (r.Ok? ==> var pos := ExtractedPosition(args);
                            && |r.value.1| == |args| - 1
                            && r.value.0 == args[pos]
                            && r.value.1[..pos] + [r.value.0] + r.value.1[pos..] == args)
  {
    match ParamIndex(ruleParams, "layer_exporter")
    case Some(p) =>
      (match PyIndex(args, p - 1)
       case None => Err(IndexOutOfRange)
       case Some(x) => Ok((x, args)))
    case None =>
      var pos := ExtractedPosition(args);
      if pos < |args| then
        ReinsertAfterRemove(args, pos);
        Ok((args[pos], args[..pos] + args[pos + 1..]))
      else Err(IndexOutOfRange)
  }

  /** Where the exporter is taken from when the rule does not declare it. */
  function ExtractedPosition(args: seq<Arg>): (pos: nat)
    ensures args != [] ==> pos < |args|
    ensures |args| > 1 ==> pos == ExporterArgPosition
  {
    if |args| > 1 then ExporterArgPosition else ExporterArgPosition - 1
  }

  /** Taking out one argument and putting it back restores the arguments. */
  lemma ReinsertAfterRemove<T>(s: seq<T>, pos: nat)
    requires pos < |s|
    ensures var rest := s[..pos] + s[pos + 1..];
            |rest| == |s| - 1 && rest[..pos] + [s[pos]] + rest[pos..] == s
  {
    var rest := s[..pos] + s[pos + 1..];
    assert rest[..pos] == s[..pos];
    assert rest[pos..] == s[pos + 1..];
    assert s == s[..pos] + [s[pos]] + s[pos + 1..];
  }

  /**
   * `ExportLayersError.__str__`: the message, then a line naming the layer
   * when it has a non-empty name, then a line naming the file extension when
   * it is non-empty.
   */
  function ErrorText(message: string, layerName: Option<string>, extension: Option<string>): (r: string)
    ensures StartsWith(r, message)
    ensures (layerName.None? || layerName.value == "") && (extension.None? || extension.value == "") ==> r == message
  {
    message
    + (if layerName.Some? && layerName.value != "" then "\n" + LayerLine(layerName.value) else "")
    + (if extension.Some? && extension.value != "" then "\n" + ExtensionLine(extension.value) else "")
  }

  function LayerLine(name: string): string {
    "Layer: " + name
  }

  function ExtensionLine(extension: string): string {
    "File extension: " + extension
  }

  /** The lines of an error text, for a message, name and extension that are one line each. */
  function ErrorLines(message: string, layerName: Option<string>, extension: Option<string>): seq<string> {
    [message]
    + (if layerName.Some? && layerName.value != "" then [LayerLine(layerName.value)] else [])
    + (if extension.Some? && extension.value != "" then [ExtensionLine(extension.value)] else [])
  }

  /** Splitting the error text at line breaks gives back its parts, each present only when non-empty. */
  lemma ErrorTextLines(message: string, layerName: Option<string>, extension: Option<string>)
    requires '\n' !in message
    requires layerName.Some? ==> '\n' !in layerName.value
    requires extension.Some? ==> '\n' !in extension.value
    ensures Split(ErrorText(message, layerName, extension), '\n') == ErrorLines(message, layerName, extension)
  {
    var lines := ErrorLines(message, layerName, extension);
    forall i | 0 <= i < |lines|
      ensures '\n' !in lines[i]
    {
      assert forall j | 0 <= j < |lines[i]| :: lines[i][j] != '\n';
    }
    ErrorTextIsJoin(message, layerName, extension);
    SplitJoin(lines, '\n');
  }

  lemma ErrorTextIsJoin(message: string, layerName: Option<string>, extension: Option<string>)
    ensures ErrorText(message, layerName, extension) == Join(ErrorLines(message, layerName, extension), '\n')
  {
    var hasName := layerName.Some? && layerName.value != "";
    var hasExt := extension.Some? && extension.value != "";
    if hasName && hasExt {
      JoinThree(message, LayerLine(layerName.value), ExtensionLine(extension.value));
    } else if hasName {
      JoinTwo(message, LayerLine(layerName.value));
    } else if hasExt {
      JoinTwo(message, ExtensionLine(extension.value));
    }
  }

  lemma JoinTwo(a: string, b: string)
    ensures Join([a, b], '\n') == a + ("\n" + b)
  {
    assert [a, b][1..] == [b];
  }

  lemma JoinThree(a: string, b: string, c: string)
    ensures Join([a, b, c], '\n') == a + ("\n" + b) + ("\n" + c)
  {
    assert [a, b, c][1..] == [b, c];
    JoinTwo(b, c);
  }
}

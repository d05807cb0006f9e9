/**
 * What both generations of the engine do with an action setting before they
 * hand it to the invoker: look up its function (a PDB procedure by name, or
 * the stored callable), drop it when it has no function or none of the
 * requested tags, and move a PDB procedure's leading run-mode argument into
 * the keyword arguments. The invoker and the PDB itself are not part of this
 * model; the PDB is a lookup parameter.
 */
module Actions {
  import opened Base

  /** An argument value of an action; only which value it is matters here. */
  datatype Arg = Arg(id: nat)

  /** A PDB procedure as the actions see it: the names of its parameters. */
  datatype PdbProcedure = PdbProcedure(name: string, paramNames: seq<string>)

  /**
   * An action setting. `functionName` is the stored function value: the name of a
   * PDB procedure, or the name of a callable, or nothing. `params` stands
   * for the parameter names reflection would find on the callable.
   */
  datatype ActionSetting = ActionSetting(
    origName: string,
    isPdbProcedure: bool,
    functionName: Option<string>,
    tags: set<string>,
    arguments: seq<Arg>,
    enabled: bool,
    enabledForPreviews: bool,
    actionGroups: seq<string>,
    subfilter: Option<string>,
    params: seq<string>)

  /** The function an action resolves to. */
  datatype Callable = UserFunction(name: string) | Pdb(procedure: PdbProcedure)

  datatype ActionError = InvalidPdbProcedure(message: string) | IndexOutOfRange

  /** The call an action turns into, before any wrapping. */
  datatype Prepared = Prepared(callable: Callable, args: seq<Arg>, runModeKwarg: Option<Arg>, groups: seq<string>)

  /** `params.index(name)`: the first position of a parameter name, if it is there. */
  function ParamIndex(params: seq<string>, name: string): (r: Option<nat>)
    ensures r.Some? ==> r.value < |params| && params[r.value] == name
    ensures r.Some? ==> forall j | 0 <= j < r.value :: params[j] != name
    ensures r.None? <==> name !in params
  {
    if params == [] then None
    else if params[0] == name then Some(0)
    else match ParamIndex(params[1..], name)
         case None => None
         case Some(k) => Some(k + 1)
  }

  /** `_has_run_mode_param`: the first parameter is named "run-mode". */
  predicate HasRunModeParam(p: PdbProcedure) {
    p.paramNames != [] && p.paramNames[0] == "run-mode"
  }

  function InvalidPdbMessage(name: Option<string>): string {
    "invalid PDB procedure \"" + (if name.Some? then name.value else "None") + "\""
  }

  /** The PDB lookup or the stored callable; an unknown PDB name is an error. */
  function ResolveFunction(pdb: string -> Option<PdbProcedure>, a: ActionSetting): (r: Result<Option<Callable>, ActionError>)
    ensures r.Err? <==> a.isPdbProcedure && (a.functionName.None? || pdb(a.functionName.value).None?)
    ensures r.Err? ==> r.error == InvalidPdbProcedure(InvalidPdbMessage(a.functionName))
    ensures r == Ok(None) <==> !a.isPdbProcedure && a.functionName.None?
    ensures r.Ok? && r.value.Some? ==> (r.value.value.Pdb? <==> a.isPdbProcedure)
  {
    if a.isPdbProcedure then
      if a.functionName.Some? && pdb(a.functionName.value).Some? then Ok(Some(Pdb(pdb(a.functionName.value).value)))
      else Err(InvalidPdbProcedure(InvalidPdbMessage(a.functionName)))
    else if a.functionName.None? then Ok(None)
    else Ok(Some(UserFunction(a.functionName.value)))
  }

  /** `tags is None or any(tag in action.tags for tag in tags)`. */
  predicate TagsAllow(tags: Option<seq<string>>, actionTags: set<string>) {
    tags.None? || exists i | 0 <= i < |tags.value| :: tags.value[i] in actionTags
  }

  /** `function_args[0]` becomes the `run_mode` keyword; indexing an empty tuple raises. */
  function SplitRunMode(args: seq<Arg>): (r: Result<(Option<Arg>, seq<Arg>), ActionError>)
    ensures r.Err? <==> args == []
    ensures r.Ok? ==> r.value.0.Some? && [r.value.0.value] + r.value.1 == args
  {
    if args == [] then Err(IndexOutOfRange) else Ok((Some(args[0]), args[1..]))
  }

  /**
   * The part of `add_action_from_settings` both generations share: resolve,
   * filter by tags, split off the run mode, and pick the action groups.
   * `Ok(None)` means nothing is added.
   */
  function PrepareAction(pdb: string -> Option<PdbProcedure>, a: ActionSetting, tags: Option<seq<string>>,
                         groups: Option<seq<string>>): (r: Result<Option<Prepared>, ActionError>)
    // The PDB lookup fails before the tags are looked at.
    ensures ResolveFunction(pdb, a).Err? ==> r == Err(InvalidPdbProcedure(InvalidPdbMessage(a.functionName)))
    ensures r == Ok(None) <==> ResolveFunction(pdb, a) == Ok(None)
                               || (ResolveFunction(pdb, a).Ok? && !TagsAllow(tags, a.tags))
    ensures r == Err(IndexOutOfRange) <==>
              (ResolveFunction(pdb, a).Ok? && ResolveFunction(pdb, a).value.Some? && TagsAllow(tags, a.tags)
               && ResolveFunction(pdb, a).value.value.Pdb? && HasRunModeParam(ResolveFunction(pdb, a).value.value.procedure)
               && a.arguments == [])
    ensures r.Ok? && r.value.Some? ==>
              var p := r.value.value;
              && Some(p.callable) == ResolveFunction(pdb, a).value
              && (p.runModeKwarg.Some? <==> p.callable.Pdb? && HasRunModeParam(p.callable.procedure))
              && (if p.runModeKwarg.Some? then [p.runModeKwarg.value] + p.args else p.args) == a.arguments
              && p.groups == (if groups.Some? then groups.value else a.actionGroups)
  {
    match ResolveFunction(pdb, a)
    case Err(e) => Err(e)
    case Ok(None) => Ok(None)
    case Ok(Some(f)) =>
      if !TagsAllow(tags, a.tags) then Ok(None)
      else
        var split := if f.Pdb? && HasRunModeParam(f.procedure) then SplitRunMode(a.arguments)
                     else Ok((None, a.arguments));
        match split
        case Err(e) => Err(e)
        case Ok((kwarg, args)) =>
          Ok(Some(Prepared(f, args, kwarg, if groups.Some? then groups.value else a.actionGroups)))
  }

  /**
   * A pass restricted to some tags and groups adds an action only if the
   * unrestricted pass adds it too, with the same function and arguments.
   */
  lemma RestrictedPassIsSubset(pdb: string -> Option<PdbProcedure>, a: ActionSetting, tags: seq<string>,
                               groups: seq<string>)
    requires PrepareAction(pdb, a, Some(tags), Some(groups)).Ok?
    requires PrepareAction(pdb, a, Some(tags), Some(groups)).value.Some?
    ensures var p := PrepareAction(pdb, a, Some(tags), Some(groups)).value.value;
            var q := PrepareAction(pdb, a, None, None);
            q.Ok? && q.value.Some? && q.value.value == p.(groups := a.actionGroups)
  {
    var p := PrepareAction(pdb, a, Some(tags), Some(groups)).value;
    var q := PrepareAction(pdb, a, None, None).value;
    ArgumentsDetermineSplit(p.value.runModeKwarg, p.value.args, q.value.runModeKwarg, q.value.args);
  }

  lemma ArgumentsDetermineSplit(k1: Option<Arg>, a1: seq<Arg>, k2: Option<Arg>, a2: seq<Arg>)
    requires k1.Some? == k2.Some?
    requires (if k1.Some? then [k1.value] + a1 else a1) == (if k2.Some? then [k2.value] + a2 else a2)
    ensures k1 == k2 && a1 == a2
  {
    if k1.Some? {
      assert ([k1.value] + a1)[0] == ([k2.value] + a2)[0];
      assert a1 == ([k1.value] + a1)[1..];
      assert a2 == ([k2.value] + a2)[1..];
    }
  }

  /**
   * The gate wrapped around every action: outside previews the action runs
   * iff it is enabled; in previews it must also be enabled for previews. A
   * gated-off action returns False without calling its function.
   */
  function Gate(isPreview: bool, a: ActionSetting): (runs: bool)
    ensures runs ==> a.enabled
    ensures !isPreview ==> (runs <==> a.enabled)
    ensures isPreview ==> (runs <==> a.enabled && a.enabledForPreviews)
  {
    if isPreview then a.enabled && a.enabledForPreviews else a.enabled
  }

  /** What calling a gated action returns: the function's result, or False. */
  function CallGated(isPreview: bool, a: ActionSetting, call: () -> bool): (r: bool)
    ensures !Gate(isPreview, a) ==> !r
    ensures Gate(isPreview, a) ==> r == call()
  {
    if Gate(isPreview, a) then call() else false
  }

  /**
   * A preview runs an action only when a regular run would, with the same
   * result; outside previews the preview flag of the setting has no effect.
   */
  lemma PreviewGateIsStricter(a: ActionSetting, call: () -> bool, forPreviews: bool)
    ensures CallGated(true, a, call) ==> CallGated(false, a, call)
    ensures Gate(true, a) ==> CallGated(true, a, call) == CallGated(false, a, call)
    ensures CallGated(false, a.(enabledForPreviews := forPreviews), call) == CallGated(false, a, call)
  {
  }
}

/**
 * The batch processor of `batcher.py`: keyword validation of its
 * attributes, which actions it installs and in what order, how constraints
 * receive their arguments and find their subfilter, and the sequence of
 * action groups one run invokes, with cooperative stopping and clean-up.
 * The invoker, the item tree, the object filter and GIMP itself are not part
 * of this model: installed actions are listed, invocations are recorded as
 * events, and item processing may fail at a chosen item.
 */
module Batcher {
  import opened Base
  import opened Actions

  /** The parameters of `Batcher.__init__` besides `self`. */
  const InitParams: set<string> := {
    "initial_run_mode", "input_image", "procedures", "constraints", "edit_mode", "output_directory",
    "layer_filename_pattern", "file_extension", "overwrite_mode", "overwrite_chooser", "progress_updater",
    "item_tree", "is_preview", "process_contents", "process_names", "process_export",
    "export_context_manager", "export_context_manager_args", "export_context_manager_kwargs"}

  /** An attribute value: `None`, a value the caller gave, or one of the defaults `_init_attributes` fills in. */
  datatype Value =
    | PyNone
    | Given(id: nat)
    | NoninteractiveChooser(mode: Value)
    | SilentProgressUpdater
    | EmptyContext
    | EmptyArgs
    | EmptyKwargs

  datatype BatcherError =
    | InvalidKeywordArgument(name: string)
    | BatcherCancelError(message: string)
    | ActionSetupFailed(error: ActionError)
    | ItemProcessingFailed(item: nat)

  /** The attributes after `_init_attributes`, and the error it raised, if any. */
  datatype InitResult = InitResult(attributes: map<string, Value>, error: Option<BatcherError>)

  ghost predicate DistinctNames(kwargs: seq<(string, Value)>) {
    forall i, j | 0 <= i < j < |kwargs| :: kwargs[i].0 != kwargs[j].0
  }

  /** The names of the keyword arguments. */
  function KeywordNames(kwargs: seq<(string, Value)>): set<string> {
    set i | 0 <= i < |kwargs| :: kwargs[i].0
  }

  lemma KeywordNamesOfInit(kwargs: seq<(string, Value)>)
    requires |kwargs| > 0
    ensures KeywordNames(kwargs) == KeywordNames(kwargs[..|kwargs| - 1]) + {kwargs[|kwargs| - 1].0}
  {
    var init := kwargs[..|kwargs| - 1];
    forall n | n in KeywordNames(kwargs)
      ensures n in KeywordNames(init) + {kwargs[|kwargs| - 1].0}
    {
      var i :| 0 <= i < |kwargs| && kwargs[i].0 == n;
      if i < |init| {
        assert init[i] == kwargs[i];
      }
    }
    forall n | n in KeywordNames(init)
      ensures n in KeywordNames(kwargs)
    {
      var i :| 0 <= i < |init| && init[i].0 == n;
      assert kwargs[i] == init[i];
    }
  }

  /** Every keyword's attribute set to its value, without validation. */
  function Apply(attrs: map<string, Value>, kwargs: seq<(string, Value)>): (r: map<string, Value>)
    requires DistinctNames(kwargs)
    ensures r.Keys == attrs.Keys + KeywordNames(kwargs)
    ensures forall i | 0 <= i < |kwargs| :: r[kwargs[i].0] == kwargs[i].1
    ensures forall n | n in attrs && n !in KeywordNames(kwargs) :: r[n] == attrs[n]
  {
    if kwargs == [] then attrs
    else
      var last := kwargs[|kwargs| - 1];
      var init := kwargs[..|kwargs| - 1];
      assert forall i | 0 <= i < |init| :: init[i] == kwargs[i];
      KeywordNamesOfInit(kwargs);
      Apply(attrs, init)[last.0 := last.1]
  }

  /** The first keyword that is not a parameter of `__init__`. */
  function FirstInvalid(kwargs: seq<(string, Value)>): (r: Option<nat>)
    ensures r.None? <==> forall i | 0 <= i < |kwargs| :: kwargs[i].0 in InitParams
    ensures r.Some? ==> r.value < |kwargs| && kwargs[r.value].0 !in InitParams
    ensures r.Some? ==> forall j | 0 <= j < r.value :: kwargs[j].0 in InitParams
  {
    if kwargs == [] then None
    else if kwargs[0].0 !in InitParams then Some(0)
    else match FirstInvalid(kwargs[1..])
         case None => None
         case Some(i) => Some(i + 1)
  }

  /**
   * The loop over the keyword arguments: each valid one overwrites its
   * attribute; the first invalid one raises, leaving the earlier ones set.
   */
  function SetKeywords(attrs: map<string, Value>, kwargs: seq<(string, Value)>): (r: InitResult)
    requires DistinctNames(kwargs)
    ensures r.error.None? <==> forall i | 0 <= i < |kwargs| :: kwargs[i].0 in InitParams
    ensures r.error.Some? ==> exists i | 0 <= i < |kwargs| ::
              && kwargs[i].0 !in InitParams && r.error.value == InvalidKeywordArgument(kwargs[i].0)
              && (forall j | 0 <= j < i ::
                    kwargs[j].0 in InitParams && kwargs[j].0 in r.attributes && r.attributes[kwargs[j].0] == kwargs[j].1)
    ensures r.error.None? ==> r.attributes == Apply(attrs, kwargs)
  {
    match FirstInvalid(kwargs)
    case None => InitResult(Apply(attrs, kwargs), None)
    case Some(i) =>
      var done := kwargs[..i];
      assert forall j | 0 <= j < i :: done[j] == kwargs[j];
      InitResult(Apply(attrs, done), Some(InvalidKeywordArgument(kwargs[i].0)))
  }

  /** The attributes `_init_attributes` reads after the loop. */
  const DefaultedParams: set<string> := {
    "overwrite_mode", "overwrite_chooser", "progress_updater", "export_context_manager",
    "export_context_manager_args", "export_context_manager_kwargs"}

  /** The defaults for attributes left at `None`. */
  function FillDefaults(attrs: map<string, Value>): (r: map<string, Value>)
    requires DefaultedParams <= attrs.Keys
    ensures r.Keys == attrs.Keys
    ensures forall n | n in attrs && n !in DefaultedParams :: r[n] == attrs[n]
    ensures forall n | n in DefaultedParams && n != "overwrite_mode" :: r[n] != PyNone
    ensures forall n | n in DefaultedParams && attrs[n] != PyNone :: r[n] == attrs[n]
    ensures attrs["overwrite_chooser"] == PyNone ==> r["overwrite_chooser"] == NoninteractiveChooser(attrs["overwrite_mode"])
  {
    var chooser := if attrs["overwrite_chooser"] == PyNone then NoninteractiveChooser(attrs["overwrite_mode"])
                   else attrs["overwrite_chooser"];
    var progress := if attrs["progress_updater"] == PyNone then SilentProgressUpdater else attrs["progress_updater"];
    var context := if attrs["export_context_manager"] == PyNone then EmptyContext else attrs["export_context_manager"];
    var args := if attrs["export_context_manager_args"] == PyNone then EmptyArgs else attrs["export_context_manager_args"];
    var kwargs := if attrs["export_context_manager_kwargs"] == PyNone then EmptyKwargs
                  else attrs["export_context_manager_kwargs"];
    attrs["overwrite_chooser" := chooser]["progress_updater" := progress]["export_context_manager" := context]
         ["export_context_manager_args" := args]["export_context_manager_kwargs" := kwargs]
  }

  /**
   * `_init_attributes`, as called by `__init__` with every parameter and by
   * `run` with the caller's keywords.
   */
  function InitAttributes(attrs: map<string, Value>, kwargs: seq<(string, Value)>): (r: InitResult)
    requires DistinctNames(kwargs)
    requires DefaultedParams <= attrs.Keys + KeywordNames(kwargs)
    ensures r.error.None? <==> forall i | 0 <= i < |kwargs| :: kwargs[i].0 in InitParams
    ensures r.error.Some? ==> r.error.value.InvalidKeywordArgument? && r.error.value.name !in InitParams
    ensures r.error.None? ==> forall i | 0 <= i < |kwargs| ::
              kwargs[i].0 in r.attributes && (kwargs[i].1 != PyNone ==> r.attributes[kwargs[i].0] == kwargs[i].1)
    ensures r.error.None? ==> forall n | n in DefaultedParams && n != "overwrite_mode" ::
              n in r.attributes && r.attributes[n] != PyNone
  {
    var s := SetKeywords(attrs, kwargs);
    if s.error.Some? then s
    else InitResult(FillDefaults(s.attributes), None)
  }

  /** The names of the action groups and tag the batcher uses; they are defined outside `batcher.py`. */
  datatype GroupNames = GroupNames(defaultProcedures: string, defaultConstraints: string, nameOnlyTag: string)

  /** `_NAME_ONLY_ACTION_GROUP`. */
  const NameOnlyGroup := "name"

  /**
   * A constraint as the batcher wraps it: the rule is added under the
   * action's original name to the named subfilter, or to the main filter,
   * and the batcher argument is kept only when the rule declares it.
   */
  datatype ConstraintRule = ConstraintRule(name: string, subfilter: Option<string>, keepsBatcherArg: bool)

  /** The batcher's wrapping: placeholders are always replaced, and the gate knows whether this is a preview. */
  datatype Wrapping = Wrapping(pdbAdapter: bool, constraint: Option<ConstraintRule>, isPreview: bool)

  datatype Installed =
    | SetActiveAndCurrentLayer
    | SetActiveAfterAction
    | RemoveLocksAroundAction
    | InitialInvoker
    | DefaultRename(pattern: string)
    | Procedure(call: Prepared, wrapping: Wrapping)
    | DefaultExport(extension: string)
    | Constraint(call: Prepared, wrapping: Wrapping)

  /** One `invoker.add`: the action, its groups, and whether it runs around every other action. */
  datatype Added = Added(action: Installed, groups: seq<string>, foreach: bool)

  /** `_add_action_from_settings` of the batcher: `Ok(None)` means nothing is added. */
  function WrapAction(pdb: string -> Option<PdbProcedure>, isPreview: bool, a: ActionSetting,
                      tags: Option<seq<string>>, groups: Option<seq<string>>): (r: Result<Option<(Prepared, Wrapping)>, ActionError>)
    ensures r.Err? <==> PrepareAction(pdb, a, tags, groups).Err?
    ensures r.Ok? ==> (r.value.None? <==> PrepareAction(pdb, a, tags, groups).value.None?)
    ensures r.Ok? && r.value.Some? ==>
              var (p, w) := r.value.value;
              && p == PrepareAction(pdb, a, tags, groups).value.value
              && (w.pdbAdapter <==> a.isPdbProcedure) && w.isPreview == isPreview
              && (w.constraint.Some? <==> "constraint" in a.tags)
              && (w.constraint.Some? ==>
                    && w.constraint.value.name == a.origName
                    && w.constraint.value.subfilter == a.subfilter
                    && (w.constraint.value.keepsBatcherArg <==> !a.isPdbProcedure && "batcher" in a.params))
  {
    match PrepareAction(pdb, a, tags, groups)
    case Err(e) => Err(e)
    case Ok(None) => Ok(None)
    case Ok(Some(p)) =>
      var rule := if "constraint" in a.tags
                  then Some(ConstraintRule(a.origName, a.subfilter, !a.isPdbProcedure && "batcher" in a.params))
                  else None;
      Ok(Some((p, Wrapping(a.isPdbProcedure, rule, isPreview))))
  }

  /** Whether any enabled procedure has the given original name. */
  predicate AnyEnabledNamed(procedures: seq<ActionSetting>, origName: string) {
    exists i | 0 <= i < |procedures| :: procedures[i].origName == origName && procedures[i].enabled
  }

  /** `_add_default_rename_procedure` / `_add_default_export_procedure`: the default is installed iff ... */
  predicate InstallsDefault(editMode: bool, procedures: seq<ActionSetting>, origName: string) {
    !editMode && !AnyEnabledNamed(procedures, origName)
  }

  datatype Settings = Settings(
    editMode: bool,
    isPreview: bool,
    layerFilenamePattern: string,
    fileExtension: string,
    procedures: seq<ActionSetting>,
    constraints: seq<ActionSetting>,
    initialGroups: seq<string>,
    names: GroupNames)

  /** An added action of the requested kind, installed once (not per item), in the requested groups. */
  predicate Shaped(a: Added, asConstraints: bool, groups: Option<seq<string>>) {
    && (if asConstraints then a.action.Constraint? else a.action.Procedure?)
    && !a.foreach
    && (groups.Some? ==> a.groups == groups.value)
  }

  /** Whether wrapping some setting of the list fails. */
  predicate SomeFails(pdb: string -> Option<PdbProcedure>, isPreview: bool, list: seq<ActionSetting>,
                      tags: Option<seq<string>>, groups: Option<seq<string>>) {
    exists i | 0 <= i < |list| :: WrapAction(pdb, isPreview, list[i], tags, groups).Err?
  }

  /** Whether a setting is added: it wraps without error into an action. */
  predicate Wraps(pdb: string -> Option<PdbProcedure>, isPreview: bool, a: ActionSetting,
                  tags: Option<seq<string>>, groups: Option<seq<string>>) {
    WrapAction(pdb, isPreview, a, tags, groups).Ok? && WrapAction(pdb, isPreview, a, tags, groups).value.Some?
  }

  /** The settings of a list that are added, in list order. */
  function Selected(pdb: string -> Option<PdbProcedure>, isPreview: bool, list: seq<ActionSetting>,
                    tags: Option<seq<string>>, groups: Option<seq<string>>): (r: seq<ActionSetting>)
    ensures |r| <= |list|
    ensures forall k | 0 <= k < |r| :: Wraps(pdb, isPreview, r[k], tags, groups)
  {
    if list == [] then []
    else (if Wraps(pdb, isPreview, list[0], tags, groups) then [list[0]] else [])
         + Selected(pdb, isPreview, list[1..], tags, groups)
  }

  /** Exactly the settings of the list that wrap are selected. */
  lemma {:induction false} SelectedMembers(pdb: string -> Option<PdbProcedure>, isPreview: bool, list: seq<ActionSetting>,
                                           tags: Option<seq<string>>, groups: Option<seq<string>>, a: ActionSetting)
    ensures a in Selected(pdb, isPreview, list, tags, groups) <==> a in list && Wraps(pdb, isPreview, a, tags, groups)
    decreases |list|
  {
    if list != [] {
      SelectedMembers(pdb, isPreview, list[1..], tags, groups, a);
      assert a in list <==> a == list[0] || a in list[1..];
    }
  }

  /** The action a setting that wraps adds: a procedure or a constraint, installed once, in its groups. */
  function AddedFor(pdb: string -> Option<PdbProcedure>, isPreview: bool, a: ActionSetting, asConstraints: bool,
                    tags: Option<seq<string>>, groups: Option<seq<string>>): (x: Added)
    requires Wraps(pdb, isPreview, a, tags, groups)
    ensures Shaped(x, asConstraints, groups)
  {
    var (p, w) := WrapAction(pdb, isPreview, a, tags, groups).value.value;
    if asConstraints then Added(Constraint(p, w), p.groups, false) else Added(Procedure(p, w), p.groups, false)
  }

  /** One action per setting of a selection, in its order. */
  function EntriesOf(pdb: string -> Option<PdbProcedure>, isPreview: bool, sel: seq<ActionSetting>,
                     asConstraints: bool, tags: Option<seq<string>>, groups: Option<seq<string>>): (r: seq<Added>)
    requires forall k | 0 <= k < |sel| :: Wraps(pdb, isPreview, sel[k], tags, groups)
    ensures |r| == |sel| && forall k | 0 <= k < |r| :: r[k] == AddedFor(pdb, isPreview, sel[k], asConstraints, tags, groups)
  {
    seq(|sel|, k requires 0 <= k < |sel| => AddedFor(pdb, isPreview, sel[k], asConstraints, tags, groups))
  }

  /** The actions of two selections one after the other are those of the joined selection. */
  lemma EntriesOfConcat(pdb: string -> Option<PdbProcedure>, isPreview: bool, a: seq<ActionSetting>, b: seq<ActionSetting>,
                        asConstraints: bool, tags: Option<seq<string>>, groups: Option<seq<string>>)
    requires forall k | 0 <= k < |a| :: Wraps(pdb, isPreview, a[k], tags, groups)
    requires forall k | 0 <= k < |b| :: Wraps(pdb, isPreview, b[k], tags, groups)
    ensures forall k | 0 <= k < |a + b| :: Wraps(pdb, isPreview, (a + b)[k], tags, groups)
    ensures EntriesOf(pdb, isPreview, a + b, asConstraints, tags, groups)
            == EntriesOf(pdb, isPreview, a, asConstraints, tags, groups)
               + EntriesOf(pdb, isPreview, b, asConstraints, tags, groups)
  {
    forall k | 0 <= k < |a + b|
      ensures Wraps(pdb, isPreview, (a + b)[k], tags, groups)
    {
      if k >= |a| { assert (a + b)[k] == b[k - |a|]; }
    }
    var joined := EntriesOf(pdb, isPreview, a + b, asConstraints, tags, groups);
    var first := EntriesOf(pdb, isPreview, a, asConstraints, tags, groups);
    var second := EntriesOf(pdb, isPreview, b, asConstraints, tags, groups);
    forall k | 0 <= k < |joined|
      ensures joined[k] == (first + second)[k]
    {
      if k < |a| { assert (a + b)[k] == a[k]; } else { assert (a + b)[k] == b[k - |a|]; }
    }
    assert joined == first + second;
  }

  /** One action per selected setting, in list order. */
  function EntriesFor(pdb: string -> Option<PdbProcedure>, isPreview: bool, list: seq<ActionSetting>,
                      asConstraints: bool, tags: Option<seq<string>>, groups: Option<seq<string>>): (r: seq<Added>)
    ensures var sel := Selected(pdb, isPreview, list, tags, groups);
            |r| == |sel| && forall k | 0 <= k < |r| :: r[k] == AddedFor(pdb, isPreview, sel[k], asConstraints, tags, groups)
  {
    EntriesOf(pdb, isPreview, Selected(pdb, isPreview, list, tags, groups), asConstraints, tags, groups)
  }

  /** What one setting adds: nothing, or one action of the requested kind. */
  function AddOne(pdb: string -> Option<PdbProcedure>, isPreview: bool, a: ActionSetting, asConstraints: bool,
                  tags: Option<seq<string>>, groups: Option<seq<string>>): (r: seq<Added>)
    requires WrapAction(pdb, isPreview, a, tags, groups).Ok?
    ensures |r| <= 1
    ensures forall k | 0 <= k < |r| :: Shaped(r[k], asConstraints, groups)
  {
    if Wraps(pdb, isPreview, a, tags, groups) then [AddedFor(pdb, isPreview, a, asConstraints, tags, groups)] else []
  }

  /**
   * The actions added from a list of settings: one per setting that wraps,
   * in list order; the walk fails as soon as one setting fails.
   */
  function AddAllFromSettings(pdb: string -> Option<PdbProcedure>, isPreview: bool, list: seq<ActionSetting>,
                              asConstraints: bool, tags: Option<seq<string>>, groups: Option<seq<string>>)
    : (r: Result<seq<Added>, ActionError>)
    ensures r.Ok? ==> |r.value| <= |list|
    ensures r.Ok? ==> forall k | 0 <= k < |r.value| :: Shaped(r.value[k], asConstraints, groups)
    ensures r.Ok? ==> r.value == EntriesFor(pdb, isPreview, list, asConstraints, tags, groups)
    ensures r.Err? <==> SomeFails(pdb, isPreview, list, tags, groups)
    decreases |list|
  {
    if list == [] then Ok([])
    else if WrapAction(pdb, isPreview, list[0], tags, groups).Err? then
      Err(WrapAction(pdb, isPreview, list[0], tags, groups).error)
    else
      var rest := AddAllFromSettings(pdb, isPreview, list[1..], asConstraints, tags, groups);
      SomeFailsInTail(pdb, isPreview, list, tags, groups);
      if rest.Err? then Err(rest.error)
      else
        var here := AddOne(pdb, isPreview, list[0], asConstraints, tags, groups);
        EntriesStep(pdb, isPreview, list, asConstraints, tags, groups);
        Ok(here + rest.value)
  }

  /** The entries of a list are those of its first setting followed by those of the rest. */
  lemma EntriesStep(pdb: string -> Option<PdbProcedure>, isPreview: bool, list: seq<ActionSetting>,
                    asConstraints: bool, tags: Option<seq<string>>, groups: Option<seq<string>>)
    requires |list| > 0 && WrapAction(pdb, isPreview, list[0], tags, groups).Ok?
    ensures EntriesFor(pdb, isPreview, list, asConstraints, tags, groups)
            == AddOne(pdb, isPreview, list[0], asConstraints, tags, groups)
               + EntriesFor(pdb, isPreview, list[1..], asConstraints, tags, groups)
  {
    var tail := Selected(pdb, isPreview, list[1..], tags, groups);
    var pre := if Wraps(pdb, isPreview, list[0], tags, groups) then [list[0]] else [];
    assert Selected(pdb, isPreview, list, tags, groups) == pre + tail;
    EntriesOfConcat(pdb, isPreview, pre, tail, asConstraints, tags, groups);
    EntriesOfFirst(pdb, isPreview, list[0], asConstraints, tags, groups);
  }

  /** The actions of the first setting's selection are what that setting adds. */
  lemma EntriesOfFirst(pdb: string -> Option<PdbProcedure>, isPreview: bool, a: ActionSetting,
                       asConstraints: bool, tags: Option<seq<string>>, groups: Option<seq<string>>)
    requires WrapAction(pdb, isPreview, a, tags, groups).Ok?
    ensures var pre := if Wraps(pdb, isPreview, a, tags, groups) then [a] else [];
            EntriesOf(pdb, isPreview, pre, asConstraints, tags, groups)
            == AddOne(pdb, isPreview, a, asConstraints, tags, groups)
  {
    if Wraps(pdb, isPreview, a, tags, groups) {
      assert EntriesOf(pdb, isPreview, [a], asConstraints, tags, groups)[0]
             == AddedFor(pdb, isPreview, a, asConstraints, tags, groups);
    }
  }

  /** When the first setting wraps, a failure is a failure in the rest of the list. */
  lemma SomeFailsInTail(pdb: string -> Option<PdbProcedure>, isPreview: bool, list: seq<ActionSetting>,
                        tags: Option<seq<string>>, groups: Option<seq<string>>)
    requires |list| > 0 && WrapAction(pdb, isPreview, list[0], tags, groups).Ok?
    ensures SomeFails(pdb, isPreview, list, tags, groups) <==> SomeFails(pdb, isPreview, list[1..], tags, groups)
  {
    if SomeFails(pdb, isPreview, list[1..], tags, groups) {
      var j :| 0 <= j < |list[1..]| && WrapAction(pdb, isPreview, list[1..][j], tags, groups).Err?;
      assert list[j + 1] == list[1..][j];
    }
    if SomeFails(pdb, isPreview, list, tags, groups) {
      var i :| 0 <= i < |list| && WrapAction(pdb, isPreview, list[i], tags, groups).Err?;
      assert list[1..][i - 1] == list[i];
    }
  }

  /** The actions are in the fixed installation order. */
  predicate InOrder(r: seq<Added>) {
    forall i, j | 0 <= i < j < |r| :: Rank(r[i].action) <= Rank(r[j].action)
  }

  /** Every action's kind lies between the two positions of the installation order. */
  predicate RanksWithin(r: seq<Added>, lo: nat, hi: nat) {
    forall i | 0 <= i < |r| :: lo <= Rank(r[i].action) <= hi
  }

  lemma InOrderConcat(a: seq<Added>, b: seq<Added>, lo: nat, mid: nat, hi: nat)
    requires lo <= mid <= hi
    requires InOrder(a) && InOrder(b) && RanksWithin(a, lo, mid) && RanksWithin(b, mid, hi)
    ensures InOrder(a + b) && RanksWithin(a + b, lo, hi)
  {
    forall i, j | 0 <= i < j < |a + b|
      ensures Rank((a + b)[i].action) <= Rank((a + b)[j].action)
    {
      if j < |a| {
      } else if i >= |a| {
        assert (a + b)[i] == b[i - |a|] && (a + b)[j] == b[j - |a|];
      } else {
        assert (a + b)[j] == b[j - |a|];
      }
    }
    forall i | 0 <= i < |a + b|
      ensures lo <= Rank((a + b)[i].action) <= hi
    {
      if i >= |a| {
        assert (a + b)[i] == b[i - |a|];
      }
    }
  }

  lemma SameRank(r: seq<Added>, k: nat)
    requires forall i | 0 <= i < |r| :: Rank(r[i].action) == k
    ensures InOrder(r) && RanksWithin(r, k, k)
  {
  }

  /**
   * The configured part of an installation: the default rename, the
   * procedures, the default export and the constraints. Both `_add_actions`
   * and `_add_name_only_actions` follow this shape.
   */
  function AddConfigured(pdb: string -> Option<PdbProcedure>, s: Settings, defaultGroups: seq<string>,
                         tags: Option<seq<string>>, groups: Option<seq<string>>): (r: Result<seq<Added>, ActionError>)
    ensures r.Ok? ==> InOrder(r.value) && RanksWithin(r.value, 4, 7)
    ensures r.Ok? ==> ((exists x | x in r.value :: x.action.DefaultRename?)
                      <==> InstallsDefault(s.editMode, s.procedures, "rename"))
    ensures r.Ok? ==> ((exists x | x in r.value :: x.action.DefaultExport?)
                      <==> InstallsDefault(s.editMode, s.procedures, "export"))
    ensures r.Ok? && groups == Some(defaultGroups) ==> AllInGroups(r.value, defaultGroups)
  {
    var rename := if InstallsDefault(s.editMode, s.procedures, "rename")
                  then [Added(DefaultRename(s.layerFilenamePattern), defaultGroups, false)] else [];
    var exporting := if InstallsDefault(s.editMode, s.procedures, "export")
                     then [Added(DefaultExport(s.fileExtension), defaultGroups, false)] else [];
    var procs := AddAllFromSettings(pdb, s.isPreview, s.procedures, false, tags, groups);
    var cons := AddAllFromSettings(pdb, s.isPreview, s.constraints, true, tags, groups);
    if procs.Err? then Err(procs.error)
    else if cons.Err? then Err(cons.error)
    else
      ShapedParts(procs.value, cons.value, groups);
      assert groups == Some(defaultGroups) ==>
               AllInGroups(rename + procs.value + exporting + cons.value, defaultGroups) by {
        if groups == Some(defaultGroups) {
          AssembledGroups(rename, procs.value, exporting, cons.value, defaultGroups);
        }
      }
      Ok(Assemble(rename, procs.value, exporting, cons.value))
  }

  /** The configured part fails iff some procedure or some constraint fails to wrap. */
  lemma ConfiguredFails(pdb: string -> Option<PdbProcedure>, s: Settings, defaultGroups: seq<string>,
                        tags: Option<seq<string>>, groups: Option<seq<string>>)
    ensures AddConfigured(pdb, s, defaultGroups, tags, groups).Err?
            <==> SomeFails(pdb, s.isPreview, s.procedures, tags, groups)
                 || SomeFails(pdb, s.isPreview, s.constraints, tags, groups)
  {
    var procs := AddAllFromSettings(pdb, s.isPreview, s.procedures, false, tags, groups);
    var cons := AddAllFromSettings(pdb, s.isPreview, s.constraints, true, tags, groups);
    assert procs.Err? ==> AddConfigured(pdb, s, defaultGroups, tags, groups).Err?;
  }

  lemma ConfiguredEntries(pdb: string -> Option<PdbProcedure>, s: Settings, defaultGroups: seq<string>,
                          tags: Option<seq<string>>, groups: Option<seq<string>>)
    ensures var r := AddConfigured(pdb, s, defaultGroups, tags, groups);
            r.Ok? ==>
              var n := if InstallsDefault(s.editMode, s.procedures, "rename") then 1 else 0;
              var procs := EntriesFor(pdb, s.isPreview, s.procedures, false, tags, groups);
              var cons := EntriesFor(pdb, s.isPreview, s.constraints, true, tags, groups);
              && n + |procs| + |cons| <= |r.value|
              && r.value[n..n + |procs|] == procs
  {
    ConfiguredSplits(pdb, s, defaultGroups, tags, groups);
  }

  /** The configured part ends with exactly the entries of the constraints. */
  lemma ConfiguredConstraintsLast(pdb: string -> Option<PdbProcedure>, s: Settings, defaultGroups: seq<string>,
                                  tags: Option<seq<string>>, groups: Option<seq<string>>)
    ensures var r := AddConfigured(pdb, s, defaultGroups, tags, groups);
            r.Ok? ==>
              var cons := EntriesFor(pdb, s.isPreview, s.constraints, true, tags, groups);
              && |cons| <= |r.value|
              && r.value[|r.value| - |cons|..] == cons
  {
    ConfiguredSplits(pdb, s, defaultGroups, tags, groups);
  }

  /** A successful configured part is the default rename, the procedures, the default export and the constraints. */
  lemma ConfiguredSplits(pdb: string -> Option<PdbProcedure>, s: Settings, defaultGroups: seq<string>,
                         tags: Option<seq<string>>, groups: Option<seq<string>>)
    ensures var r := AddConfigured(pdb, s, defaultGroups, tags, groups);
            r.Ok? ==>
              AssembledFrom(r.value,
                            if InstallsDefault(s.editMode, s.procedures, "rename") then 1 else 0,
                            EntriesFor(pdb, s.isPreview, s.procedures, false, tags, groups),
                            EntriesFor(pdb, s.isPreview, s.constraints, true, tags, groups))
  {
    var rename := if InstallsDefault(s.editMode, s.procedures, "rename")
                  then [Added(DefaultRename(s.layerFilenamePattern), defaultGroups, false)] else [];
    var exporting := if InstallsDefault(s.editMode, s.procedures, "export")
                     then [Added(DefaultExport(s.fileExtension), defaultGroups, false)] else [];
    var procs := AddAllFromSettings(pdb, s.isPreview, s.procedures, false, tags, groups);
    var cons := AddAllFromSettings(pdb, s.isPreview, s.constraints, true, tags, groups);
    if procs.Ok? && cons.Ok? {
      ConfiguredIsAssembled(pdb, s, defaultGroups, tags, groups);
      AssembledParts(AddConfigured(pdb, s, defaultGroups, tags, groups).value,
                     rename, procs.value, exporting, cons.value, |rename|);
    }
  }

  /** `r` holds `procs` from position `n` on and ends with `cons`. */
  ghost predicate AssembledFrom<T>(r: seq<T>, n: nat, procs: seq<T>, cons: seq<T>) {
    && n + |procs| + |cons| <= |r|
    && r[n..n + |procs|] == procs
    && r[|r| - |cons|..] == cons
  }

  /** With both walks succeeding, the configured part is the four parts in order. */
  lemma ConfiguredIsAssembled(pdb: string -> Option<PdbProcedure>, s: Settings, defaultGroups: seq<string>,
                              tags: Option<seq<string>>, groups: Option<seq<string>>)
    requires AddAllFromSettings(pdb, s.isPreview, s.procedures, false, tags, groups).Ok?
    requires AddAllFromSettings(pdb, s.isPreview, s.constraints, true, tags, groups).Ok?
    ensures AddConfigured(pdb, s, defaultGroups, tags, groups)
            == Ok((if InstallsDefault(s.editMode, s.procedures, "rename")
                   then [Added(DefaultRename(s.layerFilenamePattern), defaultGroups, false)] else [])
                  + AddAllFromSettings(pdb, s.isPreview, s.procedures, false, tags, groups).value
                  + (if InstallsDefault(s.editMode, s.procedures, "export")
                     then [Added(DefaultExport(s.fileExtension), defaultGroups, false)] else [])
                  + AddAllFromSettings(pdb, s.isPreview, s.constraints, true, tags, groups).value)
  {
  }

  /** Where the procedures and the constraints sit in an assembled installation. */
  lemma AssembledParts<T>(r: seq<T>, rename: seq<T>, procs: seq<T>, exporting: seq<T>, cons: seq<T>, n: nat)
    requires r == rename + procs + exporting + cons && n == |rename|
    ensures AssembledFrom(r, n, procs, cons)
  {
    assert r == rename + procs + (exporting + cons);
    assert r[|rename|..|rename| + |procs|] == procs;
  }

  /** The kinds and groups of the procedures and constraints that were added. */
  lemma ShapedParts(procs: seq<Added>, cons: seq<Added>, groups: Option<seq<string>>)
    requires forall k | 0 <= k < |procs| :: Shaped(procs[k], false, groups)
    requires forall k | 0 <= k < |cons| :: Shaped(cons[k], true, groups)
    ensures forall i | 0 <= i < |procs| :: procs[i].action.Procedure?
    ensures forall i | 0 <= i < |cons| :: cons[i].action.Constraint?
    ensures groups.Some? ==> AllInGroups(procs, groups.value) && AllInGroups(cons, groups.value)
  {
  }

  /** Every action goes into the groups `g`. */
  predicate AllInGroups(r: seq<Added>, g: seq<string>) {
    forall i | 0 <= i < |r| :: r[i].groups == g
  }

  lemma AllInGroupsConcat(a: seq<Added>, b: seq<Added>, g: seq<string>)
    requires AllInGroups(a, g) && AllInGroups(b, g)
    ensures AllInGroups(a + b, g)
  {
    forall i | |a| <= i < |a + b|
      ensures (a + b)[i].groups == g
    {
      assert (a + b)[i] == b[i - |a|];
    }
  }

  lemma AssembledGroups(rename: seq<Added>, procs: seq<Added>, exporting: seq<Added>, cons: seq<Added>, g: seq<string>)
    requires AllInGroups(rename, g) && AllInGroups(procs, g) && AllInGroups(exporting, g) && AllInGroups(cons, g)
    ensures AllInGroups(rename + procs + exporting + cons, g)
  {
    AllInGroupsConcat(rename, procs, g);
    AllInGroupsConcat(rename + procs, exporting, g);
    AllInGroupsConcat(rename + procs + exporting, cons, g);
  }

  /** The four parts of a configured installation, in order. */
  function Assemble(rename: seq<Added>, procs: seq<Added>, exporting: seq<Added>, cons: seq<Added>): (r: seq<Added>)
    requires forall i | 0 <= i < |rename| :: rename[i].action.DefaultRename?
    requires forall i | 0 <= i < |procs| :: procs[i].action.Procedure?
    requires forall i | 0 <= i < |exporting| :: exporting[i].action.DefaultExport?
    requires forall i | 0 <= i < |cons| :: cons[i].action.Constraint?
    ensures InOrder(r) && RanksWithin(r, 4, 7)
    ensures (exists x | x in r :: x.action.DefaultRename?) <==> rename != []
    ensures (exists x | x in r :: x.action.DefaultExport?) <==> exporting != []
    ensures forall x | x in r :: x in rename || x in procs || x in exporting || x in cons
  {
    AssembledInOrder(rename, procs, exporting, cons);
    assert rename != [] ==> rename[0] in rename + procs + exporting + cons;
    assert exporting != [] ==> exporting[0] in rename + procs + exporting + cons;
    rename + procs + exporting + cons
  }

  lemma AssembledInOrder(rename: seq<Added>, procs: seq<Added>, exporting: seq<Added>, cons: seq<Added>)
    requires forall i | 0 <= i < |rename| :: rename[i].action.DefaultRename?
    requires forall i | 0 <= i < |procs| :: procs[i].action.Procedure?
    requires forall i | 0 <= i < |exporting| :: exporting[i].action.DefaultExport?
    requires forall i | 0 <= i < |cons| :: cons[i].action.Constraint?
    ensures InOrder(rename + procs + exporting + cons) && RanksWithin(rename + procs + exporting + cons, 4, 7)
  {
    SameRank(rename, 4);
    SameRank(procs, 5);
    SameRank(exporting, 6);
    SameRank(cons, 7);
    InOrderConcat(rename, procs, 4, 5, 5);
    InOrderConcat(rename + procs, exporting, 4, 6, 6);
    InOrderConcat(rename + procs + exporting, cons, 4, 7, 7);
  }

  /** The position of each kind of action in the fixed installation order. */
  function Rank(a: Installed): nat {
    match a
    case SetActiveAndCurrentLayer => 0
    case SetActiveAfterAction => 1
    case RemoveLocksAroundAction => 2
    case InitialInvoker => 3
    case DefaultRename(_) => 4
    case Procedure(_, _) => 5
    case DefaultExport(_) => 6
    case Constraint(_, _) => 7
  }

  /** `_add_actions`: the fixed prefix, then the configured actions in the default procedures group. */
  function AddActions(pdb: string -> Option<PdbProcedure>, s: Settings): (r: Result<seq<Added>, ActionError>)
    ensures r.Ok? ==> InOrder(r.value)
    ensures r.Ok? ==> |r.value| >= 3 && r.value[0].action == SetActiveAndCurrentLayer
                      && r.value[1] == Added(SetActiveAfterAction, [s.names.defaultProcedures], true)
    ensures r.Ok? ==> ((exists x | x in r.value :: x.action == RemoveLocksAroundAction) <==> s.editMode)
    ensures r.Ok? ==> Added(InitialInvoker, s.initialGroups, false) in r.value
    ensures r.Err? <==> AddConfigured(pdb, s, [s.names.defaultProcedures], None, None).Err?
    ensures r.Ok? ==> var rest := AddConfigured(pdb, s, [s.names.defaultProcedures], None, None).value;
                      |rest| < |r.value| && r.value[|r.value| - |rest|..] == rest
  {
    var g := [s.names.defaultProcedures];
    match AddConfigured(pdb, s, g, None, None)
    case Err(e) => Err(e)
    case Ok(rest) =>
      PrefixThenRest(g, s.editMode, s.initialGroups, rest);
      Ok(ActionPrefix(g, s.editMode, s.initialGroups) + rest)
  }

  /** The actions `_add_actions` installs before the configured ones. */
  function ActionPrefix(g: seq<string>, editMode: bool, initialGroups: seq<string>): seq<Added> {
    var locks := if editMode then [Added(RemoveLocksAroundAction, g, true)] else [];
    [Added(SetActiveAndCurrentLayer, g, false), Added(SetActiveAfterAction, g, true)]
    + locks + [Added(InitialInvoker, initialGroups, false)]
  }

  lemma PrefixThenRest(g: seq<string>, editMode: bool, initialGroups: seq<string>, rest: seq<Added>)
    requires InOrder(rest) && RanksWithin(rest, 4, 7)
    ensures var r := ActionPrefix(g, editMode, initialGroups) + rest;
            && InOrder(r)
            && |r| >= 3 && r[0].action == SetActiveAndCurrentLayer
            && r[1] == Added(SetActiveAfterAction, g, true)
            && ((exists x | x in r :: x.action == RemoveLocksAroundAction) <==> editMode)
            && Added(InitialInvoker, initialGroups, false) in r
  {
    var prefix := ActionPrefix(g, editMode, initialGroups);
    var r := prefix + rest;
    assert forall i | 0 <= i < |prefix| :: Rank(prefix[i].action) == if i == |prefix| - 1 then 3 else i;
    InOrderConcat(prefix, rest, 0, 4, 7);
    assert r[0] == prefix[0] && r[1] == prefix[1];
    assert prefix[|prefix| - 1] in r;
    if editMode {
      assert r[2] == prefix[2];
    } else {
      forall x | x in r
        ensures x.action != RemoveLocksAroundAction
      {
        if x !in prefix {
          var i :| 0 <= i < |rest| && rest[i] == x;
        }
      }
    }
  }

  /**
   * `_add_name_only_actions`: the configured shape again, in the name-only
   * group, with exactly those procedures and constraints added that carry
   * the name-only tag and that the full pass adds.
   */
  function AddNameOnlyActions(pdb: string -> Option<PdbProcedure>, s: Settings): (r: Result<seq<Added>, ActionError>)
    ensures r.Ok? ==> forall i | 0 <= i < |r.value| :: r.value[i].groups == [NameOnlyGroup]
    ensures var tags, groups := Some([s.names.nameOnlyTag]), Some([NameOnlyGroup]);
            && (forall a | a in s.procedures ::
                  a in Selected(pdb, s.isPreview, s.procedures, tags, groups)
                  <==> s.names.nameOnlyTag in a.tags && Wraps(pdb, s.isPreview, a, None, None))
            && (forall a | a in s.constraints ::
                  a in Selected(pdb, s.isPreview, s.constraints, tags, groups)
                  <==> s.names.nameOnlyTag in a.tags && Wraps(pdb, s.isPreview, a, None, None))
            && (r.Ok? ==>
                  var n := if InstallsDefault(s.editMode, s.procedures, "rename") then 1 else 0;
                  var procs := EntriesFor(pdb, s.isPreview, s.procedures, false, tags, groups);
                  var cons := EntriesFor(pdb, s.isPreview, s.constraints, true, tags, groups);
                  && n + |procs| + |cons| <= |r.value|
                  && r.value[n..n + |procs|] == procs
                  && r.value[|r.value| - |cons|..] == cons)
  {
    var tags, groups := Some([s.names.nameOnlyTag]), Some([NameOnlyGroup]);
    NameOnlySelection(pdb, s.isPreview, s.procedures, s.names.nameOnlyTag, [NameOnlyGroup]);
    NameOnlySelection(pdb, s.isPreview, s.constraints, s.names.nameOnlyTag, [NameOnlyGroup]);
    ConfiguredEntries(pdb, s, [NameOnlyGroup], tags, groups);
    ConfiguredConstraintsLast(pdb, s, [NameOnlyGroup], tags, groups);
    match AddConfigured(pdb, s, [NameOnlyGroup], tags, groups)
    case Err(e) => Err(e)
    case Ok(r) => Ok(r)
  }

  /** A setting is selected under the name-only tag iff it carries the tag and wraps without restriction. */
  lemma NameOnlyWrapsTagged(pdb: string -> Option<PdbProcedure>, isPreview: bool, a: ActionSetting, tag: string,
                            g: seq<string>)
    ensures Wraps(pdb, isPreview, a, Some([tag]), Some(g)) <==> tag in a.tags && Wraps(pdb, isPreview, a, None, None)
  {
    assert TagsAllow(Some([tag]), a.tags) <==> tag in a.tags by {
      if tag in a.tags {
        assert [tag][0] in a.tags;
      }
    }
  }

  lemma NameOnlySelection(pdb: string -> Option<PdbProcedure>, isPreview: bool, list: seq<ActionSetting>, tag: string,
                          g: seq<string>)
    ensures forall a | a in list ::
              a in Selected(pdb, isPreview, list, Some([tag]), Some(g)) <==> tag in a.tags && Wraps(pdb, isPreview, a, None, None)
  {
    forall a | a in list
      ensures a in Selected(pdb, isPreview, list, Some([tag]), Some(g)) <==> tag in a.tags && Wraps(pdb, isPreview, a, None, None)
    {
      SelectedMembers(pdb, isPreview, list, Some([tag]), Some(g), a);
      NameOnlyWrapsTagged(pdb, isPreview, a, tag, g);
    }
  }

  /** `_get_args_for_constraint_func`: the batcher argument is dropped unless the rule declares it. */
  function ConstraintArgs(keepsBatcherArg: bool, args: seq<Arg>): (r: seq<Arg>)
    ensures keepsBatcherArg ==> r == args
    ensures !keepsBatcherArg && args != [] ==> [args[0]] + r == args
    ensures !keepsBatcherArg && args == [] ==> r == []
  {
    if keepsBatcherArg then args else args[..0] + args[Min(1, |args|)..]
  }

  /**
   * The subfilter a constraint is added to: the first existing subfilter of
   * that name, or a new one appended to the filter.
   */
  function SubfilterFor(subfilters: seq<string>, name: string): (r: (nat, seq<string>))
    ensures r.0 < |r.1| && r.1[r.0] == name
    ensures name in subfilters ==> r.1 == subfilters && forall j | 0 <= j < r.0 :: subfilters[j] != name
    ensures name !in subfilters ==> r.1 == subfilters + [name] && r.0 == |subfilters|
  {
    match ParamIndex(subfilters, name)
    case Some(i) => (i, subfilters)
    case None => (|subfilters|, subfilters + [name])
  }

  /** A second constraint with the same subfilter name reuses the subfilter the first one found or made. */
  lemma SubfilterReused(subfilters: seq<string>, name: string)
    ensures var (i, after) := SubfilterFor(subfilters, name);
            SubfilterFor(after, name) == (i, after)
  {
    var (i, after) := SubfilterFor(subfilters, name);
    if name !in subfilters {
      assert forall j | 0 <= j < |subfilters| :: after[j] == subfilters[j];
      assert name !in after[..i];
    }
  }

  /**
   * One recorded step of a run: an action group invoked (for an item, when
   * per-item), the default constraints group invoked with the batcher while
   * processing is prepared, or an image effect.
   */
  datatype Event =
    | Invoked(group: string, item: Option<nat>)
    | ConstraintsSet(constraints: string)
    | CopiedItem(copied: nat)
    | ImageCopyDeleted

  datatype RunConfig = RunConfig(editMode: bool, isPreview: bool, processContents: bool, processNames: bool,
                                 keepImageCopy: bool, names: GroupNames)

  /** Whether the run works on a copy of the input image. */
  predicate UsesImageCopy(c: RunConfig) {
    c.processContents && (!c.editMode || c.isPreview)
  }

  /** Events that each concern one item: copying it or invoking a group for it. */
  predicate ItemOnly(events: seq<Event>) {
    forall e | e in events :: e.CopiedItem? || (e.Invoked? && e.item.Some?)
  }

  /**
   * `_process_item`: the name-only actions in a preview that processes names,
   * then the actions on the item's contents. `fails` makes the default
   * procedures raise for this item, which ends the item's events there; the
   * default procedures run only when contents are processed.
   */
  function ItemEvents(c: RunConfig, item: nat, fails: bool): (events: seq<Event>)
    ensures ItemOnly(events)
    ensures fails && c.processContents ==>
              events != [] && events[|events| - 1] == Invoked(c.names.defaultProcedures, Some(item))
    ensures !c.processContents ==> forall e | e in events :: e.Invoked? && e.item == Some(item)
  {
    var names := if c.isPreview && c.processNames then
                   [Invoked("before_process_item", Some(item)), Invoked(NameOnlyGroup, Some(item)),
                    Invoked("after_process_item", Some(item))]
                 else [];
    if !c.processContents then names
    else
      var copy := if !c.editMode || c.isPreview then [CopiedItem(item)] else [];
      var upTo := [Invoked("before_process_item", Some(item)), Invoked("before_process_item_contents", Some(item)),
                   Invoked(c.names.defaultProcedures, Some(item))];
      var after := [Invoked("after_process_item_contents", Some(item)), Invoked("after_process_item", Some(item))];
      names + copy + upTo + (if fails then [] else after)
  }

  const StoppedMessage := "stopped by user"

  /**
   * The loop of `_process_items` from item `k`: the events and the error that
   * ended it, if any. `failing` is the item whose default procedures raise;
   * those procedures run only when contents are processed.
   */
  function ProcessFrom(c: RunConfig, items: seq<nat>, k: nat, stopDuring: Option<nat>, failing: Option<nat>)
    : (r: (seq<Event>, Option<BatcherError>))
    requires k <= |items|
    ensures r.1.None? ==> (stopDuring.None? || stopDuring.value >= |items| - 1 || stopDuring.value < k)
                          || k == |items|
    ensures r.1.Some? ==> r.1.value.BatcherCancelError? || r.1.value.ItemProcessingFailed?
    decreases |items| - k
  {
    if k == |items| then ([], None)
    else if stopDuring.Some? && stopDuring.value < k then ([], Some(BatcherCancelError(StoppedMessage)))
    else
      var fails := failing == Some(k) && c.processContents;
      var here := ItemEvents(c, items[k], fails);
      if fails then (here, Some(ItemProcessingFailed(items[k])))
      else
        var rest := ProcessFrom(c, items, k + 1, stopDuring, failing);
        (here + rest.0, rest.1)
  }

  datatype RunReport = RunReport(events: seq<Event>, result: Result<bool, BatcherError>)

  /**
   * `run`: the run-level hooks around the items, then the clean-up, which
   * happens whether or not processing raised. The result says whether the
   * image copy is returned. A stop requested before the run is forgotten,
   * since the flag is cleared when processing is prepared.
   */
  function Run(c: RunConfig, items: seq<nat>, stopDuring: Option<nat>, failing: Option<nat>): (r: RunReport)
    ensures |r.events| >= 2 && r.events[0] == ConstraintsSet(c.names.defaultConstraints)
    ensures r.events[1] == Invoked("before_process_items", None)
    ensures c.processContents ==> Invoked("cleanup_contents", None) in r.events
    ensures (Invoked("after_process_items", None) in r.events) <==> r.result.Ok?
    ensures r.result.Ok? ==> (r.result.value <==> UsesImageCopy(c) && c.keepImageCopy)
    ensures r.result.Ok? && r.result.value ==> ImageCopyDeleted !in r.events
    ensures r.result.Err? && UsesImageCopy(c) ==> ImageCopyDeleted in r.events
    ensures !UsesImageCopy(c) ==> ImageCopyDeleted !in r.events
  {
    var (itemEvents, error) := ProcessFrom(c, items, 0, stopDuring, failing);
    NoRunHooksInItems(c, items, 0, stopDuring, failing);
    var start := StartEvents(c);
    var events := start + itemEvents + FinishEvents(c, error.Some?) + CleanupEvents(c, error.Some?);
    assert events[0] == start[0] && events[1] == start[1];
    RunReport(events, if error.Some? then Err(error.value) else Ok(c.keepImageCopy && UsesImageCopy(c)))
  }

  /** The run-level events before the first item: the constraints set while preparing, then the start hooks. */
  function StartEvents(c: RunConfig): (events: seq<Event>)
    ensures |events| >= 2 && events[0] == ConstraintsSet(c.names.defaultConstraints)
    ensures events[1] == Invoked("before_process_items", None)
    ensures ImageCopyDeleted !in events && Invoked("after_process_items", None) !in events
  {
    [ConstraintsSet(c.names.defaultConstraints), Invoked("before_process_items", None)]
    + (if c.processContents then [Invoked("before_process_items_contents", None)] else [])
  }

  /** The run-level hooks after the last item, reached only when no item raised. */
  function FinishEvents(c: RunConfig, raised: bool): (events: seq<Event>)
    ensures (Invoked("after_process_items", None) in events) <==> !raised
    ensures ImageCopyDeleted !in events
  {
    if raised then []
    else (if c.processContents then [Invoked("after_process_items_contents", None)] else [])
         + [Invoked("after_process_items", None)]
  }

  /**
   * `_cleanup_contents`, run whether or not processing raised: the clean-up
   * group, then the image copy is deleted unless it is kept and nothing
   * raised.
   */
  function CleanupEvents(c: RunConfig, raised: bool): (events: seq<Event>)
    ensures c.processContents ==> Invoked("cleanup_contents", None) in events
    ensures (ImageCopyDeleted in events) <==> UsesImageCopy(c) && (!c.keepImageCopy || raised)
    ensures Invoked("after_process_items", None) !in events
  {
    if !c.processContents then []
    else
      [Invoked("cleanup_contents", None)]
      + (if UsesImageCopy(c) && (!c.keepImageCopy || raised) then [ImageCopyDeleted] else [])
  }

  /** Item events never include the run-level hooks or a deletion of the image copy. */
  lemma {:induction false} NoRunHooksInItems(c: RunConfig, items: seq<nat>, k: nat, stopDuring: Option<nat>,
                                            failing: Option<nat>)
    requires k <= |items|
    ensures ItemOnly(ProcessFrom(c, items, k, stopDuring, failing).0)
    decreases |items| - k
  {
    if k < |items| && !(stopDuring.Some? && stopDuring.value < k) && !(failing == Some(k) && c.processContents) {
      NoRunHooksInItems(c, items, k + 1, stopDuring, failing);
      var here := ItemEvents(c, items[k], false);
      var rest := ProcessFrom(c, items, k + 1, stopDuring, failing).0;
      assert ProcessFrom(c, items, k, stopDuring, failing).0 == here + rest;
      assert forall e | e in here + rest :: e in here || e in rest;
    }
  }

  /** A stop requested while any item but the last is processed ends the run with a cancel error. */
  lemma {:induction false} StopCancelsRun(c: RunConfig, items: seq<nat>, j: nat, failing: Option<nat>)
    requires j + 1 < |items|
    requires failing.None? || failing.value > j
    ensures Run(c, items, Some(j), failing).result == Err(BatcherCancelError(StoppedMessage))
  {
    StopCancelsFrom(c, items, 0, j, failing);
  }

  lemma {:induction false} StopCancelsFrom(c: RunConfig, items: seq<nat>, k: nat, j: nat, failing: Option<nat>)
    requires k <= j + 1 < |items|
    requires failing.None? || failing.value > j
    ensures ProcessFrom(c, items, k, Some(j), failing).1 == Some(BatcherCancelError(StoppedMessage))
    decreases |items| - k
  {
    if k <= j {
      StopCancelsFrom(c, items, k + 1, j, failing);
    }
  }

  /** Items after a stop are never touched: no event of the run mentions an item past the stop. */
  lemma {:induction false} NothingAfterStop(c: RunConfig, items: seq<nat>, k: nat, j: nat, failing: Option<nat>)
    requires k <= |items| && j < |items|
    ensures forall e | e in ProcessFrom(c, items, k, Some(j), failing).0 ::
              exists i | k <= i <= j :: e == CopiedItem(items[i]) || (e.Invoked? && e.item == Some(items[i]))
    decreases |items| - k
  {
    if k < |items| && k <= j && !(failing == Some(k) && c.processContents) {
      NothingAfterStop(c, items, k + 1, j, failing);
      var here := ItemEvents(c, items[k], false);
      forall e | e in ProcessFrom(c, items, k, Some(j), failing).0
        ensures exists i | k <= i <= j :: e == CopiedItem(items[i]) || (e.Invoked? && e.item == Some(items[i]))
      {
        if e in here {
          ItemEventsMentionItem(c, items[k], false, e);
        }
      }
    } else if k < |items| && k <= j {
      forall e | e in ProcessFrom(c, items, k, Some(j), failing).0
        ensures e == CopiedItem(items[k]) || (e.Invoked? && e.item == Some(items[k]))
      {
        ItemEventsMentionItem(c, items[k], true, e);
      }
    }
  }

  lemma ItemEventsMentionItem(c: RunConfig, item: nat, fails: bool, e: Event)
    requires e in ItemEvents(c, item, fails)
    ensures e == CopiedItem(item) || (e.Invoked? && e.item == Some(item))
  {
    var names := if c.isPreview && c.processNames then
                   [Invoked("before_process_item", Some(item)), Invoked(NameOnlyGroup, Some(item)),
                    Invoked("after_process_item", Some(item))]
                 else [];
    if c.processContents {
      var copy := if !c.editMode || c.isPreview then [CopiedItem(item)] else [];
      var upTo := [Invoked("before_process_item", Some(item)), Invoked("before_process_item_contents", Some(item)),
                   Invoked(c.names.defaultProcedures, Some(item))];
      var after := [Invoked("after_process_item_contents", Some(item)), Invoked("after_process_item", Some(item))];
      assert e in names || e in copy || e in upTo || e in after;
    }
  }

  /** The hooks `_process_item` invokes for an item, in the order it invokes them. */
  function ItemHooks(c: RunConfig, item: nat, fails: bool): seq<Event> {
    (if c.isPreview && c.processNames then
       [Invoked("before_process_item", Some(item)), Invoked(NameOnlyGroup, Some(item)),
        Invoked("after_process_item", Some(item))]
     else [])
    + (if !c.processContents then []
       else [Invoked("before_process_item", Some(item)), Invoked("before_process_item_contents", Some(item)),
             Invoked(c.names.defaultProcedures, Some(item))]
            + (if fails then [] else [Invoked("after_process_item_contents", Some(item)),
                                      Invoked("after_process_item", Some(item))]))
  }

  /**
   * An item's name-only pass comes first; in its contents pass,
   * `before_process_item` precedes `before_process_item_contents`, which
   * precedes the default procedures, then `after_process_item_contents` and
   * last `after_process_item`, so the contents hooks nest inside the item's
   * hooks. Besides these hooks there is at most the copy of the item.
   */
  lemma ItemHooksInOrder(c: RunConfig, item: nat, fails: bool)
    ensures IsSubsequence(ItemHooks(c, item, fails), ItemEvents(c, item, fails))
    ensures forall e | e in ItemEvents(c, item, fails) :: e in ItemHooks(c, item, fails) || e == CopiedItem(item)
  {
    var names := if c.isPreview && c.processNames then
                   [Invoked("before_process_item", Some(item)), Invoked(NameOnlyGroup, Some(item)),
                    Invoked("after_process_item", Some(item))]
                 else [];
    SubsequenceOfItself(names);
    if c.processContents {
      var copy := if !c.editMode || c.isPreview then [CopiedItem(item)] else [];
      var contents := [Invoked("before_process_item", Some(item)), Invoked("before_process_item_contents", Some(item)),
                       Invoked(c.names.defaultProcedures, Some(item))]
                      + (if fails then [] else [Invoked("after_process_item_contents", Some(item)),
                                                Invoked("after_process_item", Some(item))]);
      SubsequenceOfItself(contents);
      SubsequencePadded(contents, copy, contents);
      SubsequenceConcat(names, contents, names, copy + contents);
      assert ItemEvents(c, item, fails) == names + (copy + contents);
      assert ItemHooks(c, item, fails) == names + contents;
    } else {
      assert ItemHooks(c, item, fails) == names;
    }
  }

  /** The item an item event is about; run-level events have none and read as 0. */
  function ItemOf(e: Event): nat {
    match e
    case CopiedItem(x) => x
    case Invoked(_, Some(x)) => x
    case _ => 0
  }

  /** The position of the first occurrence of `x` in `items`, or `|items|` when it does not occur. */
  function IndexIn(items: seq<nat>, x: nat): (r: nat)
    ensures r <= |items| && (r < |items| ==> items[r] == x)
    ensures forall i | 0 <= i < r :: items[i] != x
  {
    if items == [] then 0
    else if items[0] == x then 0
    else 1 + IndexIn(items[1..], x)
  }

  /** In a list without repetitions, each element's first occurrence is its own position. */
  lemma IndexInDistinct(items: seq<nat>, k: nat)
    requires k < |items| && forall i, j | 0 <= i < j < |items| :: items[i] != items[j]
    ensures IndexIn(items, items[k]) == k
  {
    var r := IndexIn(items, items[k]);
    if r < k {
      assert false;
    }
  }

  /** The ranks of the events never decrease along the sequence. */
  ghost predicate SortedBy(events: seq<Event>, rank: Event -> nat) {
    forall i, j | 0 <= i < j < |events| :: rank(events[i]) <= rank(events[j])
  }

  lemma SortedByConcat(a: seq<Event>, b: seq<Event>, rank: Event -> nat)
    requires SortedBy(a, rank) && SortedBy(b, rank)
    requires forall x, y | x in a && y in b :: rank(x) <= rank(y)
    ensures SortedBy(a + b, rank)
  {
    forall i, j | 0 <= i < j < |a + b|
      ensures rank((a + b)[i]) <= rank((a + b)[j])
    {
      if j < |a| {
        assert (a + b)[i] == a[i] && (a + b)[j] == a[j];
      } else if i >= |a| {
        assert (a + b)[i] == b[i - |a|] && (a + b)[j] == b[j - |a|];
      } else {
        assert (a + b)[i] in a && (a + b)[j] in b;
      }
    }
  }

  /** Events of one rank are sorted. */
  lemma SortedBySameRank(events: seq<Event>, rank: Event -> nat, n: nat)
    requires forall e | e in events :: rank(e) == n
    ensures SortedBy(events, rank)
  {
    forall i, j | 0 <= i < j < |events|
      ensures rank(events[i]) <= rank(events[j])
    {
      assert events[i] in events && events[j] in events;
    }
  }

  /** Where an event falls in a run: preparation and start hooks, item events, finish hooks, clean-up. */
  function Phase(e: Event): nat {
    match e
    case CopiedItem(_) => 1
    case ImageCopyDeleted => 3
    case ConstraintsSet(_) => 0
    case Invoked(g, item) =>
      if item.Some? then 1
      else if g == "before_process_items" || g == "before_process_items_contents" then 0
      else if g == "after_process_items" || g == "after_process_items_contents" then 2
      else 3
  }

  /**
   * Where an event falls in a run over `items`: the start hooks, then the
   * events of each item in list order, then the finish hooks, then the
   * clean-up.
   */
  function RunRank(items: seq<nat>, e: Event): nat {
    var p := Phase(e);
    if p == 0 then 0
    else if p == 1 then 1 + IndexIn(items, ItemOf(e))
    else |items| + p
  }

  /** The events of the item at position `k` of a list without repetitions all have that position. */
  lemma ItemEventsRanked(c: RunConfig, items: seq<nat>, k: nat, fails: bool)
    requires k < |items| && forall i, j | 0 <= i < j < |items| :: items[i] != items[j]
    ensures forall e | e in ItemEvents(c, items[k], fails) :: Phase(e) == 1 && IndexIn(items, ItemOf(e)) == k
  {
    IndexInDistinct(items, k);
    forall e | e in ItemEvents(c, items[k], fails)
      ensures Phase(e) == 1 && IndexIn(items, ItemOf(e)) == k
    {
      ItemEventsMentionItem(c, items[k], fails, e);
    }
  }

  /**
   * `run` in phases, whatever the items: the start hooks precede every item
   * event, which precede the finish hooks, which precede the clean-up.
   */
  lemma RunPhasesInOrder(c: RunConfig, items: seq<nat>, stopDuring: Option<nat>, failing: Option<nat>)
    ensures SortedBy(Run(c, items, stopDuring, failing).events, Phase)
  {
    var (itemEvents, error) := ProcessFrom(c, items, 0, stopDuring, failing);
    NoRunHooksInItems(c, items, 0, stopDuring, failing);
    assert forall e | e in itemEvents :: Phase(e) == 1;
    SortedBySameRank(itemEvents, Phase, 1);
    RunLevelPhases(c, error.Some?);
    PartsJoin(StartEvents(c), itemEvents, FinishEvents(c, error.Some?), CleanupEvents(c, error.Some?), Phase, 1);
    RunParts(c, items, stopDuring, failing);
  }

  /** A run's events are its start hooks, its item events, its finish hooks and its clean-up. */
  lemma RunParts(c: RunConfig, items: seq<nat>, stopDuring: Option<nat>, failing: Option<nat>)
    ensures var (itemEvents, error) := ProcessFrom(c, items, 0, stopDuring, failing);
            Run(c, items, stopDuring, failing).events
            == StartEvents(c) + itemEvents + FinishEvents(c, error.Some?) + CleanupEvents(c, error.Some?)
  {
  }

  /** The phase of each run-level hook. */
  lemma RunLevelPhases(c: RunConfig, raised: bool)
    ensures forall e | e in StartEvents(c) :: Phase(e) == 0
    ensures forall e | e in FinishEvents(c, raised) :: Phase(e) == 2
    ensures forall e | e in CleanupEvents(c, raised) :: Phase(e) == 3
  {
  }

  /** Every event of the loop from `k` is about an item at a position from `k` on. */
  lemma {:induction false} LoopItemPositions(c: RunConfig, items: seq<nat>, k: nat, stopDuring: Option<nat>,
                                            failing: Option<nat>)
    requires k <= |items| && forall i, j | 0 <= i < j < |items| :: items[i] != items[j]
    ensures forall e | e in ProcessFrom(c, items, k, stopDuring, failing).0
              :: Phase(e) == 1 && k <= IndexIn(items, ItemOf(e)) < |items|
    decreases |items| - k
  {
    var events := ProcessFrom(c, items, k, stopDuring, failing).0;
    if k < |items| && !(stopDuring.Some? && stopDuring.value < k) {
      var fails := failing == Some(k) && c.processContents;
      var here := ItemEvents(c, items[k], fails);
      ItemEventsRanked(c, items, k, fails);
      if fails {
        assert events == here;
      } else {
        var rest := ProcessFrom(c, items, k + 1, stopDuring, failing).0;
        LoopItemPositions(c, items, k + 1, stopDuring, failing);
        assert events == here + rest;
        assert forall e | e in events :: e in here || e in rest;
      }
    }
  }

  /**
   * The loop handles its items one after the other: the events of an item
   * precede those of any later item.
   */
  lemma {:induction false} LoopKeepsItemOrder(c: RunConfig, items: seq<nat>, k: nat, stopDuring: Option<nat>,
                                             failing: Option<nat>)
    requires k <= |items| && forall i, j | 0 <= i < j < |items| :: items[i] != items[j]
    ensures SortedBy(ProcessFrom(c, items, k, stopDuring, failing).0, e => RunRank(items, e))
    decreases |items| - k
  {
    var rank := e => RunRank(items, e);
    var events := ProcessFrom(c, items, k, stopDuring, failing).0;
    if k < |items| && !(stopDuring.Some? && stopDuring.value < k) {
      var fails := failing == Some(k) && c.processContents;
      var here := ItemEvents(c, items[k], fails);
      ItemEventsRanked(c, items, k, fails);
      SortedBySameRank(here, rank, 1 + k);
      if fails {
        assert events == here;
      } else {
        var rest := ProcessFrom(c, items, k + 1, stopDuring, failing).0;
        LoopKeepsItemOrder(c, items, k + 1, stopDuring, failing);
        LoopItemPositions(c, items, k + 1, stopDuring, failing);
        SortedByConcat(here, rest, rank);
        assert events == here + rest;
      }
    }
  }

  /**
   * `_process_items` and `run` in order: all start hooks precede every item
   * event; the events of item i precede those of item i + 1; every item
   * event precedes the finish hooks, which precede the clean-up.
   */
  lemma RunInOrder(c: RunConfig, items: seq<nat>, stopDuring: Option<nat>, failing: Option<nat>)
    requires forall i, j | 0 <= i < j < |items| :: items[i] != items[j]
    ensures SortedBy(Run(c, items, stopDuring, failing).events, e => RunRank(items, e))
  {
    var (itemEvents, error) := ProcessFrom(c, items, 0, stopDuring, failing);
    LoopKeepsItemOrder(c, items, 0, stopDuring, failing);
    LoopItemPositions(c, items, 0, stopDuring, failing);
    var rank := e => RunRank(items, e);
    assert forall e | e in itemEvents :: rank(e) <= |items|;
    RunLevelPhases(c, error.Some?);
    RunParts(c, items, stopDuring, failing);
    PartsJoin(StartEvents(c), itemEvents, FinishEvents(c, error.Some?), CleanupEvents(c, error.Some?), rank, |items| + 1);
  }

  /**
   * Start hooks (rank 0), sorted item events (ranks up to `m`), finish hooks
   * (rank `m + 1`) and clean-up (rank `m + 2`), joined in that order, are sorted.
   */
  lemma PartsJoin(start: seq<Event>, itemEvents: seq<Event>, finish: seq<Event>, cleanup: seq<Event>,
                  rank: Event -> nat, m: nat)
    requires forall e | e in start :: rank(e) == 0
    requires forall e | e in itemEvents :: rank(e) <= m
    requires SortedBy(itemEvents, rank)
    requires forall e | e in finish :: rank(e) == m + 1
    requires forall e | e in cleanup :: rank(e) == m + 2
    ensures SortedBy(start + itemEvents + finish + cleanup, rank)
  {
    SortedBySameRank(start, rank, 0);
    SortedBySameRank(finish, rank, m + 1);
    SortedBySameRank(cleanup, rank, m + 2);
    SortedByConcat(start, itemEvents, rank);
    var front := start + itemEvents;
    assert forall e | e in front :: rank(e) <= m;
    SortedByConcat(front, finish, rank);
    var body := front + finish;
    assert forall e | e in body :: rank(e) <= m + 1;
    SortedByConcat(body, cleanup, rank);
  }

  /**
   * How the loop from item `k` ends, stated without running it: a stop is
   * noticed at the first item after the one it was requested during, the
   * raising item raises when it is reached, and whichever comes first ends
   * the loop; a stop noticed at the raising item wins, since the flag is
   * checked before the item is processed.
   */
  function LoopOutcome(c: RunConfig, items: seq<nat>, k: nat, stopDuring: Option<nat>, failing: Option<nat>)
    : Option<BatcherError>
    requires k <= |items|
  {
    var stopAt := if stopDuring.None? then |items| else if stopDuring.value < k then k else stopDuring.value + 1;
    var raiseAt := if failing.Some? && c.processContents && k <= failing.value then failing.value else |items|;
    if raiseAt < |items| && raiseAt < stopAt then Some(ItemProcessingFailed(items[raiseAt]))
    else if stopAt < |items| then Some(BatcherCancelError(StoppedMessage))
    else None
  }

  /** The loop ends exactly as `LoopOutcome` says. */
  lemma {:induction false} LoopEndsAsStated(c: RunConfig, items: seq<nat>, k: nat, stopDuring: Option<nat>,
                                           failing: Option<nat>)
    requires k <= |items|
    ensures ProcessFrom(c, items, k, stopDuring, failing).1 == LoopOutcome(c, items, k, stopDuring, failing)
    decreases |items| - k
  {
    if k < |items| && !(stopDuring.Some? && stopDuring.value < k) && !(failing == Some(k) && c.processContents) {
      LoopEndsAsStated(c, items, k + 1, stopDuring, failing);
      assert LoopOutcome(c, items, k, stopDuring, failing) == LoopOutcome(c, items, k + 1, stopDuring, failing);
    }
  }

  /**
   * An item whose default procedures raise, reached without a stop, ends the
   * loop with `ItemProcessingFailed` for that item.
   */
  lemma RaisingItemEndsLoop(c: RunConfig, items: seq<nat>, k: nat, j: nat, stopDuring: Option<nat>,
                            failing: Option<nat>)
    requires k <= j < |items| && failing == Some(j) && c.processContents
    requires stopDuring.None? || stopDuring.value >= j
    ensures ProcessFrom(c, items, k, stopDuring, failing).1 == Some(ItemProcessingFailed(items[j]))
  {
    LoopEndsAsStated(c, items, k, stopDuring, failing);
  }

  /** When item `j` raises, no item after it has any event. */
  lemma {:induction false} NothingAfterRaise(c: RunConfig, items: seq<nat>, k: nat, j: nat,
                                            stopDuring: Option<nat>, failing: Option<nat>)
    requires k <= j < |items| && failing == Some(j) && c.processContents
    ensures forall e | e in ProcessFrom(c, items, k, stopDuring, failing).0
              :: exists i | k <= i <= j :: ItemOf(e) == items[i]
    decreases |items| - k
  {
    var events := ProcessFrom(c, items, k, stopDuring, failing).0;
    if !(stopDuring.Some? && stopDuring.value < k) {
      var fails := k == j;
      var here := ItemEvents(c, items[k], fails);
      forall e | e in here
        ensures ItemOf(e) == items[k]
      {
        ItemEventsMentionItem(c, items[k], fails, e);
      }
      if k < j {
        NothingAfterRaise(c, items, k + 1, j, stopDuring, failing);
        var rest := ProcessFrom(c, items, k + 1, stopDuring, failing).0;
        assert events == here + rest;
        assert forall e | e in events :: e in here || e in rest;
      } else {
        assert events == here;
      }
    }
  }

  /** A raising item fails the whole run: no finish hooks, but the clean-up still runs. */
  lemma RaisingItemFailsRun(c: RunConfig, items: seq<nat>, j: nat, stopDuring: Option<nat>, failing: Option<nat>)
    requires j < |items| && failing == Some(j) && c.processContents
    requires stopDuring.None? || stopDuring.value >= j
    ensures var r := Run(c, items, stopDuring, failing);
            && r.result == Err(ItemProcessingFailed(items[j]))
            && Invoked("after_process_items", None) !in r.events
            && Invoked("cleanup_contents", None) in r.events
  {
    RaisingItemEndsLoop(c, items, 0, j, stopDuring, failing);
  }
}

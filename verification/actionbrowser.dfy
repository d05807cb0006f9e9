/** `gui/actions/utils.py`: the description shown for an action. */
module ActionUtils {
  import opened Base

  /** A PDB procedure as far as the description reads it. */
  datatype PdbProcedure = PdbProcedure(blurb: Option<string>)

  /**
   * Where an action's description comes from when there is no PDB
   * procedure: an action dict (whose 'description' key may be missing, or
   * present and hold None) or a created action (a setting group whose
   * description setting may hold None).
   */
  datatype ActionSource =
    | ActionDict(hasDescription: bool, dictDescription: Option<string>)
    | ActionGroup(groupDescription: Option<string>)

  /**
   * `get_action_description`: the procedure's blurb when there is a
   * procedure, '' for a missing blurb, key or value; the result is None only
   * when an action dict stores None under 'description', which `dict.get`
   * passes through.
   */
  function ActionDescription(procedure: Option<PdbProcedure>, action: ActionSource): (r: Option<string>)
    ensures procedure.Some? ==> r == Some(if procedure.value.blurb.Some? then procedure.value.blurb.value else "")
    ensures procedure.None? && action.ActionDict? && !action.hasDescription ==> r == Some("")
    ensures procedure.None? && action.ActionDict? && action.hasDescription ==> r == action.dictDescription
    ensures procedure.None? && action.ActionGroup? ==>
              r == Some(if action.groupDescription.Some? then action.groupDescription.value else "")
  {
    match procedure
    case Some(p) => Some(if p.blurb.Some? then p.blurb.value else "")
    case None =>
      match action
      case ActionDict(has, d) => if has then d else Some("")
      case ActionGroup(d) => if d.Some? then d else Some("")
  }

  /** The only way to get no description at all. */
  lemma NoDescriptionOnlyFromDictNone(procedure: Option<PdbProcedure>, action: ActionSource)
    ensures ActionDescription(procedure, action).None? <==>
              procedure.None? && action == ActionDict(true, None)
  {
  }

  /** The procedure's blurb wins over any description the action carries. */
  lemma ProcedureTakesPrecedence(p: PdbProcedure, a: ActionSource, b: ActionSource)
    ensures ActionDescription(Some(p), a) == ActionDescription(Some(p), b)
    ensures p.blurb.Some? ==> ActionDescription(Some(p), a) == p.blurb
  {
  }
}

/**
 * The pure logic of the action browser (`gui/actions/browser.py`): search
 * normalisation and row visibility, the two sort comparators, and the
 * classification of PDB procedures into the browser's parent rows.
 */
module ActionBrowser {
  import opened Base
  import opened Text

  /** The parent rows, in the order they are appended. */
  datatype ActionType = PlugIns | GimpProcedures | FileLoadProcedures | FileSaveProcedures | OtherProcedures

  /** `Gimp.PDBProcType`. */
  datatype ProcType = Internal | Plugin | Extension | Temporary

  /** The setting classes an action argument may name. */
  datatype SettingType =
    | EnumSetting
    | ImageSetting
    | LayerSetting
    | DrawableSetting
    | ItemSetting
    | PlaceholderImageSetting
    | PlaceholderLayerSetting
    | PlaceholderDrawableSetting
    | PlaceholderItemSetting
    | PlaceholderDrawableArraySetting
    | PlaceholderLayerArraySetting
    | PlaceholderItemArraySetting
    | ArraySetting
    | OtherSetting

  /** An action argument: its setting type, whether its enum type is `Gimp.RunMode`, and its element type. */
  datatype Argument = Argument(settingType: SettingType, enumIsRunMode: bool, elementType: SettingType)

  /** A row of the browser's tree: name, menu name, description, type, and whether it is a parent row. */
  datatype Row = Row(name: string, menuName: string, description: string, actionType: ActionType, isParent: bool)

  /** Which of the three search criteria are ticked. */
  datatype SearchCriteria = SearchCriteria(byName: bool, byMenuName: bool, byDescription: bool)

  const ParentNames: seq<string> := ["plug_ins", "gimp_procedures", "file_load_procedures", "file_save_procedures", "other"]

  /** `_process_text_for_search`: underscores become hyphens, letters lower case. */
  function SearchText(text: string): (r: string)
    ensures |r| == |text|
    ensures '_' !in r
    ensures forall i | 0 <= i < |r| :: !('A' <= r[i] <= 'Z')
    ensures forall i | 0 <= i < |r| :: r[i] == LowerChar(if text[i] == '_' then '-' else text[i])
  {
    Lower(ReplaceChar(text, '_', '-'))
  }

  /** Normalising twice is normalising once. */
  lemma SearchTextIdempotent(text: string)
    ensures SearchText(SearchText(text)) == SearchText(text)
  {
    var once := SearchText(text);
    var twice := SearchText(once);
    assert forall i | 0 <= i < |once| :: twice[i] == once[i];
  }

  /** Two texts search alike exactly when they agree character by character up to case and '_' versus '-'. */
  lemma SearchTextIgnoresCaseAndUnderscores(a: string, b: string)
    ensures SearchText(a) == SearchText(b) <==>
              |a| == |b|
              && forall i | 0 <= i < |a| ::
                   LowerChar(if a[i] == '_' then '-' else a[i]) == LowerChar(if b[i] == '_' then '-' else b[i])
  {
    if SearchText(a) == SearchText(b) {
      forall i | 0 <= i < |a|
        ensures LowerChar(if a[i] == '_' then '-' else a[i]) == LowerChar(if b[i] == '_' then '-' else b[i])
      {
        assert SearchText(a)[i] == SearchText(b)[i];
      }
    }
  }

  /** The texts the ticked criteria search, normalised, in the order name, menu name, description. */
  function CriteriaTexts(row: Row, criteria: SearchCriteria): (r: seq<string>)
    ensures |r| <= 3
    ensures criteria.byName ==> SearchText(row.name) in r
    ensures criteria.byMenuName ==> SearchText(row.menuName) in r
    ensures criteria.byDescription ==> SearchText(row.description) in r
    ensures forall t | t in r ::
              (criteria.byName && t == SearchText(row.name))
              || (criteria.byMenuName && t == SearchText(row.menuName))
              || (criteria.byDescription && t == SearchText(row.description))
  {
    (if criteria.byName then [SearchText(row.name)] else [])
    + (if criteria.byMenuName then [SearchText(row.menuName)] else [])
    + (if criteria.byDescription then [SearchText(row.description)] else [])
  }

  /**
   * `_get_row_visibility_based_on_search_query`: parent rows are always
   * shown; any other row is shown when the normalised query occurs in one of
   * the ticked criteria.
   */
  function RowVisible(row: Row, query: string, criteria: SearchCriteria): (r: bool)
    ensures row.isParent ==> r
    ensures !row.isParent ==>
              (r <==> (criteria.byName && Contains(SearchText(row.name), SearchText(query)))
                      || (criteria.byMenuName && Contains(SearchText(row.menuName), SearchText(query)))
                      || (criteria.byDescription && Contains(SearchText(row.description), SearchText(query))))
  {
    if row.isParent then true
    else
      var q := SearchText(query);
      var texts := CriteriaTexts(row, criteria);
      exists i | 0 <= i < |texts| :: Contains(texts[i], q)
  }

  /** With no criterion ticked only the parent rows are shown. */
  lemma NoCriteriaHidesChildren(row: Row, query: string)
    ensures RowVisible(row, query, SearchCriteria(false, false, false)) <==> row.isParent
  {
  }

  /** The empty query shows every row as soon as one criterion is ticked. */
  lemma EmptyQueryShowsAll(row: Row, criteria: SearchCriteria)
    requires criteria.byName || criteria.byMenuName || criteria.byDescription
    ensures RowVisible(row, "", criteria)
  {
    assert SearchText("") == "";
    var t := if criteria.byName then row.name else if criteria.byMenuName then row.menuName else row.description;
    assert StartsWith(SearchText(t), "");
  }

  /** Searching for the normalised query shows the same rows as searching for the query. */
  lemma NormalisedQuerySameRows(row: Row, query: string, criteria: SearchCriteria)
    ensures RowVisible(row, SearchText(query), criteria) == RowVisible(row, query, criteria)
  {
    SearchTextIdempotent(query);
  }

  /** Python's three-way comparison of two strings. */
  function CompareText(a: string, b: string): int {
    if LexLess(a, b) then -1 else if a == b then 0 else 1
  }

  /**
   * `_sort_actions_by_name`: rows of different types compare equal, so that
   * the order of the parents stays as it is; otherwise by name.
   */
  function CompareByName(a: Row, b: Row): (r: int)
    ensures -1 <= r <= 1
    ensures a.actionType != b.actionType ==> r == 0
    ensures a.actionType == b.actionType ==> (r < 0 <==> LexLess(a.name, b.name)) && (r == 0 <==> a.name == b.name)
  {
    if a.actionType == b.actionType then
      LexTrichotomy(a.name, b.name);
      CompareText(a.name, b.name)
    else 0
  }

  /** Swapping the rows negates the comparison. */
  lemma CompareByNameAntisymmetric(a: Row, b: Row)
    ensures CompareByName(a, b) == -CompareByName(b, a)
  {
    LexTrichotomy(a.name, b.name);
  }

  /** Within one type the name order is transitive. */
  lemma CompareByNameTransitive(a: Row, b: Row, c: Row)
    requires CompareByName(a, b) < 0 && CompareByName(b, c) < 0
    ensures CompareByName(a, c) < 0
  {
    LexLessTransitive(a.name, b.name, c.name);
  }

  /**
   * `_sort_actions_by_menu_name`: rows of different types compare equal;
   * within a type empty menu names come after all others, two empty menu
   * names are equal, and otherwise by menu name.
   */
  function CompareByMenuName(a: Row, b: Row): (r: int)
    ensures -1 <= r <= 1
    ensures a.actionType != b.actionType ==> r == 0
    ensures a.actionType == b.actionType && a.menuName == "" && b.menuName != "" ==> r == 1
    ensures a.actionType == b.actionType && a.menuName != "" && b.menuName == "" ==> r == -1
    ensures a.actionType == b.actionType ==> (r == 0 <==> a.menuName == b.menuName)
  {
    if a.actionType == b.actionType then
      var x, y := a.menuName, b.menuName;
      if x != "" && y != "" then
        LexTrichotomy(x, y);
        CompareText(x, y)
      else if x == "" && y == "" then 0
      else if x == "" && y != "" then 1
      else -1
    else 0
  }

  lemma CompareByMenuNameAntisymmetric(a: Row, b: Row)
    ensures CompareByMenuName(a, b) == -CompareByMenuName(b, a)
  {
    LexTrichotomy(a.menuName, b.menuName);
  }

  /**
   * The menu-name order is the name order on the key (empty?, menu name):
   * a row sorts before another of its type exactly when it has a menu name
   * and the other has none, or both have one and it is smaller.
   */
  lemma CompareByMenuNameOrder(a: Row, b: Row)
    requires a.actionType == b.actionType
    ensures CompareByMenuName(a, b) < 0 <==>
              (a.menuName != "" && b.menuName == "") || (a.menuName != "" && b.menuName != "" && LexLess(a.menuName, b.menuName))
  {
    LexTrichotomy(a.menuName, b.menuName);
  }

  lemma CompareByMenuNameTransitive(a: Row, b: Row, c: Row)
    requires CompareByMenuName(a, b) < 0 && CompareByMenuName(b, c) < 0
    ensures CompareByMenuName(a, c) < 0
  {
    CompareByMenuNameOrder(a, b);
    CompareByMenuNameOrder(b, c);
    CompareByMenuNameOrder(a, c);
    if a.menuName != "" && b.menuName != "" && c.menuName != "" {
      LexLessTransitive(a.menuName, b.menuName, c.menuName);
    }
  }

  /** `_is_action_argument_run_mode`. */
  predicate IsRunMode(arg: Argument) {
    arg.settingType == EnumSetting && arg.enumIsRunMode
  }

  /** `_is_action_argument_image_drawable_or_drawables`. */
  predicate IsImageOrDrawable(arg: Argument) {
    arg.settingType in {ImageSetting, LayerSetting, DrawableSetting, ItemSetting,
                        PlaceholderImageSetting, PlaceholderLayerSetting, PlaceholderDrawableSetting,
                        PlaceholderItemSetting, PlaceholderDrawableArraySetting,
                        PlaceholderLayerArraySetting, PlaceholderItemArraySetting}
    || (arg.settingType == ArraySetting && arg.elementType in {ImageSetting, LayerSetting, DrawableSetting, ItemSetting})
  }

  /** `_has_plugin_procedure_image_or_drawable_arguments`, its conditions taken in the order the source checks them. */
  function HasImageOrDrawableArguments(args: seq<Argument>): (r: bool) {
    if args == [] then false
    else if |args| == 1 then IsImageOrDrawable(args[0])
    else if IsRunMode(args[0]) && IsImageOrDrawable(args[1]) then true
    else IsImageOrDrawable(args[0])
  }

  /**
   * The argument shape in one statement: the first argument is an image or
   * drawable, or it is the run mode and the second one is.
   */
  lemma ArgumentShape(args: seq<Argument>)
    ensures HasImageOrDrawableArguments(args) <==>
              && args != []
              && (IsImageOrDrawable(args[0]) || (|args| >= 2 && IsRunMode(args[0]) && IsImageOrDrawable(args[1])))
  {
  }

  /** A name of the form `file-...-load` or `file-...-load-...` (and likewise for `save`). */
  predicate IsFileProcedureName(name: string, verb: string) {
    StartsWith(name, "file-") && (EndsWith(name, "-" + verb) || Contains(name, "-" + verb + "-"))
  }

  predicate IsPluginProcType(t: ProcType) {
    t in {Plugin, Extension, Temporary}
  }

  /** The classification in `fill_contents_if_empty`. */
  function Classify(name: string, procType: ProcType, args: seq<Argument>): (r: ActionType)
    ensures r != OtherProcedures && r != PlugIns <== !StartsWith(name, "plug-in-") && !IsPluginProcType(procType)
    ensures r == FileLoadProcedures <==> IsFileProcedureName(name, "load")
    ensures r == FileSaveProcedures <==> !IsFileProcedureName(name, "load") && IsFileProcedureName(name, "save")
    ensures r == GimpProcedures <==>
              && !IsFileProcedureName(name, "load") && !IsFileProcedureName(name, "save")
              && !StartsWith(name, "plug-in-") && !IsPluginProcType(procType)
  {
    if IsFileProcedureName(name, "load") then FileLoadProcedures
    else if IsFileProcedureName(name, "save") then FileSaveProcedures
    else if StartsWith(name, "plug-in-") || IsPluginProcType(procType) then
      if HasImageOrDrawableArguments(args) then PlugIns else OtherProcedures
    else GimpProcedures
  }

  /** Plug-ins, whatever their name, land under "Plug-ins" or "Other" depending on their arguments alone. */
  lemma PluginsSplitByArguments(name: string, procType: ProcType, args: seq<Argument>)
    requires !IsFileProcedureName(name, "load") && !IsFileProcedureName(name, "save")
    requires StartsWith(name, "plug-in-") || IsPluginProcType(procType)
    ensures Classify(name, procType, args) == PlugIns <==>
              args != [] && (IsImageOrDrawable(args[0]) || (|args| >= 2 && IsRunMode(args[0]) && IsImageOrDrawable(args[1])))
    ensures Classify(name, procType, args) != PlugIns ==> Classify(name, procType, args) == OtherProcedures
  {
    ArgumentShape(args);
  }

  /** The menu-name column: the display name, left empty when it repeats the name. */
  function MenuNameColumn(name: string, displayName: string): (r: string)
    ensures r == "" <==> displayName == name || displayName == ""
    ensures r != "" ==> r == displayName
  {
    if displayName != name then displayName else ""
  }

  /** The row appended for a PDB procedure. */
  function ProcedureRow(name: string, displayName: string, description: string, procType: ProcType, args: seq<Argument>)
    : (r: Row)
    ensures !r.isParent && r.name == name && r.description == description
    ensures r.actionType == Classify(name, procType, args)
    ensures r.menuName == MenuNameColumn(name, displayName)
  {
    Row(name, MenuNameColumn(name, displayName), description, Classify(name, procType, args), false)
  }

  /** The row of a procedure whose display name is its name sorts after every row of its type that has a menu name. */
  lemma UndisplayedNameSortsLast(row: Row, other: Row, name: string, description: string, procType: ProcType,
                                 args: seq<Argument>)
    requires row == ProcedureRow(name, name, description, procType, args)
    requires other.actionType == row.actionType && other.menuName != ""
    ensures CompareByMenuName(row, other) == 1
  {
  }
}

/**
 * The built-in export procedure of the older engine
 * (`export_layers/export.py`): per item it renames the item (parents first,
 * each at most once), resolves an existing file through the overwrite
 * chooser, creates the output directory, calls the host's export procedure
 * (again interactively on a calling error, and once more with the default
 * extension when the item's extension fails) and counts the exports per
 * extension.
 *
 * The host is passed in as functions: the file-name validator, the name
 * uniquifier, the overwrite handler, directory creation and the export call.
 */
module Export {
  import opened Base
  import opened Text
  import opened FileNames
  import opened Paths
  import opened ExtensionTable

  /** The overwrite handler's decisions; `DoNothing` is its answer when no file is in the way. */
  datatype OverwriteMode = Replace | Skip | RenameNew | RenameExisting | Cancel | DoNothing

  /** The host services one export run talks to. */
  datatype Host = Host(
    /** `FilenameValidator.validate`. */
    validate: string -> string,
    /** `ItemUniquifier.uniquify` with an optional insertion position. */
    uniquify: (string, Option<int>) -> string,
    /** `handle_overwrite(path, chooser, position)`: the mode chosen and the path to use. */
    handleOverwrite: (string, int) -> (OverwriteMode, string),
    /** `make_dirs`: `Some(message)` when creating the directory raised `OSError`. */
    makeDirs: string -> Option<string>,
    /** The host export procedure called with a run mode on an output path. */
    exportCall: (RunMode, string) -> HostReply)

  /** The errors the procedure raises; the last two carry the item name and the default extension. */
  datatype ExportError =
    | ExportCancelError(message: string)
    | ExportFailed(message: string, itemName: string, defaultExtension: string)
    | InvalidOutputDirectory(message: string, itemName: string, defaultExtension: string)

  /** `_get_item_filepath`: the output directory, the parents' names from the top, the item name. */
  function ItemFilePath(directory: string, parentNames: seq<string>, name: string): (p: string)
    ensures '/' !in name ==>
              DirName(p) == JoinAll([directory] + parentNames) && BaseName(p) == name
  {
    var components := [directory] + parentNames + [name];
    if '/' !in name then
      assert components[..|components| - 1] == [directory] + parentNames;
      JoinThenSplit(components);
      JoinAll(components)
    else JoinAll(components)
  }

  /** A top-level item lands directly in the output directory. */
  lemma TopLevelFilePath(directory: string, name: string)
    ensures ItemFilePath(directory, [], name) == directory + "/" + name
  {
    var components := [directory] + [] + [name];
    assert components == [directory, name];
    assert components[..1] == [directory];
    assert JoinAll([directory]) == directory;
    assert JoinAll([directory, name]) == directory + "/" + name;
  }

  /**
   * `_process_item_name`: the name before validation and uniquification.
   * Unless forced, the current extension is appended when it is the default
   * one and replaces the existing extension otherwise; when forced, the
   * default extension replaces the existing one.
   */
  function CandidateName(name: string, current: string, default: string, force: bool): (r: string)
    ensures !force && current == default ==> r == name + "." + default
    ensures !force && current != default ==> r == StripExtension(name) + "." + current
    ensures force ==> r == StripExtension(name) + "." + default
    ensures '.' !in (if force then default else current) ==>
              ExtensionOf(r) == (if force then default else current)
  {
    var extension := if force then default else current;
    var r := if !force && current == default then name + "." + default else WithNewExtension(name, extension);
    if '.' !in extension then
      if !force && current == default then ExtensionOfAppended(name, default); r
      else ExtensionOfAppended(StripExtension(name), extension); r
    else r
  }

  /** A host whose validator and uniquifier leave every name as it is (no clash, nothing invalid). */
  ghost predicate KeepsNames(h: Host) {
    (forall x :: h.validate(x) == x) && (forall x, p :: h.uniquify(x, p) == x)
  }

  /**
   * The full `_process_item_name`: the candidate is validated, then
   * uniquified with the suffix going in at the last period, just before the
   * extension; when the host changes nothing, the result is the candidate.
   */
  function ProcessItemName(h: Host, name: string, current: string, default: string, force: bool): (r: string)
    ensures var v := h.validate(CandidateName(name, current, default, force));
            && (LastDot(v) >= 0 ==> r == h.uniquify(v, Some(LastDot(v))))
            && (LastDot(v) < 0 ==> r == h.uniquify(v, Some(|v| - 1)))
    ensures KeepsNames(h) ==> r == CandidateName(name, current, default, force)
  {
    var v := h.validate(CandidateName(name, current, default, force));
    h.uniquify(v, Some(UniquifierPosition(v, ExtensionOf(v))))
  }

  /** A forced rename ends in the default extension, whenever the host keeps names and that extension has no period. */
  lemma ForcedNameTakesDefault(h: Host, name: string, current: string, default: string)
    requires KeepsNames(h) && '.' !in default
    ensures ExtensionOf(ProcessItemName(h, name, current, default, true)) == default
  {
  }

  /**
   * What `_export_item` leaves behind: its status, the overwrite mode, the
   * run modes of the export calls made, the path they wrote to, the table.
   */
  datatype ItemOutcome = ItemOutcome(
    status: ExportStatus, overwriteMode: OverwriteMode, calls: seq<RunMode>, outputPath: string, table: Table)

  /** The count stored under a record key; a key never touched counts zero. */
  function CountAt(t: Table, k: RecordKey): nat {
    if k in t.records then t.records[k].processedCount else FreshRecord.processedCount
  }

  /** Two tables that resolve extensions alike and hold the same counts. */
  ghost predicate SameCounts(t0: Table, t1: Table) {
    t1.aliases == t0.aliases && forall k :: CountAt(t1, k) == CountAt(t0, k)
  }

  /** Tables with the same counts give every extension the same count. */
  lemma SameCountsGet(t0: Table, t1: Table)
    requires SameCounts(t0, t1)
    ensures forall e :: Get(t1, e).processedCount == Get(t0, e).processedCount
  {
    forall e
      ensures Get(t1, e).processedCount == Get(t0, e).processedCount
    {
      assert KeyOf(t1, e) == KeyOf(t0, e);
      assert CountAt(t1, KeyOf(t0, e)) == CountAt(t0, KeyOf(t0, e));
    }
  }

  /** Marking an extension invalid changes no count. */
  lemma MarkInvalidSameCounts(t: Table, extension: string)
    ensures SameCounts(t, MarkInvalid(t, extension))
  {
    var r := MarkInvalid(t, extension);
    forall k
      ensures CountAt(r, k) == CountAt(t, k)
    {
      if k == KeyOf(t, extension) {
        assert Get(r, extension).processedCount == Get(t, extension).processedCount;
      }
    }
  }

  lemma SameCountsTrans(t0: Table, t1: Table, t2: Table)
    requires SameCounts(t0, t1) && SameCounts(t1, t2)
    ensures SameCounts(t0, t2)
  {
  }

  function LiftError(e: AttemptError, rawName: string, default: string): ExportError {
    match e
    case Canceled(m) => ExportCancelError(m)
    case Failed(m) => ExportFailed(m, rawName, default)
  }

  /**
   * How the export calls' replies decide `_export_item` once the directory
   * exists: a second, interactive call is made exactly when the first reply
   * asks for one; success is reported exactly when the last call made
   * succeeded; a failure under the default extension that asks for no
   * retry is an export error carrying the reply's message.
   */
  predicate ExportFollowsReplies(h: Host, outPath: string, extension: string, rawName: string, default: string,
                                       first: RunMode, r: Result<ItemOutcome, ExportError>)
  {
    var reply := h.exportCall(first, outPath);
    var retry := reply.HostError? && !WasCanceledByUser(reply.message)
                 && ShouldExportAgainInteractively(reply.message, first);
    && (r.Ok? ==> r.value.calls == if retry then [first, Interactive] else [first])
    && (!retry && r.Ok? ==> (r.value.status == ExportSuccessful <==> reply == HostOk))
    && (retry && r.Ok? ==> (r.value.status == ExportSuccessful <==> h.exportCall(Interactive, outPath) == HostOk))
    && (reply == HostOk ==> r.Ok? && r.value.status == ExportSuccessful)
    && (reply.HostError? && WasCanceledByUser(reply.message) ==> r == Err(ExportCancelError(reply.message)))
    && (reply.HostError? && !WasCanceledByUser(reply.message) && !retry && extension == default ==>
          r == Err(ExportFailed(reply.message, rawName, default)))
  }

  /**
   * `_export_item`: resolve the output path through the overwrite handler,
   * then (unless skipping) create the directory and export, once more
   * interactively when the first attempt asks for it.
   */
  function ExportItem(h: Host, directory: string, parentNames: seq<string>, name: string, rawName: string,
                      default: string, initialMode: RunMode, t: Table): (r: Result<ItemOutcome, ExportError>)
    ensures var path := ItemFilePath(directory, parentNames, name);
            var (mode, outPath) := h.handleOverwrite(path, UniquifierPosition(path, ExtensionOf(name)));
            (mode == Cancel ==> r == Err(ExportCancelError("cancelled")))
            && (mode == Skip ==> r == Ok(ItemOutcome(NotExportedYet, Skip, [], outPath, t)))
            && (r.Ok? ==> r.value.overwriteMode == mode && r.value.outputPath == outPath)
    ensures r.Ok? && r.value.overwriteMode != Skip ==>
              && 1 <= |r.value.calls| <= 2
              && r.value.calls[0] == RunModeFor(t, ExtensionOf(name), initialMode)
              && (|r.value.calls| == 2 ==> r.value.calls[0] != Interactive && r.value.calls[1] == Interactive)
              && r.value.status != NotExportedYet && r.value.status != ForceInteractive
    ensures r.Ok? && r.value.status != UseDefaultFileExtension ==> r.value.table == t
    ensures r.Ok? && r.value.status == UseDefaultFileExtension ==>
              ExtensionOf(name) != default && r.value.table == MarkInvalid(t, ExtensionOf(name))
    ensures r.Ok? ==> SameCounts(t, r.value.table)
    ensures var path := ItemFilePath(directory, parentNames, name);
            var (mode, outPath) := h.handleOverwrite(path, UniquifierPosition(path, ExtensionOf(name)));
            mode != Cancel && mode != Skip ==>
              && (h.makeDirs(DirName(outPath)).Some? ==>
                    r == Err(InvalidOutputDirectory(h.makeDirs(DirName(outPath)).value, name, default)))
              && (h.makeDirs(DirName(outPath)).None? ==>
                    ExportFollowsReplies(h, outPath, ExtensionOf(name), rawName, default,
                                         RunModeFor(t, ExtensionOf(name), initialMode), r))
  {
    var path := ItemFilePath(directory, parentNames, name);
    var extension := ExtensionOf(name);
    var (mode, outPath) := h.handleOverwrite(path, UniquifierPosition(path, extension));
    if mode == Cancel then Err(ExportCancelError("cancelled"))
    else if mode == Skip then Ok(ItemOutcome(NotExportedYet, Skip, [], outPath, t))
    else match h.makeDirs(DirName(outPath))
      case Some(message) => Err(InvalidOutputDirectory(message, name, default))
      case None =>
        var first := RunModeFor(t, extension, initialMode);
        match ExportOnce(h.exportCall(first, outPath), first, extension, default, t)
        case Err(e) => Err(LiftError(e, rawName, default))
        case Ok(a) =>
          if a.status != ForceInteractive then Ok(ItemOutcome(a.status, mode, [first], outPath, a.table))
          else
            InteractiveAttemptIsFinal(h.exportCall(Interactive, outPath), extension, default, a.table);
            match ExportOnce(h.exportCall(Interactive, outPath), Interactive, extension, default, a.table)
            case Err(e) => Err(LiftError(e, rawName, default))
            case Ok(b) => Ok(ItemOutcome(b.status, mode, [first, Interactive], outPath, b.table))
  }

  /**
   * A failing second, interactive call decides `_export_item` on its own: a
   * cancellation is a cancel error, a failure under the default extension is
   * an export error, and any other failure falls back to the default
   * extension, since an interactive call is never repeated.
   */
  lemma SecondAttemptErrors(h: Host, directory: string, parentNames: seq<string>, name: string, rawName: string,
                            default: string, initialMode: RunMode, t: Table)
    ensures var path := ItemFilePath(directory, parentNames, name);
            var (mode, outPath) := h.handleOverwrite(path, UniquifierPosition(path, ExtensionOf(name)));
            var first := RunModeFor(t, ExtensionOf(name), initialMode);
            var reply := h.exportCall(first, outPath);
            var second := h.exportCall(Interactive, outPath);
            var r := ExportItem(h, directory, parentNames, name, rawName, default, initialMode, t);
            mode != Cancel && mode != Skip && h.makeDirs(DirName(outPath)).None?
            && reply.HostError? && !WasCanceledByUser(reply.message) && ShouldExportAgainInteractively(reply.message, first)
            && second.HostError? ==>
              r == if WasCanceledByUser(second.message) then Err(ExportCancelError(second.message))
                   else if ExtensionOf(name) == default then Err(ExportFailed(second.message, rawName, default))
                   else Ok(ItemOutcome(UseDefaultFileExtension, mode, [first, Interactive], outPath,
                                       MarkInvalid(t, ExtensionOf(name))))
  {
  }

  /** Export settings that stay fixed over a run. */
  datatype Settings = Settings(
    processNames: bool, processExport: bool, directory: string, default: string, initialMode: RunMode)

  /** An item to export: its id, its raw name and the ids of its parents from the top. */
  datatype Item = Item(id: nat, rawName: string, parents: seq<nat>)

  /** State carried from item to item: current item names, parents already renamed, extension records. */
  datatype RunState = RunState(names: map<nat, string>, processedParents: set<nat>, table: Table)

  /** `_process_parent_folder_names`: validate and uniquify each parent the first time it is seen. */
  function ProcessParents(h: Host, parents: seq<nat>, names: map<nat, string>, processed: set<nat>)
    : (r: (map<nat, string>, set<nat>))
    requires forall p | p in parents :: p in names
    ensures r.0.Keys == names.Keys
    ensures r.1 == processed + set p | p in parents
    ensures forall p | p in names && (p in processed || p !in parents) :: r.0[p] == names[p]
    ensures forall p | p in parents && p !in processed :: r.0[p] == h.uniquify(h.validate(names[p]), None)
  {
    if parents == [] then (names, processed)
    else
      var p := parents[0];
      var (names', processed') :=
        if p in processed then (names, processed)
        else (names[p := h.uniquify(h.validate(names[p]), None)], processed + {p});
      var r := ProcessParents(h, parents[1..], names', processed');
      assert (set q | q in parents) == {p} + set q | q in parents[1..];
      r
  }

  /** The names of an item's parents as they currently stand, from the top. */
  function ParentNames(names: map<nat, string>, parents: seq<nat>): (r: seq<string>)
    requires forall p | p in parents :: p in names
    ensures |r| == |parents| && forall i | 0 <= i < |parents| :: r[i] == names[parents[i]]
  {
    if parents == [] then [] else [names[parents[0]]] + ParentNames(names, parents[1..])
  }

  /** What one pass of the generator loop reports for an item besides the new state. */
  datatype StepOutcome = StepOutcome(name: string, lastOverwriteMode: Option<OverwriteMode>, state: RunState)

  /**
   * The export status and table after the optional second `_export_item`:
   * only a first export that asks for the default extension is followed by
   * a second one, of the name renamed (when names are processed) to that
   * extension, starting from the table the first export left.
   */
  function ExportWithFallback(h: Host, s: Settings, item: Item, names: map<nat, string>, name: string, t: Table)
    : (r: Result<(string, ItemOutcome), ExportError>)
    requires forall p | p in item.parents :: p in names
    ensures r.Ok? ==> SameCounts(t, r.value.1.table)
  {
    var parentNames := ParentNames(names, item.parents);
    match ExportItem(h, s.directory, parentNames, name, item.rawName, s.default, s.initialMode, t)
    case Err(e) => Err(e)
    case Ok(o) =>
      if o.status != UseDefaultFileExtension then Ok((name, o))
      else
        var name' := if s.processNames then ProcessItemName(h, name, s.default, s.default, true) else name;
        match ExportItem(h, s.directory, parentNames, name', item.rawName, s.default, s.initialMode, o.table)
        case Err(e) => Err(e)
        case Ok(o') =>
          SameCountsTrans(t, o.table, o'.table);
          Ok((name', o'))
  }

  /**
   * The fall-back of `ExportWithFallback`: an error or any status but
   * "use the default extension" is the first export's result; that status
   * comes only under a non-default extension, and then the item is exported
   * again, from the table the first export left, under its name re-processed
   * with the default extension forced.
   */
  lemma FallbackExportsAgain(h: Host, s: Settings, item: Item, names: map<nat, string>, name: string, t: Table)
    requires forall p | p in item.parents :: p in names
    ensures var r := ExportWithFallback(h, s, item, names, name, t);
            var parentNames := ParentNames(names, item.parents);
            var first := ExportItem(h, s.directory, parentNames, name, item.rawName, s.default, s.initialMode, t);
            && (first.Err? ==> r == Err(first.error))
            && (first.Ok? && first.value.status != UseDefaultFileExtension ==> r == Ok((name, first.value)))
            && (first.Ok? && first.value.status == UseDefaultFileExtension ==>
                  && ExtensionOf(name) != s.default
                  && (r.Ok? ==> ExportItem(h, s.directory, parentNames, r.value.0, item.rawName, s.default,
                                           s.initialMode, first.value.table) == Ok(r.value.1))
                  && (r.Ok? && !s.processNames ==> r.value.0 == name)
                  && (r.Ok? && s.processNames && KeepsNames(h) && '.' !in s.default ==>
                        ExtensionOf(r.value.0) == s.default))
  {
    var parentNames := ParentNames(names, item.parents);
    var first := ExportItem(h, s.directory, parentNames, name, item.rawName, s.default, s.initialMode, t);
    if first.Ok? && first.value.status == UseDefaultFileExtension {
      var name' := if s.processNames then ProcessItemName(h, name, s.default, s.default, true) else name;
      var second := ExportItem(h, s.directory, parentNames, name', item.rawName, s.default, s.initialMode,
                               first.value.table);
      assert ExportWithFallback(h, s, item, names, name, t) == if second.Err? then Err(second.error)
                                                               else Ok((name', second.value));
      if s.processNames && KeepsNames(h) && '.' !in s.default {
        ForcedNameTakesDefault(h, name, s.default, s.default);
      }
    }
  }

  /**
   * The export half of one pass: export (with the fall-back), then count the
   * export under the final name's extension unless the last overwrite
   * decision was to skip.
   */
  function ExportAndCount(h: Host, s: Settings, item: Item, names: map<nat, string>, name: string, t: Table)
    : (r: Result<(string, OverwriteMode, Table), ExportError>)
    requires forall p | p in item.parents :: p in names
    ensures r.Ok? ==> r.value.2.aliases == t.aliases
    ensures r.Ok? ==> forall e ::
              Get(r.value.2, e).processedCount ==
                Get(t, e).processedCount
                + if r.value.1 != Skip && KeyOf(t, e) == KeyOf(t, ExtensionOf(r.value.0)) then 1 else 0
  {
    match ExportWithFallback(h, s, item, names, name, t)
    case Err(e) => Err(e)
    case Ok((name', o)) =>
      SameCountsGet(t, o.table);
      var t' := if o.overwriteMode != Skip then CountExport(o.table, ExtensionOf(name')) else o.table;
      Ok((name', o.overwriteMode, t'))
  }

  /** The renaming half of one pass: parents first, then the item itself. */
  function RenameForExport(h: Host, s: Settings, item: Item, st: RunState): (r: (map<nat, string>, set<nat>, string))
    requires item.id in st.names && forall p | p in item.parents :: p in st.names
    ensures r.0.Keys == st.names.Keys
    ensures r.1 == if s.processNames then st.processedParents + set p | p in item.parents else st.processedParents
    ensures forall p | p in st.names && (p in st.processedParents || p !in item.parents) :: r.0[p] == st.names[p]
    ensures s.processNames ==> r.2 == ProcessItemName(h, st.names[item.id], s.default, s.default, false)
    ensures !s.processNames ==> r.0 == st.names && r.2 == st.names[item.id]
  {
    var (names, processed) :=
      if s.processNames then ProcessParents(h, item.parents, st.names, st.processedParents)
      else (st.names, st.processedParents);
    var name := if s.processNames then ProcessItemName(h, st.names[item.id], s.default, s.default, false)
                else st.names[item.id];
    (names, processed, name)
  }

  /** One pass of the `export` generator for `item`, whose current name is `names[item.id]`. */
  function ExportStep(h: Host, s: Settings, item: Item, st: RunState): (r: Result<StepOutcome, ExportError>)
    requires item.id in st.names && forall p | p in item.parents :: p in st.names
    ensures r.Ok? ==> r.value.state.table.aliases == st.table.aliases
    ensures r.Ok? ==>
              r.value.state.processedParents ==
                if s.processNames then st.processedParents + set p | p in item.parents else st.processedParents
    ensures r.Ok? ==> forall e ::
              Get(r.value.state.table, e).processedCount ==
                Get(st.table, e).processedCount
                + if r.value.lastOverwriteMode.Some? && r.value.lastOverwriteMode.value != Skip
                     && KeyOf(st.table, e) == KeyOf(st.table, ExtensionOf(r.value.name))
                  then 1 else 0
    ensures r.Ok? ==> (r.value.lastOverwriteMode.Some? <==> s.processExport)
    ensures r.Ok? ==> r.value.state.names.Keys == st.names.Keys && r.value.state.names[item.id] == r.value.name
    ensures r.Ok? ==> forall p | p in st.names && p != item.id && (p in st.processedParents || p !in item.parents) ::
              r.value.state.names[p] == st.names[p]
  {
    var (names, processed, name) := RenameForExport(h, s, item, st);
    assert item.id in names;
    if !s.processExport then
      Ok(StepOutcome(name, None, RunState(names[item.id := name], processed, st.table)))
    else
      match ExportAndCount(h, s, item, names, name, st.table)
      case Err(e) => Err(e)
      case Ok((name', mode, t)) =>
        Ok(StepOutcome(name', Some(mode), RunState(names[item.id := name'], processed, t)))
  }

  /** The generator driven over all items in order; the first error ends the run. */
  function ExportAll(h: Host, s: Settings, items: seq<Item>, st: RunState): (r: Result<RunState, ExportError>)
    requires forall k | 0 <= k < |items| :: items[k].id in st.names && forall p | p in items[k].parents :: p in st.names
    ensures r.Ok? ==> r.value.names.Keys == st.names.Keys
  {
    if items == [] then Ok(st)
    else
      match ExportStep(h, s, items[0], st)
      case Err(e) => Err(e)
      case Ok(o) => ExportAll(h, s, items[1..], o.state)
  }

  /** Every parent id of the items, in any position. */
  function AllParents(items: seq<Item>): (r: set<nat>)
    ensures forall k, p | 0 <= k < |items| && p in items[k].parents :: p in r
    ensures forall p | p in r :: exists k :: 0 <= k < |items| && p in items[k].parents
  {
    if items == [] then {} else (set p | p in items[0].parents) + AllParents(items[1..])
  }

  /** A run whose first pass succeeds continues with the rest of the items from that pass's state. */
  lemma ExportAllStep(h: Host, s: Settings, items: seq<Item>, st: RunState)
    requires forall k | 0 <= k < |items| :: items[k].id in st.names && forall p | p in items[k].parents :: p in st.names
    requires items != [] && ExportStep(h, s, items[0], st).Ok?
    ensures var st' := ExportStep(h, s, items[0], st).value.state;
            && (forall k | 0 <= k < |items[1..]| ::
                  items[1..][k].id in st'.names && forall p | p in items[1..][k].parents :: p in st'.names)
            && ExportAll(h, s, items, st) == ExportAll(h, s, items[1..], st')
  {
    var rest := items[1..];
    assert forall k | 0 <= k < |rest| :: rest[k] == items[k + 1];
  }

  /** Remembering `b` and then `c` on top of `a` remembers `b + c` on top of `a`. */
  lemma UnionRegroups(a: set<nat>, b: set<nat>, c: set<nat>, x: set<nat>, y: set<nat>)
    requires x == a + b && y == x + c
    ensures y == a + (b + c)
  {
  }

  /** An id that is no item's id is no id of the items after the first. */
  lemma NotAmongRest(items: seq<Item>, p: nat)
    requires items != [] && forall k | 0 <= k < |items| :: items[k].id != p
    ensures forall k | 0 <= k < |items[1..]| :: items[1..][k].id != p
  {
    forall k | 0 <= k < |items[1..]|
      ensures items[1..][k].id != p
    {
      assert items[1..][k] == items[k + 1];
    }
  }

  /** Over a whole run, every parent of every item ends up remembered as processed. */
  lemma {:induction false} RunRemembersParents(h: Host, s: Settings, items: seq<Item>, st: RunState)
    requires forall k | 0 <= k < |items| :: items[k].id in st.names && forall p | p in items[k].parents :: p in st.names
    requires s.processNames
    ensures var r := ExportAll(h, s, items, st);
            r.Ok? ==> r.value.processedParents == st.processedParents + AllParents(items)
  {
    if items != [] {
      var o := ExportStep(h, s, items[0], st);
      if o.Ok? {
        var st' := o.value.state;
        var rest := items[1..];
        ExportAllStep(h, s, items, st);
        RunRemembersParents(h, s, rest, st');
        var r := ExportAll(h, s, rest, st');
        var first := set p | p in items[0].parents;
        assert AllParents(items) == first + AllParents(rest);
        if r.Ok? {
          UnionRegroups(st.processedParents, first, AllParents(rest), st'.processedParents, r.value.processedParents);
        }
      }
    }
  }

  /**
   * Each parent folder is renamed at most once per run: the name of a parent
   * already processed (and not itself exported) never changes again.
   */
  lemma {:induction false} ParentsRenamedOnce(h: Host, s: Settings, items: seq<Item>, st: RunState)
    requires forall k | 0 <= k < |items| :: items[k].id in st.names && forall p | p in items[k].parents :: p in st.names
    requires s.processNames
    ensures var r := ExportAll(h, s, items, st);
            r.Ok? ==> forall p | p in st.names && p in st.processedParents && (forall k | 0 <= k < |items| :: items[k].id != p) ::
                        r.value.names[p] == st.names[p]
  {
    if items != [] {
      var o := ExportStep(h, s, items[0], st);
      if o.Ok? {
        var st' := o.value.state;
        var rest := items[1..];
        ExportAllStep(h, s, items, st);
        ParentsRenamedOnce(h, s, rest, st');
        forall p | p in st.names && p in st.processedParents && (forall k | 0 <= k < |items| :: items[k].id != p)
          ensures p in st'.processedParents && st'.names[p] == st.names[p]
          ensures forall k | 0 <= k < |rest| :: rest[k].id != p
        {
          assert items[0].id != p;
          NotAmongRest(items, p);
        }
      }
    }
  }
}

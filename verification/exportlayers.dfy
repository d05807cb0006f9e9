/**
 * The layer exporter of the older engine (`export_layers/exportlayers.py`):
 * which processing groups are live, the per-layer pipeline (rename, actions,
 * name processing, export with its two retries, name reset, bookkeeping),
 * empty groups, the stop request, and which image copy a run hands back.
 *
 * `_export` is the same decision procedure as `_export_item` of the built-in
 * export procedure (`Export.ExportItem`), except that the status lives on the
 * exporter between calls instead of in a local variable.
 */
module ExportLayers {
  import opened Base
  import opened Text
  import opened FileNames
  import opened Paths
  import opened ExtensionTable
  import opened Export

  datatype ItemType = Layer | NonEmptyGroup | EmptyGroup | OtherType(code: int)

  /** A layer-tree element: id, original name, type, parent ids from the top. */
  datatype LayerElem = LayerElem(id: nat, origName: string, itemType: ItemType, parents: seq<nat>)

  /** The parts of a run that are live; the others are replaced by no-ops. */
  datatype Groups = Groups(
    layerContents: bool, layerName: bool, postprocessLayerName: bool, exporting: bool, layerNameForPreview: bool)

  const DefaultProcessingGroups: seq<string> := ["layer_contents", "layer_name", "export"]

  /** The groups a list of group names switches on: each group whose name is in the list, and no other. */
  function GroupsOf(list: seq<string>): (g: Groups)
    ensures g.layerContents <==> "layer_contents" in list
    ensures g.layerName <==> "layer_name" in list
    ensures g.postprocessLayerName <==> "_postprocess_layer_name" in list
    ensures g.exporting <==> "export" in list
    ensures g.layerNameForPreview <==> "layer_name_for_preview" in list
  {
    Groups("layer_contents" in list, "layer_name" in list, "_postprocess_layer_name" in list,
           "export" in list, "layer_name_for_preview" in list)
  }

  /** What `_enable_disable_processing_groups` leaves: the live groups and both lists after the append. */
  datatype GroupChoice = GroupChoice(groups: Groups, defaults: seq<string>, requested: Option<seq<string>>)

  /** Appends the name-reset group to a list that asks for name processing. */
  function WithNameReset(list: seq<string>): seq<string> {
    if "layer_name" in list then list + ["_postprocess_layer_name"] else list
  }

  /**
   * `_enable_disable_processing_groups` as written: only `None` selects the
   * defaults, so an empty list switches every group off; the append goes
   * into whichever list was used (the caller's or the exporter's defaults).
   */
  function EnableGroupsAsWritten(requested: Option<seq<string>>, defaults: seq<string>): (r: GroupChoice)
    ensures requested == Some([]) ==> r.groups == Groups(false, false, false, false, false)
  {
    match requested
    case None =>
      var list := WithNameReset(defaults);
      GroupChoice(GroupsOf(list), list, None)
    case Some(list) =>
      GroupChoice(GroupsOf(WithNameReset(list)), defaults, Some(WithNameReset(list)))
  }

  /** With `None` or an empty list the defaults are used, as the method's documentation promises. */
  function EnableGroups(requested: Option<seq<string>>, defaults: seq<string>): (r: GroupChoice)
    ensures requested == None || requested == Some([]) ==> r.groups == GroupsOf(WithNameReset(defaults))
    ensures requested.Some? && requested.value != [] ==> r.groups == GroupsOf(WithNameReset(requested.value))
  {
    if requested == Some([]) then EnableGroupsAsWritten(None, defaults)
    else EnableGroupsAsWritten(requested, defaults)
  }

  /** Asking for an empty list of groups: nothing is live as written, the default groups once corrected. */
  lemma EmptyGroupListDisablesEverything()
    ensures EnableGroupsAsWritten(Some([]), DefaultProcessingGroups).groups == Groups(false, false, false, false, false)
    ensures EnableGroups(Some([]), DefaultProcessingGroups).groups == Groups(true, true, true, true, false)
  {
    assert "layer_name" in DefaultProcessingGroups;
    var list := DefaultProcessingGroups + ["_postprocess_layer_name"];
    assert list[0] == "layer_contents" && list[1] == "layer_name" && list[2] == "export";
    assert list[3] == "_postprocess_layer_name";
    assert "layer_name_for_preview" !in list by {
      forall i | 0 <= i < |list| ensures list[i] != "layer_name_for_preview" {
        assert list[i][0] != "layer_name_for_preview"[0] || |list[i]| != |"layer_name_for_preview"|;
      }
    }
  }

  /**
   * The name-reset group is live exactly when name processing is, and
   * repeating a default run keeps growing the default list (the append
   * lands in it) without changing which groups are live.
   */
  lemma {:induction false} NameResetFollowsLayerName(requested: Option<seq<string>>, defaults: seq<string>)
    requires requested.Some? ==> "_postprocess_layer_name" !in requested.value
    requires "_postprocess_layer_name" !in defaults
    ensures var r := EnableGroups(requested, defaults);
            r.groups.postprocessLayerName <==> r.groups.layerName
    ensures var r := EnableGroupsAsWritten(None, defaults);
            "layer_name" in defaults ==>
              |r.defaults| == |defaults| + 1 && EnableGroupsAsWritten(None, r.defaults).groups == r.groups
  {
    var r := EnableGroupsAsWritten(None, defaults);
    if "layer_name" in defaults {
      var grown := defaults + ["_postprocess_layer_name"];
      assert r.defaults == grown;
      assert "layer_name" in grown;
      assert grown[|defaults|] == "_postprocess_layer_name";
      assert WithNameReset(grown) == grown + ["_postprocess_layer_name"];
    }
  }

  /** The host services a layer export adds to those of the export procedure. */
  datatype LayerHost = LayerHost(
    base: Host,
    /** `LayerNameRenamer.rename` for an element with its current name. */
    rename: (nat, string) -> string,
    /** The name-only actions: new name and current extension. */
    nameOnlyActions: (nat, string, string) -> (string, string),
    /** The layer-contents procedures: new name and current extension. */
    procedures: (nat, string, string) -> (string, string))

  /** Settings of one run. */
  datatype Config = Config(directory: string, default: string, initialMode: RunMode, groups: Groups)

  /**
   * The exporter's attributes that change while layers are processed; the
   * export status and the overwrite mode persist from one layer to the next.
   * `exportCalls` lists the output path of every host export call made.
   */
  datatype ExporterState = ExporterState(
    names: map<nat, string>,
    current: string,
    status: ExportStatus,
    overwriteMode: Option<OverwriteMode>,
    table: Table,
    exported: seq<nat>,
    exportCalls: seq<string>)

  /** The element is known together with its parents. */
  ghost predicate Known(elem: LayerElem, names: map<nat, string>) {
    elem.id in names && forall p | p in elem.parents :: p in names
  }

  /** One output path per call made. */
  function CallPaths(o: ItemOutcome): (r: seq<string>)
    ensures |r| == |o.calls| && forall i | 0 <= i < |r| :: r[i] == o.outputPath
  {
    seq(|o.calls|, _ => o.outputPath)
  }

  /**
   * `_export` for the element under `name`. As written (`resetOnSkip` false)
   * a skip leaves the status of the previous export in place; the corrected
   * procedure (`resetOnSkip` true) starts every export from
   * `NotExportedYet`, as `_export_item` does.
   */
  function ExportCall(h: LayerHost, c: Config, elem: LayerElem, name: string, st: ExporterState, resetOnSkip: bool)
    : (r: Result<ExporterState, ExportError>)
    requires Known(elem, st.names)
    ensures r.Ok? ==> r.value.names == st.names && r.value.exported == st.exported && r.value.current == st.current
    ensures r.Ok? ==> r.value.overwriteMode.Some? && SameCounts(st.table, r.value.table)
    ensures r.Ok? && r.value.overwriteMode == Some(Skip) ==>
              r.value.exportCalls == st.exportCalls && r.value.table == st.table
              && r.value.status == (if resetOnSkip then NotExportedYet else st.status)
    ensures var o := ExportItem(h.base, c.directory, ParentNames(st.names, elem.parents), name, elem.origName,
                                c.default, c.initialMode, st.table);
            && (r.Err? <==> o.Err?)
            && (r.Err? ==> r.error == o.error)
            && (o.Ok? ==> r.value.overwriteMode == Some(o.value.overwriteMode))
            && (o.Ok? && o.value.overwriteMode != Skip ==>
                  r.value.status == o.value.status && r.value.table == o.value.table
                  && r.value.exportCalls == st.exportCalls + CallPaths(o.value))
  {
    var parentNames := ParentNames(st.names, elem.parents);
    match ExportItem(h.base, c.directory, parentNames, name, elem.origName, c.default, c.initialMode, st.table)
    case Err(e) => Err(e)
    case Ok(o) =>
      var status := if o.overwriteMode == Skip && !resetOnSkip then st.status else o.status;
      Ok(st.(status := status, overwriteMode := Some(o.overwriteMode), table := o.table,
             exportCalls := st.exportCalls + CallPaths(o)))
  }

  /** `_process_layer_name`, a no-op unless name processing is live. */
  function LayerName(h: LayerHost, c: Config, name: string, current: string, force: bool): string {
    if c.groups.layerName then ProcessItemName(h.base, name, current, c.default, force) else name
  }

  /**
   * `_export_layer`: name and export, then, only when that export asks for
   * the default extension, rename to it and export a second time; every
   * other outcome of the first export is the outcome of the layer.
   */
  function ExportLayerWith(h: LayerHost, c: Config, elem: LayerElem, st: ExporterState, resetOnSkip: bool)
    : (r: Result<ExporterState, ExportError>)
    requires Known(elem, st.names)
    ensures r.Ok? ==> r.value.names.Keys == st.names.Keys && r.value.exported == st.exported
    ensures r.Ok? ==> SameCounts(st.table, r.value.table)
    ensures r.Ok? && c.groups.exporting ==> r.value.overwriteMode.Some?
    ensures r.Ok? && !c.groups.exporting ==> r.value.overwriteMode == st.overwriteMode && r.value.table == st.table
  {
    var name := LayerName(h, c, st.names[elem.id], st.current, false);
    var st1 := st.(names := st.names[elem.id := name]);
    assert st1.names.Keys == st.names.Keys;
    var first := if c.groups.exporting then ExportCall(h, c, elem, name, st1, resetOnSkip) else Ok(st1);
    match first
    case Err(e) => Err(e)
    case Ok(st2) =>
      if st2.status != UseDefaultFileExtension then Ok(st2)
      else
        var second := ExportAgain(h, c, elem, name, st2, resetOnSkip);
        assert second.Ok? ==> SameCounts(st.table, second.value.table) by {
          if second.Ok? {
            SameCountsTrans(st.table, st2.table, second.value.table);
          }
        }
        second
  }

  /** The pass after use-default: the name is re-processed with the default extension and exported again. */
  function ExportAgain(h: LayerHost, c: Config, elem: LayerElem, name: string, st: ExporterState, resetOnSkip: bool)
    : (r: Result<ExporterState, ExportError>)
    requires Known(elem, st.names)
    ensures r.Ok? ==> r.value.names.Keys == st.names.Keys && r.value.exported == st.exported
    ensures r.Ok? ==> SameCounts(st.table, r.value.table)
    ensures r.Ok? && c.groups.exporting ==> r.value.overwriteMode.Some?
    ensures r.Ok? && !c.groups.exporting ==> r.value.overwriteMode == st.overwriteMode && r.value.table == st.table
  {
    var name' := LayerName(h, c, name, st.current, true);
    var st1 := st.(names := st.names[elem.id := name']);
    if c.groups.exporting then ExportCall(h, c, elem, name', st1, resetOnSkip) else Ok(st1)
  }

  /**
   * The fall-back of `_export_layer`: the first export's error or status
   * other than USE_DEFAULT is the layer's outcome; USE_DEFAULT renames the
   * layer once (to the default extension, when the host keeps names) and
   * exports it a second time.
   */
  lemma DefaultFallbackExportsAgain(h: LayerHost, c: Config, elem: LayerElem, st: ExporterState, resetOnSkip: bool)
    requires Known(elem, st.names) && c.groups.exporting
    ensures var name := LayerName(h, c, st.names[elem.id], st.current, false);
            var st1 := st.(names := st.names[elem.id := name]);
            Known(elem, st1.names) &&
            var first := ExportCall(h, c, elem, name, st1, resetOnSkip);
            var r := ExportLayerWith(h, c, elem, st, resetOnSkip);
            && (first.Err? || first.value.status != UseDefaultFileExtension ==> r == first)
            && (first.Ok? && first.value.status == UseDefaultFileExtension ==>
                  var name' := LayerName(h, c, name, first.value.current, true);
                  var st3 := first.value.(names := first.value.names[elem.id := name']);
                  && Known(elem, st3.names)
                  && r == ExportCall(h, c, elem, name', st3, resetOnSkip)
                  && (c.groups.layerName && KeepsNames(h.base) && '.' !in c.default ==>
                        ExtensionOf(name') == c.default))
  {
    var name := LayerName(h, c, st.names[elem.id], st.current, false);
    var st1 := st.(names := st.names[elem.id := name]);
    var first := ExportCall(h, c, elem, name, st1, resetOnSkip);
    if first.Ok? && first.value.status == UseDefaultFileExtension {
      var name' := LayerName(h, c, name, first.value.current, true);
      if c.groups.layerName && KeepsNames(h.base) && '.' !in c.default {
        ForcedNameTakesDefault(h.base, name, first.value.current, c.default);
      }
    }
  }

  /** `_export_layer` as written, with the status carried over a skip. */
  function ExportLayerAsWritten(h: LayerHost, c: Config, elem: LayerElem, st: ExporterState)
    : (r: Result<ExporterState, ExportError>)
    requires Known(elem, st.names)
    ensures r.Ok? ==> r.value.names.Keys == st.names.Keys && SameCounts(st.table, r.value.table)
  {
    ExportLayerWith(h, c, elem, st, false)
  }

  /** The overwrite handler's first answer for the element is to skip it. */
  predicate FirstDecisionIsSkip(h: LayerHost, c: Config, elem: LayerElem, st: ExporterState)
    requires Known(elem, st.names)
  {
    var name := LayerName(h, c, st.names[elem.id], st.current, false);
    var path := ItemFilePath(c.directory, ParentNames(st.names[elem.id := name], elem.parents), name);
    h.base.handleOverwrite(path, UniquifierPosition(path, ExtensionOf(name))).0 == Skip
  }

  /** With the status reset, a first answer of skip ends `_export_layer` after that answer. */
  lemma SkipMeansNoExport(h: LayerHost, c: Config, elem: LayerElem, st: ExporterState)
    requires Known(elem, st.names) && c.groups.exporting && FirstDecisionIsSkip(h, c, elem, st)
    ensures var name := LayerName(h, c, st.names[elem.id], st.current, false);
            var r := ExportLayerWith(h, c, elem, st, true);
            r.Ok? ==>
              && r.value.exportCalls == st.exportCalls
              && r.value.status == NotExportedYet
              && r.value.overwriteMode == Some(Skip)
              && r.value.table == st.table
              && r.value.names == st.names[elem.id := name]
  {
    var name := LayerName(h, c, st.names[elem.id], st.current, false);
    var st1 := st.(names := st.names[elem.id := name]);
    var parentNames := ParentNames(st1.names, elem.parents);
    var o := ExportItem(h.base, c.directory, parentNames, name, elem.origName, c.default, c.initialMode, st1.table);
    assert o.Ok? && o.value.overwriteMode == Skip && o.value.status == NotExportedYet;
    var first := ExportCall(h, c, elem, name, st1, true);
    assert first.Ok? && first.value.status == NotExportedYet;
  }

  /**
   * `_export_layer` with the status reset: a layer whose export is skipped
   * is not exported at all, whatever happened to the layer before it.
   */
  function ExportLayer(h: LayerHost, c: Config, elem: LayerElem, st: ExporterState)
    : (r: Result<ExporterState, ExportError>)
    requires Known(elem, st.names)
    ensures r.Ok? ==> r.value.names.Keys == st.names.Keys && SameCounts(st.table, r.value.table)
    ensures r.Ok? && c.groups.exporting && FirstDecisionIsSkip(h, c, elem, st) ==>
              && r.value.exportCalls == st.exportCalls
              && r.value.status == NotExportedYet
              && r.value.overwriteMode == Some(Skip)
              && r.value.table == st.table
              && r.value.names == st.names[elem.id := LayerName(h, c, st.names[elem.id], st.current, false)]
  {
    if c.groups.exporting && FirstDecisionIsSkip(h, c, elem, st) then
      SkipMeansNoExport(h, c, elem, st);
      ExportLayerWith(h, c, elem, st, true)
    else ExportLayerWith(h, c, elem, st, true)
  }

  /** A host in which "out/a.xyz" cannot be written and "out/a.jpg" and "out/b.png" already exist and are skipped. */
  function SkipHost(): LayerHost {
    LayerHost(
      Host(
        n => n,
        (n, _) => n,
        (path, _) => if path == "out/a.jpg" || path == "out/b.png" then (Skip, path) else (DoNothing, path),
        _ => None,
        (_, path) => if path == "out/a.xyz" then HostError("") else HostOk),
      (_, n) => n,
      (_, n, e) => (n, e),
      (_, n, e) => (n, e))
  }

  const SkipConfig := Config("out", "jpg", NonInteractive, Groups(true, true, true, true, false))

  /**
   * The stale status as written: layer "a" has the unsupported extension
   * "xyz", falls back to "jpg", and that file is skipped; the next layer "b"
   * keeps its "png" extension and is skipped too, yet the leftover status
   * sends it through the default-extension path and it is written to
   * "out/b.jpg".
   */
  lemma SkippedLayerExportedAsWritten()
    ensures var st0 := ExporterState(map[0 := "a", 1 := "b"], "xyz", NotExportedYet, None,
                                     Build([]), [], []);
            var a := ExportLayerAsWritten(SkipHost(), SkipConfig, LayerElem(0, "a", Layer, []), st0);
            && a.Ok? && a.value.status == UseDefaultFileExtension && a.value.exportCalls == ["out/a.xyz"]
            && var b := ExportLayerAsWritten(SkipHost(), SkipConfig, LayerElem(1, "b", Layer, []),
                                             a.value.(current := "png"));
               && FirstDecisionIsSkip(SkipHost(), SkipConfig, LayerElem(1, "b", Layer, []), a.value.(current := "png"))
               && b.Ok? && b.value.exportCalls == ["out/a.xyz", "out/b.jpg"]
  {
    var st0 := ExporterState(map[0 := "a", 1 := "b"], "xyz", NotExportedYet, None, Build([]), [], []);
    LayerAFallsBackAndIsSkipped(st0);
    var a := ExportLayerAsWritten(SkipHost(), SkipConfig, LayerElem(0, "a", Layer, []), st0);
    LayerBIsSkippedYetWritten(a.value.(current := "png"));
  }

  /** "a" fails under "xyz", is renamed to "a.jpg", and that file is skipped: the status stays a fall-back. */
  lemma LayerAFallsBackAndIsSkipped(st0: ExporterState)
    requires st0 == ExporterState(map[0 := "a", 1 := "b"], "xyz", NotExportedYet, None, Build([]), [], [])
    ensures var a := ExportLayerAsWritten(SkipHost(), SkipConfig, LayerElem(0, "a", Layer, []), st0);
            && a.Ok? && a.value.status == UseDefaultFileExtension && a.value.exportCalls == ["out/a.xyz"]
            && 1 in a.value.names && a.value.names[1] == "b" && a.value.table == MarkInvalid(Build([]), "xyz")
  {
    var h, c := SkipHost(), SkipConfig;
    var elemA := LayerElem(0, "a", Layer, []);
    SampleLayerNames();
    var stA2 := LayerAFirstCall(h, c, st0);
    var stA3 := stA2.(names := stA2.names[0 := "a.jpg"]);
    var stA4 := LayerASecondCall(stA3);
    LayerSteps(h, c, elemA, st0, false, "a.xyz", "a.jpg", stA2, stA4);
  }

  /** How the sample host names the two layers. */
  lemma SampleLayerNames()
    ensures LayerName(SkipHost(), SkipConfig, "a", "xyz", false) == "a.xyz"
    ensures LayerName(SkipHost(), SkipConfig, "a.xyz", "xyz", true) == "a.jpg"
    ensures LayerName(SkipHost(), SkipConfig, "b", "png", false) == "b.png"
    ensures LayerName(SkipHost(), SkipConfig, "b.png", "png", true) == "b.jpg"
  {
    SampleExtensions();
  }

  lemma LayerAFirstCall(h: LayerHost, c: Config, st0: ExporterState) returns (stA2: ExporterState)
    requires h == SkipHost() && c == SkipConfig
    requires 1 in st0.names && st0.names[1] == "b" && st0.current == "xyz"
    requires st0.status == NotExportedYet && st0.table == Build([]) && st0.exportCalls == []
    ensures ExportCall(h, c, LayerElem(0, "a", Layer, []), "a.xyz", st0.(names := st0.names[0 := "a.xyz"]), false)
            == Ok(stA2)
    ensures stA2 == st0.(names := st0.names[0 := "a.xyz"], status := UseDefaultFileExtension,
                         overwriteMode := Some(DoNothing), table := MarkInvalid(Build([]), "xyz"),
                         exportCalls := ["out/a.xyz"])
  {
    var elemA := LayerElem(0, "a", Layer, []);
    var stA1 := st0.(names := st0.names[0 := "a.xyz"]);
    LayerAFirstItem(h, c, st0.table);
    assert Known(elemA, stA1.names);
    var oA := ItemOutcome(UseDefaultFileExtension, DoNothing, [NonInteractive], "out/a.xyz", MarkInvalid(Build([]), "xyz"));
    SingleCallPath(oA);
    stA2 := CallOutcome(h, c, elemA, "a.xyz", stA1, oA);
    assert st0.exportCalls + CallPaths(oA) == ["out/a.xyz"];
  }

  lemma SingleCallPath(o: ItemOutcome)
    requires |o.calls| == 1
    ensures CallPaths(o) == [o.outputPath]
  {
    assert CallPaths(o)[0] == o.outputPath;
  }

  /** The first attempt of "a", under the sample configuration's own fields. */
  lemma LayerAFirstItem(h: LayerHost, c: Config, t: Table)
    requires h == SkipHost() && c == SkipConfig && t == Build([])
    ensures ExportItem(h.base, c.directory, [], "a.xyz", "a", c.default, c.initialMode, t)
            == Ok(ItemOutcome(UseDefaultFileExtension, DoNothing, [NonInteractive], "out/a.xyz", MarkInvalid(t, "xyz")))
  {
    var _ := FirstAttemptOfA(h.base, t);
  }

  lemma LayerASecondCall(stA3: ExporterState) returns (stA4: ExporterState)
    requires 0 in stA3.names && 1 in stA3.names
    ensures ExportCall(SkipHost(), SkipConfig, LayerElem(0, "a", Layer, []), "a.jpg", stA3, false)
            == Ok(stA4)
    ensures stA4 == stA3.(overwriteMode := Some(Skip))
  {
    var t := stA3.table;
    SkippedAttempt("a.jpg", "a", "out/a.jpg", t);
    var _ := CallOutcome(SkipHost(), SkipConfig, LayerElem(0, "a", Layer, []), "a.jpg", stA3,
                ItemOutcome(NotExportedYet, Skip, [], "out/a.jpg", t));
    stA4 := stA3.(overwriteMode := Some(Skip));
    assert CallPaths(ItemOutcome(NotExportedYet, Skip, [], "out/a.jpg", t)) == [];
  }

  /** "b" keeps "png" and is skipped, yet the leftover status renames it to "b.jpg" and writes that file. */
  lemma LayerBIsSkippedYetWritten(stB0: ExporterState)
    requires 1 in stB0.names && stB0.names[1] == "b" && stB0.current == "png"
    requires stB0.status == UseDefaultFileExtension && stB0.exportCalls == ["out/a.xyz"]
    requires stB0.table == MarkInvalid(Build([]), "xyz")
    ensures FirstDecisionIsSkip(SkipHost(), SkipConfig, LayerElem(1, "b", Layer, []), stB0)
    ensures var b := ExportLayerAsWritten(SkipHost(), SkipConfig, LayerElem(1, "b", Layer, []), stB0);
            b.Ok? && b.value.exportCalls == ["out/a.xyz", "out/b.jpg"]
  {
    var h, c := SkipHost(), SkipConfig;
    var elemB := LayerElem(1, "b", Layer, []);
    var stB2 := LayerBFirstCall(stB0);
    var stB3 := stB2.(names := stB2.names[1 := "b.jpg"]);
    var stB4 := LayerBSecondCall(stB3);
    LayerSteps(h, c, elemB, stB0, false, "b.png", "b.jpg", stB2, stB4);
  }

  lemma LayerBFirstCall(stB0: ExporterState) returns (stB2: ExporterState)
    requires 1 in stB0.names && stB0.names[1] == "b" && stB0.current == "png"
    requires stB0.status == UseDefaultFileExtension && stB0.exportCalls == ["out/a.xyz"]
    ensures FirstDecisionIsSkip(SkipHost(), SkipConfig, LayerElem(1, "b", Layer, []), stB0)
    ensures LayerName(SkipHost(), SkipConfig, "b", "png", false) == "b.png"
    ensures ExportCall(SkipHost(), SkipConfig, LayerElem(1, "b", Layer, []), "b.png", stB0.(names := stB0.names[1 := "b.png"]), false)
            == Ok(stB2)
    ensures stB2.status == UseDefaultFileExtension && stB2.current == "png" && stB2.exportCalls == ["out/a.xyz"]
    ensures 1 in stB2.names && stB2.table == stB0.table
    ensures LayerName(SkipHost(), SkipConfig, "b.png", "png", true) == "b.jpg"
  {
    var h, c := SkipHost(), SkipConfig;
    SampleLayerNames();
    var stB1 := stB0.(names := stB0.names[1 := "b.png"]);
    var t := stB0.table;
    SkippedAttempt("b.png", "b", "out/b.png", t);
    assert ParentNames(stB1.names, []) == [];
    var o := ItemOutcome(NotExportedYet, Skip, [], "out/b.png", t);
    assert CallPaths(o) == [];
    var _ := CallOutcome(h, c, LayerElem(1, "b", Layer, []), "b.png", stB1, o);
    stB2 := stB1.(overwriteMode := Some(Skip));
  }

  lemma LayerBSecondCall(stB3: ExporterState) returns (stB4: ExporterState)
    requires 1 in stB3.names && stB3.exportCalls == ["out/a.xyz"]
    ensures ExportCall(SkipHost(), SkipConfig, LayerElem(1, "b", Layer, []), "b.jpg", stB3, false) == Ok(stB4)
    ensures stB4.exportCalls == ["out/a.xyz", "out/b.jpg"]
  {
    var h, c := SkipHost(), SkipConfig;
    SecondAttemptOfB(stB3.table);
    var oB := ExportItem(h.base, "out", [], "b.jpg", "b", "jpg", NonInteractive, stB3.table).value;
    SingleCallPath(oB);
    stB4 := CallOutcome(h, c, LayerElem(1, "b", Layer, []), "b.jpg", stB3, oB);
  }

  /** `_export_layer` as a first export, then (after a fall-back) a second one. */
  lemma LayerSteps(h: LayerHost, c: Config, elem: LayerElem, st: ExporterState, resetOnSkip: bool,
                   name: string, name': string, st2: ExporterState, st4: ExporterState)
    requires Known(elem, st.names) && c.groups.exporting && c.groups.layerName
    requires name == LayerName(h, c, st.names[elem.id], st.current, false)
    requires ExportCall(h, c, elem, name, st.(names := st.names[elem.id := name]), resetOnSkip) == Ok(st2)
    requires st2.status == UseDefaultFileExtension
    requires name' == LayerName(h, c, name, st2.current, true)
    requires ExportCall(h, c, elem, name', st2.(names := st2.names[elem.id := name']), resetOnSkip) == Ok(st4)
    ensures ExportLayerWith(h, c, elem, st, resetOnSkip) == Ok(st4)
  {
  }

  /** `_export` on a top-level element records what `_export_item` decided. */
  lemma CallOutcome(h: LayerHost, c: Config, elem: LayerElem, name: string, st: ExporterState, o: ItemOutcome)
    returns (st': ExporterState)
    requires Known(elem, st.names) && elem.parents == []
    requires ExportItem(h.base, c.directory, [], name, elem.origName, c.default, c.initialMode, st.table) == Ok(o)
    ensures st' == st.(status := if o.overwriteMode == Skip then st.status else o.status,
                       overwriteMode := Some(o.overwriteMode), table := o.table,
                       exportCalls := st.exportCalls + CallPaths(o))
    ensures ExportCall(h, c, elem, name, st, false) == Ok(st')
  {
    assert ParentNames(st.names, []) == [];
    st' := st.(status := if o.overwriteMode == Skip then st.status else o.status,
               overwriteMode := Some(o.overwriteMode), table := o.table,
               exportCalls := st.exportCalls + CallPaths(o));
  }

  /** The names the sample run produces. */
  lemma SampleNames()
    ensures ExtensionOf("a.xyz") == "xyz" && ExtensionOf("a.jpg") == "jpg"
    ensures ExtensionOf("b.png") == "png" && ExtensionOf("b.jpg") == "jpg"
    ensures CandidateName("a", "xyz", "jpg", false) == "a.xyz" && CandidateName("a.xyz", "xyz", "jpg", true) == "a.jpg"
    ensures CandidateName("b", "png", "jpg", false) == "b.png" && CandidateName("b.png", "png", "jpg", true) == "b.jpg"
    ensures ItemFilePath("out", [], "a.xyz") == "out/a.xyz" && ItemFilePath("out", [], "a.jpg") == "out/a.jpg"
    ensures ItemFilePath("out", [], "b.png") == "out/b.png" && ItemFilePath("out", [], "b.jpg") == "out/b.jpg"
  {
    SampleExtensions();
    SamplePaths();
  }

  lemma SamplePaths()
    ensures ItemFilePath("out", [], "a.xyz") == "out/a.xyz" && ItemFilePath("out", [], "a.jpg") == "out/a.jpg"
    ensures ItemFilePath("out", [], "b.png") == "out/b.png" && ItemFilePath("out", [], "b.jpg") == "out/b.jpg"
  {
    SamplePath("a.xyz");
    SamplePath("a.jpg");
    SamplePath("b.png");
    SamplePath("b.jpg");
  }

  lemma SampleExtensions()
    ensures ExtensionOf("a.xyz") == "xyz" && ExtensionOf("a.jpg") == "jpg"
    ensures ExtensionOf("b.png") == "png" && ExtensionOf("b.jpg") == "jpg"
    ensures CandidateName("a", "xyz", "jpg", false) == "a.xyz" && CandidateName("a.xyz", "xyz", "jpg", true) == "a.jpg"
    ensures CandidateName("b", "png", "jpg", false) == "b.png" && CandidateName("b.png", "png", "jpg", true) == "b.jpg"
  {
    SampleName("a", "xyz", "a.xyz");
    SampleName("a", "jpg", "a.jpg");
    SampleName("b", "png", "b.png");
    SampleName("b", "jpg", "b.jpg");
    StripDotless("a");
    StripDotless("b");
  }

  lemma SampleName(stem: string, extension: string, name: string)
    requires stem == "a" || stem == "b"
    requires extension == "xyz" || extension == "jpg" || extension == "png"
    requires name == [stem[0], '.'] + extension
    ensures ExtensionOf(name) == extension && StripExtension(name) == stem && name == stem + "." + extension
  {
    assert name == stem + "." + extension;
    ExtensionOfAppended(stem, extension);
  }

  lemma SamplePath(name: string)
    ensures ItemFilePath("out", [], name) == "out/" + name
  {
    TopLevelFilePath("out", name);
  }

  /** Layer "a" fails under "xyz" and asks for the default extension. */
  lemma FirstAttemptOfA(h: Host, t0: Table) returns (t1: Table)
    requires h == SkipHost().base && t0 == Build([])
    ensures t1 == MarkInvalid(t0, "xyz")
    ensures ExportItem(h, "out", [], "a.xyz", "a", "jpg", NonInteractive, t0)
            == Ok(ItemOutcome(UseDefaultFileExtension, DoNothing, [NonInteractive], "out/a.xyz", t1))
  {
    SampleNames();
    DistinctSamplePaths();
    var path := ItemFilePath("out", [], "a.xyz");
    assert h.handleOverwrite(path, UniquifierPosition(path, "xyz")) == (DoNothing, "out/a.xyz");
    assert RunModeFor(t0, "xyz", NonInteractive) == NonInteractive;
    assert h.exportCall(NonInteractive, "out/a.xyz") == HostError("");
    assert Lower("") == "";
    assert !Contains("", "cancelled") && !Contains("", "canceled") && !Contains("", "calling error");
    ExportItemFallsBack(h, "out", [], "a.xyz", "a", "jpg", NonInteractive, t0, "out/a.xyz", "");
    t1 := MarkInvalid(t0, "xyz");
  }

  /** An existing file the handler skips. */
  lemma SkippedAttempt(name: string, raw: string, path: string, t: Table)
    requires (name == "a.jpg" && path == "out/a.jpg") || (name == "b.png" && path == "out/b.png")
    ensures ExportItem(SkipHost().base, "out", [], name, raw, "jpg", NonInteractive, t)
            == Ok(ItemOutcome(NotExportedYet, Skip, [], path, t))
  {
    SampleNames();
  }

  /** Layer "b" under the default extension is written to "out/b.jpg". */
  lemma SecondAttemptOfB(t: Table)
    ensures var r := ExportItem(SkipHost().base, "out", [], "b.jpg", "b", "jpg", NonInteractive, t);
            r.Ok? && r.value.outputPath == "out/b.jpg" && |r.value.calls| == 1
  {
    var h := SkipHost().base;
    SampleNames();
    DistinctSamplePaths();
    var path := ItemFilePath("out", [], "b.jpg");
    assert h.handleOverwrite(path, UniquifierPosition(path, "jpg")) == (DoNothing, "out/b.jpg");
    assert forall m :: h.exportCall(m, "out/b.jpg") == HostOk;
    ExportItemSucceeds(h, "out", [], "b.jpg", "b", "jpg", NonInteractive, t, "out/b.jpg");
  }

  lemma DistinctSamplePaths()
    ensures "out/b.jpg" != "out/a.jpg" && "out/b.jpg" != "out/b.png" && "out/b.jpg" != "out/a.xyz"
    ensures "out/a.xyz" != "out/a.jpg" && "out/a.xyz" != "out/b.png"
  {
    assert "out/b.jpg"[4] != "out/a.jpg"[4];
    assert "out/b.jpg"[6] != "out/b.png"[6];
    assert "out/b.jpg"[4] != "out/a.xyz"[4];
    assert "out/a.xyz"[6] != "out/a.jpg"[6];
    assert "out/a.xyz"[4] != "out/b.png"[4];
  }

  /** An export the handler lets through and the host accepts succeeds with one call. */
  lemma ExportItemSucceeds(h: Host, directory: string, parentNames: seq<string>, name: string, rawName: string,
                           default: string, initialMode: RunMode, t: Table, outPath: string)
    requires var path := ItemFilePath(directory, parentNames, name);
             h.handleOverwrite(path, UniquifierPosition(path, ExtensionOf(name))) == (DoNothing, outPath)
    requires h.makeDirs(DirName(outPath)) == None
    requires forall m :: h.exportCall(m, outPath) == HostOk
    ensures ExportItem(h, directory, parentNames, name, rawName, default, initialMode, t)
            == Ok(ItemOutcome(ExportSuccessful, DoNothing, [RunModeFor(t, ExtensionOf(name), initialMode)], outPath, t))
  {
  }

  /** An export that fails with a plain error under a non-default extension asks for the default one. */
  lemma ExportItemFallsBack(h: Host, directory: string, parentNames: seq<string>, name: string, rawName: string,
                            default: string, initialMode: RunMode, t: Table, outPath: string, message: string)
    requires var path := ItemFilePath(directory, parentNames, name);
             h.handleOverwrite(path, UniquifierPosition(path, ExtensionOf(name))) == (DoNothing, outPath)
    requires h.makeDirs(DirName(outPath)) == None
    requires h.exportCall(RunModeFor(t, ExtensionOf(name), initialMode), outPath) == HostError(message)
    requires !WasCanceledByUser(message) && !Contains(Lower(message), "calling error")
    requires ExtensionOf(name) != default
    ensures ExportItem(h, directory, parentNames, name, rawName, default, initialMode, t)
            == Ok(ItemOutcome(UseDefaultFileExtension, DoNothing, [RunModeFor(t, ExtensionOf(name), initialMode)],
                              outPath, MarkInvalid(t, ExtensionOf(name))))
  {
  }

  /** Processing an element ends in an export error or in an unsupported element type. */
  datatype RunError = ExportFailure(error: ExportError) | UnsupportedItemType(code: int)

  /**
   * `_process_and_export_item`: rename, run the name-only actions and the
   * procedures, export, reset a group's name, then record the layer as
   * exported and count its extension unless the last overwrite decision was
   * to skip.
   */
  function ProcessAndExportItem(h: LayerHost, c: Config, elem: LayerElem, st: ExporterState)
    : (r: Result<ExporterState, ExportError>)
    requires Known(elem, st.names)
    ensures r.Ok? ==> r.value.names.Keys == st.names.Keys && r.value.table.aliases == st.table.aliases
    ensures r.Ok? ==> r.value.exported == st.exported + (if r.value.overwriteMode != Some(Skip) then [elem.id] else [])
    ensures r.Ok? ==> forall e ::
              Get(r.value.table, e).processedCount ==
                Get(st.table, e).processedCount
                + if r.value.overwriteMode != Some(Skip)
                     && KeyOf(st.table, e) == KeyOf(st.table, ExtensionOf(r.value.names[elem.id]))
                  then 1 else 0
  {
    var (name, current) := PrepareName(h, c, elem, st.names[elem.id], st.current);
    match ExportLayer(h, c, elem, st.(names := st.names[elem.id := name], current := current))
    case Err(e) => Err(e)
    case Ok(st1) =>
      SameCountsGet(st.table, st1.table);
      Ok(RecordExport(c, elem, st1))
  }

  /** Renaming and the actions before the export: the new name and current extension. */
  function PrepareName(h: LayerHost, c: Config, elem: LayerElem, name: string, current: string): (r: (string, string))
    ensures !c.groups.layerName && !c.groups.layerNameForPreview && !c.groups.layerContents ==> r == (name, current)
  {
    var name0 := if c.groups.layerName then h.rename(elem.id, name) else name;
    var current0 := if c.groups.layerName then c.default else current;
    var (name1, current1) := if c.groups.layerNameForPreview then h.nameOnlyActions(elem.id, name0, current0)
                             else (name0, current0);
    if c.groups.layerContents then h.procedures(elem.id, name1, current1) else (name1, current1)
  }

  /** After the export: reset a group's name, then record and count the layer unless it was skipped. */
  function RecordExport(c: Config, elem: LayerElem, st: ExporterState): (r: ExporterState)
    requires elem.id in st.names
    ensures r.names.Keys == st.names.Keys && r.table.aliases == st.table.aliases
    ensures r.overwriteMode == st.overwriteMode
    ensures r.exported == st.exported + (if st.overwriteMode != Some(Skip) then [elem.id] else [])
    ensures forall e ::
              Get(r.table, e).processedCount ==
                Get(st.table, e).processedCount
                + if st.overwriteMode != Some(Skip) && KeyOf(st.table, e) == KeyOf(st.table, ExtensionOf(r.names[elem.id]))
                  then 1 else 0
  {
    var names := if c.groups.postprocessLayerName && elem.itemType == NonEmptyGroup
                 then st.names[elem.id := elem.origName] else st.names;
    var counted := st.overwriteMode != Some(Skip);
    st.(names := names,
        exported := st.exported + (if counted then [elem.id] else []),
        table := if counted then CountExport(st.table, ExtensionOf(names[elem.id])) else st.table)
  }

  /** `_process_empty_group`: name the group, then create its directory. */
  function ProcessEmptyGroup(h: LayerHost, c: Config, elem: LayerElem, st: ExporterState)
    : (r: Result<ExporterState, ExportError>)
    requires Known(elem, st.names)
    ensures r.Ok? ==> r.value == st.(names := r.value.names) && r.value.names.Keys == st.names.Keys
    ensures var name := if c.groups.layerName then h.base.uniquify(h.base.validate(st.names[elem.id]), None)
                        else st.names[elem.id];
            var path := ItemFilePath(c.directory, ParentNames(st.names, elem.parents), name);
            c.groups.exporting && h.base.makeDirs(path).Some? ==>
              r == Err(InvalidOutputDirectory(h.base.makeDirs(path).value, name, c.default))
  {
    var name := if c.groups.layerName then h.base.uniquify(h.base.validate(st.names[elem.id]), None)
                else st.names[elem.id];
    var path := ItemFilePath(c.directory, ParentNames(st.names, elem.parents), name);
    if c.groups.exporting && h.base.makeDirs(path).Some? then
      Err(InvalidOutputDirectory(h.base.makeDirs(path).value, name, c.default))
    else Ok(st.(names := st.names[elem.id := name]))
  }

  /** One element of `_export_layers`, dispatched on its type. */
  function ProcessElem(h: LayerHost, c: Config, elem: LayerElem, st: ExporterState): (r: Result<ExporterState, RunError>)
    requires Known(elem, st.names)
    ensures elem.itemType.OtherType? ==> r == Err(UnsupportedItemType(elem.itemType.code))
    ensures r.Ok? ==> r.value.names.Keys == st.names.Keys
    ensures r.Ok? ==>
              (r.value.exported == st.exported
               || (elem.itemType != EmptyGroup && r.value.exported == st.exported + [elem.id]))
  {
    match elem.itemType
    case OtherType(code) => Err(UnsupportedItemType(code))
    case EmptyGroup =>
      (match ProcessEmptyGroup(h, c, elem, st) case Err(e) => Err(ExportFailure(e)) case Ok(s) => Ok(s))
    case _ =>
      (match ProcessAndExportItem(h, c, elem, st) case Err(e) => Err(ExportFailure(e)) case Ok(s) => Ok(s))
  }

  /** Every element is known together with its parents. */
  ghost predicate AllKnown(elems: seq<LayerElem>, names: map<nat, string>) {
    forall k | 0 <= k < |elems| :: Known(elems[k], names)
  }

  const StoppedMessage := "export stopped by user"

  /**
   * `_export_layers` from element `k` on. `stopDuring == Some(j)` means
   * `stop()` was called while element `j` was being processed; the flag is
   * checked before each element, so the run ends before element `j + 1`.
   */
  function ExportLayersFrom(h: LayerHost, c: Config, elems: seq<LayerElem>, k: nat, stopDuring: Option<nat>,
                            st: ExporterState): (r: Result<ExporterState, RunError>)
    requires k <= |elems| && AllKnown(elems, st.names)
    ensures r.Ok? ==> r.value.names.Keys == st.names.Keys
    decreases |elems| - k
  {
    if k == |elems| then Ok(st)
    else if stopDuring.Some? && stopDuring.value < k then Err(ExportFailure(ExportCancelError(StoppedMessage)))
    else
      match ProcessElem(h, c, elems[k], st)
      case Err(e) => Err(e)
      case Ok(st') => ExportLayersFrom(h, c, elems, k + 1, stopDuring, st')
  }

  /**
   * A stop requested while any element but the last is processed always ends the run with an error:
   * the error of the first element up to the stopped one that fails, and otherwise the cancel error
   * with its fixed message.
   */
  lemma {:induction false} StopEndsRun(h: LayerHost, c: Config, elems: seq<LayerElem>, k: nat, j: nat, st: ExporterState)
    requires k <= |elems| && AllKnown(elems, st.names)
    requires k <= j + 1 < |elems|
    ensures ExportLayersFrom(h, c, elems, k, Some(j), st).Err?
    ensures ExportLayersFrom(h, c, elems[..j + 1], k, None, st).Ok? ==>
              ExportLayersFrom(h, c, elems, k, Some(j), st) == Err(ExportFailure(ExportCancelError(StoppedMessage)))
    ensures ExportLayersFrom(h, c, elems[..j + 1], k, None, st).Err? ==>
              ExportLayersFrom(h, c, elems, k, Some(j), st) == ExportLayersFrom(h, c, elems[..j + 1], k, None, st)
    decreases |elems| - k
  {
    assert AllKnown(elems[..j + 1], st.names);
    if k <= j {
      assert elems[..j + 1][k] == elems[k];
      match ProcessElem(h, c, elems[k], st)
      case Err(_) =>
      case Ok(st') => StopEndsRun(h, c, elems, k + 1, j, st');
    }
  }

  /** A stop requested while the last element is processed comes too late to change anything. */
  lemma {:induction false} LateStopIsIgnored(h: LayerHost, c: Config, elems: seq<LayerElem>, k: nat, st: ExporterState)
    requires k <= |elems| && AllKnown(elems, st.names) && elems != []
    ensures ExportLayersFrom(h, c, elems, k, Some(|elems| - 1), st) == ExportLayersFrom(h, c, elems, k, None, st)
    decreases |elems| - k
  {
    if k < |elems| {
      match ProcessElem(h, c, elems[k], st)
      case Err(_) =>
      case Ok(st') => LateStopIsIgnored(h, c, elems, k + 1, st');
    }
  }

  /** The two image copies a run may create. */
  datatype ImageCopy = FirstCopy | AnotherCopy

  /** Whether the image copy is kept and whether a second copy collects the layers. */
  datatype CopyPlan = CopyPlan(keep: bool, useAnother: bool)

  function CountExportable(elems: seq<LayerElem>): (n: nat)
    ensures n <= |elems|
  {
    if elems == [] then 0
    else (if elems[0].itemType == EmptyGroup then 0 else 1) + CountExportable(elems[1..])
  }

  /** `_preprocess_layers`: a second copy for more than one layer or group, nothing kept for none. */
  function PlanCopies(keepRequested: bool, elems: seq<LayerElem>): (p: CopyPlan)
    ensures p.useAnother ==> p.keep
    ensures p.keep <==> keepRequested && CountExportable(elems) >= 1
    ensures p.useAnother <==> keepRequested && CountExportable(elems) > 1
  {
    var n := CountExportable(elems);
    if !keepRequested then CopyPlan(false, false)
    else if n > 1 then CopyPlan(true, true)
    else if n < 1 then CopyPlan(false, false)
    else CopyPlan(true, false)
  }

  /** `_cleanup`: the copies deleted at the end of a run. */
  function DeletedCopies(plan: CopyPlan, exceptionOccurred: bool): (d: set<ImageCopy>)
    ensures FirstCopy in d <==> !plan.keep || plan.useAnother || exceptionOccurred
    ensures AnotherCopy in d <==> plan.useAnother && exceptionOccurred
  {
    if !plan.keep || plan.useAnother || exceptionOccurred then
      {FirstCopy} + (if plan.useAnother && exceptionOccurred then {AnotherCopy} else {})
    else {}
  }

  /** The return value of `export`: the kept copy, if any. */
  function KeptCopy(plan: CopyPlan): (r: Option<ImageCopy>)
    requires plan.useAnother ==> plan.keep
    ensures r.Some? <==> plan.keep
    ensures r == Some(AnotherCopy) <==> plan.useAnother
  {
    if plan.keep then Some(if plan.useAnother then AnotherCopy else FirstCopy) else None
  }

  datatype RunReport = RunReport(result: Result<Option<ImageCopy>, RunError>, deleted: set<ImageCopy>, state: ExporterState)

  /** Every element's original name under its id. */
  function NamesOf(elems: seq<LayerElem>): (m: map<nat, string>)
    ensures forall k | 0 <= k < |elems| :: elems[k].id in m
    ensures forall i | i in m :: exists k :: 0 <= k < |elems| && elems[k].id == i
  {
    if elems == [] then map[]
    else NamesOf(elems[..|elems| - 1])[elems[|elems| - 1].id := elems[|elems| - 1].origName]
  }

  /** The state a run starts from (`_init_attributes`). */
  function InitialState(elems: seq<LayerElem>, default: string, formats: seq<seq<string>>): (st: ExporterState)
    ensures forall k | 0 <= k < |elems| :: elems[k].id in st.names
    ensures st.status == NotExportedYet && st.overwriteMode == None && st.exported == [] && st.current == default
  {
    ExporterState(NamesOf(elems), default, NotExportedYet, None, Build(formats), [], [])
  }

  /**
   * `export`: plan the copies, run over the elements, clean up, and return
   * the kept copy. A stop requested before the run is forgotten, since the
   * flag is cleared when the run starts. The copies are made by `_setup` and
   * deleted by `_cleanup`, which belong to 'layer_contents': with that group
   * off no copy exists, none is deleted, and `None` is returned.
   */
  function ExportRun(h: LayerHost, c: Config, elems: seq<LayerElem>, formats: seq<seq<string>>,
                     keepRequested: bool, stopDuring: Option<nat>): (r: RunReport)
    requires forall k, p | 0 <= k < |elems| && p in elems[k].parents :: exists i :: 0 <= i < |elems| && elems[i].id == p
    ensures r.result.Ok? && r.result.value.Some? ==> r.result.value.value !in r.deleted
    ensures c.groups.layerContents && r.result.Err? ==> FirstCopy in r.deleted
    ensures c.groups.layerContents && r.result.Ok? ==>
              (r.result.value.None? ==> FirstCopy in r.deleted) &&
              (r.result.value.Some? <==> keepRequested && CountExportable(elems) >= 1) &&
              (r.result.value == Some(AnotherCopy) <==> keepRequested && CountExportable(elems) > 1)
    ensures !c.groups.layerContents ==> r.deleted == {} && (r.result.Ok? ==> r.result.value == None)
  {
    var plan := PlanCopies(keepRequested, elems);
    var copies := c.groups.layerContents;
    var st := InitialState(elems, c.default, formats);
    match ExportLayersFrom(h, c, elems, 0, stopDuring, st)
    case Err(e) => RunReport(Err(e), if copies then DeletedCopies(plan, true) else {}, st)
    case Ok(st') =>
      RunReport(Ok(if copies then KeptCopy(plan) else None), if copies then DeletedCopies(plan, false) else {}, st')
  }
}

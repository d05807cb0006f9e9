# Batcher / Export Layers core in Dafny

This project models the decision logic of Batcher, the GIMP plug-in formerly
called Export Layers, and proves properties about it. The plug-in processes
the layers of an image one at a time and exports each one as a separate file.
Every piece of host behaviour appears in the model as a function-typed
parameter (an "oracle"): the GIMP export call, the overwrite chooser,
directory creation, the name validator and uniquifier, the PDB, and the merge
result. What remains is deterministic logic over sequences and maps.

- `base.dfy`: `Option`/`Result`, and the text helpers the code takes from
  Python. These are ASCII lower/upper case, `str.replace`, `in`,
  `str.split`/`join` and lexicographic order.
- `filenames.dfy`: file extensions, the uniquifier position just before
  ".ext", and `os.path.join` / `dirname` / `basename` for relative paths.
- `extensiontable.dfy`: the per-extension record table (`is_valid`,
  `processed_count`), which both export engines share. Also the run-mode
  choice and the classification of a failed host export call.
- `export.py` and its older counterpart `exportlayers.py`, in two files:
  - `export.dfy`: the `export` generator of `export.py` (renaming, the
    export state machine, counting);
  - `exportlayers.dfy`: `LayerExporter` of `exportlayers.py` (processing
    groups, `_export_layer`/`_export`, the element loop with `stop()`,
    copies of the image).
- `actions.dfy` and `layeractions.dfy`: turning an action's settings into an
  invoker entry, the enabled/preview gate, constraint argument splicing,
  and the text of `ExportLayersError`.
- `batcher.dfy`: `Batcher.run`, covering:
  - keyword validation;
  - the installation order of actions;
  - default rename/export procedures;
  - subfilter reuse;
  - the order of hooks and item events;
  - `stop()`;
  - clean-up.
- `fileformats.dfy`: the file-format registry. It covers:
  - the first-wins extension map and the alias map;
  - stripping of common arguments;
  - option filling, `file_format_procedure_exists`, `get_description` and
    the installed checks.
- `update.dfy`: the settings-version update decision and the choice of
  handlers over the range (previous, current].
- `procedure.dfy`: the registry for procedure registration, parameter
  parsing, and what creating a procedure does with menu paths and
  documentation.
- `constraints.dfy`: the built-in constraint predicates and the two
  registries built from the constraint list.
- `backgroundforeground.dfy`: inserting and merging background/foreground
  layers over an abstract layer stack, and "previous enabled procedures".
- `actionbrowser.dfy`: the action browser's search normalisation, row
  visibility, both sort comparators, procedure classification, and the
  description of an action.
- `settinggroup.dfy` and `pdbparams.dfy`: the setting `Group` tree and the
  flattening of PDB parameters. Their implementations are not part of this
  model. The behaviour is taken from what the test suites
  `test_group.py` and `test_pdbparams.py` assert.

## Model

| member | source | states |
|---|---|---|
| FileNames.ExtensionOfAppended | export_layers/export.py:60-64 | after ".ext" is appended to a name, the extension read back is exactly "ext" (when "ext" has no period) |
| FileNames.UniquifierPosition | export_layers/export.py:81-82 | the uniquifier position is the index of the dot that starts ".ext", so it lies inside the name |
| FileNames.InsertAtPositionKeepsExtension | export_layers/export.py:72-74 | a suffix inserted at the uniquifier position never lands inside the extension: the name still ends in ".ext" |
| Paths.JoinThenSplit | export_layers/export.py:117-140 | joining path components and then splitting the result gives back the directory (the join of all but the last component) and the base name (the last component) |
| ExtensionTable.AddFormat | export_layers/export.py:250-259 | one format's inner loop: every extension it lists maps to the same shared record, and every other key is untouched |
| ExtensionTable.AliasesFromLastWins | export_layers/export.py:250-259 | an extension has a record exactly when some format lists it, and the record is that of the last format listing it, because later assignments overwrite earlier ones |
| ExtensionTable.Build | export_layers/export.py:239-259 | in a freshly built table every extension, listed or unseen, has a valid record with count 0 |
| ExtensionTable.Put | export_layers/export.py:261-262 | a write through one extension is seen by every extension sharing its record, and by no other |
| ExtensionTable.MarkInvalid | export_layers/export.py:202 | marking an extension invalid clears validity on its shared record only, and no count changes |
| ExtensionTable.CountExport | export_layers/export.py:45-46 | counting an export adds one to exactly the shared record of the final extension, and validity is unchanged |
| ExtensionTable.LookupIgnoresCase | export_layers/export.py:261-262 | keys are lower-cased: two extensions equal up to case reach the same record |
| ExtensionTable.SharedRecordOfFormat | export_layers/export.py:253-259 | an update made through "jpg" is visible through "jpeg" when one format lists both and no later format re-lists either |
| ExtensionTable.RunModeFor | export_layers/export.py:170-175 | last values are used iff the record is valid and its count is positive; otherwise the initial run mode is used |
| ExtensionTable.CountedExtensionReusesLastValues | export_layers/export.py:170-175 | once an extension has been counted, it and every extension sharing its record run with last values, until the record is marked invalid |
| ExtensionTable.Classify | export_layers/export.py:182-223 | a failed call is classified in a fixed order: cancellation (case-insensitive) first, then "calling error" under a non-interactive mode, then a non-default extension, else fatal; success iff the host returns normally |
| ExtensionTable.ExportOnce | export_layers/export.py:182-209 | the status follows the host's reply: success iff the host accepts; a cancel error iff the host reports a user cancel; force-interactive iff another failure asks for a second, interactive attempt; use-default iff a plain failure under a non-default extension; a failed export iff a plain failure under the default extension. Only the use-default case changes the table, and it invalidates only that non-default extension |
| ExtensionTable.DefaultExtensionNeverFallsBack | export_layers/export.py:199-205 | exporting with the default extension never yields the default-extension fall-back and never clears validity |
| ExtensionTable.InteractiveAttemptIsFinal | export_layers/export.py:216-219 | an interactive attempt is never asked to be retried interactively |
| ExtensionTable.CancellationWins | export_layers/export.py:196-198 | a message containing "canceled"/"cancelled" in any case raises the cancel error, whatever else holds |
| Export.ItemFilePath | export_layers/export.py:117-140 | the path's directory is the output directory joined with the parents' names from the top, and its base name is the item name |
| Export.TopLevelFilePath | export_layers/export.py:135-140 | an item without parents lands directly in the output directory |
| Export.CandidateName | export_layers/export.py:60-69 | unforced: ".default" is appended when the current extension is the default one, and the extension is replaced otherwise; forced: it is replaced by the default; the resulting extension is the intended one |
| Export.ProcessItemName | export_layers/export.py:60-74 | the name is the validated candidate `v`, uniquified at the position of its last '.', or at position `|v| - 1` (before its last character) when it has none; with a host that neither changes nor uniquifies names, the name is the candidate itself |
| Export.ForcedNameTakesDefault | export_layers/export.py:60-74 | with a host that keeps names, a name processed with the default extension forced ends in that default extension |
| Export.ExportItem | export_layers/export.py:85-114 | CANCEL raises a cancel error; SKIP makes no call and returns "not exported yet"; otherwise a directory failure is an invalid-output-directory error, and else the first call uses the table's run mode, a second interactive call is made iff the first reply is a non-cancel failure that asks for it, and the status is success iff the last call's reply is the host accepting |
| Export.ProcessParents | export_layers/export.py:51-56 | every parent not yet seen is validated and uniquified once and remembered; seen parents and all other names are untouched |
| Export.ExportWithFallback | export_layers/export.py:36-43 | the fall-back never changes any count in the extension table |
| Export.SecondAttemptErrors | export_layers/export.py:107-112 | when the first call asks for an interactive retry and the second call fails, a cancellation is a cancel error with the second reply's message, a failure under the default extension is an export error with that message, and otherwise the status is use-default with the extension marked invalid |
| Export.FallbackExportsAgain | export_layers/export.py:36-43 | an error or any status other than use-default is the first export's result; after use-default (only under a non-default extension) the item is exported again with the updated table under the re-processed name, which ends in the default extension when names are processed by a name-keeping host |
| Export.ExportAndCount | export_layers/export.py:36-46 | after one item the count of exactly the final extension's record rises by one iff the last overwrite decision was not SKIP |
| Export.RenameForExport | export_layers/export.py:31-33 | with name processing the parents are processed, then the item is named with the current extension; without it nothing is renamed |
| Export.ExportStep | export_layers/export.py:24-48 | one generator pass keeps the aliases, remembers the item's parents when names are processed, and counts the final extension iff the item was not skipped |
| Export.RunRemembersParents | export_layers/export.py:21-56 | over a whole run every parent of every item ends up remembered as processed |
| Export.ParentsRenamedOnce | export_layers/export.py:51-56 | each parent folder is renamed at most once per run: a remembered parent that is not itself exported keeps its name |
| ExportLayers.GroupsOf | export_layers/exportlayers.py:366-369 | each of the five processing groups (layer contents, layer name, name post-processing, export, name for preview) is live iff its name is in the list |
| ExportLayers.EnableGroupsAsWritten | export_layers/exportlayers.py:355-369 | the code as written: an empty list switches every processing group off |
| ExportLayers.EnableGroups | export_layers/exportlayers.py:196 | `None` or an empty list selects the defaults; otherwise exactly the listed groups are live, and the name reset follows 'layer_name' |
| ExportLayers.EmptyGroupListDisablesEverything | export_layers/exportlayers.py:355-369 | for an empty list nothing is live as written, while the corrected version enables the default groups |
| ExportLayers.NameResetFollowsLayerName | export_layers/exportlayers.py:362-364 | '_postprocess_layer_name' is live exactly when 'layer_name' is; repeating a default run grows the default list by one entry but leaves the live groups unchanged |
| ExportLayers.ExportCall | export_layers/exportlayers.py:584-608 | `_export` fails exactly when the export of the item fails, with its error; otherwise it records the overwrite mode chosen, and for any mode but SKIP takes the status, the updated table and the calls from that export; on SKIP it makes no call and leaves the table alone, and the status is reset only in the corrected version; names, the exported list and every count are kept |
| ExportLayers.DefaultFallbackExportsAgain | export_layers/exportlayers.py:576-582 | `_export_layer` returns the first export unless its status is use-default; then the layer's name is processed again with the default extension forced and the layer is exported again, and under a name-keeping host that name ends in the default extension |
| ExportLayers.ExportLayerWith | export_layers/exportlayers.py:576-582 | `_export_layer` never changes the set of names or any count, and it always records an overwrite decision when exporting is live |
| ExportLayers.ExportAgain | export_layers/exportlayers.py:580-582 | the second export after use-default keeps the set of names, the exported list and every count, and records an overwrite decision when exporting is live |
| ExportLayers.ExportLayerAsWritten | export_layers/exportlayers.py:576-608 | the code as written keeps the names and counts of the table |
| ExportLayers.SkipMeansNoExport | export_layers/exportlayers.py:576-608 | with the status reset, a first answer of SKIP ends the layer with no export call, no table change and the status "not exported yet" |
| ExportLayers.ExportLayer | export_layers/exportlayers.py:576-608 | corrected `_export_layer`: a layer whose first overwrite answer is SKIP is not exported at all, whatever happened to the previous layer |
| ExportLayers.SkippedLayerExportedAsWritten | export_layers/exportlayers.py:584-608 | counterexample to the code as written: layer "b" is skipped, yet the leftover status of layer "a" renames it to "b.jpg" and writes that file |
| ExportLayers.ExportItemSucceeds | export_layers/exportlayers.py:640-662 | an export that the overwrite handler lets through and the host accepts succeeds after exactly one call with the table's run mode |
| ExportLayers.ExportItemFallsBack | export_layers/exportlayers.py:640-683 | a plain failure under a non-default extension asks for the default extension and invalidates that extension |
| ExportLayers.ProcessAndExportItem | export_layers/exportlayers.py:436-450 | the layer is appended to the exported list, and its final extension counted, iff the last overwrite decision was not SKIP |
| ExportLayers.PrepareName | export_layers/exportlayers.py:436-439 | with every name and contents group off, the name and current extension are unchanged |
| ExportLayers.RecordExport | export_layers/exportlayers.py:441-450 | recording appends the layer and counts exactly its final extension's record iff it was not skipped |
| ExportLayers.ProcessEmptyGroup | export_layers/exportlayers.py:452-460 | an empty group only gets a name and a directory; a failure to create the directory is an invalid-output-directory error naming the group |
| ExportLayers.ProcessElem | export_layers/exportlayers.py:427-434 | an unsupported item type is an error; an item or non-empty group may be exported; an empty group never is |
| ExportLayers.ExportLayersFrom | export_layers/exportlayers.py:420-434 | the element loop keeps the set of names |
| ExportLayers.StopEndsRun | export_layers/exportlayers.py:420-423 | a stop requested while any element but the last is processed always ends the run with an error: the error of an element up to the stopped one that fails, and otherwise the cancel error 'export stopped by user' |
| ExportLayers.LateStopIsIgnored | export_layers/exportlayers.py:420-423 | a stop requested during the last element changes nothing, because the flag is checked only before an element starts |
| ExportLayers.PlanCopies | export_layers/exportlayers.py:371-388 | a copy is kept iff one was asked for and at least one layer or non-empty group exists; a second copy is used iff there are more than one |
| ExportLayers.InitialState | export_layers/exportlayers.py:280-324 | a run starts with every element named, nothing exported, no overwrite decision and the default extension current |
| ExportLayers.ExportRun | export_layers/exportlayers.py:177-229 | with the layer-contents group on: a returned copy is never deleted; after an error, or when no copy is returned, the first copy is deleted; a copy is returned iff keeping it was asked and some layer is exportable, and it is the second copy iff more than one is; with the group off no copy is made, so none is returned or deleted |
| ExportLayers.DeletedCopies | export_layers/exportlayers.py:478-496 | the first copy is deleted iff it is not kept, a second copy is used, or an exception occurred; the second copy is deleted iff it was used and an exception occurred |
| ExportLayers.KeptCopy | export_layers/exportlayers.py:223-229 | a copy is returned iff keeping it was asked, and it is the second copy iff a second copy is used |
| Actions.ParamIndex | export_layers/exportlayers.py:787-792 | `list.index`: the first position of the name, or nothing iff the name is absent |
| Actions.ResolveFunction | export_layers/exportlayers.py:703-711 | an unknown PDB name is an invalid-procedure error; a stored `None` means nothing to add |
| Actions.SplitRunMode | export_layers/exportlayers.py:722-725 | the first argument becomes the run mode and the rest stay in order; with no arguments the indexing fails |
| Actions.PrepareAction | export_layers/exportlayers.py:703-740 | the PDB lookup fails before tags are checked; nothing is added when the function is `None` or no requested tag is present; an empty argument list under a run-mode procedure is an indexing error |
| Actions.RestrictedPassIsSubset | export_layers/batcher.py:603-614 | a pass restricted to some tags and groups adds an action only if the unrestricted pass adds it too, with the same function and arguments |
| Actions.ArgumentsDetermineSplit | export_layers/exportlayers.py:722-725 | the split of the run mode is injective: equal recombined arguments mean an equal run mode and equal remaining arguments |
| Actions.Gate | export_layers/batcher.py:461-477 | outside previews an action runs iff it is enabled; in previews iff it is both enabled and enabled for previews |
| Actions.PreviewGateIsStricter | export_layers/exportlayers.py:763-770 | a call the preview gate lets through also passes outside previews, the two agree for an action enabled for previews, and outside previews the preview flag has no effect |
| LayerActions.AddActionFromSettings | export_layers/exportlayers.py:703-740 | errors and "nothing added" are exactly those of the shared preparation; constraints get the subfilter wrapper and other actions the placeholder wrapper; PDB procedures are adapted |
| LayerActions.PyIndex | export_layers/exportlayers.py:797 | Python indexing: defined iff -len ≤ k < len, and a negative k counts from the end |
| LayerActions.ExporterArgs | export_layers/exportlayers.py:787-809 | a declared `layer_exporter` at position p takes `args[p-1]` and passes args unchanged; otherwise the exporter is taken out from index 1 (more than one arg) or 0, and putting it back restores the arguments |
| LayerActions.ErrorText | export_layers/exportlayers.py:866-874 | the text starts with the message, and it is the message alone when there is no layer name and no extension |
| LayerActions.ErrorTextLines | export_layers/exportlayers.py:866-874 | the lines of the text are the message, then a "Layer:" line only for a non-empty name, then a "File extension:" line only for a non-empty extension |
| Batcher.FirstInvalid | export_layers/batcher.py:515-526 | finds the first keyword that is not an `__init__` parameter, or reports that there is none |
| Batcher.SetKeywords | export_layers/batcher.py:519-526 | any keyword that is not an `__init__` parameter raises, naming the first such keyword, with the earlier ones already set; otherwise every keyword overwrites its attribute |
| Batcher.FillDefaults | export_layers/batcher.py:528-541 | attributes left `None` get defaults; the chooser defaults to a non-interactive chooser for the overwrite mode; other attributes are untouched |
| Batcher.InitAttributes | export_layers/batcher.py:515-541 | keywords are accepted iff all are `__init__` parameters, and then every given non-`None` value is kept and every defaulted attribute is non-`None` |
| Batcher.WrapAction | export_layers/batcher.py:390-443 | errors and "nothing added" follow the shared preparation; constraints keep their name and subfilter and keep the batcher argument iff the rule declares it; the gate uses the preview flag |
| Batcher.AddAllFromSettings | export_layers/batcher.py:593-601 | the walk fails iff some setting fails; otherwise it adds, in list order, exactly one entry per setting that wraps, each shaped for the given groups |
| Batcher.SelectedMembers | export_layers/batcher.py:593-601 | a setting gets an entry iff it is listed and wraps into an action |
| Batcher.ConfiguredFails | export_layers/batcher.py:616-634 | the configured part fails iff some procedure or some constraint fails to wrap |
| Batcher.ConfiguredEntries | export_layers/batcher.py:616-634 | the configured part holds the entries of the procedures right after the optional default rename |
| Batcher.ConfiguredConstraintsLast | export_layers/batcher.py:616-634 | the configured part ends with the entries of the constraints |
| Batcher.AddConfigured | export_layers/batcher.py:616-634 | the default rename (export) procedure is installed iff not in edit mode and no enabled procedure is named 'rename' ('export'); the parts come in the fixed order |
| Batcher.AssembledInOrder | export_layers/batcher.py:589-601 | rename, procedures, export and constraints concatenated are in installation order |
| Batcher.AddActions | export_layers/batcher.py:574-601 | set-active comes first, then the per-action set-active, the lock handling iff in edit mode, then the initial invoker, then the configured part, all in order; the run ends with exactly the configured part |
| Batcher.AddNameOnlyActions | export_layers/batcher.py:603-614 | every name-only entry goes into the name-only group; a procedure or constraint is added iff it carries the given tag and wraps into an action, procedures after the optional rename and constraints at the end |
| Batcher.NameOnlySelection | export_layers/batcher.py:603-614 | selecting by the name-only tag picks a setting iff it carries the tag and wraps into an action |
| Batcher.ConstraintArgs | export_layers/batcher.py:497-513 | the batcher argument, at position 0 for constraints as for procedures, is dropped unless the rule declares `batcher` |
| Batcher.SubfilterFor | export_layers/batcher.py:484-491 | the first existing subfilter with that name is used, else a new one is appended |
| Batcher.SubfilterReused | export_layers/batcher.py:484-491 | a second constraint with the same subfilter name reuses the subfilter the first one found or made |
| Batcher.ItemEvents | export_layers/batcher.py:730-792 | without content processing, every event of an item is an invocation about that item; a failing default group is the last event |
| Batcher.ProcessFrom | export_layers/batcher.py:698-728 | the item loop ends normally unless a stop was requested before the last item or an item raised |
| Batcher.ItemHooksInOrder | export_layers/batcher.py:730-792 | an item's name-only hooks come first; then before_process_item, before_process_item_contents, the default procedures, after_process_item_contents and after_process_item, in that order (the contents hooks nest inside the item hooks), the last two only if the item did not raise; nothing else happens for the item except its copy |
| Batcher.LoopEndsAsStated | export_layers/batcher.py:710-717 | the loop's outcome in closed form: a stop is noticed at the first item after the one it was requested during, a raising item raises when reached, whichever comes first ends the loop, and the stop wins at the same item |
| Batcher.RaisingItemEndsLoop | export_layers/batcher.py:710-717 | an item whose default procedures raise, reached with no stop before it, ends the loop with ItemProcessingFailed for that item |
| Batcher.NothingAfterRaise | export_layers/batcher.py:710-717 | when item j raises, every event of the loop is about an item at a position up to j |
| Batcher.RaisingItemFailsRun | export_layers/batcher.py:288-301 | a raising item fails the run with its ItemProcessingFailed: the finish hooks are skipped, the clean-up still runs |
| Batcher.LoopItemPositions | export_layers/batcher.py:710-717 | every event of the loop from item k is an item event about an item at a position from k on |
| Batcher.LoopKeepsItemOrder | export_layers/batcher.py:710-717 | for items without repetitions, the events of an item precede those of every later item |
| Batcher.RunPhasesInOrder | export_layers/batcher.py:698-728 | the constraints set while preparing and the start hooks precede every item event, which precede the finish hooks, which precede the clean-up |
| Batcher.RunInOrder | export_layers/batcher.py:698-728 | for items without repetitions, the whole run is ordered: the constraints set while preparing and the start hooks, then the events of item 0, item 1 and so on, then the finish hooks, then the clean-up |
| Batcher.Run | export_layers/batcher.py:273-306 | the run starts with the default constraints group, invoked with the batcher while processing is prepared, and then 'before_process_items'; clean-up runs whether or not processing raised; 'after_process_items' happens iff no error; the copy is returned iff contents are processed, a copy was asked for and one was made (outside edit mode, or in a preview), and then it is not deleted |
| Batcher.CleanupEvents | export_layers/batcher.py:659-686 | the copy is deleted iff one was made and it is not kept or an exception occurred |
| Batcher.NoRunHooksInItems | export_layers/batcher.py:730-792 | item events never include run-level hooks |
| Batcher.StopCancelsRun | export_layers/batcher.py:308-313 | a stop requested during any item but the last ends the run with the cancel error |
| Batcher.NothingAfterStop | export_layers/batcher.py:710-712 | no event of a run concerns an item after the one during which stop was requested |
| FileFormats.FirstListings | batcher/src/file_formats.py:194-202 | an extension is mapped iff some version-compatible format lists it, and it maps to the first such format |
| FileFormats.FormatsDict | batcher/src/file_formats.py:194-202 | every entry names a version-compatible format that lists the extension |
| FileFormats.Aliases | batcher/src/file_formats.py:205-213 | each listed extension aliases to the first extension of the first format listing it, regardless of version checks |
| FileFormats.AliasesWhenListedOnce | batcher/src/file_formats.py:205-213 | when no extension is listed twice, every extension aliases to its format's first extension, which aliases to itself |
| FileFormats.VersionedIsAliased | batcher/src/file_formats.py:194-213 | every key of the format map is also an alias key |
| FileFormats.RemoveCommon | batcher/src/file_formats.py:47-53 | the result is a subsequence of the options, and without common options it is all of them |
| FileFormats.RemovedIffCommon | batcher/src/file_formats.py:47-53 | the result keeps, in order, exactly the options at the positions whose option is not a common one |
| FileFormats.StripsExportArguments | batcher/src/file_formats.py:355-360 | the run-mode/image/file/options prefix of an export procedure is stripped and nothing else |
| FileFormats.StripsLoadArguments | batcher/src/file_formats.py:350-353 | the run-mode/file prefix of a load procedure is stripped and nothing else |
| FileFormats.FillOptions | batcher/src/file_formats.py:15-44 | the store is unchanged if the alias is None, present or unregistered or the procedure is missing; the invalid-mode error comes only after those checks; otherwise the stripped options are stored under the alias |
| FileFormats.FillOptionsIdempotent | batcher/src/file_formats.py:15-44 | filling keeps existing entries, and filling again changes nothing |
| FileFormats.AsKwargs | batcher/src/file_formats.py:78-88 | options are returned iff the requested key is in the filled store, one pair per option, with each '-' in a name replaced by '_' and every other character kept |
| FileFormats.AliasRequestGetsNothing | batcher/src/file_formats.py:78-88 | asking under an alias that differs from its canonical key returns None, since the lookup uses the un-aliased key |
| FileFormats.ProcedureExists | batcher/src/file_formats.py:91-102 | False for an unregistered format; for a registered one an invalid mode is an error, and otherwise it is True iff the procedure is in the PDB |
| FileFormats.ExistsMeansInstalled | batcher/src/file_formats.py:165-175 | an existing procedure means installed, and a format with no procedure name is always installed |
| FileFormats.GetDescription | batcher/src/file_formats.py:132-163 | a custom description is returned verbatim; else an invalid mode is an error; else the menu label if non-empty and short enough, else "<FIRST EXT UPPER> image" |
| FileFormats.InferredDescriptionBounded | batcher/src/file_formats.py:146-163 | when the fall-back text fits, the inferred description is non-empty and within the maximum length |
| FileFormats.FuncFor | batcher/src/file_formats.py:177-187 | a custom function wins; otherwise the PDB procedure of that name, which requires a name |
| FileFormats.SampleAliases | batcher/src/file_formats.py:205-213 | for a JPEG format listing "jpg", "jpeg" and "jpe", all three alias to "jpg" |
| Update.LoadPreviousVersion | batcher/src/update.py:104-123 | an unparsable version gives (None, FAIL, ""); a parsed version with a missing source counts as SUCCESS with no message; otherwise the load status and message are kept |
| Update.HandlersInRange | batcher/src/update.py:137-139 | exactly the handlers with previous < v ≤ current are selected |
| Update.HandlersInRangeConcat | batcher/src/update.py:137-139 | the selection distributes over concatenation, so it keeps the listed order |
| Update.HandleUpdate | batcher/src/update.py:126-142 | without handlers nothing happens; otherwise every source is cleared, then the handlers in range run in order, then the settings are saved |
| Update.UpdateInSteps | batcher/src/update.py:137-139 | updating from a to b and then from b to c runs the same handlers as updating from a to c |
| Update.RunUpdate | batcher/src/update.py:19-101 | FRESH_START iff no source has data (then only the version is saved); otherwise NO_ACTION or UPDATE after a successful load, and CLEAR_SETTINGS or TERMINATE depending on 'clear'/'ask_to_clear' and the answer |
| Update.UpdateRunsHandlersInRange | batcher/src/update.py:70-83 | after UPDATE, every listed handler in range ran, and an update to an older version runs none |
| Update.UpdateRunsOnlyHandlersInRange | batcher/src/update.py:70-83 | after UPDATE, every handler that ran is a listed handler in range |
| Procedure.ProcName | batcher/pygimplib/procedure.py:133 | the procedure name is the function name with each '_' replaced by '-' |
| Procedure.FindProp | batcher/pygimplib/procedure.py:167-171 | a property is found iff its name is registered |
| Procedure.ParseItems | batcher/pygimplib/procedure.py:162-185 | parsing only ever adds properties, never renames earlier ones, and returns the processed names in order |
| Procedure.ProcessedNamesRegistered | batcher/pygimplib/procedure.py:162-185 | every name parsing returns is registered afterwards |
| Procedure.NamedDictsParse | batcher/pygimplib/procedure.py:163-171 | a list of dicts that each carry a name always parses |
| Procedure.ParseParameters | batcher/pygimplib/procedure.py:151-158 | `None` gives `None`; a string or a non-iterable is a type error; the registry only grows |
| Procedure.DefineNew | batcher/pygimplib/procedure.py:163-171 | a new named dict registers its property under the normalised name |
| Procedure.RedefineKeepsFirst | batcher/pygimplib/procedure.py:169-171 | a second dict with the same normalised name reuses the first property |
| Procedure.NameReuses | batcher/pygimplib/procedure.py:172-178 | a bare name is accepted iff it was registered before, and otherwise it is an error |
| Procedure.FirstDefinitionWins | batcher/pygimplib/procedure.py:167-178 | the first definition of a name stays; later definitions change nothing, and the name can then be used alone |
| Procedure.Put | batcher/pygimplib/procedure.py:133-134 | registering stores under the name, keeps insertion order, appends a new name at the end, and leaves other names alone |
| Procedure.RegisterProcedure | batcher/pygimplib/procedure.py:133-148 | the registry gains the normalised name (kept in place if re-registered); other entries are untouched; the properties only grow |
| Procedure.QueryProcedures | batcher/pygimplib/procedure.py:242-243 | the query lists exactly the registered names |
| Procedure.ReregisterReplaces | batcher/pygimplib/procedure.py:133-148 | registering the same name again replaces the entry without changing the query |
| Procedure.MenuPathCalls | batcher/pygimplib/procedure.py:274-282 | a string adds one menu path; an iterable adds each in order; any other value is a type error |
| Procedure.DocumentationCall | batcher/pygimplib/procedure.py:287-293 | length 2 gets the procedure name appended, length 3 is passed as-is, any other length is an error |
| Procedure.CreateProcedure | batcher/pygimplib/procedure.py:246-304 | an unknown name gives None; a registered procedure fails exactly on a bad menu path or bad documentation |
| Procedure.FailedRegistrationIsQueriedButNotCreated | batcher/pygimplib/procedure.py:133-148 | a registration whose parameters raised still leaves its name queryable, but creating it fails |
| Procedure.SetUseLocale | batcher/pygimplib/procedure.py:188-200 | the flag becomes the truth value of the argument, and nothing else changes |
| Procedure.CreatePluginClass | batcher/pygimplib/procedure.py:215-239 | `do_set_i18n` is defined iff locale is disabled, and every property becomes a class attribute with '-' renamed to '_' |
| Procedure.LocaleDecidesI18n | batcher/pygimplib/procedure.py:188-239 | after `set_use_locale(x)` the class defines `do_set_i18n` iff x is falsy |
| BuiltinConstraints.HasColorTags | batcher/src/builtin_constraints.py:46-55 | a NONE tag gives False; a non-empty tag list means membership; an empty or missing list means any tag but NONE |
| BuiltinConstraints.NegatedTagConstraints | batcher/src/builtin_constraints.py:58-63 | the negated constraints are true for an item without a colour tag |
| BuiltinConstraints.MatchingIgnoresCase | batcher/src/builtin_constraints.py:21-22 | extension matching ignores the case of the requested extension |
| BuiltinConstraints.MatchesOwnExtension | batcher/src/builtin_constraints.py:21-22 | an item named "stem.ext" matches "ext" |
| BuiltinConstraints.SortBuiltins | batcher/src/builtin_constraints.py:207-208 | the builtins end up sorted by menu path (else display name, else name), as a permutation of the list |
| BuiltinConstraints.BuildRegistries | batcher/src/builtin_constraints.py:215-223 | both registries have the same keys, which are exactly the names in the list; every stored dict has a blank function and is stored under its own name |
| BuiltinConstraints.FunctionsKeptByName | batcher/src/builtin_constraints.py:218-223 | with distinct names, each original function is stored under its constraint's name |
| BuiltinConstraints.BuiltinNamesDistinct | batcher/src/builtin_constraints.py:66-205 | the ten built-in constraint names are pairwise distinct |
| BuiltinConstraints.PermutedRegistryLookup | batcher/src/builtin_constraints.py:207-223 | after any reordering, such as the sort, each original function is still stored under its constraint's name |
| BackgroundForeground.MergeDown | batcher/src/background_foreground.py:70-71 | merging down removes one layer and replaces the pair with their merge; the rest of the stack is unchanged |
| BackgroundForeground.SourceItems | batcher/src/background_foreground.py:21-24 | in preview the given items are used, otherwise exactly the non-folder items of the tree |
| BackgroundForeground.TaggedItems | batcher/src/background_foreground.py:26-28 | exactly the valid items whose colour tag is the requested one; nothing for the NONE tag |
| BackgroundForeground.Copies | batcher/src/background_foreground.py:50-53 | one visible copy per tagged item, in order |
| BackgroundForeground.MergeRunCollapses | batcher/src/background_foreground.py:62-71 | merging down from first+k-2 to first (k-1 merges) collapses the k inserted copies into one layer and leaves the rest of the stack alone |
| BackgroundForeground.InsertTaggedLayer | batcher/src/background_foreground.py:20-79 | with no tagged items nothing changes; otherwise one layer is inserted after the current one (background) or before it (foreground); it has the tag and the merged content, and everything else keeps its order |
| BackgroundForeground.PreviousEnabledIsFilteredPrefix | batcher/src/background_foreground.py:185-195 | the result is the enabled procedures with the matching name, filtered in order from the procedures before the current one (all of them when it is absent); so a procedure is in the result iff it comes before the current one, is enabled and has that name |
| BackgroundForeground.LaterProceduresIgnored | batcher/src/background_foreground.py:188-190 | procedures after the current one never affect the result |
| BackgroundForeground.GetAdjacentLayer | batcher/src/background_foreground.py:127-182 | a layer is found iff there are at least two layers, the neighbour exists (position+1 for background, position-1 for foreground), and its tag is among the tags of the previous enabled insert procedures; otherwise the skip message is raised |
| BackgroundForeground.MergeTaggedLayer | batcher/src/background_foreground.py:98-124 | it is skipped iff no adjacent layer exists; a failed merge only leaves the current layer visible; a successful one replaces the pair and restores name, visibility and tag |
| BackgroundForeground.InsertThenFindAdjacent | batcher/src/background_foreground.py:12-182 | after inserting a tagged layer, it is exactly the adjacent layer the merge procedure finds |
| BackgroundForeground.InsertThenMerge | batcher/src/background_foreground.py:12-124 | insert then merge restores the stack's length and the other layers, and the merged layer keeps the current layer's name, visibility and tag |
| ActionUtils.ActionDescription | batcher/src/gui/actions/utils.py:4-13 | a procedure's blurb, or "" when it has none; otherwise the dict's description (default "") or the group's description, or "" when it is None |
| ActionUtils.NoDescriptionOnlyFromDictNone | batcher/src/gui/actions/utils.py:4-13 | the description is missing only for a dict that stores None explicitly and has no procedure |
| ActionUtils.ProcedureTakesPrecedence | batcher/src/gui/actions/utils.py:5-7 | with a procedure, the action is ignored |
| ActionBrowser.SearchText | batcher/src/gui/actions/browser.py:427-429 | search text has the same length, no '_' and no upper-case letter, and character-wise it is '_'→'-' followed by lower-casing |
| ActionBrowser.SearchTextIdempotent | batcher/src/gui/actions/browser.py:427-429 | normalising twice equals normalising once |
| ActionBrowser.SearchTextIgnoresCaseAndUnderscores | batcher/src/gui/actions/browser.py:427-429 | two texts normalise to the same text iff they have the same length and agree at every position up to case and '_' vs '-' |
| ActionBrowser.CriteriaTexts | batcher/src/gui/actions/browser.py:417-423 | exactly the normalised columns of the enabled criteria |
| ActionBrowser.RowVisible | batcher/src/gui/actions/browser.py:408-425 | a parent row is always visible; a child iff the normalised query is a substring of some enabled column |
| ActionBrowser.NoCriteriaHidesChildren | batcher/src/gui/actions/browser.py:408-425 | with no criteria enabled only parent rows are visible |
| ActionBrowser.EmptyQueryShowsAll | batcher/src/gui/actions/browser.py:408-425 | with some criterion enabled, an empty query shows every row |
| ActionBrowser.NormalisedQuerySameRows | batcher/src/gui/actions/browser.py:411 | normalising the query beforehand changes nothing |
| ActionBrowser.CompareByName | batcher/src/gui/actions/browser.py:431-449 | rows of different types compare equal; otherwise -1/0/1 follows name order |
| ActionBrowser.CompareByNameAntisymmetric | batcher/src/gui/actions/browser.py:431-449 | swapping the rows negates the result |
| ActionBrowser.CompareByNameTransitive | batcher/src/gui/actions/browser.py:431-449 | "less than" is transitive |
| ActionBrowser.CompareByMenuName | batcher/src/gui/actions/browser.py:451-477 | rows of different types compare equal; an empty menu name sorts after a non-empty one; otherwise menu names are ordered |
| ActionBrowser.CompareByMenuNameAntisymmetric | batcher/src/gui/actions/browser.py:451-477 | swapping the rows negates the result |
| ActionBrowser.CompareByMenuNameOrder | batcher/src/gui/actions/browser.py:460-474 | within a type, a is less iff only b's menu name is empty or both are non-empty and a's sorts first |
| ActionBrowser.CompareByMenuNameTransitive | batcher/src/gui/actions/browser.py:451-477 | "less than" is transitive |
| ActionBrowser.ArgumentShape | batcher/src/gui/actions/browser.py:205-219 | image-like arguments exist iff the first argument is an image/drawable, or the first is a run mode and the second an image/drawable |
| ActionBrowser.Classify | batcher/src/gui/actions/browser.py:163-178 | load procedures first, then save procedures, then plug-ins with image arguments, other plug-ins, and GIMP procedures, each iff its condition holds and the earlier ones do not |
| ActionBrowser.PluginsSplitByArguments | batcher/src/gui/actions/browser.py:170-176 | a plug-in goes under plug-ins iff it has image-like arguments, otherwise under "other" |
| ActionBrowser.MenuNameColumn | batcher/src/gui/actions/browser.py:180-183 | the column is empty iff the display name equals the name (or is empty), and otherwise it is the display name |
| ActionBrowser.ProcedureRow | batcher/src/gui/actions/browser.py:163-192 | a row is a child row carrying the name, the description, the classification and the menu-name column |
| ActionBrowser.UndisplayedNameSortsLast | batcher/src/gui/actions/browser.py:180-183 | a procedure whose display name is its name sorts after every row of its type that has a menu name |
| SettingGroup.NewGroup | batcher/pygimplib/tests/setting/test_group.py:18-23 | a group name is valid iff it has no '/' and no '.'; otherwise creation fails |
| SettingGroup.IndexOfName | batcher/pygimplib/tests/setting/test_group.py:38-41 | the first child with that name, or none iff the name is absent |
| SettingGroup.Add | batcher/pygimplib/tests/setting/test_group.py:84-107 | a child is added at the end iff its name is valid, not taken, and it is not the group itself; unique names are kept |
| SettingGroup.AddAll | batcher/pygimplib/tests/setting/test_group.py:52-57 | a successful add appends all entries in order and keeps names unique |
| SettingGroup.SameNameTwiceRefused | batcher/pygimplib/tests/setting/test_group.py:90-92 | adding the same entry twice in one call fails |
| SettingGroup.SameNameInDifferentGroups | batcher/pygimplib/tests/setting/test_group.py:94-107 | one entry can be added to two different groups, which can both be added to a parent |
| SettingGroup.LookupByName | batcher/pygimplib/tests/setting/test_group.py:38-41 | a plain name finds the child of that name, or a missing-key error |
| SettingGroup.PathIsNestedIndexing | batcher/pygimplib/tests/setting/test_group.py:506-534 | looking up "a/b" is looking up "a" and then "b" inside it, and an invalid group is a missing-key error |
| SettingGroup.GetValue | batcher/pygimplib/tests/setting/test_group.py:300-321 | an existing setting gives its value, and a missing path gives the default |
| SettingGroup.ReorderTarget | batcher/pygimplib/tests/setting/test_group.py:380-407 | a position is clamped to the last index; a negative one counts from the length and is clamped at 0 |
| SettingGroup.Move | batcher/pygimplib/tests/setting/test_group.py:402-407 | the moved child lands at the target, the others keep their order, and the children are a permutation |
| SettingGroup.Reorder | batcher/pygimplib/tests/setting/test_group.py:380-429 | reordering fails iff the name is missing; otherwise it moves only that child within its own group |
| SettingGroup.ReorderExamples | batcher/pygimplib/tests/setting/test_group.py:380-407 | positions 2, 4, 0 and -2 give the orders the tests expect |
| SettingGroup.ReorderTwice | batcher/pygimplib/tests/setting/test_group.py:409-416 | reordering to 2 and then to 1 gives [b, a, c] |
| SettingGroup.Without | batcher/pygimplib/tests/setting/test_group.py:431-435 | the children that remain are exactly those whose names were not removed |
| SettingGroup.Remove | batcher/pygimplib/tests/setting/test_group.py:431-453 | removal succeeds iff every name is present when its turn comes (so a repeat or an invalid name fails), and then the remaining children are exactly the others |
| SettingGroup.RemoveNamesMeaning | batcher/pygimplib/tests/setting/test_group.py:431-453 | removing names one by one fails iff some name is missing at its turn, and otherwise leaves exactly the others |
| SettingGroup.Walk | batcher/pygimplib/tests/setting/test_group.py:554-690 | every visited node is accepted, and groups are visited only with include_groups |
| SettingGroup.Settings | batcher/pygimplib/tests/setting/test_group.py:554-559 | the pre-order list of all settings holds only settings |
| SettingGroup.WalkWithoutPruning | batcher/pygimplib/tests/setting/test_group.py:607-619 | with include_if_parent_skipped, the walk visits exactly the accepted settings, in pre-order |
| SettingGroup.WalkVisitsAllSettings | batcher/pygimplib/tests/setting/test_group.py:554-559 | accepting everything visits every setting in pre-order |
| SettingGroup.SkippingUnused | batcher/pygimplib/tests/setting/test_group.py:607-634 | when everything is accepted, include_if_parent_skipped makes no difference |
| SettingGroup.RejectedGroupPruned | batcher/pygimplib/tests/setting/test_group.py:573-605 | a rejected group is pruned with everything under it |
| SettingGroup.EmptyGroupStartsAndEnds | batcher/pygimplib/tests/setting/test_group.py:661-674 | an empty accepted group is visited and then ended |
| PdbParams.PdbName | batcher/pygimplib/tests/setting/test_pdbparams.py:26-33 | the PDB name is the setting name with '_' replaced by '-' |
| PdbParams.Flatten | batcher/pygimplib/tests/setting/test_pdbparams.py:39-63 | flattening yields only settings, and a setting flattens to itself |
| PdbParams.FlattenInputs | batcher/pygimplib/tests/setting/test_pdbparams.py:35-37 | flattening succeeds iff every input is a setting or group |
| PdbParams.SettingParams | batcher/pygimplib/tests/setting/test_pdbparams.py:39-67 | an unregistrable setting gives no parameter, a plain one gives (type, PDB name, description), and an array gives a length parameter first |
| PdbParams.CreateParams | batcher/pygimplib/tests/setting/test_pdbparams.py:26-67 | it fails iff some input is neither a setting nor a group; otherwise it gives the parameters of the flattened settings |
| PdbParams.ParamsFollowSettings | batcher/pygimplib/tests/setting/test_pdbparams.py:39-63 | leaving out the length parameters, the parameters are exactly those of the registrable settings, in walk order |
| PdbParams.LengthBeforeArray | batcher/pygimplib/tests/setting/test_pdbparams.py:51-58 | every array parameter is immediately preceded by its length parameter |
| PdbParams.IterArgs | batcher/pygimplib/tests/setting/test_pdbparams.py:76-103 | there are never more values than arguments or settings |
| PdbParams.IterArgsWithoutArrays | batcher/pygimplib/tests/setting/test_pdbparams.py:76-89 | without arrays, iteration yields the arguments truncated to the shorter of the two lists |
| PdbParams.IterArgsSkipsLength | batcher/pygimplib/tests/setting/test_pdbparams.py:91-103 | an array setting consumes its length argument and yields only the array |
| PdbParams.ListedSettings | batcher/pygimplib/tests/setting/test_pdbparams.py:117-119 | a leading setting named "run_mode" is dropped, and nothing else is |
| PdbParams.ListParamValues | batcher/pygimplib/tests/setting/test_pdbparams.py:111-115 | one value per walked setting, the k-th value being the value of the k-th walked setting, except that a leading run_mode setting is skipped |
| PdbParams.RunModeNotListed | batcher/pygimplib/tests/setting/test_pdbparams.py:117-119 | a run_mode setting passed before the settings leaves the values as without it, one per walked setting |
| PdbParams.ListedValuesRoundTrip | batcher/pygimplib/tests/setting/test_pdbparams.py:106-119 | without arrays, iterating the listed values against the listed settings gives those values back |

## Left out

- Host calls are parameters, not models. These include the GIMP export procedure, the overwrite chooser and `handle_overwrite`, directory creation, the name validator and uniquifier, the PDB, `merge_down` and message dialogs. Their code is not part of this model.
- `src.path.fileext.get_file_extension` is not part of this model. `FileNames.ExtensionOf` takes the text after the last '.' and keeps its case. Multi-part extensions such as "xcf.bz2" are not recognised.
- Python's `str.lower`/`str.upper` are modelled for ASCII letters only.
- `os.path.abspath` and path normalisation are left out. Paths are joined with '/' as given.
- The Invoker, ObjectFilter, item tree and progress updater are not part of this model. Invoker entries and filter rules are recorded as data, and "invoking" a group is an event.
- Image copies, parasites, undo groups, context push/pop, layer copying and selection in GIMP are left out. Only whether a copy is kept or deleted is modelled. `set_selected_layers` becomes the returned index.
- The effect of GIMP's merge on layer attributes is assumed: a merged layer takes the upper layer's name and visibility and has no colour tag.
- Progress text and GUI widgets are left out. So are the placeholder replacement inside actions and the translation of messages.
- Python generators are modelled by their passes. The `yield` of `insert_background_layer`/`insert_foreground_layer` is one call per item.
- `ExportLayers.ExportLayersFrom`, `Batcher.ProcessFrom`: `stop()` from another thread is modelled as "stop requested while element j is processed". No other interleaving is modelled.
- Batcher.ProcessFrom: its own contract states only when the loop ends normally and which errors it ends with. The exact outcome, the raised-item result and the item order are stated by `Batcher.LoopEndsAsStated`, `Batcher.RaisingItemEndsLoop`, `Batcher.NothingAfterRaise` and `Batcher.LoopKeepsItemOrder`. This keeps the function's contract small for its many callers.
- Batcher.Run: its own contract states the first two events, the clean-up, the finish hooks and the returned copy. The order of the run is stated by `Batcher.RunPhasesInOrder` and `Batcher.RunInOrder`, and the raised-item result by `Batcher.RaisingItemFailsRun`.
- ExportLayers.ProcessAndExportItem: it calls the corrected `ExportLayers.ExportLayer` of the first "## Findings" row, which records a skipped layer as skipped. The source's `_export_layer` keeps the previous layer's status on a SKIP answer, so after a fall-back it exports a skipped layer again under the default extension. The model does not do this.
- ExportLayers.ProcessElem: it processes elements through `ExportLayers.ProcessAndExportItem`, so it uses the corrected `_export_layer` as well.
- ExportLayers.ExportLayersFrom: the element loop uses the corrected `_export_layer`, as `ExportLayers.ProcessAndExportItem` does.
- ExportLayers.ExportRun: the run uses the corrected `_export_layer`, as `ExportLayers.ProcessAndExportItem` does. The as-written status carry-over is shown only by `ExportLayers.SkippedLayerExportedAsWritten`.
- Procedure.ParseItems: `param.pop('name')` in `procedure.py` removes the name from the caller's dict in place. Passing the same dict again then fails the name check with ValueError. The model takes the entries as values and does not model this mutation.
- Export.Host: the uniquifier is a pure function of the name and the position. The source's ItemUniquifier keeps state, which gives same-named items in one parent distinct names. No lemma proves that exported names are distinct.
- `ExportLayers.EnableGroupsAsWritten`: it shows the mutation of the caller's or the default list as an extra result, not as aliasing between objects.
- `_update_to_0_3` and the concrete handlers of `update.py` are left out. Handlers are ids with versions. Version parsing is a parameter.
- `procedure.py`: `main`, `_run`, GObject property creation and the other `Gimp.Procedure` setters are left out. The last group includes image types, attribution, argument sync and additional init.
- `register_procedure` raising halfway is modelled as a stored incomplete entry. `Procedure.CreateProcedure` then reports missing data.
- `Group` and `pdbparams` implementations are not part of this model. The model follows the test assertions, and the cases below are not asserted by the tests:
  - `GetValue` treats a path naming a group as missing.
  - `Reorder` of an unknown name is a missing-key error.
  - The partial state left after an error is not modelled.
- `SettingGroup.Walk`: walk callbacks are modelled only as the end-of-group events, which appear with `include_groups`.
- `SettingGroup`: group-level `setting_attributes` and `recurse_setting_attributes` (the tests at `batcher/pygimplib/tests/setting/test_group.py:111-194`), display-name and description generation, `create_groups`, `get_attributes`/`set_values`, `reset`, `to_dict` and GUI initialisation are left out. Object identity is an `id` field.
- `BuiltinConstraints.SortBuiltins` is stated for any key list. Only the distinctness of the ten built-in names is proved for the concrete list.
- `is_item_in_items_selected_in_gimp`, `is_visible`, `is_layer` and `is_nonempty_group` are direct reads of a layer attribute. They are defined as predicates with no further contract.
- `ActionBrowser`: GTK tree-model plumbing, expanding rows and the cursor are left out. Only the column values are modelled.
- Python strings compare by code point. `Text.LexLess` compares `char` values, which matches for the BMP only.

## Findings

| source | as written | input that shows it | evidently intended | confidence | as-written member | corrected member |
|---|---|---|---|---|---|---|
| export_layers/exportlayers.py:584-608 | `_export` leaves `_current_layer_export_status` untouched when the overwrite answer is SKIP, so `_export_layer` reads the previous layer's status | layer "a" under extension "xyz" falls back to "jpg" and "a.jpg" is skipped; layer "b" ("png") is skipped, yet the leftover fall-back status renames it to "b.jpg" and writes that file | a skipped layer is not exported, as in `_export_item` of `export.py`, which uses a fresh local status | not executed | ExportLayers.ExportLayerAsWritten (shown by ExportLayers.SkippedLayerExportedAsWritten) | ExportLayers.ExportLayer |
| export_layers/exportlayers.py:355-369 | only `None` selects the default processing groups | `export(processing_groups=[])` switches every processing group off, so nothing is renamed or exported | "If `processing_groups` is `None` or empty, perform normal export" (docstring at line 196) | not executed | ExportLayers.EnableGroupsAsWritten (shown by ExportLayers.EmptyGroupListDisablesEverything) | ExportLayers.EnableGroups |

Two behaviours of the code that the model follows as written:
- `_get_previous_enabled_procedures` returns the whole filtered list when the current action is absent (`batcher/src/background_foreground.py:188-195`).
- `fill_and_get_file_format_options_as_kwargs` looks up the un-aliased key (`FileFormats.AliasRequestGetsNothing`).

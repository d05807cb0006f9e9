/**
 * The file-format registry (`file_formats.py`): which format an extension
 * stands for, which extension an alias resolves to, and how the options of a
 * format's import or export procedure are gathered, with the arguments every
 * such procedure shares taken out. The PDB is a parameter mapping procedure
 * names to their menu label and option list; a format's version check is the
 * value it returns.
 */
module FileFormats {
  import opened Base
  import opened Text

  /** One option of a file-format procedure: its setting name and its value. */
  datatype OptionSetting = OptionSetting(name: string, value: int)

  /** What the registry needs of a PDB procedure. */
  datatype ProcedureInfo = ProcedureInfo(menuLabel: Option<string>, options: seq<OptionSetting>)

  /** A function a format is imported or exported with. */
  datatype FormatFunc = CustomFunc(name: string) | PdbFunc(procedure: string)

  /**
   * `_FileFormat`. A `None` procedure name means GIMP handles the format
   * itself; `importFunc`/`exportFunc` name a custom function used instead of
   * the procedure.
   */
  datatype FileFormat = FileFormat(
    extensions: seq<string>,
    importProcedure: Option<string>,
    importFunc: Option<string>,
    exportProcedure: Option<string>,
    exportFunc: Option<string>,
    versionOk: bool,
    description: Option<string>)

  /** The errors of this module: a mode other than "import"/"export", an index into an empty list. */
  datatype FormatError = InvalidMode | IndexOutOfRange | NoProcedure

  predicate ValidMode(mode: string) {
    mode == "import" || mode == "export"
  }

  /** The procedure a format is imported or exported with. */
  function ProcedureFor(f: FileFormat, mode: string): Option<string>
    requires ValidMode(mode)
  {
    if mode == "import" then f.importProcedure else f.exportProcedure
  }

  /** `_COMMON_PDB_ARGUMENTS_FOR_FILE_LOAD`. */
  const CommonLoadArgs: map<nat, string> := map[0 := "run-mode", 1 := "file"]

  /** `_COMMON_PDB_ARGUMENTS_FOR_FILE_EXPORT`. */
  const CommonExportArgs: map<nat, string> := map[0 := "run-mode", 1 := "image", 2 := "file", 3 := "options"]

  function CommonArgs(mode: string): map<nat, string>
    requires ValidMode(mode)
  {
    if mode == "import" then CommonLoadArgs else CommonExportArgs
  }

  // ---------------------------------------------------------------------
  // The registry

  /** Whether format `i` lists `ext`, counting only formats that pass the version check when `versioned`. */
  predicate Lists(formats: seq<FileFormat>, ext: string, i: int, versioned: bool) {
    0 <= i < |formats| && (versioned ==> formats[i].versionOk) && ext in formats[i].extensions
  }

  /** `i` is the first format that lists `ext`. */
  predicate FirstListing(formats: seq<FileFormat>, ext: string, i: int, versioned: bool) {
    Lists(formats, ext, i, versioned) && forall j | 0 <= j < i :: !Lists(formats, ext, j, versioned)
  }

  /**
   * The loop shared by `_create_file_formats_dict` (versioned) and
   * `_create_file_format_aliases` (not versioned): each extension goes to
   * the first format that lists it, and a later format never overrides it.
   */
  function FirstListings(formats: seq<FileFormat>, versioned: bool): (r: map<string, nat>)
    ensures forall ext :: ext in r <==> exists i :: Lists(formats, ext, i, versioned)
    ensures forall ext | ext in r :: FirstListing(formats, ext, r[ext], versioned)
  {
    if formats == [] then map[]
    else
      var d := FirstListings(formats[..|formats| - 1], versioned);
      ListingsStep(formats, formats[..|formats| - 1], versioned, d);
      AddListings(d, formats, versioned)
  }

  /** The extensions of the last format that no earlier format took, added to `d`. */
  function AddListings(d: map<string, nat>, formats: seq<FileFormat>, versioned: bool): map<string, nat>
    requires |formats| > 0
  {
    var n := |formats| - 1;
    var f := formats[n];
    if versioned && !f.versionOk then d else d + (map ext | ext in f.extensions && ext !in d :: n)
  }

  /** Before the last format, listing in `formats` and in the shorter list agree. */
  lemma ListsBeforeLast(formats: seq<FileFormat>, ext: string, i: int, versioned: bool)
    requires 0 <= i < |formats| - 1
    ensures Lists(formats[..|formats| - 1], ext, i, versioned) <==> Lists(formats, ext, i, versioned)
  {
    assert formats[..|formats| - 1][i] == formats[i];
  }

  /** The loop step of `FirstListings` keeps both of its properties. */
  lemma ListingsStep(formats: seq<FileFormat>, prev: seq<FileFormat>, versioned: bool, d: map<string, nat>)
    requires |formats| > 0 && prev == formats[..|formats| - 1]
    requires forall ext :: ext in d <==> exists i :: Lists(prev, ext, i, versioned)
    requires forall ext | ext in d :: FirstListing(prev, ext, d[ext], versioned)
    ensures var r := AddListings(d, formats, versioned);
            && (forall ext :: ext in r <==> exists i :: Lists(formats, ext, i, versioned))
            && (forall ext | ext in r :: FirstListing(formats, ext, r[ext], versioned))
  {
    var n := |formats| - 1;
    var r := AddListings(d, formats, versioned);
    forall ext
      ensures ext in r <==> exists i :: Lists(formats, ext, i, versioned)
    {
      if ext in d {
        var j :| Lists(prev, ext, j, versioned);
        ListsBeforeLast(formats, ext, j, versioned);
      } else if ext in r {
        assert Lists(formats, ext, n, versioned);
      } else {
        forall i | 0 <= i < |formats|
          ensures !Lists(formats, ext, i, versioned)
        {
          if i < n {
            ListsBeforeLast(formats, ext, i, versioned);
          }
        }
      }
    }
    forall ext | ext in r
      ensures FirstListing(formats, ext, r[ext], versioned)
    {
      if ext in d {
        assert r[ext] == d[ext];
        ListsBeforeLast(formats, ext, d[ext], versioned);
        forall k | 0 <= k < d[ext]
          ensures !Lists(formats, ext, k, versioned)
        {
          ListsBeforeLast(formats, ext, k, versioned);
        }
      } else {
        forall k | 0 <= k < n
          ensures !Lists(formats, ext, k, versioned)
        {
          ListsBeforeLast(formats, ext, k, versioned);
        }
      }
    }
  }

  /** `FILE_FORMATS_DICT`, as the index of the format each extension stands for. */
  function FormatsDict(formats: seq<FileFormat>): (r: map<string, nat>)
    ensures forall ext | ext in r :: r[ext] < |formats| && formats[r[ext]].versionOk && ext in formats[r[ext]].extensions
  {
    FirstListings(formats, true)
  }

  /** `FILE_FORMAT_ALIASES`: each extension mapped to the first extension of the first format listing it. */
  function Aliases(formats: seq<FileFormat>): (r: map<string, string>)
    ensures r.Keys == FirstListings(formats, false).Keys
    ensures forall ext | ext in r :: r[ext] == formats[FirstListings(formats, false)[ext]].extensions[0]
  {
    var src := FirstListings(formats, false);
    map ext | ext in src :: formats[src[ext]].extensions[0]
  }

  /** `FILE_FORMAT_ALIASES.get(file_format, file_format)`. */
  function Canonical(formats: seq<FileFormat>, fmt: Option<string>): (r: Option<string>)
    ensures r.None? <==> fmt.None?
  {
    if fmt.Some? && fmt.value in Aliases(formats) then Some(Aliases(formats)[fmt.value]) else fmt
  }

  /** No extension is listed by two formats. */
  predicate ListedOnce(formats: seq<FileFormat>) {
    forall i, j, ext | 0 <= i < j < |formats| && ext in formats[i].extensions :: ext !in formats[j].extensions
  }

  /**
   * When no extension is listed twice, every extension a format lists
   * resolves to that format's first extension, and resolving is idempotent.
   */
  lemma AliasesWhenListedOnce(formats: seq<FileFormat>, i: nat, ext: string)
    requires ListedOnce(formats)
    requires i < |formats| && ext in formats[i].extensions
    ensures ext in Aliases(formats) && Aliases(formats)[ext] == formats[i].extensions[0]
    ensures var e0 := Aliases(formats)[ext]; e0 in Aliases(formats) && Aliases(formats)[e0] == e0
  {
    var src := FirstListings(formats, false);
    assert Lists(formats, ext, i, false);
    FirstListingIsTheOnly(formats, ext, i);
    var e0 := formats[i].extensions[0];
    assert Lists(formats, e0, i, false);
    FirstListingIsTheOnly(formats, e0, i);
  }

  /** When no extension is listed twice, the format listing an extension is the one it resolves through. */
  lemma FirstListingIsTheOnly(formats: seq<FileFormat>, ext: string, i: nat)
    requires ListedOnce(formats)
    requires Lists(formats, ext, i, false)
    ensures ext in FirstListings(formats, false) && FirstListings(formats, false)[ext] == i
  {
    var k := FirstListings(formats, false)[ext];
    assert Lists(formats, ext, k, false);
    assert k >= i;
    assert k <= i;
  }

  /** An extension a format passing the version check lists has an alias, and the dictionary knows it. */
  lemma VersionedIsAliased(formats: seq<FileFormat>, ext: string)
    requires ext in FormatsDict(formats)
    ensures ext in Aliases(formats)
  {
    assert FirstListing(formats, ext, FirstListings(formats, true)[ext], true);
    assert Lists(formats, ext, FirstListings(formats, true)[ext], false);
  }

  // ---------------------------------------------------------------------
  // Options of a format's procedure

  /** Whether the option at `index` is one of the common arguments and is dropped. */
  predicate IsCommon(common: map<nat, string>, index: nat, option: OptionSetting) {
    index in common && common[index] == option.name
  }

  /**
   * `_remove_common_file_format_options`: drop each option whose position
   * (counted from `offset`) and name match a common argument.
   */
  function RemoveCommon(options: seq<OptionSetting>, common: map<nat, string>, offset: nat := 0): (r: seq<OptionSetting>)
    ensures IsSubsequence(r, options)
    ensures (forall k | 0 <= k < |options| :: !IsCommon(common, offset + k, options[k])) ==> r == options
  {
    if options == [] then []
    else
      var rest := RemoveCommon(options[1..], common, offset + 1);
      assert forall k | 0 <= k < |options| - 1 :: options[1..][k] == options[k + 1];
      if IsCommon(common, offset, options[0]) then rest
      else
        assert ([options[0]] + rest)[1..] == rest;
        [options[0]] + rest
  }

  /** The positions from `k` on whose option is not a common argument, in increasing order. */
  function KeptFrom(options: seq<OptionSetting>, common: map<nat, string>, offset: nat, k: nat): (r: seq<nat>)
    requires k <= |options|
    ensures forall j | 0 <= j < |r| :: k <= r[j] < |options|
    ensures forall a, b | 0 <= a < b < |r| :: r[a] < r[b]
    decreases |options| - k
  {
    if k == |options| then []
    else
      var rest := KeptFrom(options, common, offset, k + 1);
      (if IsCommon(common, offset + k, options[k]) then [] else [k]) + rest
  }

  /** Exactly the positions from `k` on whose option is not common are listed. */
  lemma {:induction false} KeptFromMembers(options: seq<OptionSetting>, common: map<nat, string>, offset: nat, k: nat, i: nat)
    requires k <= |options|
    ensures i in KeptFrom(options, common, offset, k) <==> k <= i < |options| && !IsCommon(common, offset + i, options[i])
    decreases |options| - k
  {
    if k < |options| {
      KeptFromMembers(options, common, offset, k + 1, i);
    }
  }

  /**
   * Removing the common arguments keeps exactly the options that are not
   * common arguments at their position, each once and in order.
   */
  lemma {:induction false} RemoveCommonPicks(options: seq<OptionSetting>, common: map<nat, string>, offset: nat, k: nat)
    requires k <= |options|
    ensures Picks(options, KeptFrom(options, common, offset, k), RemoveCommon(options[k..], common, offset + k))
    decreases |options| - k
  {
    if k == |options| {
      assert options[k..] == [];
    } else {
      RemoveCommonPicks(options, common, offset, k + 1);
      var keep := !IsCommon(common, offset + k, options[k]);
      RemoveCommonStep(options, common, offset, k);
      PicksStep(options, KeptFrom(options, common, offset, k + 1),
                RemoveCommon(options[k + 1..], common, offset + (k + 1)), k, keep);
    }
  }

  /** One step of both walks: position `k` is kept by each iff its option is not common. */
  lemma RemoveCommonStep(options: seq<OptionSetting>, common: map<nat, string>, offset: nat, k: nat)
    requires k < |options|
    ensures var keep := !IsCommon(common, offset + k, options[k]);
            && KeptFrom(options, common, offset, k)
               == (if keep then [k] else []) + KeptFrom(options, common, offset, k + 1)
            && RemoveCommon(options[k..], common, offset + k)
               == (if keep then [options[k]] else []) + RemoveCommon(options[k + 1..], common, offset + (k + 1))
  {
    var tail := options[k..];
    assert tail[0] == options[k] && tail[1..] == options[k + 1..];
  }

  /** `r` lists the options at the positions `idx`, in that order. */
  predicate Picks(options: seq<OptionSetting>, idx: seq<nat>, r: seq<OptionSetting>) {
    |r| == |idx| && forall j | 0 <= j < |r| :: idx[j] < |options| && r[j] == options[idx[j]]
  }

  lemma PicksStep(options: seq<OptionSetting>, idx: seq<nat>, r: seq<OptionSetting>, k: nat, keep: bool)
    requires k < |options| && Picks(options, idx, r)
    ensures Picks(options, (if keep then [k] else []) + idx, (if keep then [options[k]] else []) + r)
  {
    if keep {
      var idx', r' := [k] + idx, [options[k]] + r;
      forall j | 0 <= j < |r'|
        ensures idx'[j] < |options| && r'[j] == options[idx'[j]]
      {
        if j > 0 {
          assert r'[j] == r[j - 1] && idx'[j] == idx[j - 1];
        }
      }
    } else {
      assert ([] + idx) == idx && ([] + r) == r;
    }
  }

  /** Option `i` survives the removal iff it is not the common argument at its position. */
  lemma RemovedIffCommon(options: seq<OptionSetting>, common: map<nat, string>, offset: nat)
    ensures var idx := KeptFrom(options, common, offset, 0);
            && Picks(options, idx, RemoveCommon(options, common, offset))
            && (forall i | 0 <= i < |options| :: i in idx <==> !IsCommon(common, offset + i, options[i]))
  {
    RemoveCommonPicks(options, common, offset, 0);
    assert options[0..] == options;
    forall i | 0 <= i < |options|
      ensures i in KeptFrom(options, common, offset, 0) <==> !IsCommon(common, offset + i, options[i])
    {
      KeptFromMembers(options, common, offset, 0, i);
    }
  }

  /** Options starting with exactly the common arguments lose that prefix and nothing else. */
  lemma {:induction false} StripsCommonPrefix(options: seq<OptionSetting>, names: seq<string>, common: map<nat, string>, offset: nat)
    requires |names| <= |options|
    requires forall k | 0 <= k < |names| :: options[k].name == names[k] && IsCommon(common, offset + k, options[k])
    requires forall k | |names| <= k < |options| :: !IsCommon(common, offset + k, options[k])
    ensures RemoveCommon(options, common, offset) == options[|names|..]
  {
    if names != [] {
      assert forall k | 0 <= k < |options| - 1 :: options[1..][k] == options[k + 1];
      assert forall k | 0 <= k < |names| - 1 :: names[1..][k] == names[k + 1];
      assert IsCommon(common, offset, options[0]);
      StripsCommonPrefix(options[1..], names[1..], common, offset + 1);
      assert options[1..][|names| - 1..] == options[|names|..];
    }
  }

  /** An export procedure's options lose run-mode, image, file and options. */
  lemma StripsExportArguments(options: seq<OptionSetting>)
    requires |options| >= 4
    requires options[0].name == "run-mode" && options[1].name == "image"
    requires options[2].name == "file" && options[3].name == "options"
    ensures RemoveCommon(options, CommonExportArgs) == options[4..]
  {
    StripsCommonPrefix(options, ["run-mode", "image", "file", "options"], CommonExportArgs, 0);
  }

  /** An import procedure's options lose run-mode and file. */
  lemma StripsLoadArguments(options: seq<OptionSetting>)
    requires |options| >= 2
    requires options[0].name == "run-mode" && options[1].name == "file"
    ensures RemoveCommon(options, CommonLoadArgs) == options[2..]
  {
    StripsCommonPrefix(options, ["run-mode", "file"], CommonLoadArgs, 0);
  }

  /** The store of gathered options, keyed by canonical extension. */
  type OptionStore = map<string, seq<OptionSetting>>

  /** Whether `fill_file_format_options` gathers options for `fmt` into `store`. */
  predicate Gathers(store: OptionStore, formats: seq<FileFormat>, fmt: Option<string>, mode: string,
                    pdb: map<string, ProcedureInfo>)
  {
    var c := Canonical(formats, fmt);
    && c.Some? && c.value !in store && c.value in FormatsDict(formats)
    && ValidMode(mode)
    && var proc := ProcedureFor(formats[FormatsDict(formats)[c.value]], mode);
       proc.Some? && proc.value in pdb
  }

  /**
   * `fill_file_format_options`: gather the options of the format's procedure
   * under its canonical extension, unless they are already there, the format
   * is unknown, or its procedure is missing; an invalid mode is reported
   * only once the format is known and not yet gathered.
   */
  function FillOptions(store: OptionStore, formats: seq<FileFormat>, fmt: Option<string>, mode: string,
                       pdb: map<string, ProcedureInfo>): (r: Result<OptionStore, FormatError>)
    ensures var c := Canonical(formats, fmt);
            r.Err? <==> c.Some? && c.value !in store && c.value in FormatsDict(formats) && !ValidMode(mode)
    ensures r.Err? ==> r.error == InvalidMode
    ensures r.Ok? && !Gathers(store, formats, fmt, mode, pdb) ==> r.value == store
    ensures Gathers(store, formats, fmt, mode, pdb) ==>
              var c := Canonical(formats, fmt).value;
              var proc := ProcedureFor(formats[FormatsDict(formats)[c]], mode).value;
              r == Ok(store[c := RemoveCommon(pdb[proc].options, CommonArgs(mode))])
  {
    var c := Canonical(formats, fmt);
    if c.None? || c.value in store || c.value !in FormatsDict(formats) then Ok(store)
    else if !ValidMode(mode) then Err(InvalidMode)
    else
      var proc := ProcedureFor(formats[FormatsDict(formats)[c.value]], mode);
      if proc.None? || proc.value !in pdb then Ok(store)
      else Ok(store[c.value := RemoveCommon(pdb[proc.value].options, CommonArgs(mode))])
  }

  /** Gathering never changes what is already in the store, and a second gathering changes nothing. */
  lemma FillOptionsIdempotent(store: OptionStore, formats: seq<FileFormat>, fmt: Option<string>, mode: string,
                              pdb: map<string, ProcedureInfo>)
    requires FillOptions(store, formats, fmt, mode, pdb).Ok?
    ensures var s1 := FillOptions(store, formats, fmt, mode, pdb).value;
            && (forall k | k in store :: k in s1 && s1[k] == store[k])
            && FillOptions(s1, formats, fmt, mode, pdb) == Ok(s1)
  {
    var s1 := FillOptions(store, formats, fmt, mode, pdb).value;
    if Gathers(store, formats, fmt, mode, pdb) {
      assert Canonical(formats, fmt).value in s1;
    }
  }

  /** `fill_and_get_file_format_options_as_kwargs`: keyword names with '-' turned into '_'. */
  function AsKwargs(store: OptionStore, formats: seq<FileFormat>, fmt: Option<string>, mode: string,
                    pdb: map<string, ProcedureInfo>): (r: Result<Option<seq<(string, int)>>, FormatError>)
    ensures r.Err? <==> FillOptions(store, formats, fmt, mode, pdb).Err?
    ensures r.Ok? ==>
              var s1 := FillOptions(store, formats, fmt, mode, pdb).value;
              && (r.value.Some? <==> fmt.Some? && fmt.value in s1)
              && (r.value.Some? ==>
                    && |r.value.value| == |s1[fmt.value]|
                    && forall k | 0 <= k < |r.value.value| ::
                         && '-' !in r.value.value[k].0
                         && |r.value.value[k].0| == |s1[fmt.value][k].name|
                         && r.value.value[k].1 == s1[fmt.value][k].value)
    ensures r.Ok? && r.value.Some? ==>
              var options := FillOptions(store, formats, fmt, mode, pdb).value[fmt.value];
              forall k, i | 0 <= k < |r.value.value| && 0 <= i < |r.value.value[k].0| ::
                r.value.value[k].0[i] == (if options[k].name[i] == '-' then '_' else options[k].name[i])
  {
    match FillOptions(store, formats, fmt, mode, pdb)
    case Err(e) => Err(e)
    case Ok(s1) =>
      if fmt.Some? && fmt.value in s1 then Ok(Some(Kwargs(s1[fmt.value])))
      else Ok(None)
  }

  function Kwargs(options: seq<OptionSetting>): (r: seq<(string, int)>)
    ensures |r| == |options|
    ensures forall k | 0 <= k < |r| :: r[k] == (ReplaceChar(options[k].name, '-', '_'), options[k].value)
    ensures forall k | 0 <= k < |r| ::
              '-' !in r[k].0 && |r[k].0| == |options[k].name| && r[k].1 == options[k].value
  {
    seq(|options|, k requires 0 <= k < |options| => (ReplaceChar(options[k].name, '-', '_'), options[k].value))
  }

  /**
   * The options are stored under the canonical extension but looked up under
   * the one asked for, so asking by an alias that is not yet in the store
   * gives nothing even when the options were gathered.
   */
  lemma AliasRequestGetsNothing(store: OptionStore, formats: seq<FileFormat>, alias: string, mode: string,
                                pdb: map<string, ProcedureInfo>)
    requires alias in Aliases(formats) && Aliases(formats)[alias] != alias
    requires alias !in store
    requires AsKwargs(store, formats, Some(alias), mode, pdb).Ok?
    ensures AsKwargs(store, formats, Some(alias), mode, pdb) == Ok(None)
  {
  }

  /**
   * `file_format_procedure_exists`: False for an unknown format (looked up
   * without resolving aliases), an error for an invalid mode, otherwise
   * whether the procedure is in the PDB.
   */
  function ProcedureExists(formats: seq<FileFormat>, fmt: string, mode: string, pdb: map<string, ProcedureInfo>): (r: Result<bool, FormatError>)
    ensures fmt !in FormatsDict(formats) ==> r == Ok(false)
    ensures fmt in FormatsDict(formats) ==> (r.Err? <==> !ValidMode(mode))
    ensures r == Ok(true) <==>
              && fmt in FormatsDict(formats) && ValidMode(mode)
              && var proc := ProcedureFor(formats[FormatsDict(formats)[fmt]], mode);
                 proc.Some? && proc.value in pdb
  {
    if fmt !in FormatsDict(formats) then Ok(false)
    else if !ValidMode(mode) then Err(InvalidMode)
    else
      var proc := ProcedureFor(formats[FormatsDict(formats)[fmt]], mode);
      Ok(proc.Some? && proc.value in pdb)
  }

  /** `is_import_installed` / `is_export_installed`: handled by GIMP itself, or the procedure is in the PDB. */
  predicate IsInstalled(f: FileFormat, mode: string, pdb: map<string, ProcedureInfo>)
    requires ValidMode(mode)
  {
    ProcedureFor(f, mode).None? || ProcedureFor(f, mode).value in pdb
  }

  /**
   * An existing procedure means the format is installed, but not the other
   * way round: a format GIMP handles itself is installed and has no
   * procedure.
   */
  lemma ExistsMeansInstalled(formats: seq<FileFormat>, fmt: string, mode: string, pdb: map<string, ProcedureInfo>)
    requires ProcedureExists(formats, fmt, mode, pdb) == Ok(true)
    ensures IsInstalled(formats[FormatsDict(formats)[fmt]], mode, pdb)
    ensures forall f: FileFormat | ProcedureFor(f, mode).None? :: IsInstalled(f, mode, pdb)
  {
  }

  /** The longest menu label used as an inferred description. */
  const MaxInferredDescription: nat := 35

  /**
   * `get_description`: the description given to the format, else the menu
   * label of its procedure when that is non-empty and at most `maxLength`
   * characters, else "<FIRST EXTENSION> image".
   */
  function GetDescription(f: FileFormat, mode: string, pdb: map<string, ProcedureInfo>,
                          maxLength: nat := MaxInferredDescription): (r: Result<string, FormatError>)
    ensures f.description.Some? ==> r == Ok(f.description.value)
    ensures f.description.None? && !ValidMode(mode) ==> r == Err(InvalidMode)
    ensures r.Err? ==> f.description.None?
    ensures r == Err(IndexOutOfRange) ==> f.extensions == []
    ensures f.description.None? && r.Ok? ==>
              var menu := MenuLabel(f, mode, pdb);
              if menu.Some? && 0 < |menu.value| <= maxLength then r.value == menu.value
              else f.extensions != [] && r.value == Upper(f.extensions[0]) + " image"
  {
    if f.description.Some? then Ok(f.description.value)
    else if !ValidMode(mode) then Err(InvalidMode)
    else
      var menu := MenuLabel(f, mode, pdb);
      if menu.Some? && 0 < |menu.value| <= maxLength then Ok(menu.value)
      else if f.extensions == [] then Err(IndexOutOfRange)
      else Ok(Upper(f.extensions[0]) + " image")
  }

  /** The menu label of the format's procedure, when the procedure is in the PDB. */
  function MenuLabel(f: FileFormat, mode: string, pdb: map<string, ProcedureInfo>): Option<string>
    requires ValidMode(mode)
  {
    var proc := ProcedureFor(f, mode);
    if proc.Some? && proc.value in pdb then pdb[proc.value].menuLabel else None
  }

  /** An inferred description is never longer than the limit when the first extension is short enough. */
  lemma InferredDescriptionBounded(f: FileFormat, mode: string, pdb: map<string, ProcedureInfo>, maxLength: nat)
    requires f.description.None? && ValidMode(mode) && f.extensions != []
    requires |f.extensions[0]| + |" image"| <= maxLength
    ensures var r := GetDescription(f, mode, pdb, maxLength);
            r.Ok? && 0 < |r.value| <= maxLength
  {
  }

  /** `get_import_func` / `get_export_func`: the custom function, else the procedure of that name. */
  function FuncFor(f: FileFormat, mode: string): (r: Result<FormatFunc, FormatError>)
    requires ValidMode(mode)
    ensures var custom := if mode == "import" then f.importFunc else f.exportFunc;
            && (custom.Some? ==> r == Ok(CustomFunc(custom.value)))
            && (custom.None? ==> (r.Ok? <==> ProcedureFor(f, mode).Some?))
            && (custom.None? && r.Ok? ==> r.value == PdbFunc(ProcedureFor(f, mode).value))
  {
    var custom := if mode == "import" then f.importFunc else f.exportFunc;
    if custom.Some? then Ok(CustomFunc(custom.value))
    else if ProcedureFor(f, mode).Some? then Ok(PdbFunc(ProcedureFor(f, mode).value))
    else Err(NoProcedure)
  }

  /** Two entries of `FILE_FORMATS`, to show the aliases they produce. */
  function SampleFormats(): seq<FileFormat> {
    [ FileFormat(["bmp"], None, None, Some("file-bmp-export"), None, true, None),
      FileFormat(["jpg", "jpeg", "jpe"], None, None, Some("file-jpeg-export"), None, true, None) ]
  }

  lemma SampleListedOnce()
    ensures ListedOnce(SampleFormats())
  {
    var fs := SampleFormats();
    forall i, j, ext | 0 <= i < j < |fs| && ext in fs[i].extensions
      ensures ext !in fs[j].extensions
    {
      assert i == 0 && j == 1;
      assert ext == "bmp";
    }
  }

  /** "jpeg" and "jpe" resolve to "jpg", and "jpg" to itself. */
  lemma SampleAliases(fs: seq<FileFormat>)
    requires fs == SampleFormats()
    ensures var aliases := Aliases(fs);
            && "jpeg" in aliases && aliases["jpeg"] == "jpg"
            && "jpe" in aliases && aliases["jpe"] == "jpg"
            && "jpg" in aliases && aliases["jpg"] == "jpg"
  {
    SampleListedOnce();
    var jpeg := fs[1];
    assert jpeg.extensions == ["jpg", "jpeg", "jpe"];
    AliasesWhenListedOnce(fs, 1, "jpeg");
    AliasesWhenListedOnce(fs, 1, "jpe");
  }
}

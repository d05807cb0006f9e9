/**
 * The per-extension record table and the failure classification shared by
 * both generations of the export engine (`export_layers/export.py` and
 * `export_layers/exportlayers.py` define the same `_FileExtension`,
 * `_FileExtensionProperties` and `_export_item_once` decision logic).
 */
module ExtensionTable {
  import opened Text
  import Base

  /** The host's run modes for a native export procedure. */
  datatype RunMode = Interactive | NonInteractive | WithLastVals

  datatype ExportStatus =
    | NotExportedYet
    | ExportSuccessful
    | ForceInteractive
    | UseDefaultFileExtension

  /** What a host export call did: returned, or raised a `RuntimeError` with a message. */
  datatype HostReply = HostOk | HostError(message: string)

  /** `_FileExtension`: whether the extension still works and how many items used it. */
  datatype ExtensionRecord = ExtensionRecord(isValid: bool, processedCount: nat)

  /** A record as a `defaultdict` creates it on first access. */
  const FreshRecord := ExtensionRecord(true, 0)

  /**
   * Which record an extension resolves to: the record shared by all
   * extensions of one file format, or a record of its own for an
   * extension no format lists.
   */
  datatype RecordKey = FormatRecord(format: nat) | OwnRecord(extension: string)

  /**
   * `_FileExtensionProperties`: `aliases` maps each lower-cased extension
   * listed by a file format to that format's index; `records` holds the
   * records touched so far (absent keys read as `FreshRecord`).
   */
  datatype Table = Table(aliases: map<string, nat>, records: map<RecordKey, ExtensionRecord>)

  /** Some extension in `extensions` lower-cases to `key`. */
  ghost predicate ListedIn(extensions: seq<string>, key: string) {
    exists j :: 0 <= j < |extensions| && Lower(extensions[j]) == key
  }

  /** Format `i` lists an extension that lower-cases to `key`. */
  ghost predicate Lists(formats: seq<seq<string>>, i: int, key: string) {
    0 <= i < |formats| && ListedIn(formats[i], key)
  }

  /** One inner loop of the constructor: every extension of format `i` gets the same record. */
  function AddFormat(m: map<string, nat>, extensions: seq<string>, i: nat): (r: map<string, nat>)
    ensures forall k :: k in r <==> k in m || ListedIn(extensions, k)
    ensures forall k | k in r :: r[k] == if ListedIn(extensions, k) then i else m[k]
    decreases |extensions|
  {
    if extensions == [] then m
    else
      var rest := extensions[1..];
      assert forall k :: ListedIn(extensions, k) <==> k == Lower(extensions[0]) || ListedIn(rest, k) by {
        forall k | ListedIn(extensions, k) && k != Lower(extensions[0])
          ensures ListedIn(rest, k)
        {
          var j :| 0 <= j < |extensions| && Lower(extensions[j]) == k;
          assert rest[j - 1] == extensions[j];
        }
        forall k | ListedIn(rest, k)
          ensures ListedIn(extensions, k)
        {
          var j :| 0 <= j < |rest| && Lower(rest[j]) == k;
          assert extensions[j + 1] == rest[j];
        }
      }
      AddFormat(m[Lower(extensions[0]) := i], rest, i)
  }

  /** The constructor's loop over all formats; a later format that re-lists an extension takes it over. */
  function AliasesFrom(formats: seq<seq<string>>): map<string, nat>
  {
    if formats == [] then map[]
    else AddFormat(AliasesFrom(formats[..|formats| - 1]), formats[|formats| - 1], |formats| - 1)
  }

  /**
   * An extension is aliased exactly when some format lists it, and it is
   * aliased to the LAST format that lists it.
   */
  lemma {:induction false} AliasesFromLastWins(formats: seq<seq<string>>, key: string)
    ensures key in AliasesFrom(formats) <==> exists i :: Lists(formats, i, key)
    ensures key in AliasesFrom(formats) ==>
              Lists(formats, AliasesFrom(formats)[key], key)
              && forall i | AliasesFrom(formats)[key] < i < |formats| :: !Lists(formats, i, key)
  {
    if formats != [] {
      var n := |formats| - 1;
      var init := formats[..n];
      AliasesFromLastWins(init, key);
      var m := AliasesFrom(init);
      if ListedIn(formats[n], key) {
        assert Lists(formats, n, key);
      } else if key in m {
        LastWinsFromEarlier(formats, init, key, m);
      } else {
        LastWinsAbsent(formats, init, key);
      }
    }
  }

  /** The last format does not list `key`, an earlier one does: the earlier alias stays. */
  lemma LastWinsFromEarlier(formats: seq<seq<string>>, init: seq<seq<string>>, key: string, m: map<string, nat>)
    requires |formats| > 0 && init == formats[..|formats| - 1] && !ListedIn(formats[|formats| - 1], key)
    requires key in m
    requires Lists(init, m[key], key)
    requires forall i | m[key] < i < |formats| - 1 :: !Lists(init, i, key)
    ensures Lists(formats, m[key], key)
    ensures forall i | m[key] < i < |formats| :: !Lists(formats, i, key)
  {
    ListsBeforeLast(formats, m[key], key);
    forall i | m[key] < i < |formats|
      ensures !Lists(formats, i, key)
    {
      if i < |formats| - 1 {
        ListsBeforeLast(formats, i, key);
      }
    }
  }

  /** Neither the last format nor an earlier one lists `key`. */
  lemma LastWinsAbsent(formats: seq<seq<string>>, init: seq<seq<string>>, key: string)
    requires |formats| > 0 && init == formats[..|formats| - 1] && !ListedIn(formats[|formats| - 1], key)
    requires !exists i :: Lists(init, i, key)
    ensures !exists i :: Lists(formats, i, key)
  {
    forall i | 0 <= i < |formats| - 1
      ensures !Lists(formats, i, key)
    {
      ListsBeforeLast(formats, i, key);
    }
  }

  /** Before the last format, listing in `formats` and in the shorter list agree. */
  lemma ListsBeforeLast(formats: seq<seq<string>>, i: nat, key: string)
    requires i < |formats| - 1
    ensures Lists(formats[..|formats| - 1], i, key) <==> Lists(formats, i, key)
  {
    assert formats[..|formats| - 1][i] == formats[i];
  }

  function Build(formats: seq<seq<string>>): (t: Table)
    ensures forall e :: Get(t, e) == FreshRecord
  {
    Table(AliasesFrom(formats), map[])
  }

  /** Keys are lower-cased, then resolved through the format aliases. */
  function KeyOf(t: Table, extension: string): RecordKey {
    var k := Lower(extension);
    if k in t.aliases then FormatRecord(t.aliases[k]) else OwnRecord(k)
  }

  /** `file_extension_properties[extension]`. */
  function Get(t: Table, extension: string): ExtensionRecord {
    var key := KeyOf(t, extension);
    if key in t.records then t.records[key] else FreshRecord
  }

  /** Stores `record` for `extension`; every extension sharing its record sees the change, no other does. */
  function Put(t: Table, extension: string, record: ExtensionRecord): (r: Table)
    ensures r.aliases == t.aliases
    ensures Get(r, extension) == record
    ensures forall e :: Get(r, e) == if KeyOf(t, e) == KeyOf(t, extension) then record else Get(t, e)
  {
    Table(t.aliases, t.records[KeyOf(t, extension) := record])
  }

  /** Marks the record of `extension` (and of every extension sharing it) invalid; no count changes. */
  function MarkInvalid(t: Table, extension: string): (r: Table)
    ensures r.aliases == t.aliases
    ensures forall e :: Get(r, e).processedCount == Get(t, e).processedCount
    ensures forall e :: Get(r, e).isValid == (Get(t, e).isValid && KeyOf(t, e) != KeyOf(t, extension))
  {
    Put(t, extension, Get(t, extension).(isValid := false))
  }

  /** Counts one more export under the record of `extension`; validity does not change. */
  function CountExport(t: Table, extension: string): (r: Table)
    ensures r.aliases == t.aliases
    ensures forall e :: Get(r, e).isValid == Get(t, e).isValid
    ensures forall e :: Get(r, e).processedCount ==
              Get(t, e).processedCount + if KeyOf(t, e) == KeyOf(t, extension) then 1 else 0
  {
    var rec := Get(t, extension);
    Put(t, extension, rec.(processedCount := rec.processedCount + 1))
  }

  /** Lookups ignore case: "JPG" and "jpg" are one record. */
  lemma LookupIgnoresCase(t: Table, e1: string, e2: string)
    requires Lower(e1) == Lower(e2)
    ensures KeyOf(t, e1) == KeyOf(t, e2) && Get(t, e1) == Get(t, e2)
  {
  }

  /**
   * All extensions of one format share a single record: after the table is
   * built, an update made through one of them (say "jpg") is visible through
   * another (say "jpeg"), provided no later format re-lists either.
   */
  lemma SharedRecordOfFormat(formats: seq<seq<string>>, t: Table, i: nat, e1: string, e2: string, r: ExtensionRecord)
    requires t.aliases == AliasesFrom(formats)
    requires Lists(formats, i, Lower(e1)) && Lists(formats, i, Lower(e2))
    requires forall k | i < k < |formats| :: !Lists(formats, k, Lower(e1)) && !Lists(formats, k, Lower(e2))
    ensures Get(Put(t, e1, r), e2) == r
  {
    var k1, k2 := Lower(e1), Lower(e2);
    AliasesFromLastWins(formats, k1);
    AliasesFromLastWins(formats, k2);
    assert t.aliases[k1] == i;
    assert t.aliases[k2] == i;
    assert KeyOf(t, e1) == KeyOf(t, e2);
  }

  /** `_get_run_mode`: last values are reused only for a valid extension that was already exported. */
  function RunModeFor(t: Table, extension: string, initial: RunMode): (m: RunMode)
    ensures Get(t, extension).isValid && Get(t, extension).processedCount > 0 ==> m == WithLastVals
    ensures !(Get(t, extension).isValid && Get(t, extension).processedCount > 0) ==> m == initial
  {
    var rec := Get(t, extension);
    if rec.isValid && rec.processedCount > 0 then WithLastVals else initial
  }

  /**
   * Once an extension has been counted, every later export of it or of an
   * extension sharing its record runs with last values, until it is marked
   * invalid.
   */
  lemma {:induction false} CountedExtensionReusesLastValues(t: Table, e1: string, e2: string, initial: RunMode)
    requires KeyOf(t, e1) == KeyOf(t, e2) && Get(t, e1).isValid
    ensures RunModeFor(CountExport(t, e1), e2, initial) == WithLastVals
    ensures RunModeFor(MarkInvalid(CountExport(t, e1), e2), e1, initial) == initial
  {
    var c := CountExport(t, e1);
    assert Get(c, e2) == Get(c, e1);
    var m := MarkInvalid(c, e2);
    assert KeyOf(c, e2) == KeyOf(c, e1);
    assert Get(m, e1) == Get(m, e2);
  }

  predicate WasCanceledByUser(message: string) {
    Contains(Lower(message), "cancelled") || Contains(Lower(message), "canceled")
  }

  predicate ShouldExportAgainInteractively(message: string, mode: RunMode) {
    Contains(Lower(message), "calling error") && (mode == WithLastVals || mode == NonInteractive)
  }

  /** What one export attempt leads to. */
  datatype Verdict =
    | Succeeded
    | RetryInteractively
    | RetryWithDefaultExtension
    | RaiseCancel(message: string)
    | RaiseFatal(message: string)

  /**
   * `_export_item_once`'s except-clause: the failure message is inspected in
   * a fixed order (cancellation, then a calling error under a
   * non-interactive mode, then a non-default extension, else fatal).
   */
  function Classify(reply: HostReply, mode: RunMode, extension: string, defaultExtension: string): (v: Verdict)
    ensures v == Succeeded <==> reply == HostOk
    ensures reply.HostError? && WasCanceledByUser(reply.message) ==> v == RaiseCancel(reply.message)
    ensures v == RetryInteractively <==>
              reply.HostError? && !WasCanceledByUser(reply.message)
              && Contains(Lower(reply.message), "calling error") && mode != Interactive
    ensures v == RetryWithDefaultExtension <==>
              reply.HostError? && !WasCanceledByUser(reply.message)
              && !ShouldExportAgainInteractively(reply.message, mode) && extension != defaultExtension
    ensures v.RaiseFatal? <==>
              reply.HostError? && !WasCanceledByUser(reply.message)
              && !ShouldExportAgainInteractively(reply.message, mode) && extension == defaultExtension
  {
    match reply
    case HostOk => Succeeded
    case HostError(message) =>
      if WasCanceledByUser(message) then RaiseCancel(message)
      else if ShouldExportAgainInteractively(message, mode) then RetryInteractively
      else if extension != defaultExtension then RetryWithDefaultExtension
      else RaiseFatal(message)
  }

  /** The error raised out of one attempt (the caller adds item name and extension). */
  datatype AttemptError = Canceled(message: string) | Failed(message: string)

  datatype Attempt = Attempt(status: ExportStatus, table: Table)

  /**
   * One export attempt: the status it sets and the table it leaves. Only a
   * fall-back to the default extension touches the table, and then only the
   * attempted extension's validity.
   */
  function ExportOnce(reply: HostReply, mode: RunMode, extension: string, defaultExtension: string, t: Table)
    : (r: Base.Result<Attempt, AttemptError>)
    ensures r.Ok? ==> r.value.status != NotExportedYet
    ensures r.Ok? && r.value.status != UseDefaultFileExtension ==> r.value.table == t
    ensures r.Ok? && r.value.status == UseDefaultFileExtension ==>
              r.value.table == MarkInvalid(t, extension) && extension != defaultExtension
    ensures r.Ok? && r.value.status == ExportSuccessful <==> reply == HostOk
    ensures r.Err? ==> reply.HostError? && r.error.message == reply.message
    ensures r.Err? && r.error.Canceled? <==> reply.HostError? && WasCanceledByUser(reply.message)
    ensures r.Ok? && r.value.status == ForceInteractive <==>
              reply.HostError? && !WasCanceledByUser(reply.message)
              && ShouldExportAgainInteractively(reply.message, mode)
    ensures r.Ok? && r.value.status == UseDefaultFileExtension <==>
              reply.HostError? && !WasCanceledByUser(reply.message)
              && !ShouldExportAgainInteractively(reply.message, mode) && extension != defaultExtension
    ensures r.Err? && r.error.Failed? <==>
              reply.HostError? && !WasCanceledByUser(reply.message)
              && !ShouldExportAgainInteractively(reply.message, mode) && extension == defaultExtension
  {
    match Classify(reply, mode, extension, defaultExtension)
    case Succeeded => Base.Ok(Attempt(ExportSuccessful, t))
    case RetryInteractively => Base.Ok(Attempt(ForceInteractive, t))
    case RetryWithDefaultExtension => Base.Ok(Attempt(UseDefaultFileExtension, MarkInvalid(t, extension)))
    case RaiseCancel(m) => Base.Err(Canceled(m))
    case RaiseFatal(m) => Base.Err(Failed(m))
  }

  /**
   * Exporting with the default extension never falls back and never clears
   * a validity flag: a failure is either a retry in interactive mode or an
   * error.
   */
  lemma DefaultExtensionNeverFallsBack(reply: HostReply, mode: RunMode, defaultExtension: string, t: Table)
    ensures var r := ExportOnce(reply, mode, defaultExtension, defaultExtension, t);
            r.Ok? ==> r.value.status != UseDefaultFileExtension && r.value.table == t
  {
  }

  /** An interactive attempt is never asked to be repeated interactively. */
  lemma InteractiveAttemptIsFinal(reply: HostReply, extension: string, defaultExtension: string, t: Table)
    ensures var r := ExportOnce(reply, Interactive, extension, defaultExtension, t);
            r.Ok? ==> r.value.status != ForceInteractive
  {
  }

  /** A cancellation message wins over every other diagnosis. */
  lemma CancellationWins(message: string, mode: RunMode, extension: string, defaultExtension: string, t: Table)
    requires Contains(Lower(message), "canceled") || Contains(Lower(message), "cancelled")
    ensures ExportOnce(HostError(message), mode, extension, defaultExtension, t) == Base.Err(Canceled(message))
  {
  }
}

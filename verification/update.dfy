/**
 * The settings-version update decision (`update.py`): whether the stored
 * settings are new, current, out of date or unreadable, and which update
 * handlers run. Reading and writing the setting sources, the dialog asking
 * to clear the settings, and the handlers themselves are recorded as events
 * rather than performed. A version is its position in release order; parsing
 * one from text is a parameter.
 */
module Update {
  import opened Base

  type Version = nat

  /** `_UPDATE_STATUSES`. */
  datatype Status = FreshStart | Updated | ClearSettings | NoAction | Terminate

  /** The statuses the setting persistor reports that the decision looks at. */
  datatype PersistorStatus = Success | PartialSuccess | SourceNotFound | Fail

  /** A setting source: its key and whether it holds any data. */
  datatype Source = Source(key: string, hasData: bool)

  /**
   * What loading the stored plug-in version gives: the stored value (absent
   * when there is none), the overall status, one status per source, and the
   * message formatted from those statuses.
   */
  datatype LoadResult = LoadResult(value: Option<string>, status: PersistorStatus,
                                   statusesPerSource: seq<PersistorStatus>, formattedMessage: string)

  /** An update handler and the version it updates to. */
  datatype Handler = Handler(version: Version, id: nat)

  /** The effects of an update, in the order they happen. */
  datatype Event =
    | SavedVersion
    | LoadedVersion
    | ResetVersion
    | ClearedSource(key: string)
    | RanHandler(id: nat)
    | SavedSettings
    | AskedToClear
    | ClearedAllSources

  /** `_is_fresh_start`: no source holds data (true when there are no sources). */
  predicate IsFreshStart(sources: seq<Source>) {
    forall i | 0 <= i < |sources| :: !sources[i].hasData
  }

  /**
   * `_load_previous_version`: a value that does not parse (or is absent) is a
   * failure with no message; a parsed value with some source missing counts
   * as a success with no message; otherwise the load's own status and
   * message.
   */
  function LoadPreviousVersion(load: LoadResult, parse: string -> Option<Version>)
    : (r: (Option<Version>, PersistorStatus, string))
    ensures r.0 == (if load.value.Some? then parse(load.value.value) else None)
    ensures r.0.None? ==> r.1 == Fail && r.2 == ""
    ensures r.0.Some? && SourceNotFound in load.statusesPerSource ==> r.1 == Success && r.2 == ""
    ensures r.0.Some? && SourceNotFound !in load.statusesPerSource ==> r.1 == load.status && r.2 == load.formattedMessage
  {
    var parsed := if load.value.Some? then parse(load.value.value) else None;
    if parsed.None? then (None, Fail, "")
    else if exists i | 0 <= i < |load.statusesPerSource| :: load.statusesPerSource[i] == SourceNotFound then
      (parsed, Success, "")
    else (parsed, load.status, load.formattedMessage)
  }

  /** Whether a handler's version lies in the half-open range (previous, current]. */
  predicate InRange(h: Handler, previous: Version, current: Version) {
    previous < h.version <= current
  }

  /** The handlers in the range, in the order they are listed. */
  function HandlersInRange(handlers: seq<Handler>, previous: Version, current: Version): (r: seq<Handler>)
    ensures forall h :: h in r <==> h in handlers && InRange(h, previous, current)
    ensures |r| <= |handlers|
  {
    if handlers == [] then []
    else
      var rest := HandlersInRange(handlers[1..], previous, current);
      if InRange(handlers[0], previous, current) then [handlers[0]] + rest else rest
  }

  function RunEvents(handlers: seq<Handler>): (r: seq<Event>)
    ensures |r| == |handlers|
    ensures forall i | 0 <= i < |r| :: r[i] == RanHandler(handlers[i].id)
  {
    if handlers == [] then [] else [RanHandler(handlers[0].id)] + RunEvents(handlers[1..])
  }

  function ClearEvents(sources: seq<Source>): (r: seq<Event>)
    ensures |r| == |sources|
    ensures forall i | 0 <= i < |r| :: r[i] == ClearedSource(sources[i].key)
  {
    if sources == [] then [] else [ClearedSource(sources[0].key)] + ClearEvents(sources[1..])
  }

  /**
   * `handle_update`: with no handlers nothing happens; otherwise every source
   * is cleared, the handlers in (previous, current] run in order, and the
   * settings are saved.
   */
  function HandleUpdate(sources: seq<Source>, handlers: seq<Handler>, previous: Version, current: Version)
    : (r: seq<Event>)
    ensures handlers == [] ==> r == []
    ensures handlers != [] ==>
              && |r| == |sources| + |HandlersInRange(handlers, previous, current)| + 1
              && r[..|sources|] == ClearEvents(sources)
              && r[|r| - 1] == SavedSettings
              && r[|sources|..|r| - 1] == RunEvents(HandlersInRange(handlers, previous, current))
  {
    if handlers == [] then []
    else
      var clear := ClearEvents(sources);
      var run := RunEvents(HandlersInRange(handlers, previous, current));
      assert (clear + run + [SavedSettings])[..|sources|] == clear;
      assert (clear + run + [SavedSettings])[|sources|..|sources| + |run|] == run;
      clear + run + [SavedSettings]
  }

  /** Handlers listed in ascending version order. */
  predicate Ascending(handlers: seq<Handler>) {
    forall i, j | 0 <= i < j < |handlers| :: handlers[i].version <= handlers[j].version
  }

  /**
   * Selecting the handlers in range distributes over concatenation: the
   * selection keeps the listed order and depends on each handler alone.
   */
  lemma {:induction false} HandlersInRangeConcat(a: seq<Handler>, b: seq<Handler>, previous: Version, current: Version)
    ensures HandlersInRange(a + b, previous, current)
            == HandlersInRange(a, previous, current) + HandlersInRange(b, previous, current)
  {
    if a == [] {
      assert a + b == b;
    } else {
      assert (a + b)[0] == a[0];
      assert (a + b)[1..] == a[1..] + b;
      HandlersInRangeConcat(a[1..], b, previous, current);
    }
  }

  /**
   * With ascending handlers, updating in two steps runs exactly the handlers
   * one step would, in the same order.
   */
  lemma {:induction false} UpdateInSteps(handlers: seq<Handler>, previous: Version, middle: Version, current: Version)
    requires Ascending(handlers)
    requires previous <= middle <= current
    ensures HandlersInRange(handlers, previous, middle) + HandlersInRange(handlers, middle, current)
            == HandlersInRange(handlers, previous, current)
  {
    if handlers != [] {
      var h := handlers[0];
      assert Ascending(handlers[1..]);
      UpdateInSteps(handlers[1..], previous, middle, current);
      if InRange(h, middle, current) {
        // Every later handler has a version above `middle` too.
        NoneInRangeAfter(handlers[1..], previous, middle, h.version);
      }
    }
  }

  /** No handler is in range when no handler's version fits it. */
  lemma {:induction false} NothingInRange(handlers: seq<Handler>, previous: Version, current: Version)
    requires forall i | 0 <= i < |handlers| :: !InRange(handlers[i], previous, current)
    ensures HandlersInRange(handlers, previous, current) == []
  {
    if handlers != [] {
      NothingInRange(handlers[1..], previous, current);
    }
  }

  lemma NoneInRangeAfter(handlers: seq<Handler>, previous: Version, middle: Version, atLeast: Version)
    requires forall i | 0 <= i < |handlers| :: handlers[i].version >= atLeast
    requires atLeast > middle
    ensures HandlersInRange(handlers, previous, middle) == []
  {
    NothingInRange(handlers, previous, middle);
  }

  /** An update handling runs every listed handler in range. */
  lemma InRangeHandlerRuns(sources: seq<Source>, handlers: seq<Handler>, previous: Version, current: Version, h: Handler)
    requires h in handlers && InRange(h, previous, current)
    ensures RanHandler(h.id) in HandleUpdate(sources, handlers, previous, current)
  {
    var tail := HandleUpdate(sources, handlers, previous, current);
    var run := HandlersInRange(handlers, previous, current);
    var k :| 0 <= k < |run| && run[k] == h;
    assert tail[|sources| + k] == RunEvents(run)[k];
  }

  /** Every handler an update handling runs is a listed handler in range. */
  lemma RanHandlerIsInRange(sources: seq<Source>, handlers: seq<Handler>, previous: Version, current: Version, id: nat)
    requires RanHandler(id) in HandleUpdate(sources, handlers, previous, current)
    ensures exists g | g in handlers && InRange(g, previous, current) :: g.id == id
  {
    var tail := HandleUpdate(sources, handlers, previous, current);
    var run := HandlersInRange(handlers, previous, current);
    var i :| 0 <= i < |tail| && tail[i] == RanHandler(id);
    assert |sources| <= i < |tail| - 1;
    assert tail[i] == RunEvents(run)[i - |sources|];
    assert run[i - |sources|] in run;
  }

  /**
   * `update`: the status, the message, and the effects. `userAgrees` is the
   * answer the dialog asking to clear the settings would get.
   */
  function RunUpdate(sources: seq<Source>, load: LoadResult, parse: string -> Option<Version>, current: Version,
                     handlers: seq<Handler>, handleInvalid: string, userAgrees: bool)
    : (r: (Status, string, seq<Event>))
    ensures IsFreshStart(sources) <==> r.0 == FreshStart
    ensures r.0 == FreshStart ==> r.1 == "" && r.2 == [SavedVersion]
    ensures r.0 != FreshStart ==> r.2 != [] && r.2[0] == LoadedVersion
    ensures var (previous, status, message) := LoadPreviousVersion(load, parse);
            !IsFreshStart(sources) ==>
              && r.1 == message
              && (status == Success && previous.Some? ==>
                    && (r.0 == NoAction <==> previous.value == current)
                    && (r.0 == NoAction ==> r.2 == [LoadedVersion])
                    && (r.0 != NoAction ==>
                          r.0 == Updated && r.2 == [LoadedVersion, ResetVersion] + HandleUpdate(sources, handlers, previous.value, current)))
              && (!(status == Success && previous.Some?) ==>
                    && (r.0 == ClearSettings <==> handleInvalid == "clear" || (handleInvalid == "ask_to_clear" && userAgrees))
                    && (r.0 != ClearSettings ==> r.0 == Terminate)
                    && (ClearedAllSources in r.2 <==> r.0 == ClearSettings)
                    && (AskedToClear in r.2 <==> handleInvalid == "ask_to_clear"))
  {
    if IsFreshStart(sources) then (FreshStart, "", [SavedVersion])
    else
      var (previous, status, message) := LoadPreviousVersion(load, parse);
      if status == Success && previous.Some? then
        if previous.value == current then (NoAction, message, [LoadedVersion])
        else (Updated, message, [LoadedVersion, ResetVersion] + HandleUpdate(sources, handlers, previous.value, current))
      else if handleInvalid == "ask_to_clear" then
        if userAgrees then (ClearSettings, message, [LoadedVersion, AskedToClear, ClearedAllSources])
        else (Terminate, message, [LoadedVersion, AskedToClear])
      else if handleInvalid == "clear" then (ClearSettings, message, [LoadedVersion, ClearedAllSources])
      else (Terminate, message, [LoadedVersion])
  }

  /**
   * The handlers that run during an update are exactly those in (previous,
   * current]: an update to the same version never gets this far, and an
   * update to an older version clears every source and runs none.
   */
  lemma UpdateRunsHandlersInRange(sources: seq<Source>, load: LoadResult, parse: string -> Option<Version>,
                                  current: Version, handlers: seq<Handler>, handleInvalid: string,
                                  userAgrees: bool, h: Handler)
    requires RunUpdate(sources, load, parse, current, handlers, handleInvalid, userAgrees).0 == Updated
    requires h in handlers
    ensures var previous := LoadPreviousVersion(load, parse).0.value;
            var events := RunUpdate(sources, load, parse, current, handlers, handleInvalid, userAgrees).2;
            && (InRange(h, previous, current) ==> RanHandler(h.id) in events)
            && (current < previous ==> forall e | e in events :: !e.RanHandler?)
  {
    var previous := LoadPreviousVersion(load, parse).0.value;
    var events := RunUpdate(sources, load, parse, current, handlers, handleInvalid, userAgrees).2;
    var tail := HandleUpdate(sources, handlers, previous, current);
    assert events == [LoadedVersion, ResetVersion] + tail;
    if InRange(h, previous, current) {
      InRangeHandlerRuns(sources, handlers, previous, current, h);
    }
    if current < previous {
      NothingInRange(handlers, previous, current);
      assert tail == ClearEvents(sources) + [SavedSettings];
    }
  }

  /** Conversely, every handler that runs during an update is a listed handler in (previous, current]. */
  lemma UpdateRunsOnlyHandlersInRange(sources: seq<Source>, load: LoadResult, parse: string -> Option<Version>,
                                      current: Version, handlers: seq<Handler>, handleInvalid: string,
                                      userAgrees: bool)
    requires RunUpdate(sources, load, parse, current, handlers, handleInvalid, userAgrees).0 == Updated
    ensures var previous := LoadPreviousVersion(load, parse).0.value;
            var events := RunUpdate(sources, load, parse, current, handlers, handleInvalid, userAgrees).2;
            forall id | RanHandler(id) in events ::
              exists g | g in handlers && InRange(g, previous, current) :: g.id == id
  {
    var previous := LoadPreviousVersion(load, parse).0.value;
    var events := RunUpdate(sources, load, parse, current, handlers, handleInvalid, userAgrees).2;
    var tail := HandleUpdate(sources, handlers, previous, current);
    assert events == [LoadedVersion, ResetVersion] + tail;
    forall id | RanHandler(id) in events
      ensures exists g | g in handlers && InRange(g, previous, current) :: g.id == id
    {
      assert RanHandler(id) in tail;
      RanHandlerIsInRange(sources, handlers, previous, current, id);
    }
  }
}

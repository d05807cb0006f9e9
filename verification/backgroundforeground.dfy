/**
 * Background and foreground layers (`background_foreground.py`): inserting
 * copies of the layers carrying a colour tag next to the current layer,
 * merged into one, and later finding that layer again and merging the
 * current layer with it.
 *
 * A layer stack is the list of children of the current layer's parent (or
 * the image's top-level layers), position 0 at the top. GIMP's merge-down is
 * modelled as one function, `MergeDown`: the layer at a position and the one
 * below it become one layer that records both, takes the upper layer's name
 * and visibility, and carries no colour tag.
 */
module BackgroundForeground {
  import opened Base
  import opened Layers

  /** What a layer of the stack holds. */
  datatype Content =
    | Original(id: nat)
    | Copy(of: Item)
    | MergedDown(upper: Content, lower: Content)

  datatype StackLayer = StackLayer(content: Content, name: string, tag: ColorTag, visible: bool)

  type Stack = seq<StackLayer>

  /** Insert background layers after the current layer, foreground layers before it. */
  datatype Side = Background | Foreground

  /** `batcher.procedures` as far as these procedures read them. */
  datatype Proc = Proc(id: nat, enabled: bool, origName: string, colorTag: ColorTag)

  /** GIMP's merge-down of the layer at `i` with the layer below it. */
  function MergePair(upper: StackLayer, lower: StackLayer): StackLayer {
    StackLayer(MergedDown(upper.content, lower.content), upper.name, TagNone, upper.visible)
  }

  function MergeDown(s: Stack, i: nat): (r: Stack)
    requires i + 1 < |s|
    ensures |r| == |s| - 1
    ensures r[..i] == s[..i] && r[i + 1..] == s[i + 2..]
    ensures r[i] == MergePair(s[i], s[i + 1])
  {
    s[..i] + [MergePair(s[i], s[i + 1])] + s[i + 2..]
  }

  /** The name of the procedure that inserts the layers a side looks for. */
  function InsertProcedureName(side: Side): string {
    match side
    case Background => "insert_background"
    case Foreground => "insert_foreground"
  }

  function SkipMessage(side: Side): string {
    match side
    case Background => "There are no background layers."
    case Foreground => "There are no foreground layers."
  }

  /** The items `insert_background`/`insert_foreground` start from. */
  function SourceItems(isPreview: bool, previewItems: seq<Item>, treeItems: seq<Item>): (r: seq<Item>)
    ensures isPreview ==> r == previewItems
    ensures !isPreview ==> forall i | 0 <= i < |r| :: r[i] in treeItems && r[i].itemType != TypeFolder
    ensures !isPreview ==> forall it | it in treeItems && it.itemType != TypeFolder :: it in r
  {
    if isPreview then previewItems else NonFolders(treeItems)
  }

  function NonFolders(items: seq<Item>): (r: seq<Item>)
    ensures forall it :: it in r <==> it in items && it.itemType != TypeFolder
  {
    if items == [] then []
    else if items[0].itemType == TypeFolder then NonFolders(items[1..])
    else [items[0]] + NonFolders(items[1..])
  }

  /** An item whose valid layer carries `tag`, provided `tag` is a colour at all. */
  predicate IsTagged(it: Item, tag: ColorTag) {
    tag != TagNone && it.valid && it.colorTag == tag
  }

  /** The items `_insert_tagged_layer` copies, in order. */
  function TaggedItems(items: seq<Item>, tag: ColorTag): (r: seq<Item>)
    ensures |r| <= |items|
    ensures forall i | 0 <= i < |r| :: r[i] in items && IsTagged(r[i], tag)
    ensures forall it | it in items && IsTagged(it, tag) :: it in r
    ensures tag == TagNone ==> r == []
  {
    if items == [] then []
    else if IsTagged(items[0], tag) then [items[0]] + TaggedItems(items[1..], tag)
    else TaggedItems(items[1..], tag)
  }

  /** The pasted copies, each made visible. */
  function Copies(items: seq<Item>): (r: Stack)
    ensures |r| == |items|
    ensures forall i | 0 <= i < |r| :: r[i] == StackLayer(Copy(items[i]), items[i].name, items[i].colorTag, true)
  {
    if items == [] then [] else [StackLayer(Copy(items[0]), items[0].name, items[0].colorTag, true)] + Copies(items[1..])
  }

  /** The single layer a run of layers becomes when merged down from the bottom up. */
  function Collapse(cs: Stack): StackLayer
    requires |cs| >= 1
  {
    if |cs| == 1 then cs[0] else MergePair(cs[0], Collapse(cs[1..]))
  }

  /** Merge down at `last`, `last - 1`, ..., `first`, in that order. */
  function MergeDownRange(s: Stack, first: nat, last: int): (r: Stack)
    requires first <= last + 1
    requires last + 1 < |s|
    ensures |r| == |s| - (last + 1 - first)
    decreases last + 1 - first
  {
    if last < first then s else MergeDownRange(MergeDown(s, last), first, last - 1)
  }

  /** Merging the last two layers of a run first leaves the same merged layer. */
  lemma {:induction false} CollapseLastPair(cs: Stack)
    requires |cs| >= 2
    ensures Collapse(cs[..|cs| - 2] + [MergePair(cs[|cs| - 2], cs[|cs| - 1])]) == Collapse(cs)
  {
    var k := |cs|;
    var shorter := cs[..k - 2] + [MergePair(cs[k - 2], cs[k - 1])];
    if k > 2 {
      CollapseLastPair(cs[1..]);
      assert shorter[1..] == cs[1..][..k - 3] + [MergePair(cs[1..][k - 3], cs[1..][k - 2])];
    } else {
      assert shorter == [MergePair(cs[0], cs[1])];
    }
  }

  /** Merging a run of layers from its second-to-last layer up to its first collapses it into one layer in place. */
  lemma {:induction false} MergeRunCollapses(pre: Stack, cs: Stack, post: Stack)
    requires |cs| >= 1
    ensures MergeDownRange(pre + cs + post, |pre|, |pre| + |cs| - 2) == pre + [Collapse(cs)] + post
    decreases |cs|
  {
    var k := |cs|;
    if k == 1 {
      assert pre + cs + post == pre + [Collapse(cs)] + post;
    } else {
      var shorter := cs[..k - 2] + [MergePair(cs[k - 2], cs[k - 1])];
      MergeLastPairOfRun(pre, cs, post);
      MergeRunCollapses(pre, shorter, post);
      CollapseLastPair(cs);
    }
  }

  /** Merging the last two layers of a run inside a stack shortens the run by one. */
  lemma MergeLastPairOfRun(pre: Stack, cs: Stack, post: Stack)
    requires |cs| >= 2
    ensures MergeDown(pre + cs + post, |pre| + |cs| - 2)
            == pre + (cs[..|cs| - 2] + [MergePair(cs[|cs| - 2], cs[|cs| - 1])]) + post
  {
    var s := pre + cs + post;
    var k := |cs|;
    var last := |pre| + k - 2;
    assert s[last] == cs[k - 2] && s[last + 1] == cs[k - 1];
    assert s[..last] == pre + cs[..k - 2];
    assert s[last + 2..] == post;
  }

  /** Where the merged copies go for a current layer at `pos`. */
  function InsertPosition(pos: nat, side: Side): nat {
    if side == Background then pos + 1 else pos
  }

  /** `t` is `s` with one layer inserted at `at`. */
  predicate InsertedAt(s: Stack, t: Stack, at: nat) {
    at <= |s| && |t| == |s| + 1 && t[..at] == s[..at] && t[at + 1..] == s[at..]
  }

  /** Every layer of `s` is still in `t`, shifted by one from `at` on. */
  lemma InsertedAtKeeps(s: Stack, t: Stack, at: nat, i: nat)
    requires InsertedAt(s, t, at) && i < |s|
    ensures i < at ==> t[i] == s[i]
    ensures i >= at ==> t[i + 1] == s[i]
  {
    if i < at {
      assert t[i] == t[..at][i];
    } else {
      assert t[i + 1] == t[at + 1..][i - at];
    }
  }

  /**
   * Pasting a run of copies at `at` and merging them down into one layer
   * that gets the copies' common tag back.
   */
  function PasteAndMerge(s: Stack, at: nat, copies: Stack, tag: ColorTag): (r: Stack)
    requires at <= |s| && |copies| >= 1
    requires forall i | 0 <= i < |copies| :: copies[i].tag == tag
    ensures InsertedAt(s, r, at)
    ensures r[at].tag == tag && r[at].content == Collapse(copies).content
  {
    var inserted := s[..at] + copies + s[at..];
    if |copies| == 1 then
      assert inserted == s[..at] + [Collapse(copies)] + s[at..];
      inserted
    else
      var mergedTag := inserted[at + |copies| - 2].tag;
      var merged := MergeDownRange(inserted, at, at + |copies| - 2);
      MergeRunCollapses(s[..at], copies, s[at..]);
      assert merged == s[..at] + [Collapse(copies)] + s[at..];
      assert mergedTag == tag by {
        assert inserted[at + |copies| - 2] == copies[|copies| - 2];
      }
      s[..at] + [merged[at].(tag := mergedTag)] + s[at..]
  }

  /**
   * One step of `_insert_tagged_layer` for a current layer at `pos`: nothing
   * when no item carries `tag`; otherwise the copies are pasted at the
   * insertion position and merged down into one layer carrying `tag`.
   */
  function InsertTaggedLayer(s: Stack, pos: nat, side: Side, items: seq<Item>, tag: ColorTag): (r: Stack)
    requires pos < |s|
    ensures TaggedItems(items, tag) == [] ==> r == s
    ensures TaggedItems(items, tag) != [] ==>
              var at := InsertPosition(pos, side);
              && InsertedAt(s, r, at)
              && r[at].tag == tag
              && r[at].content == Collapse(Copies(TaggedItems(items, tag))).content
  {
    var tagged := TaggedItems(items, tag);
    if tagged == [] then s
    else
      var copies := Copies(tagged);
      assert forall i | 0 <= i < |copies| :: copies[i].tag == tag by {
        forall i | 0 <= i < |copies| ensures copies[i].tag == tag {
          assert IsTagged(tagged[i], tag);
        }
      }
      PasteAndMerge(s, InsertPosition(pos, side), copies, tag)
  }

  /** Enabled procedures with the given original name. */
  function EnabledMatching(procs: seq<Proc>, origName: string): (r: seq<Proc>)
    ensures forall i | 0 <= i < |r| :: r[i] in procs && r[i].enabled && r[i].origName == origName
    ensures forall p :: p in r <==> p in procs && p.enabled && p.origName == origName
  {
    if procs == [] then []
    else if procs[0].enabled && procs[0].origName == origName then [procs[0]] + EnabledMatching(procs[1..], origName)
    else EnabledMatching(procs[1..], origName)
  }

  /** The position of the first procedure with the given id, or the length when there is none. */
  function IndexOfId(procs: seq<Proc>, id: nat): (r: nat)
    ensures r <= |procs|
    ensures forall i | 0 <= i < r :: procs[i].id != id
    ensures r < |procs| ==> procs[r].id == id
  {
    if procs == [] then 0
    else if procs[0].id == id then 0
    else 1 + IndexOfId(procs[1..], id)
  }

  /**
   * `_get_previous_enabled_procedures`: the enabled procedures with the given
   * original name before the current one; all of them when the current
   * procedure is not in the list.
   */
  function PreviousEnabled(procs: seq<Proc>, currentId: nat, origName: string): (r: seq<Proc>)
    ensures forall i | 0 <= i < |r| :: r[i] in procs && r[i].enabled && r[i].origName == origName
  {
    if procs == [] then []
    else if procs[0].id == currentId then []
    else
      var rest := PreviousEnabled(procs[1..], currentId, origName);
      if procs[0].enabled && procs[0].origName == origName then [procs[0]] + rest else rest
  }

  /** The early return is a filter of the procedures up to the current one. */
  lemma {:induction false} PreviousEnabledIsFilteredPrefix(procs: seq<Proc>, currentId: nat, origName: string)
    ensures PreviousEnabled(procs, currentId, origName) == EnabledMatching(procs[..IndexOfId(procs, currentId)], origName)
    ensures forall p :: p in PreviousEnabled(procs, currentId, origName) <==>
                          p in procs[..IndexOfId(procs, currentId)] && p.enabled && p.origName == origName
  {
    if procs != [] && procs[0].id != currentId {
      PreviousEnabledIsFilteredPrefix(procs[1..], currentId, origName);
      var k := IndexOfId(procs, currentId);
      assert procs[..k][1..] == procs[1..][..k - 1];
    }
  }

  /** Procedures after the current one never matter. */
  lemma {:induction false} LaterProceduresIgnored(procs: seq<Proc>, later: seq<Proc>, currentId: nat, origName: string)
    requires exists i | 0 <= i < |procs| :: procs[i].id == currentId
    ensures PreviousEnabled(procs + later, currentId, origName) == PreviousEnabled(procs, currentId, origName)
  {
    if procs[0].id != currentId {
      var i :| 0 <= i < |procs| && procs[i].id == currentId;
      assert procs[1..][i - 1].id == currentId;
      assert (procs + later)[1..] == procs[1..] + later;
      LaterProceduresIgnored(procs[1..], later, currentId, origName);
    }
  }

  /** The colour tags of the given procedures. */
  function ColorTags(procs: seq<Proc>): (r: seq<ColorTag>)
    ensures |r| == |procs|
    ensures forall i | 0 <= i < |r| :: r[i] == procs[i].colorTag
  {
    if procs == [] then [] else [procs[0].colorTag] + ColorTags(procs[1..])
  }

  /** The position `_get_adjacent_layer` requires of the current layer, given the number of layers. */
  predicate HasNeighbour(side: Side, pos: nat, n: nat) {
    match side
    case Background => pos < n - 1
    case Foreground => pos > 0
  }

  function Neighbour(side: Side, pos: nat): int {
    if side == Background then pos + 1 else pos - 1
  }

  /**
   * `get_background_layer`/`get_foreground_layer`: the neighbour below (or
   * above) the current layer, provided there is more than one layer and the
   * neighbour carries a colour tag some enabled insertion procedure before
   * the current procedure inserts; otherwise the action is skipped with the
   * side's message. The layer found becomes the selected one.
   */
  function GetAdjacentLayer(s: Stack, pos: nat, side: Side, procs: seq<Proc>, currentId: nat): (r: Result<nat, string>)
    requires pos < |s|
    ensures r.Ok? <==>
              && |s| > 1
              && HasNeighbour(side, pos, |s|)
              && s[Neighbour(side, pos)].tag in ColorTags(PreviousEnabled(procs, currentId, InsertProcedureName(side)))
    ensures r.Ok? ==> r.value == Neighbour(side, pos) && r.value < |s|
    ensures r.Err? ==> r.error == SkipMessage(side)
  {
    var n := |s|;
    if n > 1 && HasNeighbour(side, pos, n) then
      var next := Neighbour(side, pos);
      var tags := ColorTags(PreviousEnabled(procs, currentId, InsertProcedureName(side)));
      if s[next].tag in tags then Ok(next) else Err(SkipMessage(side))
    else Err(SkipMessage(side))
  }

  /** The stack after `merge_background`/`merge_foreground`, and where the current layer now is. */
  datatype Merged = Merged(stack: Stack, current: nat)

  /** The upper of the two layers merged: the current layer for the background, the foreground layer otherwise. */
  function MergeAt(side: Side, pos: nat): int {
    if side == Background then pos else pos - 1
  }

  /**
   * `_merge_tagged_layer`: skipped when there is no adjacent tagged layer.
   * Otherwise the current layer is made visible and merged with it; when
   * GIMP's merge gives a layer (`mergeSucceeds`), that layer becomes the
   * current one and gets back the current layer's name, visibility and colour
   * tag, and when it does not the current layer stays, left visible.
   */
  function MergeTaggedLayer(s: Stack, pos: nat, side: Side, procs: seq<Proc>, currentId: nat, mergeSucceeds: bool)
    : (r: Result<Merged, string>)
    requires pos < |s|
    ensures r.Err? <==> GetAdjacentLayer(s, pos, side, procs, currentId).Err?
    ensures r.Err? ==> r.error == SkipMessage(side)
    ensures r.Ok? && !mergeSucceeds ==> r.value == Merged(s[pos := s[pos].(visible := true)], pos)
    ensures r.Ok? && mergeSucceeds ==>
              var at := MergeAt(side, pos);
              && 0 <= at && at + 1 < |s|
              && r.value.current == at
              && MergedAt(s, at, s[pos], r.value.stack)
  {
    match GetAdjacentLayer(s, pos, side, procs, currentId)
    case Err(msg) => Err(msg)
    case Ok(_) =>
      var current := s[pos];
      var raised := s[pos := current.(visible := true)];
      if !mergeSucceeds then Ok(Merged(raised, pos))
      else
        var at := MergeAt(side, pos);
        var m := MergeKeeping(raised, at, current);
        RaisedThenMerged(s, pos, at, current, m);
        Ok(Merged(m, at))
  }

  /** `t` is `s` with the layers at `at` and `at + 1` merged into one that has the name, visibility and tag of `keep`. */
  predicate MergedAt(s: Stack, at: nat, keep: StackLayer, t: Stack) {
    && at + 1 < |s| && |t| == |s| - 1
    && t[..at] == s[..at] && t[at + 1..] == s[at + 2..]
    && t[at] == StackLayer(MergedDown(s[at].content, s[at + 1].content), keep.name, keep.tag, keep.visible)
  }

  /** Making one of the two merged layers visible first does not change the merge. */
  lemma RaisedThenMerged(s: Stack, pos: nat, at: nat, keep: StackLayer, t: Stack)
    requires pos < |s| && (pos == at || pos == at + 1)
    requires MergedAt(s[pos := s[pos].(visible := true)], at, keep, t)
    ensures MergedAt(s, at, keep, t)
  {
    var raised := s[pos := s[pos].(visible := true)];
    assert raised[..at] == s[..at] && raised[at + 2..] == s[at + 2..];
  }

  /** Merge down at `at`, then give the merged layer the name, visibility and tag of `keep`. */
  function MergeKeeping(s: Stack, at: nat, keep: StackLayer): (r: Stack)
    requires at + 1 < |s|
    ensures MergedAt(s, at, keep, r)
  {
    var m := MergeDown(s, at);
    m[at := m[at].(name := keep.name, visible := keep.visible, tag := keep.tag)]
  }

  /** The current layer's position after the tagged layer was inserted. */
  function PositionAfterInsert(pos: nat, side: Side): nat {
    if side == Background then pos else pos + 1
  }

  /**
   * Inserting the tagged layer and then looking for the adjacent layer on the
   * same side finds the inserted layer, provided an enabled insertion with
   * that tag comes before the current procedure.
   */
  lemma InsertThenFindAdjacent(s: Stack, pos: nat, side: Side, items: seq<Item>, tag: ColorTag,
                               procs: seq<Proc>, currentId: nat)
    requires pos < |s|
    requires TaggedItems(items, tag) != []
    requires tag in ColorTags(PreviousEnabled(procs, currentId, InsertProcedureName(side)))
    ensures var t := InsertTaggedLayer(s, pos, side, items, tag);
            var cur := PositionAfterInsert(pos, side);
            && cur < |t| && t[cur] == s[pos]
            && GetAdjacentLayer(t, cur, side, procs, currentId) == Ok(InsertPosition(pos, side))
  {
    var t := InsertTaggedLayer(s, pos, side, items, tag);
    var at := InsertPosition(pos, side);
    var cur := PositionAfterInsert(pos, side);
    assert InsertedAt(s, t, at) && t[at].tag == tag;
    InsertedAtKeeps(s, t, at, pos);
    assert Neighbour(side, cur) == at;
    assert HasNeighbour(side, cur, |t|);
  }

  /**
   * Inserting the tagged layer and merging it back (with the merge
   * succeeding) restores the stack except that the current layer has become
   * the merge of itself and the inserted layer, with its own name, visibility
   * and colour tag.
   */
  lemma InsertThenMerge(s: Stack, pos: nat, side: Side, items: seq<Item>, tag: ColorTag,
                        procs: seq<Proc>, currentId: nat)
    requires pos < |s|
    requires TaggedItems(items, tag) != []
    requires tag in ColorTags(PreviousEnabled(procs, currentId, InsertProcedureName(side)))
    ensures var t := InsertTaggedLayer(s, pos, side, items, tag);
            var r := MergeTaggedLayer(t, PositionAfterInsert(pos, side), side, procs, currentId, true);
            && r.Ok?
            && r.value.current == pos
            && |r.value.stack| == |s|
            && r.value.stack[..pos] == s[..pos]
            && r.value.stack[pos + 1..] == s[pos + 1..]
            && r.value.stack[pos].name == s[pos].name
            && r.value.stack[pos].visible == s[pos].visible
            && r.value.stack[pos].tag == s[pos].tag
  {
    InsertThenFindAdjacent(s, pos, side, items, tag, procs, currentId);
    var t := InsertTaggedLayer(s, pos, side, items, tag);
    var cur := PositionAfterInsert(pos, side);
    var r := MergeTaggedLayer(t, cur, side, procs, currentId, true);
    assert r.Ok?;
    assert MergeAt(side, cur) == pos;
    var m := r.value.stack;
    assert m[..pos] == t[..pos] && m[pos + 1..] == t[pos + 2..];
    assert m[pos].name == t[cur].name && m[pos].visible == t[cur].visible && m[pos].tag == t[cur].tag;
    TailsAfterInsert(s, t, pos, side);
  }

  lemma TailsAfterInsert(s: Stack, t: Stack, pos: nat, side: Side)
    requires pos < |s| && InsertedAt(s, t, InsertPosition(pos, side))
    ensures t[..pos] == s[..pos] && t[pos + 2..] == s[pos + 1..]
  {
    var at := InsertPosition(pos, side);
    if side == Background {
      assert t[..pos] == t[..at][..pos];
      assert s[..pos] == s[..at][..pos];
    } else {
      assert t[pos + 2..] == t[at + 1..][1..];
      assert s[pos + 1..] == s[at..][1..];
    }
  }
}

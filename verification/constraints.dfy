/**
 * Items as the built-in constraints and the background/foreground
 * procedures see them: an item of the item tree, the GIMP layer it wraps
 * reduced to the attributes these procedures read, and GIMP's colour tags.
 */
module Layers {

  /** `Gimp.ColorTag`. */
  datatype ColorTag = TagNone | Blue | Green | Yellow | Orange | Brown | Red | Violet | Gray

  /** The item types of the item tree. */
  datatype ItemType = TypeItem | TypeGroup | TypeFolder

  /**
   * An item: its type, depth in the tree and name, with what its GIMP layer
   * reports (colour tag, visibility, validity, whether it has children, and
   * whether its image is still valid and has it selected).
   */
  datatype Item = Item(
    itemType: ItemType,
    depth: nat,
    name: string,
    colorTag: ColorTag,
    visible: bool,
    valid: bool,
    hasChildren: bool,
    imageValid: bool,
    selected: bool)
}

/**
 * The built-in constraints (`builtin_constraints.py`): the predicates, and
 * the two registries built from the constraint list, one holding the
 * settings with the function blanked out and one holding the functions.
 */
module BuiltinConstraints {
  import opened Base
  import opened Text
  import opened Layers
  import FileNames

  predicate IsLayer(item: Item) {
    item.itemType == TypeItem
  }

  /** `is_nonempty_group`: a group whose layer has children (a non-empty list is truthy). */
  predicate IsNonemptyGroup(item: Item) {
    item.itemType == TypeGroup && item.hasChildren
  }

  /** `has_matching_file_extension`: the name's extension equals the given one, ignoring case. */
  predicate HasMatchingFileExtension(item: Item, extension: string) {
    Lower(FileNames.ExtensionOf(item.name)) == Lower(extension)
  }

  predicate IsSelectedInGimp(item: Item) {
    item.imageValid && item.selected
  }

  predicate IsTopLevel(item: Item) {
    item.depth == 0
  }

  predicate IsVisible(item: Item) {
    item.visible
  }

  predicate HasColorTag(item: Item, tag: ColorTag) {
    item.colorTag == tag
  }

  /**
   * `has_color_tags`: never for an untagged item; otherwise membership in
   * the given tags, or any tag at all when none are given.
   */
  function HasColorTags(item: Item, tags: Option<seq<ColorTag>>): (r: bool)
    ensures item.colorTag == TagNone ==> !r
    ensures item.colorTag != TagNone && (tags.None? || tags.value == []) ==> r
    ensures tags.Some? && tags.value != [] ==> (r <==> item.colorTag != TagNone && item.colorTag in tags.value)
  {
    if item.colorTag == TagNone then false
    else if tags.Some? && tags.value != [] then exists i | 0 <= i < |tags.value| :: tags.value[i] == item.colorTag
    else item.colorTag != TagNone
  }

  predicate HasNoColorTag(item: Item, tag: ColorTag) {
    !HasColorTag(item, tag)
  }

  predicate HasNoColorTags(item: Item, tags: Option<seq<ColorTag>>) {
    !HasColorTags(item, tags)
  }

  /** The negated tag constraints keep untagged items, and `NONE` never appears in a list of tags they match. */
  lemma NegatedTagConstraints(item: Item, tag: ColorTag, tags: Option<seq<ColorTag>>)
    requires item.colorTag == TagNone
    ensures tag != TagNone ==> HasNoColorTag(item, tag)
    ensures HasNoColorTags(item, tags)
  {
  }

  /** Lower-casing twice is lower-casing once. */
  lemma {:induction false} LowerIdempotent(s: string)
    ensures Lower(Lower(s)) == Lower(s)
  {
    if s != [] {
      LowerIdempotent(s[1..]);
      assert Lower(s)[1..] == Lower(s[1..]);
    }
  }

  /** Matching an extension does not depend on the case the extension is given in. */
  lemma MatchingIgnoresCase(item: Item, extension: string)
    ensures HasMatchingFileExtension(item, extension) <==> HasMatchingFileExtension(item, Lower(extension))
  {
    LowerIdempotent(extension);
  }

  /** An item named "stem.ext" matches "ext" in any case, as long as "ext" has no period. */
  lemma MatchesOwnExtension(item: Item, stem: string, extension: string)
    requires item.name == stem + "." + extension && '.' !in extension
    ensures HasMatchingFileExtension(item, extension)
  {
    FileNames.ExtensionOfAppended(stem, extension);
  }

  /** The predicates the built-in constraints use. */
  datatype ConstraintFunction =
    | IsLayerFn | IsNonemptyGroupFn | HasNoColorTagFn | HasMatchingDefaultExtensionFn
    | SelectedInGimpFn | TopLevelFn | VisibleFn | HasColorTagsFn | HasNoColorTagsFn

  /** The arguments a constraint may be called with, beyond the item. */
  datatype ConstraintArgs = ConstraintArgs(defaultExtension: string, colorTag: ColorTag, colorTags: Option<seq<ColorTag>>)

  /** What each built-in function answers for an item. */
  function Evaluate(f: ConstraintFunction, item: Item, args: ConstraintArgs): bool {
    match f
    case IsLayerFn => IsLayer(item)
    case IsNonemptyGroupFn => IsNonemptyGroup(item)
    case HasNoColorTagFn => HasNoColorTag(item, args.colorTag)
    case HasMatchingDefaultExtensionFn => HasMatchingFileExtension(item, args.defaultExtension)
    case SelectedInGimpFn => IsSelectedInGimp(item)
    case TopLevelFn => IsTopLevel(item)
    case VisibleFn => IsVisible(item)
    case HasColorTagsFn => HasColorTags(item, args.colorTags)
    case HasNoColorTagsFn => HasNoColorTags(item, args.colorTags)
  }

  /** The function field of a constraint setting: the function, or the blank `''` it is replaced with. */
  datatype FunctionField = Function(f: ConstraintFunction) | Blank

  /** One entry of the built-in constraint list. */
  datatype BuiltinDict = BuiltinDict(name: string, functionField: FunctionField, displayName: Option<string>,
                                     menuPath: Option<string>)

  /** The sort key: the menu path, else the display name, else the name. */
  function SortKey(d: BuiltinDict): string {
    if d.menuPath.Some? then d.menuPath.value
    else if d.displayName.Some? then d.displayName.value
    else d.name
  }

  predicate SortedByKey(s: seq<BuiltinDict>) {
    forall i | 0 <= i < |s| - 1 :: !LexLess(SortKey(s[i + 1]), SortKey(s[i]))
  }

  /** Insert before the first entry whose key is not below, so entries with equal keys keep their order. */
  function Insert(d: BuiltinDict, s: seq<BuiltinDict>): (r: seq<BuiltinDict>)
    requires SortedByKey(s)
    ensures SortedByKey(r)
    ensures multiset(r) == multiset(s) + multiset{d}
    ensures r[0] == d || (s != [] && r[0] == s[0])
  {
    if s == [] || !LexLess(SortKey(s[0]), SortKey(d)) then [d] + s
    else
      var rest := Insert(d, s[1..]);
      assert !LexLess(SortKey(d), SortKey(s[0])) by {
        LexTrichotomy(SortKey(d), SortKey(s[0]));
      }
      assert [s[0]] + s[1..] == s;
      [s[0]] + rest
  }

  /** `_BUILTIN_CONSTRAINTS_LIST.sort(key=...)`, as an insertion sort. */
  function SortBuiltins(s: seq<BuiltinDict>): (r: seq<BuiltinDict>)
    ensures SortedByKey(r)
    ensures multiset(r) == multiset(s)
  {
    if s == [] then []
    else
      assert s == [s[0]] + s[1..];
      Insert(s[0], SortBuiltins(s[1..]))
  }

  /** The two registries the construction loop fills. */
  datatype Registries = Registries(constraints: map<string, BuiltinDict>, functions: map<string, FunctionField>)

  /**
   * The construction loop: each entry goes into the settings registry with
   * its function blanked, and its function into the function registry, both
   * under the entry's name; a later entry with the same name replaces an
   * earlier one.
   */
  function BuildRegistries(s: seq<BuiltinDict>): (r: Registries)
    ensures r.constraints.Keys == r.functions.Keys
    ensures forall name | name in r.constraints :: r.constraints[name].functionField == Blank
    ensures forall name :: name in r.constraints <==> exists i | 0 <= i < |s| :: s[i].name == name
    ensures forall name | name in r.constraints :: r.constraints[name].name == name
  {
    if s == [] then Registries(map[], map[])
    else
      var n := |s| - 1;
      var prior := BuildRegistries(s[..n]);
      assert forall i | 0 <= i < n :: s[..n][i] == s[i];
      Registries(prior.constraints[s[n].name := s[n].(functionField := Blank)],
                 prior.functions[s[n].name := s[n].functionField])
  }

  /** With distinct names, each name's function is that entry's original function. */
  lemma {:induction false} FunctionsKeptByName(s: seq<BuiltinDict>, i: nat)
    requires forall a, b | 0 <= a < b < |s| :: s[a].name != s[b].name
    requires i < |s|
    ensures s[i].name in BuildRegistries(s).functions
    ensures BuildRegistries(s).functions[s[i].name] == s[i].functionField
    ensures BuildRegistries(s).constraints[s[i].name] == s[i].(functionField := Blank)
  {
    var n := |s| - 1;
    var prior := BuildRegistries(s[..n]);
    assert BuildRegistries(s) == Registries(prior.constraints[s[n].name := s[n].(functionField := Blank)],
                                            prior.functions[s[n].name := s[n].functionField]);
    if i < n {
      var t := s[..n];
      assert forall a, b | 0 <= a < b < |t| :: t[a].name != t[b].name by {
        forall a, b | 0 <= a < b < |t|
          ensures t[a].name != t[b].name
        {
          assert t[a] == s[a] && t[b] == s[b];
        }
      }
      FunctionsKeptByName(t, i);
      assert t[i] == s[i];
      assert s[i].name != s[n].name;
    }
  }

  /** `_BUILTIN_CONSTRAINTS_LIST` before sorting (display names untranslated). */
  const BuiltinList: seq<BuiltinDict> := [
    BuiltinDict("layers", Function(IsLayerFn), Some("Layers"), None),
    BuiltinDict("group_layers", Function(IsNonemptyGroupFn), Some("Group layers"), None),
    BuiltinDict("not_background", Function(HasNoColorTagFn), Some("Not background"), None),
    BuiltinDict("not_foreground", Function(HasNoColorTagFn), Some("Not foreground"), None),
    BuiltinDict("matching_file_extension", Function(HasMatchingDefaultExtensionFn), Some("Matching file extension"), None),
    BuiltinDict("selected_in_gimp", Function(SelectedInGimpFn), Some("Selected in GIMP"), None),
    BuiltinDict("top_level", Function(TopLevelFn), Some("Top-level"), None),
    BuiltinDict("visible", Function(VisibleFn), Some("Visible"), None),
    BuiltinDict("with_color_tags", Function(HasColorTagsFn), Some("With color tags"), None),
    BuiltinDict("without_color_tags", Function(HasNoColorTagsFn), Some("Without color tags"), None)
  ]

  /** The built-in names are distinct: their lengths and first letters tell them apart. */
  lemma BuiltinNamesDistinct()
    ensures DistinctNames(BuiltinList)
  {
    forall a, b | 0 <= a < b < |BuiltinList|
      ensures BuiltinList[a].name != BuiltinList[b].name
    {
      var x, y := BuiltinList[a].name, BuiltinList[b].name;
      assert |x| != |y| || x[0] != y[0] || x[4] != y[4];
    }
  }

  /** No two entries share a name. */
  predicate DistinctNames(s: seq<BuiltinDict>) {
    forall a, b | 0 <= a < b < |s| :: s[a].name != s[b].name
  }

  /**
   * Whatever order the entries are registered in, each name is stored with
   * its own function, provided the names are distinct.
   */
  lemma PermutedRegistryLookup(s: seq<BuiltinDict>, t: seq<BuiltinDict>, i: nat)
    requires DistinctNames(s)
    requires multiset(t) == multiset(s)
    requires i < |s|
    ensures s[i].name in BuildRegistries(t).functions
    ensures BuildRegistries(t).functions[s[i].name] == s[i].functionField
  {
    PermutationKeepsDistinctNames(s, t);
    assert s[i] in multiset(t);
    var k :| 0 <= k < |t| && t[k] == s[i];
    FunctionsKeptByName(t, k);
  }

  /** A permutation of entries with distinct names has distinct names. */
  lemma PermutationKeepsDistinctNames(s: seq<BuiltinDict>, t: seq<BuiltinDict>)
    requires DistinctNames(s)
    requires multiset(t) == multiset(s)
    ensures DistinctNames(t)
  {
    forall a, b | 0 <= a < b < |t|
      ensures t[a].name != t[b].name
    {
      assert t[a] in multiset(s) && t[b] in multiset(s);
      var x :| 0 <= x < |s| && s[x] == t[a];
      var y :| 0 <= y < |s| && s[y] == t[b];
      AtMostOnce(s, t[a]);
      DifferentPositions(t, a, b);
      NamesDiffer(s, x, y);
    }
  }

  /** With distinct names no entry occurs twice. */
  lemma {:induction false} AtMostOnce(s: seq<BuiltinDict>, v: BuiltinDict)
    requires DistinctNames(s)
    ensures multiset(s)[v] <= 1
  {
    if s != [] {
      var rest := s[1..];
      assert s == [s[0]] + rest;
      assert DistinctNames(rest) by {
        forall a, b | 0 <= a < b < |rest|
          ensures rest[a].name != rest[b].name
        {
          assert rest[a] == s[a + 1] && rest[b] == s[b + 1];
        }
      }
      AtMostOnce(rest, v);
      if s[0] == v {
        assert forall i | 0 <= i < |rest| :: rest[i].name != v.name by {
          forall i | 0 <= i < |rest|
            ensures rest[i].name != v.name
          {
            assert rest[i] == s[i + 1];
          }
        }
        assert v !in rest;
      }
    }
  }

  /** An entry counted at most once cannot sit at two positions. */
  lemma DifferentPositions<T>(t: seq<T>, a: nat, b: nat)
    requires a < b < |t| && multiset(t)[t[a]] <= 1
    ensures t[a] != t[b]
  {
    assert t == t[..b] + t[b..];
    assert t[a] == t[..b][a];
    assert t[b] == t[b..][0];
    assert multiset(t) == multiset(t[..b]) + multiset(t[b..]);
    assert multiset(t[..b])[t[a]] >= 1;
  }

  lemma NamesDiffer(s: seq<BuiltinDict>, x: nat, y: nat)
    requires DistinctNames(s)
    requires x < |s| && y < |s| && x != y
    ensures s[x].name != s[y].name
  {
    if x < y {
      assert s[x].name != s[y].name;
    } else {
      assert s[y].name != s[x].name;
    }
  }
}

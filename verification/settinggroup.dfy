/**
 * A setting group (`pygimplib.setting.group.Group`) as its tests state it:
 * a tree whose leaves are settings, with names free of '/' and '.', unique
 * within a group; lookup by '/'-separated paths; reordering and removing
 * entries of one group; the pre-order walk with pruning; and `get_value`.
 *
 * Groups are values here. Python's groups are objects that several parents
 * may share; each node carries an `id` standing for the object's identity,
 * which is what adding a group to itself is checked with.
 */
module SettingGroup {
  import opened Base
  import opened Text

  /** The values settings hold, as far as this model distinguishes them. */
  datatype Value = BoolValue(b: bool) | IntValue(i: int) | StrValue(s: string) | ListValue(items: seq<Value>)

  /** The GObject types a setting registers with the PDB. */
  datatype PdbType = PdbString | PdbInt | PdbBoolean | PdbFloat | PdbFloatArray | PdbOtherType(code: nat)

  /**
   * A setting (its value, tags, PDB type if it can be registered, whether it
   * is an array setting, and its description) or a group of entries.
   */
  datatype Node =
    | Setting(id: nat, name: string, value: Value, tags: set<string>, pdbType: Option<PdbType>,
              isArray: bool, description: string)
    | Group(id: nat, name: string, tags: set<string>, children: seq<Node>)

  datatype GroupError =
    | InvalidName(badName: string)
    | DuplicateName(dupName: string)
    | AddedToItself
    | MissingKey(key: string)

  /** Names may not hold the path separator or the attribute separator. */
  predicate ValidName(name: string) {
    '/' !in name && '.' !in name
  }

  /** A new, empty group. */
  function NewGroup(id: nat, name: string, tags: set<string>): (r: Result<Node, GroupError>)
    ensures r.Ok? <==> ValidName(name)
    ensures r.Ok? ==> r.value == Group(id, name, tags, [])
    ensures r.Err? ==> r.error == InvalidName(name)
  {
    if ValidName(name) then Ok(Group(id, name, tags, [])) else Err(InvalidName(name))
  }

  function ChildNames(children: seq<Node>): (r: seq<string>)
    ensures |r| == |children|
    ensures forall i | 0 <= i < |r| :: r[i] == children[i].name
  {
    if children == [] then [] else [children[0].name] + ChildNames(children[1..])
  }

  /** No two entries of a group share a name. */
  predicate UniqueNames(children: seq<Node>) {
    forall i, j | 0 <= i < j < |children| :: children[i].name != children[j].name
  }

  /** The position of the entry with the given name. */
  function IndexOfName(children: seq<Node>, name: string): (r: Option<nat>)
    ensures r.None? <==> name !in ChildNames(children)
    ensures r.Some? ==> r.value < |children| && children[r.value].name == name
    ensures r.Some? ==> forall i | 0 <= i < r.value :: children[i].name != name
  {
    if children == [] then None
    else if children[0].name == name then Some(0)
    else
      match IndexOfName(children[1..], name)
      case None => None
      case Some(i) => Some(i + 1)
  }

  /**
   * `add` of one entry: its name must be valid and not yet used in the
   * group, and a group may not be added to itself. The entry goes last.
   */
  function Add(g: Node, child: Node): (r: Result<Node, GroupError>)
    requires g.Group?
    ensures r.Ok? <==> ValidName(child.name) && !(child.Group? && child.id == g.id) && child.name !in ChildNames(g.children)
    ensures r.Ok? ==> r.value == g.(children := g.children + [child])
    ensures UniqueNames(g.children) && r.Ok? ==> UniqueNames(r.value.children)
  {
    if !ValidName(child.name) then Err(InvalidName(child.name))
    else if child.Group? && child.id == g.id then Err(AddedToItself)
    else if child.name in ChildNames(g.children) then Err(DuplicateName(child.name))
    else
      var r := g.(children := g.children + [child]);
      assert forall i | 0 <= i < |g.children| :: g.children[i].name != child.name by {
        forall i | 0 <= i < |g.children|
          ensures g.children[i].name != child.name
        {
          assert ChildNames(g.children)[i] == g.children[i].name;
        }
      }
      Ok(r)
  }

  /** `add` of several entries, in order, stopping at the first error. */
  function AddAll(g: Node, entries: seq<Node>): (r: Result<Node, GroupError>)
    requires g.Group?
    ensures r.Ok? ==> r.value == g.(children := g.children + entries)
    ensures UniqueNames(g.children) && r.Ok? ==> UniqueNames(r.value.children)
    decreases |entries|
  {
    if entries == [] then Ok(g)
    else
      match Add(g, entries[0])
      case Err(e) => Err(e)
      case Ok(g') =>
        var r := AddAll(g', entries[1..]);
        assert r.Ok? ==> g.children + entries == g'.children + entries[1..] by {
          assert entries == [entries[0]] + entries[1..];
        }
        r
  }

  /** The same entry twice in one `add` is refused. */
  lemma SameNameTwiceRefused(g: Node, entry: Node)
    requires g.Group?
    ensures AddAll(g, [entry, entry]).Err?
  {
    if Add(g, entry).Ok? {
      var g' := Add(g, entry).value;
      assert ChildNames(g'.children)[|g.children|] == entry.name;
    }
  }

  /** The same name is allowed in two different groups, which can then both join a parent. */
  lemma SameNameInDifferentGroups(parent: Node, a: Node, b: Node, entry: Node)
    requires parent.Group? && a.Group? && b.Group?
    requires parent.children == [] && a.children == [] && b.children == []
    requires ValidName(entry.name) && ValidName(a.name) && ValidName(b.name)
    requires a.name != b.name
    requires entry.Setting? && parent.id != a.id && parent.id != b.id
    ensures Add(a, entry).Ok? && Add(b, entry).Ok?
    ensures AddAll(parent, [Add(a, entry).value, Add(b, entry).value]).Ok?
  {
    var a' := Add(a, entry).value;
    var b' := Add(b, entry).value;
    var p1 := Add(parent, a').value;
    assert ChildNames(p1.children) == [a.name];
    assert AddAll(p1, [b']) == Add(p1, b');
  }

  /** Where a path leads from a node: each component names an entry of the group reached so far. */
  function LookupParts(n: Node, parts: seq<string>): (r: Result<Node, GroupError>)
    ensures r.Err? ==> r.error.MissingKey?
    decreases |parts|
  {
    if parts == [] then Ok(n)
    else if n.Setting? then Err(MissingKey(parts[0]))
    else
      match IndexOfName(n.children, parts[0])
      case None => Err(MissingKey(parts[0]))
      case Some(i) => LookupParts(n.children[i], parts[1..])
  }

  /** `group[path]`, where the path separates names with '/'. */
  function Lookup(g: Node, path: string): (r: Result<Node, GroupError>)
    ensures r.Err? ==> r.error.MissingKey?
  {
    LookupParts(g, Split(path, '/'))
  }

  /** `path in group`. */
  predicate HasPath(g: Node, path: string) {
    Lookup(g, path).Ok?
  }

  /** A name without '/' finds the entry of that name. */
  lemma LookupByName(g: Node, name: string)
    requires g.Group? && '/' !in name
    ensures IndexOfName(g.children, name).Some? ==>
              Lookup(g, name) == Ok(g.children[IndexOfName(g.children, name).value])
    ensures IndexOfName(g.children, name).None? ==> Lookup(g, name) == Err(MissingKey(name))
  {
    SplitWithoutSeparator(name, '/');
    assert Lookup(g, name) == LookupParts(g, [name]);
    assert [name][1..] == [];
  }

  /** A path lookup is nested indexing: `group['a/b']` is `group['a']['b']`. */
  lemma PathIsNestedIndexing(g: Node, a: string, b: string)
    requires '/' !in a
    ensures Lookup(g, a + "/" + b) == (match Lookup(g, a) case Ok(c) => Lookup(c, b) case Err(e) => Err(e))
  {
    SplitAtSeparator(a, '/', b);
    SplitWithoutSeparator(a, '/');
    var parts := [a] + Split(b, '/');
    assert Lookup(g, a + "/" + b) == LookupParts(g, parts);
    assert Lookup(g, a) == LookupParts(g, [a]);
    assert parts[1..] == Split(b, '/');
    assert [a][1..] == [];
    if g.Group? {
      match IndexOfName(g.children, a)
      case None =>
      case Some(i) =>
        assert LookupParts(g, parts) == LookupParts(g.children[i], Split(b, '/'));
        assert LookupParts(g, [a]) == LookupParts(g.children[i], []);
    }
  }

  /** `get_value`: the value of the setting at the path, or the given default. */
  function GetValue(g: Node, path: string, default: Value): (r: Value)
    ensures Lookup(g, path).Ok? && Lookup(g, path).value.Setting? ==> r == Lookup(g, path).value.value
    ensures !HasPath(g, path) ==> r == default
  {
    match Lookup(g, path)
    case Ok(n) => if n.Setting? then n.value else default
    case Err(_) => default
  }

  /** The position `reorder` moves to: negative positions count from the end of the whole group, and too large ones clamp. */
  function ReorderTarget(position: int, n: nat): (r: nat)
    requires n >= 1
    ensures r <= n - 1
    ensures 0 <= position ==> r == Min(position, n - 1)
    ensures position < 0 && n + position >= 0 ==> r == n + position
    ensures n + position < 0 ==> r == 0
  {
    var p := if position < 0 then (if n + position < 0 then 0 else n + position) else position;
    if p < n - 1 then p else n - 1
  }

  /** The entries with the one at `i` moved to position `at`. */
  function Move(cs: seq<Node>, i: nat, at: nat): (r: seq<Node>)
    requires i < |cs| && at < |cs|
    ensures |r| == |cs|
    ensures r[at] == cs[i]
    ensures r[..at] + r[at + 1..] == cs[..i] + cs[i + 1..]
    ensures multiset(r) == multiset(cs)
  {
    var others := cs[..i] + cs[i + 1..];
    var moved := others[..at] + [cs[i]] + others[at..];
    assert moved[..at] == others[..at];
    assert moved[at + 1..] == others[at..];
    assert others == others[..at] + others[at..];
    assert cs == cs[..i] + [cs[i]] + cs[i + 1..];
    MoveKeepsEntries(cs, i, others, at);
    moved
  }

  lemma MoveKeepsEntries(cs: seq<Node>, i: nat, others: seq<Node>, at: nat)
    requires i < |cs| && others == cs[..i] + cs[i + 1..] && at <= |others|
    ensures multiset(others[..at] + [cs[i]] + others[at..]) == multiset(cs)
  {
    calc {
      multiset(others[..at] + [cs[i]] + others[at..]);
      multiset(others[..at]) + multiset([cs[i]]) + multiset(others[at..]);
      { assert others == others[..at] + others[at..]; }
      multiset(others) + multiset([cs[i]]);
      multiset(cs[..i]) + multiset(cs[i + 1..]) + multiset([cs[i]]);
      { assert cs == cs[..i] + [cs[i]] + cs[i + 1..]; }
      multiset(cs);
    }
  }

  /**
   * `reorder`: the named entry moves to the target position, every other
   * entry keeping its relative order; an unknown name is a key error.
   */
  function Reorder(g: Node, name: string, position: int): (r: Result<Node, GroupError>)
    requires g.Group?
    ensures r.Err? <==> name !in ChildNames(g.children)
    ensures r.Err? ==> r.error == MissingKey(name)
    ensures r.Ok? ==>
              var i := IndexOfName(g.children, name).value;
              r.value == g.(children := Move(g.children, i, ReorderTarget(position, |g.children|)))
  {
    match IndexOfName(g.children, name)
    case None => Err(MissingKey(name))
    case Some(i) => Ok(g.(children := Move(g.children, i, ReorderTarget(position, |g.children|))))
  }

  /** The reorder cases of the group tests on entries [a, b, c]. */
  lemma ReorderExamples(g: Node, a: Node, b: Node, c: Node)
    requires g.Group? && g.children == [a, b, c]
    requires a.name != b.name && a.name != c.name && b.name != c.name
    ensures Reorder(g, a.name, 2) == Ok(g.(children := [b, c, a]))
    ensures Reorder(g, a.name, 4) == Ok(g.(children := [b, c, a]))
    ensures Reorder(g, a.name, 0) == Ok(g)
    ensures Reorder(g, a.name, -2) == Ok(g.(children := [b, a, c]))
  {
    FirstOfThree(a, b, c);
    MoveFirst(a, b, c);
    assert ReorderTarget(2, 3) == 2 && ReorderTarget(4, 3) == 2;
    assert ReorderTarget(0, 3) == 0 && ReorderTarget(-2, 3) == 1;
  }

  /** Reordering twice, as the group tests do: first to the end, then back to the middle. */
  lemma ReorderTwice(g: Node, a: Node, b: Node, c: Node)
    requires g.Group? && g.children == [a, b, c]
    requires a.name != b.name && a.name != c.name && b.name != c.name
    ensures Reorder(g, a.name, 2).Ok?
    ensures Reorder(Reorder(g, a.name, 2).value, a.name, 1) == Ok(g.(children := [b, a, c]))
  {
    ReorderExamples(g, a, b, c);
    var g2 := g.(children := [b, c, a]);
    LastOfThree(b, c, a);
    MoveLast(b, c, a);
    assert ReorderTarget(1, 3) == 1;
  }

  lemma FirstOfThree(a: Node, b: Node, c: Node)
    ensures IndexOfName([a, b, c], a.name) == Some(0)
  {
  }

  lemma LastOfThree(b: Node, c: Node, a: Node)
    requires a.name != b.name && a.name != c.name
    ensures IndexOfName([b, c, a], a.name) == Some(2)
  {
    var moved := [b, c, a];
    assert moved[1..] == [c, a];
    assert moved[1..][1..] == [a];
  }

  /** Moving the first of three entries. */
  lemma MoveFirst(a: Node, b: Node, c: Node)
    ensures Move([a, b, c], 0, 2) == [b, c, a]
    ensures Move([a, b, c], 0, 1) == [b, a, c]
    ensures Move([a, b, c], 0, 0) == [a, b, c]
  {
    var cs := [a, b, c];
    assert cs[..0] + cs[1..] == [b, c];
    assert [b, c][..2] + [a] + [b, c][2..] == [b, c, a];
    assert [b, c][..1] + [a] + [b, c][1..] == [b, a, c];
    assert [b, c][..0] + [a] + [b, c][0..] == [a, b, c];
  }

  /** Moving the last of three entries to the middle. */
  lemma MoveLast(b: Node, c: Node, a: Node)
    ensures Move([b, c, a], 2, 1) == [b, a, c]
  {
    var cs := [b, c, a];
    assert cs[..2] + cs[3..] == [b, c];
    assert [b, c][..1] + [a] + [b, c][1..] == [b, a, c];
  }

  /** The entries of a group without the named ones, in order. */
  function Without(children: seq<Node>, names: seq<string>): (r: seq<Node>)
    ensures forall n :: n in r <==> n in children && n.name !in names
  {
    if children == [] then []
    else if children[0].name in names then Without(children[1..], names)
    else [children[0]] + Without(children[1..], names)
  }

  /** Names given to `remove` that are all present and each given once. */
  predicate RemovableNames(children: seq<Node>, names: seq<string>) {
    && (forall i | 0 <= i < |names| :: names[i] in ChildNames(children))
    && (forall i, j | 0 <= i < j < |names| :: names[i] != names[j])
  }

  /** `remove`: the named entries go, one after another; an unknown or already removed name is a key error. */
  function RemoveNames(children: seq<Node>, names: seq<string>): (r: Result<seq<Node>, GroupError>)
    ensures r.Err? ==> r.error.MissingKey? && r.error.key in names
    decreases |names|
  {
    if names == [] then Ok(children)
    else
      match IndexOfName(children, names[0])
      case None => Err(MissingKey(names[0]))
      case Some(i) => RemoveNames(children[..i] + children[i + 1..], names[1..])
  }

  function Remove(g: Node, names: seq<string>): (r: Result<Node, GroupError>)
    requires g.Group?
    ensures UniqueNames(g.children) ==> (r.Ok? <==> RemovableNames(g.children, names))
    ensures UniqueNames(g.children) && r.Ok? ==> r.value == g.(children := Without(g.children, names))
  {
    assert UniqueNames(g.children) ==>
             && (RemoveNames(g.children, names).Ok? <==> RemovableNames(g.children, names))
             && (RemoveNames(g.children, names).Ok? ==> RemoveNames(g.children, names).value == Without(g.children, names)) by {
      if UniqueNames(g.children) {
        RemoveNamesMeaning(g.children, names);
      }
    }
    match RemoveNames(g.children, names)
    case Err(e) => Err(e)
    case Ok(cs) => Ok(g.(children := cs))
  }

  /** Removing one entry of a group with unique names keeps the names unique. */
  lemma DropKeepsUnique(children: seq<Node>, i: nat)
    requires UniqueNames(children) && i < |children|
    ensures UniqueNames(children[..i] + children[i + 1..])
    ensures forall n :: n in children[..i] + children[i + 1..] <==> n in children && n.name != children[i].name
  {
    DropUnique(children, i);
    DropMembers(children, i);
  }

  /** Position `k` after dropping entry `i` holds the entry that was at `k`, or at `k + 1` from `i` on. */
  lemma DropIndex(children: seq<Node>, i: nat, k: nat)
    requires i < |children| && k < |children| - 1
    ensures (children[..i] + children[i + 1..])[k] == children[if k < i then k else k + 1]
  {
  }

  lemma DropUnique(children: seq<Node>, i: nat)
    requires UniqueNames(children) && i < |children|
    ensures UniqueNames(children[..i] + children[i + 1..])
  {
    var rest := children[..i] + children[i + 1..];
    forall a, b | 0 <= a < b < |rest|
      ensures rest[a].name != rest[b].name
    {
      DropIndex(children, i, a);
      DropIndex(children, i, b);
    }
  }

  lemma DropMembers(children: seq<Node>, i: nat)
    requires UniqueNames(children) && i < |children|
    ensures forall n :: n in children[..i] + children[i + 1..] <==> n in children && n.name != children[i].name
  {
    var rest := children[..i] + children[i + 1..];
    forall n
      ensures n in rest <==> n in children && n.name != children[i].name
    {
      if n in children && n.name != children[i].name {
        var k :| 0 <= k < |children| && children[k] == n;
        DropIndex(children, i, if k < i then k else k - 1);
      }
      if n in rest {
        var k :| 0 <= k < |rest| && rest[k] == n;
        DropIndex(children, i, k);
      }
    }
  }

  /** Two entry lists with the same members, each with unique names, list them in the same order once filtered alike. */
  lemma {:induction false} RemoveNamesMeaning(children: seq<Node>, names: seq<string>)
    requires UniqueNames(children)
    ensures RemoveNames(children, names).Ok? <==> RemovableNames(children, names)
    ensures RemoveNames(children, names).Ok? ==> RemoveNames(children, names).value == Without(children, names)
    decreases |names|
  {
    if names == [] {
      WithoutNothing(children, names);
    } else {
      match IndexOfName(children, names[0])
      case None =>
      case Some(i) =>
        var rest := children[..i] + children[i + 1..];
        DropKeepsUnique(children, i);
        RemoveNamesMeaning(rest, names[1..]);
        RemovableStep(children, names, i);
        if RemovableNames(rest, names[1..]) {
          WithoutStep(children, names, i);
        }
    }
  }

  lemma {:induction false} WithoutNothing(children: seq<Node>, names: seq<string>)
    requires names == []
    ensures Without(children, names) == children
  {
    if children != [] {
      WithoutNothing(children[1..], names);
    }
  }

  /** Removing the first name's entry first and the remaining names after is `remove` of them all. */
  lemma RemovableStep(children: seq<Node>, names: seq<string>, i: nat)
    requires UniqueNames(children) && names != []
    requires i < |children| && children[i].name == names[0]
    ensures RemovableNames(children, names) <==> RemovableNames(children[..i] + children[i + 1..], names[1..])
  {
    var rest := children[..i] + children[i + 1..];
    DropKeepsUnique(children, i);
    ChildNamesMembers(children);
    ChildNamesMembers(rest);
    if RemovableNames(children, names) {
      forall k | 0 <= k < |names[1..]|
        ensures names[1..][k] in ChildNames(rest)
      {
        assert names[k + 1] != names[0];
        assert names[k + 1] in ChildNames(children);
      }
    }
    if RemovableNames(rest, names[1..]) {
      forall a, b | 0 <= a < b < |names|
        ensures names[a] != names[b]
      {
        if a == 0 {
          assert names[b] == names[1..][b - 1];
          assert names[b] in ChildNames(rest);
        } else {
          assert names[a] == names[1..][a - 1] && names[b] == names[1..][b - 1];
        }
      }
      forall k | 0 <= k < |names|
        ensures names[k] in ChildNames(children)
      {
        if k > 0 {
          assert names[k] == names[1..][k - 1];
        } else {
          assert ChildNames(children)[i] == names[0];
        }
      }
    }
  }

  /** Names of a list are the names of its members. */
  lemma ChildNamesMembers(children: seq<Node>)
    ensures forall s :: s in ChildNames(children) <==> exists n | n in children :: n.name == s
  {
    forall s | s in ChildNames(children)
      ensures exists n | n in children :: n.name == s
    {
      var k :| 0 <= k < |ChildNames(children)| && ChildNames(children)[k] == s;
      assert children[k] in children;
    }
    forall s | exists n | n in children :: n.name == s
      ensures s in ChildNames(children)
    {
      var n :| n in children && n.name == s;
      var k :| 0 <= k < |children| && children[k] == n;
      assert ChildNames(children)[k] == s;
    }
  }

  lemma WithoutStep(children: seq<Node>, names: seq<string>, i: nat)
    requires UniqueNames(children) && names != []
    requires i < |children| && children[i].name == names[0]
    ensures Without(children[..i] + children[i + 1..], names[1..]) == Without(children, names)
  {
    WithoutStepGeneral(children, names, i);
  }

  /** Filtering by `names` equals dropping the entry named `names[0]` and filtering by the rest. */
  lemma {:induction false} WithoutStepGeneral(children: seq<Node>, names: seq<string>, i: nat)
    requires UniqueNames(children) && names != []
    requires i < |children| && children[i].name == names[0]
    ensures Without(children[..i] + children[i + 1..], names[1..]) == Without(children, names)
    decreases |children|
  {
    if i == 0 {
      WithoutDropFirst(children, names);
    } else {
      var c := children[0];
      var tail := children[1..];
      UniqueTail(children);
      assert tail[i - 1] == children[i];
      WithoutStepGeneral(tail, names, i - 1);
      DropAfterFirst(children, i);
      assert c.name != names[0];
      InRestIffIn(c.name, names);
      WithoutCons(c, tail[..i - 1] + tail[i..], names[1..]);
    }
  }

  /** Dropping entry `i > 0` keeps the first entry in front of the tail with entry `i - 1` dropped. */
  lemma DropAfterFirst(children: seq<Node>, i: nat)
    requires 0 < i < |children|
    ensures children[..i] + children[i + 1..] == [children[0]] + (children[1..][..i - 1] + children[1..][i..])
  {
    var tail := children[1..];
    assert children[..i] == [children[0]] + tail[..i - 1];
    assert children[i + 1..] == tail[i..];
  }

  /** Filtering a sequence with a known first entry. */
  lemma WithoutCons(c: Node, rest: seq<Node>, names: seq<string>)
    ensures Without([c] + rest, names) == if c.name in names then Without(rest, names) else [c] + Without(rest, names)
  {
    assert ([c] + rest)[0] == c && ([c] + rest)[1..] == rest;
  }

  /** Dropping the first entry, named `names[0]`, and filtering by the rest is filtering by `names`. */
  lemma WithoutDropFirst(children: seq<Node>, names: seq<string>)
    requires UniqueNames(children) && names != []
    requires 0 < |children| && children[0].name == names[0]
    ensures Without(children[..0] + children[1..], names[1..]) == Without(children, names)
  {
    assert children[..0] + children[1..] == children[1..];
    forall k | 0 <= k < |children[1..]|
      ensures children[1..][k].name != names[0]
    {
      assert children[1..][k] == children[k + 1];
    }
    WithoutIgnoresAbsent(children[1..], names);
  }

  lemma UniqueTail(children: seq<Node>)
    requires UniqueNames(children) && children != []
    ensures UniqueNames(children[1..])
  {
    var tail := children[1..];
    forall a, b | 0 <= a < b < |tail|
      ensures tail[a].name != tail[b].name
    {
      assert tail[a] == children[a + 1] && tail[b] == children[b + 1];
    }
  }

  lemma InRestIffIn(x: string, names: seq<string>)
    requires names != [] && x != names[0]
    ensures x in names[1..] <==> x in names
  {
    assert names == [names[0]] + names[1..];
  }

  /** A name no entry has can be dropped from the filter. */
  lemma {:induction false} WithoutIgnoresAbsent(children: seq<Node>, names: seq<string>)
    requires names != []
    requires forall k | 0 <= k < |children| :: children[k].name != names[0]
    ensures Without(children, names[1..]) == Without(children, names)
  {
    if children != [] {
      WithoutIgnoresAbsent(children[1..], names);
      assert (children[0].name in names[1..]) <==> (children[0].name in names) by {
        assert names == [names[0]] + names[1..];
      }
    }
  }

  /** What a walk reports: visiting an entry and, for groups, the end of its walk. */
  datatype WalkEvent = Visit(node: Node) | EndOf(group: Node)

  /**
   * `walk` below a group (the group itself is not reported): entries the
   * accept function rejects are left out, and so is everything below a
   * rejected group unless `includeIfParentSkipped`; groups are reported,
   * with the end of their walk after their entries, only when
   * `includeGroups`.
   */
  function Walk(children: seq<Node>, accept: Node -> bool, includeGroups: bool, includeIfParentSkipped: bool)
    : (r: seq<WalkEvent>)
    ensures forall k | 0 <= k < |r| :: r[k].Visit? ==> accept(r[k].node)
    ensures forall k | 0 <= k < |r| :: r[k].Visit? && r[k].node.Group? ==> includeGroups
    ensures !includeGroups ==> forall k | 0 <= k < |r| :: r[k].Visit? && r[k].node.Setting?
    decreases children
  {
    if children == [] then []
    else
      var c := children[0];
      var here :=
        if c.Setting? then (if accept(c) then [Visit(c)] else [])
        else if accept(c) then
          (if includeGroups then [Visit(c)] else []) + Walk(c.children, accept, includeGroups, includeIfParentSkipped)
          + (if includeGroups then [EndOf(c)] else [])
        else if includeIfParentSkipped then Walk(c.children, accept, includeGroups, includeIfParentSkipped)
        else [];
      here + Walk(children[1..], accept, includeGroups, includeIfParentSkipped)
  }

  /** Every setting below the entries, in pre-order. */
  function Settings(children: seq<Node>): (r: seq<Node>)
    ensures forall k | 0 <= k < |r| :: r[k].Setting?
    decreases children
  {
    if children == [] then []
    else
      var c := children[0];
      (if c.Setting? then [c] else Settings(c.children)) + Settings(children[1..])
  }

  /** The settings an accept function accepts, in order. */
  function Accepted(settings: seq<Node>, accept: Node -> bool): (r: seq<Node>) {
    if settings == [] then []
    else (if accept(settings[0]) then [settings[0]] else []) + Accepted(settings[1..], accept)
  }

  function Visits(nodes: seq<Node>): (r: seq<WalkEvent>)
    ensures |r| == |nodes|
    ensures forall k | 0 <= k < |r| :: r[k] == Visit(nodes[k])
  {
    if nodes == [] then [] else [Visit(nodes[0])] + Visits(nodes[1..])
  }

  lemma VisitsAppend(a: seq<Node>, b: seq<Node>)
    ensures Visits(a + b) == Visits(a) + Visits(b)
  {
  }

  lemma AcceptedAppend(a: seq<Node>, b: seq<Node>, accept: Node -> bool)
    ensures Accepted(a + b, accept) == Accepted(a, accept) + Accepted(b, accept)
  {
    if a != [] {
      assert (a + b)[1..] == a[1..] + b;
      assert (a + b)[0] == a[0];
      AcceptedAppend(a[1..], b, accept);
    } else {
      assert a + b == b;
    }
  }

  /**
   * Walking settings only, without pruning, visits exactly the settings the
   * accept function accepts, in pre-order: groups neither appear nor hide
   * anything.
   */
  lemma {:induction false} WalkWithoutPruning(children: seq<Node>, accept: Node -> bool)
    ensures Walk(children, accept, false, true) == Visits(Accepted(Settings(children), accept))
    decreases children
  {
    if children != [] {
      var c := children[0];
      WalkWithoutPruning(children[1..], accept);
      WalkSettingsStep(children, accept);
      if c.Group? {
        WalkWithoutPruning(c.children, accept);
        AcceptedAppend(Settings(c.children), Settings(children[1..]), accept);
        VisitsAppend(Accepted(Settings(c.children), accept), Accepted(Settings(children[1..]), accept));
      } else {
        AcceptedAppend([c], Settings(children[1..]), accept);
        VisitsAppend(Accepted([c], accept), Accepted(Settings(children[1..]), accept));
      }
    }
  }

  /** One step of a settings-only walk without pruning, and of `Settings`. */
  lemma WalkSettingsStep(children: seq<Node>, accept: Node -> bool)
    requires children != []
    ensures children[0].Group? ==>
              && Walk(children, accept, false, true)
                 == Walk(children[0].children, accept, false, true) + Walk(children[1..], accept, false, true)
              && Settings(children) == Settings(children[0].children) + Settings(children[1..])
    ensures children[0].Setting? ==>
              && Walk(children, accept, false, true)
                 == Visits(Accepted([children[0]], accept)) + Walk(children[1..], accept, false, true)
              && Settings(children) == [children[0]] + Settings(children[1..])
  {
    var c := children[0];
    if c.Group? {
      var w := Walk(c.children, accept, false, true);
      assert [] + w + [] == w;
    } else {
      assert Accepted([c], accept) == (if accept(c) then [c] else []) + Accepted([], accept);
      assert Visits(Accepted([c], accept)) == (if accept(c) then [Visit(c)] else []);
    }
  }

  /** With everything included, walking settings only visits every setting. */
  lemma WalkVisitsAllSettings(children: seq<Node>, everything: Node -> bool)
    requires forall n :: everything(n)
    ensures Walk(children, everything, false, false) == Visits(Settings(children))
    ensures Walk(children, everything, false, true) == Visits(Settings(children))
  {
    WalkWithoutPruning(children, everything);
    AcceptedEverything(Settings(children), everything);
    SkippingUnused(children, everything, false);
  }

  lemma {:induction false} AcceptedEverything(settings: seq<Node>, everything: Node -> bool)
    requires forall n :: everything(n)
    ensures Accepted(settings, everything) == settings
  {
    if settings != [] {
      AcceptedEverything(settings[1..], everything);
    }
  }

  /** When no group is rejected, the pruning switch makes no difference. */
  lemma {:induction false} SkippingUnused(children: seq<Node>, everything: Node -> bool, includeGroups: bool)
    requires forall n :: everything(n)
    ensures Walk(children, everything, includeGroups, false) == Walk(children, everything, includeGroups, true)
    decreases children
  {
    if children != [] {
      SkippingUnused(children[1..], everything, includeGroups);
      if children[0].Group? {
        SkippingUnused(children[0].children, everything, includeGroups);
      }
    }
  }

  /** A rejected group hides its whole subtree when pruning. */
  lemma RejectedGroupPruned(c: Node, accept: Node -> bool, includeGroups: bool)
    requires c.Group? && !accept(c)
    ensures Walk([c], accept, includeGroups, false) == []
  {
  }

  /** An included group with no entries still reports its start and its end. */
  lemma EmptyGroupStartsAndEnds(c: Node, accept: Node -> bool)
    requires c.Group? && c.children == [] && accept(c)
    ensures Walk([c], accept, true, false) == [Visit(c), EndOf(c)]
  {
  }
}

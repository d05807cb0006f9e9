/**
 * File-name helpers the export engine takes from the plug-in's path library
 * (`get_file_extension`, `get_filename_with_new_file_extension`). That library
 * is not part of this model; here the extension is the text after the last
 * period, with its case kept.
 */
module FileNames {
  import opened Text

  /** Index of the last '.' in `s`, or -1 when there is none. */
  function LastDot(s: string): (r: int)
    ensures -1 <= r < |s|
    ensures r >= 0 ==> s[r] == '.'
    ensures forall j | r < j < |s| :: s[j] != '.'
  {
    if s == [] then -1
    else if s[|s| - 1] == '.' then |s| - 1
    else LastDot(s[..|s| - 1])
  }

  function ExtensionOf(name: string): string {
    var d := LastDot(name);
    if d < 0 then "" else name[d + 1..]
  }

  /** The name without its extension and without the period before it. */
  function StripExtension(name: string): string {
    var d := LastDot(name);
    if d < 0 then name else name[..d]
  }

  function WithNewExtension(name: string, extension: string): string {
    StripExtension(name) + "." + extension
  }

  /** Appending ".ext" makes "ext" the extension, whenever "ext" has no period. */
  lemma ExtensionOfAppended(stem: string, extension: string)
    requires '.' !in extension
    ensures ExtensionOf(stem + "." + extension) == extension
    ensures StripExtension(stem + "." + extension) == stem
  {
    var s := stem + "." + extension;
    assert s[|stem|] == '.';
    forall j | |stem| < j < |s|
      ensures s[j] != '.'
    {
      assert s[j] == extension[j - |stem| - 1];
    }
    assert LastDot(s) == |stem|;
    assert s[|stem| + 1..] == extension;
    assert s[..|stem|] == stem;
  }

  /** A name without a period has no extension to strip. */
  lemma StripDotless(name: string)
    requires '.' !in name
    ensures StripExtension(name) == name && ExtensionOf(name) == ""
  {
    NoDotMeansNoLastDot(name);
  }

  lemma {:induction false} NoDotMeansNoLastDot(s: string)
    requires '.' !in s
    ensures LastDot(s) == -1
  {
    if s != [] {
      assert s[|s| - 1] in s;
      NoDotMeansNoLastDot(s[..|s| - 1]);
    }
  }

  /**
   * The position a uniquifier suffix is inserted at so that it lands just
   * before ".ext": `len(name) - len('.' + ext)`.
   */
  function UniquifierPosition(name: string, extension: string): (p: int)
    ensures EndsWith(name, "." + extension) ==> 0 <= p < |name| && name[p..] == "." + extension
  {
    |name| - |"." + extension|
  }

  /** The suffix never lands inside the extension: inserting at the position keeps ".ext" at the end. */
  lemma InsertAtPositionKeepsExtension(name: string, extension: string, suffix: string)
    requires EndsWith(name, "." + extension)
    ensures var p := UniquifierPosition(name, extension);
            var r := name[..p] + suffix + name[p..];
            EndsWith(r, "." + extension) && r[..p] == name[..p]
  {
    var p := UniquifierPosition(name, extension);
    var r := name[..p] + suffix + name[p..];
    assert r[|r| - |"." + extension|..] == name[p..];
  }
}

/**
 * Slash-separated paths as the export engine builds them with
 * `os.path.join` and takes apart with `os.path.dirname`; making the
 * directory absolute and normalising it are not modelled.
 */
module Paths {

  /** `os.path.join(c0, c1, ...)` for components that do not end in a slash. */
  function JoinAll(components: seq<string>): (r: string)
    requires components != []
    ensures |r| >= |components[|components| - 1]|
  {
    if |components| == 1 then components[0]
    else JoinAll(components[..|components| - 1]) + "/" + components[|components| - 1]
  }

  /** Index of the last '/' in `s`, or -1 when there is none. */
  function LastSlash(s: string): (r: int)
    ensures -1 <= r < |s|
    ensures r >= 0 ==> s[r] == '/'
    ensures forall j | r < j < |s| :: s[j] != '/'
  {
    if s == [] then -1
    else if s[|s| - 1] == '/' then |s| - 1
    else LastSlash(s[..|s| - 1])
  }

  /** `os.path.dirname`: everything before the last slash. */
  function DirName(path: string): string {
    var k := LastSlash(path);
    if k < 0 then "" else path[..k]
  }

  /** `os.path.basename`: everything after the last slash. */
  function BaseName(path: string): string {
    var k := LastSlash(path);
    if k < 0 then path else path[k + 1..]
  }

  /** Splitting at the separator just added gives back both halves. */
  lemma SplitAppended(head: string, last: string)
    requires '/' !in last
    ensures DirName(head + "/" + last) == head
    ensures BaseName(head + "/" + last) == last
  {
    var s := head + "/" + last;
    assert s[|head|] == '/';
    forall j | |head| < j < |s|
      ensures s[j] != '/'
    {
      assert s[j] == last[j - |head| - 1];
    }
    assert LastSlash(s) == |head|;
    assert s[..|head|] == head;
    assert s[|head| + 1..] == last;
  }

  /**
   * Joining and splitting agree: the directory of a joined path is the join
   * of all but the last component, and its base name is the last component,
   * as long as that component has no slash.
   */
  lemma JoinThenSplit(components: seq<string>)
    requires |components| >= 2
    requires '/' !in components[|components| - 1]
    ensures DirName(JoinAll(components)) == JoinAll(components[..|components| - 1])
    ensures BaseName(JoinAll(components)) == components[|components| - 1]
  {
    SplitAppended(JoinAll(components[..|components| - 1]), components[|components| - 1]);
  }
}
